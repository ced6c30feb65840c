/** The build-target registry of the host tools: every target registers
    itself under "dir:name", and a target's dependencies are expanded
    depth-first into an ordered list in which each target appears once. */
module Targets {
  import opened Wrappers

  /** Targets are objects; the model names each by the order of creation. */
  type TargetId = nat

  /** An entry of `get_deps()`: a target object, or a name to look up. */
  datatype Dep = Ref(id: TargetId) | Named(name: string)

  /** A target: its directory, its name and what `get_deps()` returns
      (`None` for the base class). */
  datatype Target = Target(dir: string, name: string, deps: Option<seq<Dep>>)

  function FullName(dir: string, name: string): (r: string)
    ensures r == dir + ":" + name
  {
    dir + ":" + name
  }

  /** The three ways expansion raises: iterating the base class's `None`,
      indexing the first character of an empty name, and a name with no
      registered target (the exception names both targets). */
  datatype ExpandError =
    | NotIterable(target: string)
    | EmptyName(target: string)
    | NoSuchTarget(target: string, dep: string)

  /** The registry contents: the global name map and every target created. */
  datatype Snapshot = Snapshot(targets: map<string, TargetId>, all: seq<Target>)

  /** Every name and every target reference denotes a created target. */
  ghost predicate WellFormed(s: Snapshot)
  {
    (forall n :: n in s.targets ==> s.targets[n] < |s.all|) &&
    (forall i, k ::
       (0 <= i < |s.all| && s.all[i].deps.Some? && 0 <= k < |s.all[i].deps.value| && s.all[i].deps.value[k].Ref?)
       ==> s.all[i].deps.value[k].id < |s.all|)
  }

  /** Resolves one dependency of `t`: a name starting with ':' is taken
      relative to `t`'s directory, and must then be registered. */
  function ResolveDep(s: Snapshot, t: Target, d: Dep): (r: Result<TargetId, ExpandError>)
    ensures d.Ref? ==> r == Success(d.id)
    ensures d.Named? && d.name == "" ==> r == Failure(EmptyName(FullName(t.dir, t.name)))
    ensures d.Named? && d.name != "" ==>
      var full := if d.name[0] == ':' then t.dir + d.name else d.name;
      (full in s.targets ==> r == Success(s.targets[full])) &&
      (full !in s.targets ==> r == Failure(NoSuchTarget(FullName(t.dir, t.name), full)))
  {
    match d
    case Ref(id) => Success(id)
    case Named(n) =>
      if |n| == 0 then Failure(EmptyName(FullName(t.dir, t.name)))
      else
        var full := if n[0] == ':' then t.dir + n else n;
        if full in s.targets then Success(s.targets[full])
        else Failure(NoSuchTarget(FullName(t.dir, t.name), full))
  }

  /** Resolves a list of dependencies, failing at the first that fails. */
  function ResolveAll(s: Snapshot, t: Target, ds: seq<Dep>): (r: Result<seq<TargetId>, ExpandError>)
    ensures r.Success? <==> forall k :: 0 <= k < |ds| ==> ResolveDep(s, t, ds[k]).Success?
    ensures r.Success? ==>
      |r.value| == |ds| && forall k :: 0 <= k < |ds| ==> r.value[k] == ResolveDep(s, t, ds[k]).value
  {
    if |ds| == 0 then Success([])
    else
      var init := ResolveAll(s, t, ds[..|ds| - 1]);
      var last := ResolveDep(s, t, ds[|ds| - 1]);
      if init.Failure? then init
      else if last.Failure? then Failure(last.error)
      else Success(init.value + [last.value])
  }

  /** The targets `id` depends on, or None when expanding it raises. */
  function Successors(s: Snapshot, id: TargetId): Option<seq<TargetId>>
  {
    if id >= |s.all| || s.all[id].deps.None? then None
    else
      var r := ResolveAll(s, s.all[id], s.all[id].deps.value);
      if r.Success? then Some(r.value) else None
  }

  lemma SuccessorsInRange(s: Snapshot, id: TargetId)
    requires WellFormed(s) && Successors(s, id).Some?
    ensures forall x :: x in Successors(s, id).value ==> x < |s.all|
  {
    var t := s.all[id];
    var ds := t.deps.value;
    forall x | x in Successors(s, id).value
      ensures x < |s.all|
    {
      var k :| 0 <= k < |ds| && Successors(s, id).value[k] == x;
      assert ResolveDep(s, t, ds[k]).Success?;
    }
  }

  ghost predicate Edge(s: Snapshot, a: TargetId, b: TargetId)
  {
    Successors(s, a).Some? && b in Successors(s, a).value
  }

  ghost predicate IsPath(s: Snapshot, p: seq<TargetId>)
  {
    |p| >= 2 && forall k :: 0 <= k < |p| - 1 ==> Edge(s, p[k], p[k + 1])
  }

  /** `b` is reachable from `a` along one or more dependency edges. */
  ghost predicate Reaches(s: Snapshot, a: TargetId, b: TargetId)
  {
    exists p :: IsPath(s, p) && p[0] == a && p[|p| - 1] == b
  }

  lemma EdgeReaches(s: Snapshot, a: TargetId, b: TargetId)
    requires Edge(s, a, b)
    ensures Reaches(s, a, b)
  {
    assert IsPath(s, [a, b]);
  }

  lemma ReachesPrepend(s: Snapshot, a: TargetId, b: TargetId, c: TargetId)
    requires Edge(s, a, b) && Reaches(s, b, c)
    ensures Reaches(s, a, c)
  {
    var p :| IsPath(s, p) && p[0] == b && p[|p| - 1] == c;
    var q := [a] + p;
    forall k | 0 <= k < |q| - 1
      ensures Edge(s, q[k], q[k + 1])
    {
      if k > 0 {
        assert q[k] == p[k - 1] && q[k + 1] == p[k];
      }
    }
    assert IsPath(s, q) && q[0] == a && q[|q| - 1] == c;
  }

  lemma ReachesAppend(s: Snapshot, a: TargetId, b: TargetId, c: TargetId)
    requires Reaches(s, a, b) && Edge(s, b, c)
    ensures Reaches(s, a, c)
  {
    var p :| IsPath(s, p) && p[0] == a && p[|p| - 1] == b;
    var q := p + [c];
    forall k | 0 <= k < |q| - 1
      ensures Edge(s, q[k], q[k + 1])
    {
      if k < |p| - 1 {
        assert q[k] == p[k] && q[k + 1] == p[k + 1];
      }
    }
    assert IsPath(s, q) && q[0] == a && q[|q| - 1] == c;
  }

  /** Expanding `id` cannot raise: it and everything it reaches resolve. */
  ghost predicate Resolvable(s: Snapshot, id: TargetId)
  {
    Successors(s, id).Some? && forall t :: Reaches(s, id, t) ==> Successors(s, t).Some?
  }

  function Elems(r: seq<TargetId>): set<TargetId>
  {
    set x | x in r
  }

  /** The identities of the first `n` targets, in order. */
  function Ids(n: nat): (r: seq<TargetId>)
    ensures |r| == n && forall i :: 0 <= i < n ==> r[i] == i
  {
    if n == 0 then [] else Ids(n - 1) + [n - 1]
  }

  ghost predicate Distinct(r: seq<TargetId>)
  {
    forall i, j :: 0 <= i < j < |r| ==> r[i] != r[j]
  }

  /** `b` is one of `ys` or is reachable from one of them. */
  ghost predicate ReachedFrom(s: Snapshot, ys: seq<TargetId>, b: TargetId)
  {
    exists y :: y in ys && (y == b || Reaches(s, y, b))
  }

  /** Every dependency of a listed target was covered before the call, is
      listed earlier, or is listed at or after it and lies on a cycle
      through it. */
  ghost predicate Ordered(s: Snapshot, uniq: set<TargetId>, r: seq<TargetId>)
  {
    forall p :: 0 <= p < |r| ==>
      Successors(s, r[p]).Some? &&
      forall x :: x in Successors(s, r[p]).value ==>
        x in uniq || x in r[..p] || (x in r[p..] && Reaches(s, x, r[p]))
  }

  /** `Ordered` at the single position `p`. */
  ghost predicate OrderedAt(s: Snapshot, uniq: set<TargetId>, r: seq<TargetId>, p: nat)
    requires p < |r|
  {
    Successors(s, r[p]).Some? &&
    forall x :: x in Successors(s, r[p]).value ==>
      x in uniq || x in r[..p] || (x in r[p..] && Reaches(s, x, r[p]))
  }

  /** What the loop over the first dependencies `ys` has built: the listed
      targets `r` and the covered set `u`. */
  ghost predicate Partial(s: Snapshot, uniq: set<TargetId>, ys: seq<TargetId>, r: seq<TargetId>, u: set<TargetId>)
  {
    u == uniq + Elems(r) &&
    Distinct(r) &&
    (forall x :: x in r ==> x !in uniq && x < |s.all|) &&
    (forall y :: y in ys ==> y in u) &&
    Ordered(s, uniq, r) &&
    (forall p :: 0 <= p < |r| ==> ReachedFrom(s, ys, r[p]))
  }

  /** The result of expanding `id` with covered set `uniq`: listed targets
      `r` and the new covered set `u`. */
  ghost predicate ExpansionOf(s: Snapshot, id: TargetId, uniq: set<TargetId>, r: seq<TargetId>, u: set<TargetId>)
  {
    Successors(s, id).Some? &&
    Partial(s, uniq, Successors(s, id).value, r, u) &&
    (forall p :: 0 <= p < |r| ==> Reaches(s, id, r[p]))
  }

  /** A dependency already covered is skipped. */
  lemma SkipCovered(s: Snapshot, uniq: set<TargetId>, ys: seq<TargetId>, r: seq<TargetId>, u: set<TargetId>, d: TargetId)
    requires Partial(s, uniq, ys, r, u) && d in u
    ensures Partial(s, uniq, ys + [d], r, u)
  {
    forall p | 0 <= p < |r|
      ensures ReachedFrom(s, ys + [d], r[p])
    {
      assert ReachedFrom(s, ys, r[p]);
      var y :| y in ys && (y == r[p] || Reaches(s, y, r[p]));
      assert y in ys + [d];
    }
  }

  lemma AppendedListing(s: Snapshot, uniq: set<TargetId>, r: seq<TargetId>, u: set<TargetId>,
                        d: TargetId, r2: seq<TargetId>, u2: set<TargetId>)
    requires u == uniq + Elems(r) && Distinct(r) && (forall x :: x in r ==> x !in uniq && x < |s.all|)
    requires d !in u && d < |s.all|
    requires u2 == (u + {d}) + Elems(r2) && Distinct(r2) && (forall x :: x in r2 ==> x !in u + {d} && x < |s.all|)
    ensures var r' := r + r2 + [d];
      u2 == uniq + Elems(r') && Distinct(r') && (forall x :: x in r' ==> x !in uniq && x < |s.all|)
  {
    var r' := r + r2 + [d];
    assert Elems(r') == Elems(r) + Elems(r2) + {d};
    forall i, j | 0 <= i < j < |r'|
      ensures r'[i] != r'[j]
    {
      if j < |r| {
      } else if i < |r| {
        assert r'[i] in Elems(r);
        if j < |r| + |r2| {
          assert r'[j] == r2[j - |r|];
        }
      } else if j < |r| + |r2| {
        assert r'[i] == r2[i - |r|] && r'[j] == r2[j - |r|];
      } else {
        assert r'[i] == r2[i - |r|];
      }
    }
  }

  lemma AppendedOrdered(s: Snapshot, uniq: set<TargetId>, r: seq<TargetId>, u: set<TargetId>,
                        d: TargetId, r2: seq<TargetId>, u2: set<TargetId>)
    requires u == uniq + Elems(r) && Ordered(s, uniq, r)
    requires d !in u
    requires ExpansionOf(s, d, u + {d}, r2, u2)
    ensures Ordered(s, uniq, r + r2 + [d])
  {
    var r' := r + r2 + [d];
    forall p | 0 <= p < |r'|
      ensures Successors(s, r'[p]).Some?
      ensures forall x :: x in Successors(s, r'[p]).value ==>
        x in uniq || x in r'[..p] || (x in r'[p..] && Reaches(s, x, r'[p]))
    {
      if p < |r| {
        OrderedFront(s, uniq, r, d, r2, p);
      } else if p < |r| + |r2| {
        OrderedMiddle(s, uniq, r, u, d, r2, u2, p);
      } else {
        OrderedLast(s, uniq, r, u, d, r2, u2);
      }
      assert OrderedAt(s, uniq, r', p);
    }
  }

  lemma OrderedFront(s: Snapshot, uniq: set<TargetId>, r: seq<TargetId>, d: TargetId, r2: seq<TargetId>, p: nat)
    requires Ordered(s, uniq, r) && p < |r|
    ensures OrderedAt(s, uniq, r + r2 + [d], p)
  {
    var r' := r + r2 + [d];
    assert r'[p] == r[p] && r'[..p] == r[..p];
    forall x | x in Successors(s, r'[p]).value
      ensures x in uniq || x in r'[..p] || (x in r'[p..] && Reaches(s, x, r'[p]))
    {
      if x in r[p..] {
        var j :| p <= j < |r| && r[j] == x;
        assert r'[j] == x;
      }
    }
  }

  lemma OrderedMiddle(s: Snapshot, uniq: set<TargetId>, r: seq<TargetId>, u: set<TargetId>,
                      d: TargetId, r2: seq<TargetId>, u2: set<TargetId>, p: nat)
    requires u == uniq + Elems(r)
    requires ExpansionOf(s, d, u + {d}, r2, u2)
    requires |r| <= p < |r| + |r2|
    ensures OrderedAt(s, uniq, r + r2 + [d], p)
  {
    var r' := r + r2 + [d];
    var p2 := p - |r|;
    assert r'[p] == r2[p2];
    assert r'[..p] == r + r2[..p2];
    assert OrderedAt(s, u + {d}, r2, p2);
    forall x | x in Successors(s, r'[p]).value
      ensures x in uniq || x in r'[..p] || (x in r'[p..] && Reaches(s, x, r'[p]))
    {
      if x in r2[p2..] {
        var j :| p2 <= j < |r2| && r2[j] == x;
        assert r'[|r| + j] == x;
      } else if x == d {
        assert Reaches(s, d, r2[p2]);
        assert r'[|r| + |r2|] == d;
      } else if x in Elems(r) {
        assert x in r'[..p];
      }
    }
  }

  lemma OrderedLast(s: Snapshot, uniq: set<TargetId>, r: seq<TargetId>, u: set<TargetId>,
                    d: TargetId, r2: seq<TargetId>, u2: set<TargetId>)
    requires u == uniq + Elems(r)
    requires ExpansionOf(s, d, u + {d}, r2, u2)
    ensures OrderedAt(s, uniq, r + r2 + [d], |r| + |r2|)
  {
    var r' := r + r2 + [d];
    var p := |r| + |r2|;
    assert r'[p] == d;
    assert r'[..p] == r + r2;
    forall x | x in Successors(s, d).value
      ensures x in uniq || x in r'[..p] || (x in r'[p..] && Reaches(s, x, r'[p]))
    {
      if x == d {
        EdgeReaches(s, d, d);
        assert r'[p..] == [d];
      } else if x in Elems(r2) || x in Elems(r) {
        assert x in r'[..p];
      }
    }
  }

  lemma AppendedReached(s: Snapshot, ys: seq<TargetId>, r: seq<TargetId>, d: TargetId, r2: seq<TargetId>)
    requires forall p :: 0 <= p < |r| ==> ReachedFrom(s, ys, r[p])
    requires forall p :: 0 <= p < |r2| ==> Reaches(s, d, r2[p])
    ensures forall p :: 0 <= p < |r + r2 + [d]| ==> ReachedFrom(s, ys + [d], (r + r2 + [d])[p])
  {
    var r' := r + r2 + [d];
    var ys' := ys + [d];
    forall p | 0 <= p < |r'|
      ensures ReachedFrom(s, ys', r'[p])
    {
      assert d in ys';
      if p < |r| {
        assert r'[p] == r[p];
        var y :| y in ys && (y == r[p] || Reaches(s, y, r[p]));
        assert y in ys';
      } else if p < |r| + |r2| {
        assert r'[p] == r2[p - |r|];
      }
    }
  }

  /** A dependency not yet covered is expanded and then listed itself. */
  lemma AppendExpansion(s: Snapshot, uniq: set<TargetId>, ys: seq<TargetId>, r: seq<TargetId>, u: set<TargetId>,
                        d: TargetId, r2: seq<TargetId>, u2: set<TargetId>)
    requires WellFormed(s)
    requires Partial(s, uniq, ys, r, u) && d !in u && d < |s.all|
    requires ExpansionOf(s, d, u + {d}, r2, u2)
    ensures Partial(s, uniq, ys + [d], r + r2 + [d], u2)
  {
    AppendedListing(s, uniq, r, u, d, r2, u2);
    AppendedOrdered(s, uniq, r, u, d, r2, u2);
    AppendedReached(s, ys, r, d, r2);
    forall y | y in ys + [d]
      ensures y in u2
    {
    }
  }

  /** Once every dependency of `id` is looped over, the partial listing is
      the expansion of `id`. */
  lemma Completed(s: Snapshot, id: TargetId, uniq: set<TargetId>, r: seq<TargetId>, u: set<TargetId>)
    requires Successors(s, id).Some?
    requires Partial(s, uniq, Successors(s, id).value, r, u)
    ensures ExpansionOf(s, id, uniq, r, u)
  {
    forall p | 0 <= p < |r|
      ensures Reaches(s, id, r[p])
    {
      assert ReachedFrom(s, Successors(s, id).value, r[p]);
      var y :| y in Successors(s, id).value && (y == r[p] || Reaches(s, y, r[p]));
      if y == r[p] {
        EdgeReaches(s, id, y);
      } else {
        ReachesPrepend(s, id, y, r[p]);
      }
    }
  }

  /** When the dependencies of `id` all resolve, a failure to expand one of
      them is a failure reachable from `id`. */
  lemma FailureBelow(s: Snapshot, id: TargetId, d: TargetId)
    requires Edge(s, id, d) && !Resolvable(s, d)
    ensures !Resolvable(s, id)
  {
    if Successors(s, d).None? {
      EdgeReaches(s, id, d);
    } else {
      var t :| Reaches(s, d, t) && Successors(s, t).None?;
      ReachesPrepend(s, id, d, t);
    }
  }

  /** A dependency that cannot be resolved all the way down makes every
      target that names it unresolvable too. */
  lemma DepFailure(s: Snapshot, id: TargetId, k: nat, d: TargetId)
    requires id < |s.all| && s.all[id].deps.Some? && k < |s.all[id].deps.value|
    requires ResolveDep(s, s.all[id], s.all[id].deps.value[k]) == Success(d)
    requires !Resolvable(s, d)
    ensures !Resolvable(s, id)
  {
    if Successors(s, id).Some? {
      assert Successors(s, id).value[k] == d;
      FailureBelow(s, id, d);
    }
  }

  lemma ResolveAllPrefix(s: Snapshot, t: Target, ds: seq<Dep>, k: nat)
    requires k < |ds|
    requires ResolveAll(s, t, ds[..k]).Success? && ResolveDep(s, t, ds[k]).Success?
    ensures ResolveAll(s, t, ds[..k + 1]) ==
      Success(ResolveAll(s, t, ds[..k]).value + [ResolveDep(s, t, ds[k]).value])
  {
    assert ds[..k + 1][..k] == ds[..k];
  }

  /** With no cycles among the reachable targets, every listed target comes
      after all the dependencies it pulls in that were not already covered. */
  lemma ExpansionTopological(s: Snapshot, id: TargetId, uniq: set<TargetId>, r: seq<TargetId>, u: set<TargetId>)
    requires ExpansionOf(s, id, uniq, r, u)
    requires forall t :: !Reaches(s, t, t)
    ensures forall p, x :: 0 <= p < |r| && x in Successors(s, r[p]).value ==> x in uniq || x in r[..p]
  {
    forall p, x | 0 <= p < |r| && x in Successors(s, r[p]).value
      ensures x in uniq || x in r[..p]
    {
      if x !in uniq && x !in r[..p] {
        assert Reaches(s, x, r[p]);
        ReachesAppend(s, x, r[p], x);
        assert false;
      }
    }
  }

  /** The global `Targets` map together with every target object created. */
  class Registry {
    var targets: map<string, TargetId>
    var all: seq<Target>

    function State(): Snapshot
      reads this
    {
      Snapshot(targets, all)
    }

    ghost predicate Valid()
      reads this
    {
      WellFormed(State())
    }

    constructor ()
      ensures targets == map[] && all == [] && Valid()
    {
      targets := map[];
      all := [];
    }

    /** `Target.__init__`: the target takes the current project directory,
        and registering it under "dir:name" replaces any earlier target of
        that full name. */
    method Register(dir: string, name: string, deps: Option<seq<Dep>>) returns (id: TargetId)
      requires Valid()
      requires deps.Some? ==> forall k :: 0 <= k < |deps.value| && deps.value[k].Ref? ==> deps.value[k].id <= |all|
      modifies this
      ensures Valid()
      ensures id == |old(all)| && all == old(all) + [Target(dir, name, deps)]
      ensures targets == old(targets)[FullName(dir, name) := id]
      ensures targets[dir + ":" + name] == id
      ensures forall n :: n in old(targets) && n != dir + ":" + name ==> n in targets && targets[n] == old(targets)[n]
    {
      id := |all|;
      all := all + [Target(dir, name, deps)];
      targets := targets[FullName(dir, name) := id];
    }

    /** `_expand_deps()` with no set given: expansion from an empty set. */
    method ExpandDeps(id: TargetId) returns (r: Result<seq<TargetId>, ExpandError>)
      requires Valid() && id < |all|
      ensures r.Success? ==> exists u :: ExpansionOf(State(), id, {}, r.value, u)
      ensures r.Success? ==> Distinct(r.value)
      ensures r.Failure? ==> !Resolvable(State(), id)
    {
      var e := ExpandWith(id, {});
      if e.Failure? {
        return Failure(e.error);
      }
      r := Success(e.value.0);
    }

    /** `_expand_deps(uniq)`: lists the dependencies of `id` not yet in
        `uniq`, each after those it pulls in, and returns the grown set. */
    method ExpandWith(id: TargetId, uniq: set<TargetId>) returns (r: Result<(seq<TargetId>, set<TargetId>), ExpandError>)
      requires Valid() && id < |all|
      requires forall x :: x in uniq ==> x < |all|
      ensures r.Success? ==> ExpansionOf(State(), id, uniq, r.value.0, r.value.1)
      ensures r.Failure? ==> !Resolvable(State(), id)
      decreases Elems(Ids(|all|)) - uniq, 1
    {
      var t := all[id];
      if t.deps.None? {
        return Failure(NotIterable(FullName(t.dir, t.name)));
      }
      var ds := t.deps.value;
      var listed: seq<TargetId> := [];
      var covered: set<TargetId> := uniq;
      ghost var ys: seq<TargetId> := [];
      var k := 0;
      while k < |ds|
        invariant 0 <= k <= |ds|
        invariant ResolveAll(State(), t, ds[..k]) == Success(ys)
        invariant uniq <= covered
        invariant forall x :: x in covered ==> x < |all|
        invariant Partial(State(), uniq, ys, listed, covered)
      {
        var step := ExpandDep(id, uniq, k, listed, covered, ys);
        if step.Failure? {
          return Failure(step.error);
        }
        ys := ResolveAll(State(), t, ds[..k + 1]).value;
        listed, covered := step.value.0, step.value.1;
        k := k + 1;
      }
      assert ds[..k] == ds;
      Completed(State(), id, uniq, listed, covered);
      r := Success((listed, covered));
    }

    /** One turn of the loop in `_expand`: resolve the `k`-th dependency and,
        unless it is already covered, expand it and list it after what it
        pulled in. */
    method ExpandDep(id: TargetId, uniq: set<TargetId>, k: nat, listed: seq<TargetId>, covered: set<TargetId>,
                     ghost ys: seq<TargetId>) returns (r: Result<(seq<TargetId>, set<TargetId>), ExpandError>)
      requires Valid() && id < |all| && all[id].deps.Some? && k < |all[id].deps.value|
      requires uniq <= covered && forall x :: x in covered ==> x < |all|
      requires ResolveAll(State(), all[id], all[id].deps.value[..k]) == Success(ys)
      requires Partial(State(), uniq, ys, listed, covered)
      ensures r.Failure? ==> !Resolvable(State(), id)
      ensures r.Success? ==>
        var next := ResolveAll(State(), all[id], all[id].deps.value[..k + 1]);
        next.Success? && Partial(State(), uniq, next.value, r.value.0, r.value.1) &&
        uniq <= r.value.1 && forall x :: x in r.value.1 ==> x < |all|
      decreases Elems(Ids(|all|)) - covered, 0
    {
      var t := all[id];
      var ds := t.deps.value;
      var dr := ResolveDep(State(), t, ds[k]);
      if dr.Failure? {
        assert !ResolveAll(State(), t, ds).Success?;
        return Failure(dr.error);
      }
      var d := dr.value;
      assert d < |all|;
      ResolveAllPrefix(State(), t, ds, k);
      if d in covered {
        SkipCovered(State(), uniq, ys, listed, covered, d);
        return Success((listed, covered));
      }
      assert Ids(|all|)[d] == d;
      var inner := ExpandWith(d, covered + {d});
      if inner.Failure? {
        DepFailure(State(), id, k, d);
        return Failure(inner.error);
      }
      AppendExpansion(State(), uniq, ys, listed, covered, d, inner.value.0, inner.value.1);
      r := Success((listed + inner.value.0 + [d], inner.value.1));
    }
  }
}
