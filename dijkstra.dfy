/** The router's shortest-path search: Dijkstra over a directed graph with
    a caller-supplied edge weight and an optional cutoff.  The heap of
    (distance, counter, node) items is modelled by a list from which the
    least item (distance first, then counter) is taken.  For non-negative
    weights the search is proved to fix each node at its least walk weight
    within the cutoff and to return a walk that realises it. */
module ShortestPath {
  import opened Wrappers
  import Seqs

  /** Each node's successors, in the order the graph lists them. */
  type Graph<N> = map<N, seq<N>>

  /** An edge weight; None makes the search skip the edge. */
  type Weight<!N> = (N, N) -> Option<real>

  const ContradictionError := "ValueError: Contradictory paths found: negative weights?"
  const KeyError := "KeyError"

  /** A heap item: tentative distance, insertion counter, node. */
  datatype Item<N> = Item(d: real, c: nat, v: N)

  /** heapq's order on items. */
  predicate NotAfter<N(!new)>(a: Item<N>, b: Item<N>)
  {
    a.d < b.d || (a.d == b.d && a.c <= b.c)
  }

  /** `cutoff` lets a distance through (None is no cutoff). */
  predicate Fits(cutoff: Option<real>, x: real)
  {
    cutoff.None? || x <= cutoff.value
  }

  /** x -> y is an edge the search may follow. */
  predicate Step<N(!new)>(g: Graph<N>, w: Weight<N>, x: N, y: N)
  {
    x in g && y in g[x] && w(x, y).Some?
  }

  /** Each node of p is followed by a successor the search may step to. */
  ghost predicate Linked<N(!new)>(g: Graph<N>, w: Weight<N>, p: seq<N>)
  {
    |p| < 2 || (Linked(g, w, p[..|p| - 1]) && Step(g, w, p[|p| - 2], p[|p| - 1]))
  }

  /** A walk from a to b along followable edges. */
  ghost predicate Walk<N(!new)>(g: Graph<N>, w: Weight<N>, p: seq<N>, a: N, b: N)
  {
    |p| >= 1 && p[0] == a && p[|p| - 1] == b && Linked(g, w, p)
  }

  function Wt<N(!new)>(w: Weight<N>, x: N, y: N): real
  {
    if w(x, y).Some? then w(x, y).value else 0.0
  }

  /** The weight of a walk: the sum of its edge weights. */
  function Cost<N(!new)>(w: Weight<N>, p: seq<N>): real
  {
    if |p| < 2 then 0.0 else Cost(w, p[..|p| - 1]) + Wt(w, p[|p| - 2], p[|p| - 1])
  }

  ghost predicate NonNeg<N(!new)>(w: Weight<N>)
  {
    forall x, y :: w(x, y).Some? ==> w(x, y).value >= 0.0
  }

  /** Every successor is itself a node of the graph. */
  ghost predicate Closed<N(!new)>(g: Graph<N>)
  {
    forall x, i :: x in g && 0 <= i < |g[x]| ==> g[x][i] in g
  }

  /** d is at most the weight of every walk from source to u within the cutoff. */
  ghost predicate Least<N(!new)>(g: Graph<N>, w: Weight<N>, source: N, cutoff: Option<real>, u: N, d: real)
  {
    forall p :: Walk(g, w, p, source, u) && Fits(cutoff, Cost(w, p)) ==> d <= Cost(w, p)
  }

  /** No walk from source to u stays within the cutoff. */
  ghost predicate Unreachable<N(!new)>(g: Graph<N>, w: Weight<N>, source: N, cutoff: Option<real>, u: N)
  {
    forall p :: Walk(g, w, p, source, u) ==> !Fits(cutoff, Cost(w, p))
  }

  /** The nodes the search can meet. */
  ghost function Nodes<N(!new)>(g: Graph<N>, source: N): set<N>
  {
    {source} + g.Keys + (set x, i | x in g && 0 <= i < |g[x]| :: g[x][i])
  }

  /** u is the source, a node of the graph or a successor of one. */
  ghost predicate IsNode<N(!new)>(g: Graph<N>, source: N, u: N)
  {
    u == source || u in g || exists x :: x in g && u in g[x]
  }

  lemma NodesHas<N(!new)>(g: Graph<N>, source: N, u: N)
    requires IsNode(g, source, u)
    ensures u in Nodes(g, source)
  {
    if u != source && u !in g {
      var x :| x in g && u in g[x];
      var i :| 0 <= i < |g[x]| && g[x][i] == u;
    }
  }

  /** The search's variables: `dist`, `seen`, `paths`, `fringe` and the counter. */
  datatype State<N> = State(dist: map<N, real>, seen: map<N, real>, paths: map<N, seq<N>>, fringe: seq<Item<N>>, count: nat)

  /** The source is seen at distance 0 with the one-node path. */
  ghost predicate RootOk<N(!new)>(source: N, s: State<N>)
  {
    source in s.seen && source in s.paths && s.paths[source] == [source] && s.seen[source] == 0.0
  }

  /** `paths` and `seen` share their keys, which are nodes the search can
      meet within the cutoff, and a fixed node's distance is its `seen`. */
  ghost predicate KeysOk<N(!new)>(g: Graph<N>, source: N, cutoff: Option<real>, s: State<N>)
  {
    (forall u :: u in s.paths <==> u in s.seen) &&
    (forall u :: u in s.seen ==> IsNode(g, source, u)) &&
    (forall u :: u in s.seen && u != source ==> Fits(cutoff, s.seen[u])) &&
    (forall u :: u in s.dist ==> u in s.seen && s.dist[u] == s.seen[u])
  }

  /** Every recorded path is a walk from source of weight `seen`. */
  ghost predicate WalksOk<N(!new)>(g: Graph<N>, w: Weight<N>, source: N, s: State<N>)
  {
    forall u :: u in s.paths ==> u in s.seen && Walk(g, w, s.paths[u], source, u) && Cost(w, s.paths[u]) == s.seen[u]
  }

  /** The nodes before the end of a path are fixed, each at the weight of
      the path up to it. */
  ghost predicate PrefixesOk<N(!new)>(w: Weight<N>, s: State<N>)
  {
    forall u, i :: u in s.paths && 0 <= i < |s.paths[u]| - 1 ==>
      s.paths[u][i] in s.dist && s.dist[s.paths[u][i]] == Cost(w, s.paths[u][..i + 1])
  }

  /** Every unfixed seen node has a fringe item at its current distance, and
      no fringe item is below its node's `seen`. */
  ghost predicate FringeOk<N(!new)>(s: State<N>)
  {
    (forall u :: u in s.seen && u !in s.dist ==> exists x :: x in s.fringe && x.v == u && x.d == s.seen[u]) &&
    (forall x :: x in s.fringe ==> x.v in s.seen && x.d >= s.seen[x.v])
  }

  /** Until the source is fixed, nothing is fixed and the fringe is the source's item. */
  ghost predicate InitOk<N(!new)>(source: N, s: State<N>)
  {
    source !in s.dist ==> s.fringe == [Item(0.0, 0, source)] && s.dist == map[]
  }

  /** What the search keeps true whatever the weights. */
  ghost predicate Inv<N(!new)>(g: Graph<N>, w: Weight<N>, source: N, cutoff: Option<real>, s: State<N>)
  {
    RootOk(source, s) && KeysOk(g, source, cutoff, s) && WalksOk(g, w, source, s) &&
    PrefixesOk(w, s) && FringeOk(s) && InitOk(source, s)
  }

  /** The edge x -> y has been relaxed: following it from a fixed x within
      the cutoff cannot beat y's tentative distance. */
  ghost predicate Relaxed<N(!new)>(g: Graph<N>, w: Weight<N>, cutoff: Option<real>, s: State<N>, x: N, y: N)
  {
    (x in s.dist && Step(g, w, x, y) && y !in s.dist && Fits(cutoff, s.dist[x] + w(x, y).value))
      ==> y in s.seen && s.seen[y] <= s.dist[x] + w(x, y).value
  }

  ghost predicate AllLeast<N(!new)>(g: Graph<N>, w: Weight<N>, source: N, cutoff: Option<real>, s: State<N>)
  {
    forall u :: u in s.dist ==> Least(g, w, source, cutoff, u, s.dist[u])
  }

  /** No fixed distance exceeds a fringe item. */
  ghost predicate Below<N(!new)>(s: State<N>)
  {
    forall x, y :: x in s.dist && y in s.fringe ==> s.dist[x] <= y.d
  }

  ghost predicate RelaxedExcept<N(!new)>(g: Graph<N>, w: Weight<N>, cutoff: Option<real>, s: State<N>, v: N, done: seq<N>)
  {
    forall x, y :: (x != v || y in done) ==> Relaxed(g, w, cutoff, s, x, y)
  }

  /** What the search keeps true for non-negative weights. */
  ghost predicate Settled<N(!new)>(g: Graph<N>, w: Weight<N>, source: N, cutoff: Option<real>, s: State<N>)
  {
    AllLeast(g, w, source, cutoff, s) && Below(s) && forall x, y :: Relaxed(g, w, cutoff, s, x, y)
  }

  function Remove<N(!new)>(fringe: seq<Item<N>>, m: nat): seq<Item<N>>
    requires m < |fringe|
  {
    fringe[..m] + fringe[m + 1..]
  }

  lemma RemoveKeeps<N(!new)>(fringe: seq<Item<N>>, m: nat)
    requires m < |fringe|
    ensures forall x :: x in Remove(fringe, m) ==> x in fringe
    ensures forall x :: x in fringe && x != fringe[m] ==> x in Remove(fringe, m)
    ensures |Remove(fringe, m)| == |fringe| - 1
  {
    forall x | x in fringe && x != fringe[m]
      ensures x in Remove(fringe, m)
    {
      var i :| 0 <= i < |fringe| && fringe[i] == x;
      if i < m {
        assert Remove(fringe, m)[i] == x;
      } else {
        assert Remove(fringe, m)[i - 1] == x;
      }
    }
  }

  /** heappop: the index of the least item. */
  method PopMin<N(!new)>(fringe: seq<Item<N>>) returns (m: nat)
    requires |fringe| > 0
    ensures m < |fringe| && forall i :: 0 <= i < |fringe| ==> NotAfter(fringe[m], fringe[i])
  {
    m := 0;
    for i := 1 to |fringe|
      invariant m < i && forall j :: 0 <= j < i ==> NotAfter(fringe[m], fringe[j])
    {
      if !NotAfter(fringe[m], fringe[i]) {
        m := i;
      }
    }
  }

  lemma {:induction false} CostNonNeg<N(!new)>(w: Weight<N>, p: seq<N>)
    requires NonNeg(w)
    ensures Cost(w, p) >= 0.0
  {
    if |p| >= 2 {
      CostNonNeg(w, p[..|p| - 1]);
    }
  }

  /** With non-negative weights a walk weighs at least each of its prefixes. */
  lemma {:induction false} CostPrefix<N(!new)>(w: Weight<N>, p: seq<N>, k: nat)
    requires NonNeg(w) && 1 <= k <= |p|
    ensures Cost(w, p[..k]) <= Cost(w, p)
  {
    if k < |p| {
      CostPrefix(w, p[..|p| - 1], k);
      assert p[..|p| - 1][..k] == p[..k];
    } else {
      assert p[..k] == p;
    }
  }

  lemma CostStep<N(!new)>(w: Weight<N>, p: seq<N>, k: nat)
    requires k + 1 < |p|
    ensures Cost(w, p[..k + 2]) == Cost(w, p[..k + 1]) + Wt(w, p[k], p[k + 1])
  {
    assert p[..k + 2][..k + 1] == p[..k + 1];
  }

  lemma CostAppend<N(!new)>(w: Weight<N>, p: seq<N>, u: N)
    requires |p| >= 1
    ensures Cost(w, p + [u]) == Cost(w, p) + Wt(w, p[|p| - 1], u)
  {
    assert (p + [u])[..|p|] == p;
  }

  lemma {:induction false} LinkedStep<N(!new)>(g: Graph<N>, w: Weight<N>, p: seq<N>, k: nat)
    requires Linked(g, w, p) && k + 1 < |p|
    ensures Step(g, w, p[k], p[k + 1])
  {
    if k + 2 < |p| {
      var q := p[..|p| - 1];
      LinkedStep(g, w, q, k);
      assert q[k] == p[k] && q[k + 1] == p[k + 1];
    }
  }

  lemma {:induction false} LinkedPrefix<N(!new)>(g: Graph<N>, w: Weight<N>, p: seq<N>, k: nat)
    requires Linked(g, w, p) && 1 <= k <= |p|
    ensures Linked(g, w, p[..k])
  {
    if k == |p| {
      assert p[..k] == p;
    } else {
      LinkedPrefix(g, w, p[..|p| - 1], k);
      assert p[..|p| - 1][..k] == p[..k];
    }
  }

  /** A prefix of a walk is a walk to its last node. */
  lemma WalkPrefix<N(!new)>(g: Graph<N>, w: Weight<N>, p: seq<N>, a: N, b: N, k: nat)
    requires Walk(g, w, p, a, b) && k < |p|
    ensures Walk(g, w, p[..k + 1], a, p[k])
  {
    LinkedPrefix(g, w, p, k + 1);
  }

  /** A walk extended by a followable edge is a walk. */
  lemma WalkAppend<N(!new)>(g: Graph<N>, w: Weight<N>, p: seq<N>, a: N, b: N, u: N)
    requires Walk(g, w, p, a, b) && Step(g, w, b, u)
    ensures Walk(g, w, p + [u], a, u)
  {
    assert (p + [u])[..|p|] == p;
  }

  /** A walk that starts among the fixed nodes and ends outside them has a
      first edge leaving them. */
  lemma ExitIndex<N(!new)>(p: seq<N>, fixed: map<N, real>) returns (k: nat)
    requires |p| >= 1 && p[0] in fixed && p[|p| - 1] !in fixed
    ensures k + 1 < |p| && p[k] in fixed && p[k + 1] !in fixed
  {
    k := 0;
    while p[k + 1] in fixed
      invariant k + 1 < |p| && p[k] in fixed
      decreases |p| - k
    {
      k := k + 1;
    }
  }

  /** Any walk within the cutoff from source to an unfixed node weighs at
      least some fringe item: the classic argument on the first edge that
      leaves the fixed nodes. */
  lemma ExitBound<N(!new)>(g: Graph<N>, w: Weight<N>, source: N, cutoff: Option<real>, s: State<N>, p: seq<N>, u: N)
    returns (x: Item<N>)
    requires NonNeg(w) && Inv(g, w, source, cutoff, s) && Settled(g, w, source, cutoff, s)
    requires source in s.dist && Walk(g, w, p, source, u) && u !in s.dist && Fits(cutoff, Cost(w, p))
    ensures x in s.fringe && x.d <= Cost(w, p)
  {
    var k := ExitIndex(p, s.dist);
    var a, b := p[k], p[k + 1];
    LinkedStep(g, w, p, k);
    WalkPrefix(g, w, p, source, u, k);
    CostPrefix(w, p, k + 1);
    CostPrefix(w, p, k + 2);
    CostStep(w, p, k);
    assert Least(g, w, source, cutoff, a, s.dist[a]);
    assert s.dist[a] <= Cost(w, p[..k + 1]);
    assert Relaxed(g, w, cutoff, s, a, b);
    assert s.seen[b] <= Cost(w, p);
    x :| x in s.fringe && x.v == b && x.d == s.seen[b];
  }

  /** The search state after popping fringe[m] for a node already fixed. */
  function Skipped<N(!new)>(s: State<N>, m: nat): State<N>
    requires m < |s.fringe|
  {
    s.(fringe := Remove(s.fringe, m))
  }

  /** The search state after popping fringe[m] and fixing its node. */
  function Fixed<N(!new)>(s: State<N>, m: nat): State<N>
    requires m < |s.fringe|
  {
    State(s.dist[s.fringe[m].v := s.fringe[m].d], s.seen, s.paths, Remove(s.fringe, m), s.count)
  }

  lemma SkipKeeps<N(!new)>(g: Graph<N>, w: Weight<N>, source: N, cutoff: Option<real>, s: State<N>, m: nat)
    requires Inv(g, w, source, cutoff, s) && m < |s.fringe| && s.fringe[m].v in s.dist
    ensures Inv(g, w, source, cutoff, Skipped(s, m))
    ensures Settled(g, w, source, cutoff, s) ==> Settled(g, w, source, cutoff, Skipped(s, m))
  {
    RemoveKeeps(s.fringe, m);
    var s' := Skipped(s, m);
    forall u | u in s'.seen && u !in s'.dist
      ensures exists x :: x in s'.fringe && x.v == u && x.d == s'.seen[u]
    {
      var x :| x in s.fringe && x.v == u && x.d == s.seen[u];
      assert x in s'.fringe;
    }
    if Settled(g, w, source, cutoff, s) {
      forall x, y | Relaxed(g, w, cutoff, s, x, y)
        ensures Relaxed(g, w, cutoff, s', x, y)
      {
      }
    }
  }

  lemma FixFringe<N(!new)>(source: N, s: State<N>, m: nat)
    requires FringeOk(s) && InitOk(source, s) && m < |s.fringe| && s.fringe[m].v !in s.dist
    ensures FringeOk(Fixed(s, m)) && InitOk(source, Fixed(s, m))
  {
    RemoveKeeps(s.fringe, m);
    var s' := Fixed(s, m);
    forall u | u in s'.seen && u !in s'.dist
      ensures exists x :: x in s'.fringe && x.v == u && x.d == s'.seen[u]
    {
      var x :| x in s.fringe && x.v == u && x.d == s.seen[u];
      assert x in s'.fringe;
    }
  }

  /** Popping the least item of an unfixed node fixes it at its `seen`. */
  lemma FixKeeps<N(!new)>(g: Graph<N>, w: Weight<N>, source: N, cutoff: Option<real>, s: State<N>, m: nat)
    requires Inv(g, w, source, cutoff, s) && m < |s.fringe|
    requires forall i :: 0 <= i < |s.fringe| ==> NotAfter(s.fringe[m], s.fringe[i])
    requires s.fringe[m].v !in s.dist
    ensures s.fringe[m].d == s.seen[s.fringe[m].v]
    ensures Inv(g, w, source, cutoff, Fixed(s, m))
  {
    var e := s.fringe[m];
    var v := e.v;
    var s' := Fixed(s, m);
    assert v in s.seen;
    var y :| y in s.fringe && y.v == v && y.d == s.seen[v];
    var iy :| 0 <= iy < |s.fringe| && s.fringe[iy] == y;
    assert NotAfter(e, s.fringe[iy]);
    FixFringe(source, s, m);
    FixPaths(g, w, source, cutoff, s, m);
  }

  /** Fixing an unfixed node at its `seen` keeps the invariant's
      conditions on keys, walks and prefixes. */
  lemma FixPaths<N(!new)>(g: Graph<N>, w: Weight<N>, source: N, cutoff: Option<real>, s: State<N>, m: nat)
    requires m < |s.fringe| && s.fringe[m].v !in s.dist && s.fringe[m].v in s.seen && s.fringe[m].d == s.seen[s.fringe[m].v]
    requires RootOk(source, s) && KeysOk(g, source, cutoff, s) && WalksOk(g, w, source, s) && PrefixesOk(w, s)
    ensures var s' := Fixed(s, m);
      RootOk(source, s') && KeysOk(g, source, cutoff, s') && WalksOk(g, w, source, s') && PrefixesOk(w, s')
  {
    var s' := Fixed(s, m);
    assert s'.paths == s.paths && s'.seen == s.seen;
  }

  /** The popped item is no heavier than any walk to its node within the cutoff. */
  lemma FixLeast<N(!new)>(g: Graph<N>, w: Weight<N>, source: N, cutoff: Option<real>, s: State<N>, m: nat)
    requires NonNeg(w) && Inv(g, w, source, cutoff, s) && Settled(g, w, source, cutoff, s) && m < |s.fringe|
    requires forall i :: 0 <= i < |s.fringe| ==> NotAfter(s.fringe[m], s.fringe[i])
    requires s.fringe[m].v !in s.dist
    ensures Least(g, w, source, cutoff, s.fringe[m].v, s.fringe[m].d)
  {
    var e := s.fringe[m];
    forall p | Walk(g, w, p, source, e.v) && Fits(cutoff, Cost(w, p))
      ensures e.d <= Cost(w, p)
    {
      if source in s.dist {
        var x := ExitBound(g, w, source, cutoff, s, p, e.v);
        var ix :| 0 <= ix < |s.fringe| && s.fringe[ix] == x;
        assert NotAfter(e, s.fringe[ix]);
      } else {
        CostNonNeg(w, p);
      }
    }
  }

  /** For non-negative weights fixing the least item keeps every fixed
      distance least and below the fringe, and leaves only the new node's
      edges to relax. */
  lemma FixSettles<N(!new)>(g: Graph<N>, w: Weight<N>, source: N, cutoff: Option<real>, s: State<N>, m: nat)
    requires NonNeg(w) && Inv(g, w, source, cutoff, s) && Settled(g, w, source, cutoff, s) && m < |s.fringe|
    requires forall i :: 0 <= i < |s.fringe| ==> NotAfter(s.fringe[m], s.fringe[i])
    requires s.fringe[m].v !in s.dist
    ensures var s' := Fixed(s, m);
      AllLeast(g, w, source, cutoff, s') && Below(s') && RelaxedExcept(g, w, cutoff, s', s.fringe[m].v, []) &&
      forall x :: x in s'.dist ==> s'.dist[x] <= s.fringe[m].d
  {
    var e := s.fringe[m];
    var s' := Fixed(s, m);
    FixLeast(g, w, source, cutoff, s, m);
    assert AllLeast(g, w, source, cutoff, s') by {
      forall u | u in s'.dist
        ensures Least(g, w, source, cutoff, u, s'.dist[u])
      {
        if u != e.v {
          assert Least(g, w, source, cutoff, u, s.dist[u]);
        }
      }
    }
    FixMin(s, m);
    FixBelow(s, m);
    FixRelaxed(g, w, cutoff, s, m);
  }

  /** The popped item is no heavier than any fringe item. */
  lemma FixMin<N(!new)>(s: State<N>, m: nat)
    requires m < |s.fringe|
    requires forall i :: 0 <= i < |s.fringe| ==> NotAfter(s.fringe[m], s.fringe[i])
    ensures forall z :: z in s.fringe ==> s.fringe[m].d <= z.d
  {
    forall z | z in s.fringe
      ensures s.fringe[m].d <= z.d
    {
      var iz :| 0 <= iz < |s.fringe| && s.fringe[iz] == z;
      assert NotAfter(s.fringe[m], s.fringe[iz]);
    }
  }

  /** Fixing the least item keeps every fixed distance below the fringe,
      and at most the new node's distance. */
  lemma FixBelow<N(!new)>(s: State<N>, m: nat)
    requires m < |s.fringe| && Below(s)
    requires forall z :: z in s.fringe ==> s.fringe[m].d <= z.d
    ensures var s' := Fixed(s, m);
      Below(s') && forall x :: x in s'.dist ==> s'.dist[x] <= s.fringe[m].d
  {
    RemoveKeeps(s.fringe, m);
    var e := s.fringe[m];
    var s' := Fixed(s, m);
    forall x, z | x in s'.dist && z in s'.fringe
      ensures s'.dist[x] <= z.d
    {
      if x != e.v {
        assert s.dist[x] <= z.d;
      }
    }
    forall x | x in s'.dist
      ensures s'.dist[x] <= e.d
    {
      if x != e.v {
        assert s.dist[x] <= e.d;
      }
    }
  }

  /** Fixing a node leaves only its own edges to relax. */
  lemma FixRelaxed<N(!new)>(g: Graph<N>, w: Weight<N>, cutoff: Option<real>, s: State<N>, m: nat)
    requires m < |s.fringe| && forall x, y :: Relaxed(g, w, cutoff, s, x, y)
    ensures RelaxedExcept(g, w, cutoff, Fixed(s, m), s.fringe[m].v, [])
  {
    var s' := Fixed(s, m);
    forall x, z | x != s.fringe[m].v
      ensures Relaxed(g, w, cutoff, s', x, z)
    {
      assert Relaxed(g, w, cutoff, s, x, z);
    }
  }

  /** The state after `seen[u] = vu_dist; push(...); paths[u] = paths[v] + [u]`. */
  function Pushed<N(!new)>(s: State<N>, v: N, u: N, vu: real): State<N>
    requires v in s.paths
  {
    State(s.dist, s.seen[u := vu], s.paths[u := s.paths[v] + [u]], s.fringe + [Item(vu, s.count, u)], s.count + 1)
  }

  lemma PushPrefixes<N(!new)>(w: Weight<N>, s: State<N>, v: N, u: N, vu: real)
    requires PrefixesOk(w, s) && v in s.dist && v in s.paths && u !in s.dist && |s.paths[v]| >= 1
    requires s.paths[v][|s.paths[v]| - 1] == v && s.dist[v] == Cost(w, s.paths[v])
    ensures PrefixesOk(w, Pushed(s, v, u, vu))
  {
    var s' := Pushed(s, v, u, vu);
    var pv := s.paths[v];
    forall z, i | z in s'.paths && 0 <= i < |s'.paths[z]| - 1
      ensures s'.paths[z][i] in s'.dist && s'.dist[s'.paths[z][i]] == Cost(w, s'.paths[z][..i + 1])
    {
      if z == u {
        assert s'.paths[z] == pv + [u];
        if i < |pv| - 1 {
          assert s'.paths[z][i] == pv[i];
          assert (pv + [u])[..i + 1] == pv[..i + 1];
        } else {
          assert s'.paths[z][i] == v;
          assert (pv + [u])[..i + 1] == pv;
        }
      } else {
        assert s'.paths[z] == s.paths[z];
      }
    }
  }

  lemma PushFringe<N(!new)>(s: State<N>, v: N, u: N, vu: real)
    requires FringeOk(s) && v in s.paths && u !in s.dist
    requires u !in s.seen || vu < s.seen[u]
    ensures FringeOk(Pushed(s, v, u, vu))
  {
    var s' := Pushed(s, v, u, vu);
    forall z | z in s'.seen && z !in s'.dist
      ensures exists x :: x in s'.fringe && x.v == z && x.d == s'.seen[z]
    {
      if z == u {
        assert Item(vu, s.count, u) in s'.fringe;
      } else {
        var x :| x in s.fringe && x.v == z && x.d == s.seen[z];
        assert x in s'.fringe;
      }
    }
  }

  lemma PushKeys<N(!new)>(g: Graph<N>, source: N, cutoff: Option<real>, s: State<N>, v: N, u: N, vu: real)
    requires KeysOk(g, source, cutoff, s) && v in s.paths && u !in s.dist
    requires IsNode(g, source, u) && Fits(cutoff, vu)
    ensures KeysOk(g, source, cutoff, Pushed(s, v, u, vu))
  {
  }

  lemma PushWalks<N(!new)>(g: Graph<N>, w: Weight<N>, source: N, s: State<N>, v: N, u: N, vu: real)
    requires WalksOk(g, w, source, s) && v in s.paths && Step(g, w, v, u) && vu == s.seen[v] + w(v, u).value
    ensures WalksOk(g, w, source, Pushed(s, v, u, vu))
  {
    var pv := s.paths[v];
    WalkAppend(g, w, pv, source, v, u);
    CostAppend(w, pv, u);
  }

  /** Recording a shorter route to an unfixed node through a fixed one keeps the invariant. */
  lemma PushKeeps<N(!new)>(g: Graph<N>, w: Weight<N>, source: N, cutoff: Option<real>, s: State<N>, v: N, u: N)
    requires Inv(g, w, source, cutoff, s) && v in s.dist && Step(g, w, v, u)
    requires u !in s.dist && Fits(cutoff, s.dist[v] + w(v, u).value)
    requires u !in s.seen || s.dist[v] + w(v, u).value < s.seen[u]
    ensures Inv(g, w, source, cutoff, Pushed(s, v, u, s.dist[v] + w(v, u).value))
  {
    var vu := s.dist[v] + w(v, u).value;
    assert source in s.dist && u != source;
    assert s.seen[v] == s.dist[v];
    assert IsNode(g, source, u);
    PushPrefixes(w, s, v, u, vu);
    PushFringe(s, v, u, vu);
    PushKeys(g, source, cutoff, s, v, u, vu);
    PushWalks(g, w, source, s, v, u, vu);
    var s' := Pushed(s, v, u, vu);
    assert RootOk(source, s');
    assert InitOk(source, s');
  }

  lemma PushSettles<N(!new)>(g: Graph<N>, w: Weight<N>, source: N, cutoff: Option<real>, s: State<N>, v: N, u: N, done: seq<N>)
    requires NonNeg(w) && v in s.dist && v in s.paths && Step(g, w, v, u) && u !in s.dist
    requires u !in s.seen || s.dist[v] + w(v, u).value < s.seen[u]
    requires AllLeast(g, w, source, cutoff, s) && Below(s) && RelaxedExcept(g, w, cutoff, s, v, done)
    requires forall x :: x in s.dist ==> s.dist[x] <= s.dist[v]
    ensures var s' := Pushed(s, v, u, s.dist[v] + w(v, u).value);
      AllLeast(g, w, source, cutoff, s') && Below(s') && RelaxedExcept(g, w, cutoff, s', v, done + [u])
  {
    var vu := s.dist[v] + w(v, u).value;
    var s' := Pushed(s, v, u, vu);
    forall x, z | x in s'.dist && z in s'.fringe
      ensures s'.dist[x] <= z.d
    {
      if z !in s.fringe {
        assert z == Item(vu, s.count, u);
      }
    }
    forall x, y | x != v || y in done + [u]
      ensures Relaxed(g, w, cutoff, s', x, y)
    {
      if x != v || y in done {
        assert Relaxed(g, w, cutoff, s, x, y);
      }
    }
  }

  /** An edge out of v that the search leaves alone is already relaxed. */
  lemma RelaxedSkip<N(!new)>(g: Graph<N>, w: Weight<N>, cutoff: Option<real>, s: State<N>, v: N, done: seq<N>, u: N)
    requires v in s.dist && RelaxedExcept(g, w, cutoff, s, v, done)
    requires w(v, u).None? || u in s.dist || !Fits(cutoff, s.dist[v] + w(v, u).value) ||
      (u in s.seen && s.seen[u] <= s.dist[v] + w(v, u).value)
    ensures RelaxedExcept(g, w, cutoff, s, v, done + [u])
  {
    forall x, y | x != v || y in done + [u]
      ensures Relaxed(g, w, cutoff, s, x, y)
    {
      if x != v || y in done {
        assert Relaxed(g, w, cutoff, s, x, y);
      }
    }
  }

  /** One pass of the inner loop: follows the edge v -> u, skipping it when
      it has no weight or leads beyond the cutoff, raising when it is a
      strictly shorter route to an already fixed node, and recording it
      when it improves on u's tentative distance. */
  function RelaxEdge<N(==,!new)>(w: Weight<N>, cutoff: Option<real>, s: State<N>, v: N, u: N): (r: Result<State<N>, string>)
    requires v in s.dist && v in s.paths
    ensures r.Failure? ==> r.error == ContradictionError
    ensures r.Success? ==> r.value.dist == s.dist && s.seen.Keys <= r.value.seen.Keys
    ensures r.Success? ==> forall x :: x in s.seen && x != u ==> x in r.value.seen && r.value.seen[x] == s.seen[x]
  {
    var c := w(v, u);
    if c.None? then Success(s)
    else
      var vu := s.dist[v] + c.value;
      if !Fits(cutoff, vu) then Success(s)
      else if u in s.dist then
        if vu < s.dist[u] then Failure(ContradictionError) else Success(s)
      else if u !in s.seen || vu < s.seen[u] then Success(Pushed(s, v, u, vu))
      else Success(s)
  }

  /** The step raises exactly for a weighted edge within the cutoff that
      is a strictly shorter route to an already fixed node: the cutoff
      test comes first, so an edge beyond it never raises. */
  predicate Contradicts<N(!new)>(w: Weight<N>, cutoff: Option<real>, s: State<N>, v: N, u: N)
    requires v in s.dist
  {
    w(v, u).Some? && Fits(cutoff, s.dist[v] + w(v, u).value) && u in s.dist &&
    s.dist[v] + w(v, u).value < s.dist[u]
  }

  /** Relaxing an edge keeps the invariant and the fixed distances, and
      raises only for a negative weight. */
  lemma RelaxEdgeKeeps<N(!new)>(g: Graph<N>, w: Weight<N>, source: N, cutoff: Option<real>, s: State<N>, v: N, u: N)
    requires v in g && u in g[v] && v in s.dist && Inv(g, w, source, cutoff, s)
    requires NonNeg(w) ==> forall x :: x in s.dist ==> s.dist[x] <= s.dist[v]
    ensures v in s.paths
    ensures var r := RelaxEdge(w, cutoff, s, v, u);
      (r.Success? ==> Inv(g, w, source, cutoff, r.value) && r.value.dist == s.dist) &&
      (r.Failure? <==> Contradicts(w, cutoff, s, v, u)) &&
      (r.Failure? ==> r.error == ContradictionError && !NonNeg(w))
  {
    RelaxEdgeRaises(w, cutoff, s, v, u);
    var c := w(v, u);
    if c.Some? && Fits(cutoff, s.dist[v] + c.value) && u !in s.dist && (u !in s.seen || s.dist[v] + c.value < s.seen[u]) {
      PushKeeps(g, w, source, cutoff, s, v, u);
      RelaxEdgePushes(w, cutoff, s, v, u);
    } else {
      RelaxEdgeStays(w, cutoff, s, v, u);
    }
  }

  /** An edge within the cutoff to an unfixed node whose tentative
      distance it improves pushes that node. */
  lemma RelaxEdgePushes<N(!new)>(w: Weight<N>, cutoff: Option<real>, s: State<N>, v: N, u: N)
    requires v in s.dist && v in s.paths
    requires w(v, u).Some? && Fits(cutoff, s.dist[v] + w(v, u).value) && u !in s.dist
    requires u !in s.seen || s.dist[v] + w(v, u).value < s.seen[u]
    ensures RelaxEdge(w, cutoff, s, v, u) == Success(Pushed(s, v, u, s.dist[v] + w(v, u).value))
  {
  }

  /** Any other edge leaves the state as it is, or raises. */
  lemma RelaxEdgeStays<N(!new)>(w: Weight<N>, cutoff: Option<real>, s: State<N>, v: N, u: N)
    requires v in s.dist && v in s.paths
    requires !(w(v, u).Some? && Fits(cutoff, s.dist[v] + w(v, u).value) && u !in s.dist &&
      (u !in s.seen || s.dist[v] + w(v, u).value < s.seen[u]))
    ensures RelaxEdge(w, cutoff, s, v, u).Failure? <==> Contradicts(w, cutoff, s, v, u)
    ensures RelaxEdge(w, cutoff, s, v, u).Success? ==> RelaxEdge(w, cutoff, s, v, u) == Success(s)
  {
  }

  /** Relaxing raises only on a strictly shorter route to a fixed node,
      which non-negative weights rule out while v is the latest fixed node. */
  lemma RelaxEdgeRaises<N(!new)>(w: Weight<N>, cutoff: Option<real>, s: State<N>, v: N, u: N)
    requires v in s.dist && v in s.paths
    requires NonNeg(w) ==> forall x :: x in s.dist ==> s.dist[x] <= s.dist[v]
    ensures var r := RelaxEdge(w, cutoff, s, v, u);
      (r.Failure? <==> Contradicts(w, cutoff, s, v, u)) &&
      (r.Failure? ==> r.error == ContradictionError && !NonNeg(w))
  {
  }

  /** For non-negative weights relaxing the j-th edge out of the latest
      fixed node keeps the distances settled and marks the edges up to it
      relaxed. */
  lemma RelaxEdgeSettles<N(!new)>(g: Graph<N>, w: Weight<N>, source: N, cutoff: Option<real>, s: State<N>, v: N, j: nat)
    requires v in g && j < |g[v]| && v in s.dist && v in s.paths && NonNeg(w)
    requires AllLeast(g, w, source, cutoff, s) && Below(s) && RelaxedExcept(g, w, cutoff, s, v, g[v][..j])
    requires forall x :: x in s.dist ==> s.dist[x] <= s.dist[v]
    ensures var r := RelaxEdge(w, cutoff, s, v, g[v][j]);
      r.Success? && AllLeast(g, w, source, cutoff, r.value) && Below(r.value) &&
      RelaxedExcept(g, w, cutoff, r.value, v, g[v][..j + 1])
  {
    var u, done := g[v][j], g[v][..j];
    Seqs.TakeSnoc(g[v], j + 1);
    var c := w(v, u);
    if c.Some? && Fits(cutoff, s.dist[v] + c.value) && u !in s.dist && (u !in s.seen || s.dist[v] + c.value < s.seen[u]) {
      PushSettles(g, w, source, cutoff, s, v, u, done);
      RelaxEdgePushes(w, cutoff, s, v, u);
    } else {
      if c.Some? && u in s.dist {
        assert c.value >= 0.0;
      }
      RelaxedSkip(g, w, cutoff, s, v, done, u);
      RelaxEdgeStays(w, cutoff, s, v, u);
    }
  }

  /** The inner loop of the search: relaxes each edge out of the newly
      fixed node v in the order the graph lists them. */
  method Relax<N(==,!new)>(g: Graph<N>, w: Weight<N>, source: N, cutoff: Option<real>, s0: State<N>, v: N)
    returns (r: Result<State<N>, string>)
    requires v in g && v in s0.dist && Inv(g, w, source, cutoff, s0)
    requires NonNeg(w) ==> forall x :: x in s0.dist ==> s0.dist[x] <= s0.dist[v]
    ensures r.Success? ==> Inv(g, w, source, cutoff, r.value) && r.value.dist == s0.dist
    ensures r.Failure? ==> r.error == ContradictionError && !NonNeg(w)
    ensures NonNeg(w) && AllLeast(g, w, source, cutoff, s0) && Below(s0) && RelaxedExcept(g, w, cutoff, s0, v, []) ==>
      r.Success? && Settled(g, w, source, cutoff, r.value)
  {
    var s := s0;
    var succ := g[v];
    ghost var settling := NonNeg(w) && AllLeast(g, w, source, cutoff, s0) && Below(s0) && RelaxedExcept(g, w, cutoff, s0, v, []);
    for j := 0 to |succ|
      invariant Inv(g, w, source, cutoff, s) && s.dist == s0.dist
      invariant settling ==> AllLeast(g, w, source, cutoff, s) && Below(s) && RelaxedExcept(g, w, cutoff, s, v, succ[..j])
    {
      RelaxEdgeKeeps(g, w, source, cutoff, s, v, succ[j]);
      if settling {
        RelaxEdgeSettles(g, w, source, cutoff, s, v, j);
      }
      r := RelaxEdge(w, cutoff, s, v, succ[j]);
      if r.Failure? {
        return;
      }
      s := r.value;
    }
    if settling {
      assert succ[..|succ|] == succ;
      RelaxedAll(g, w, cutoff, s, v);
    }
    return Success(s);
  }

  /** Once every edge out of v is relaxed, every edge is. */
  lemma RelaxedAll<N(!new)>(g: Graph<N>, w: Weight<N>, cutoff: Option<real>, s: State<N>, v: N)
    requires v in g && RelaxedExcept(g, w, cutoff, s, v, g[v])
    ensures forall x, y :: Relaxed(g, w, cutoff, s, x, y)
  {
    forall x, y
      ensures Relaxed(g, w, cutoff, s, x, y)
    {
      assert x != v || y in g[v] || !Step(g, w, x, y);
    }
  }

  function Start<N(!new)>(source: N): State<N>
  {
    State(map[], map[source := 0.0], map[source := [source]], [Item(0.0, 0, source)], 1)
  }

  lemma StartKeeps<N(!new)>(g: Graph<N>, w: Weight<N>, source: N, cutoff: Option<real>)
    ensures Inv(g, w, source, cutoff, Start(source)) && Settled(g, w, source, cutoff, Start(source))
  {
    assert Walk(g, w, [source], source, source);
    assert Item(0.0, 0, source) in Start(source).fringe;
  }

  /** Fixing a node leaves fewer nodes of the graph unfixed. */
  lemma FixShrinks<N(!new)>(g: Graph<N>, source: N, cutoff: Option<real>, s: State<N>, m: nat)
    requires KeysOk(g, source, cutoff, s) && FringeOk(s) && m < |s.fringe| && s.fringe[m].v !in s.dist
    ensures |Nodes(g, source) - Fixed(s, m).dist.Keys| < |Nodes(g, source) - s.dist.Keys|
  {
    var all := Nodes(g, source);
    var v := s.fringe[m].v;
    assert v in s.seen;
    NodesHas(g, source, v);
    assert all - Fixed(s, m).dist.Keys < all - s.dist.Keys by {
      assert v in all - s.dist.Keys && v !in all - Fixed(s, m).dist.Keys;
    }
  }

  /** In a closed graph containing the source every seen node has successors listed. */
  lemma ClosedKeys<N(!new)>(g: Graph<N>, source: N, cutoff: Option<real>, s: State<N>, v: N)
    requires KeysOk(g, source, cutoff, s) && v in s.seen
    ensures source in g && Closed(g) ==> v in g
  {
  }

  /** The search loop shared by `dijkstra` and `Configuration.dijkstra`: pops
      items until the fringe is empty or the target is fixed, ignoring items
      of nodes already fixed. */
  method Search<N(==,!new)>(g: Graph<N>, w: Weight<N>, source: N, target: N, cutoff: Option<real>)
    returns (r: Result<State<N>, string>)
    ensures r.Success? ==> Inv(g, w, source, cutoff, r.value)
    ensures r.Success? ==> (target in r.value.paths <==> target in r.value.dist)
    ensures r.Failure? ==> r.error == ContradictionError || r.error == KeyError
    ensures r.Failure? && r.error == ContradictionError ==> !NonNeg(w)
    ensures r.Failure? && r.error == KeyError ==> !(source in g && Closed(g))
    ensures NonNeg(w) && r.Success? ==> AllLeast(g, w, source, cutoff, r.value)
    ensures NonNeg(w) && r.Success? && target !in r.value.dist ==> Unreachable(g, w, source, cutoff, target)
    ensures r.Success? ==> forall v :: v in r.value.dist && v != target ==> v in g
    ensures r.Success? ==> source in r.value.dist
  {
    var s := Start(source);
    StartKeeps(g, w, source, cutoff);
    ghost var all := Nodes(g, source);
    while |s.fringe| > 0
      invariant Inv(g, w, source, cutoff, s)
      invariant NonNeg(w) ==> Settled(g, w, source, cutoff, s)
      invariant forall v :: v in s.dist && v != target ==> v in g
      decreases |all - s.dist.Keys|, |s.fringe|
    {
      var step := Pop(g, w, source, target, cutoff, s);
      if step.Failure? {
        return Failure(step.error);
      }
      s := step.value.0;
      if step.value.1 {
        break;
      }
    }
    if NonNeg(w) && target !in s.dist {
      NoneLeft(g, w, source, cutoff, s, target);
    }
    assert InitOk(source, s) && (|s.fringe| == 0 || target in s.dist);
    return Success(s);
  }

  /** One pass of the search loop: pops the least item and, unless its node
      is already fixed, fixes it and, unless it is the target, relaxes the
      edges out of it.  The flag says the target was fixed. */
  method Pop<N(==,!new)>(g: Graph<N>, w: Weight<N>, source: N, target: N, cutoff: Option<real>, s: State<N>)
    returns (r: Result<(State<N>, bool), string>)
    requires |s.fringe| > 0 && Inv(g, w, source, cutoff, s)
    requires NonNeg(w) ==> Settled(g, w, source, cutoff, s)
    requires forall v :: v in s.dist && v != target ==> v in g
    ensures r.Success? ==> Inv(g, w, source, cutoff, r.value.0)
    ensures r.Success? ==> forall v :: v in r.value.0.dist && v != target ==> v in g
    ensures r.Success? && NonNeg(w) ==> AllLeast(g, w, source, cutoff, r.value.0)
    ensures r.Success? && NonNeg(w) && !r.value.1 ==> Settled(g, w, source, cutoff, r.value.0)
    ensures r.Success? && r.value.1 ==> target in r.value.0.dist
    ensures r.Success? ==>
      |Nodes(g, source) - r.value.0.dist.Keys| < |Nodes(g, source) - s.dist.Keys| ||
      (r.value.0.dist == s.dist && |r.value.0.fringe| < |s.fringe|)
    ensures r.Failure? ==>
      (r.error == ContradictionError && !NonNeg(w)) || (r.error == KeyError && !(source in g && Closed(g)))
  {
    var m := PopMin(s.fringe);
    var e := s.fringe[m];
    if e.v in s.dist {
      SkipKeeps(g, w, source, cutoff, s, m);
      RemoveKeeps(s.fringe, m);
      return Success((Skipped(s, m), false));
    }
    FixKeeps(g, w, source, cutoff, s, m);
    if NonNeg(w) {
      FixSettles(g, w, source, cutoff, s, m);
    }
    FixShrinks(g, source, cutoff, s, m);
    var s' := Fixed(s, m);
    if e.v == target {
      return Success((s', true));
    }
    if e.v !in g {
      ClosedKeys(g, source, cutoff, s', e.v);
      return Failure(KeyError);
    }
    var rr := Relax(g, w, source, cutoff, s', e.v);
    if rr.Failure? {
      return Failure(rr.error);
    }
    return Success((rr.value, false));
  }

  /** With the fringe exhausted, an unfixed node has no walk within the cutoff. */
  lemma NoneLeft<N(!new)>(g: Graph<N>, w: Weight<N>, source: N, cutoff: Option<real>, s: State<N>, u: N)
    requires NonNeg(w) && Inv(g, w, source, cutoff, s) && Settled(g, w, source, cutoff, s)
    requires |s.fringe| == 0 && u !in s.dist
    ensures Unreachable(g, w, source, cutoff, u)
  {
    assert source in s.dist;
    forall p | Walk(g, w, p, source, u)
      ensures !Fits(cutoff, Cost(w, p))
    {
      if Fits(cutoff, Cost(w, p)) {
        var x := ExitBound(g, w, source, cutoff, s, p, u);
      }
    }
  }

  /** The sum, over the nodes of a walk, of the weight of the walk up to that node. */
  function PrefixCostSum<N(!new)>(w: Weight<N>, p: seq<N>): real
  {
    if |p| == 0 then 0.0 else PrefixCostSum(w, p[..|p| - 1]) + Cost(w, p)
  }

  /** Each node of a recorded path is fixed at the weight of the path up to it. */
  lemma PathDistances<N(!new)>(g: Graph<N>, w: Weight<N>, source: N, cutoff: Option<real>, s: State<N>, u: N, i: nat)
    requires Inv(g, w, source, cutoff, s) && u in s.dist && i < |s.paths[u]|
    ensures s.paths[u][i] in s.dist && s.dist[s.paths[u][i]] == Cost(w, s.paths[u][..i + 1])
  {
    if i == |s.paths[u]| - 1 {
      assert s.paths[u][..i + 1] == s.paths[u];
    }
  }

  /** `dijkstra(G, source, target, cutoff, edge_weight)`: (None, None) when
      the target is never reached, otherwise the recorded path and, as
      written, the sum of the fixed distances of its nodes. */
  method Dijkstra<N(==,!new)>(g: Graph<N>, w: Weight<N>, source: N, target: N, cutoff: Option<real>)
    returns (r: Result<Option<(real, seq<N>)>, string>)
    ensures r.Failure? ==> r.error == ContradictionError || r.error == KeyError
    ensures NonNeg(w) && source in g && Closed(g) ==> r.Success?
    ensures r.Success? && r.value.Some? ==>
      var (cost, path) := r.value.value;
      Walk(g, w, path, source, target) && cost == PrefixCostSum(w, path) &&
      (target != source ==> Fits(cutoff, Cost(w, path)))
    ensures NonNeg(w) && r.Success? && r.value.Some? ==> Least(g, w, source, cutoff, target, Cost(w, r.value.value.1))
    ensures NonNeg(w) && r.Success? && r.value.None? ==> Unreachable(g, w, source, cutoff, target)
  {
    var sr := Search(g, w, source, target, cutoff);
    if sr.Failure? {
      return Failure(sr.error);
    }
    var s := sr.value;
    if target !in s.paths {
      return Success(None);
    }
    var path := s.paths[target];
    forall i | 0 <= i < |path|
      ensures path[i] in s.dist && s.dist[path[i]] == Cost(w, path[..i + 1])
    {
      PathDistances(g, w, source, cutoff, s, target, i);
    }
    var cost := SumDistances(w, s.dist, path);
    return Success(Some((cost, path)));
  }

  /** The cost loop of `dijkstra`: adds up the fixed distance of each node
      of the path, which is the weight of the path up to that node. */
  method SumDistances<N(!new)>(w: Weight<N>, dist: map<N, real>, path: seq<N>) returns (cost: real)
    requires forall i :: 0 <= i < |path| ==> path[i] in dist && dist[path[i]] == Cost(w, path[..i + 1])
    ensures cost == PrefixCostSum(w, path)
  {
    cost := 0.0;
    for i := 0 to |path|
      invariant cost == PrefixCostSum(w, path[..i])
    {
      assert path[..i + 1][..i] == path[..i];
      cost := cost + dist[path[i]];
    }
    assert path[..|path|] == path;
  }

  /** `Configuration.dijkstra`: the same search, returning the target's
      fixed distance, which is the weight of the returned walk.  `fixed`
      is the set of nodes the search fixed (the keys of `dist`): the
      edges out of each of them but the target are the ones it weighed. */
  method Distance<N(==,!new)>(g: Graph<N>, w: Weight<N>, source: N, target: N, cutoff: Option<real>)
    returns (r: Result<Option<(real, seq<N>)>, string>, fixed: set<N>)
    ensures r.Failure? ==> r.error == ContradictionError || r.error == KeyError
    ensures r.Failure? ==> fixed == {}
    ensures r.Success? ==> source in fixed && (r.value.Some? <==> target in fixed)
    ensures r.Success? ==> forall v :: v in fixed && v != target ==> v in g
    ensures NonNeg(w) && source in g && Closed(g) ==> r.Success?
    ensures r.Success? && r.value.Some? ==>
      var (cost, path) := r.value.value;
      Walk(g, w, path, source, target) && cost == Cost(w, path) &&
      (target != source ==> Fits(cutoff, cost))
    ensures NonNeg(w) && r.Success? && r.value.Some? ==> Least(g, w, source, cutoff, target, r.value.value.0)
    ensures NonNeg(w) && r.Success? && r.value.None? ==> Unreachable(g, w, source, cutoff, target)
  {
    var sr := Search(g, w, source, target, cutoff);
    if sr.Failure? {
      return Failure(sr.error), {};
    }
    var s := sr.value;
    fixed := s.dist.Keys;
    if target !in s.paths {
      return Success(None), fixed;
    }
    return Success(Some((s.dist[target], s.paths[target]))), fixed;
  }

  /** The default edge weight: the edge's 'weight' attribute, else 1. */
  function AttrWeight<N(==,!new)>(attrs: map<(N, N), map<string, real>>): Weight<N>
  {
    (x: N, y: N) => Some(if (x, y) in attrs && "weight" in attrs[(x, y)] then attrs[(x, y)]["weight"] else 1.0)
  }

  /** An edge without a 'weight' attribute weighs 1, and non-negative
      attributes give non-negative weights. */
  lemma AttrWeightDefault<N(!new)>(attrs: map<(N, N), map<string, real>>, x: N, y: N)
    ensures (x, y) !in attrs || "weight" !in attrs[(x, y)] ==> AttrWeight(attrs)(x, y) == Some(1.0)
    ensures (x, y) in attrs && "weight" in attrs[(x, y)] ==> AttrWeight(attrs)(x, y) == Some(attrs[(x, y)]["weight"])
    ensures (forall e :: e in attrs && "weight" in attrs[e] ==> attrs[e]["weight"] >= 0.0) ==> NonNeg(AttrWeight(attrs))
  {
  }

  /** The as-written cost counts every prefix: on the unit-weight walk
      0 -> 1 -> 2 it is 0 + 1 + 2 = 3 while the walk weighs 2. */
  lemma PrefixSumOvercounts()
    ensures var w: Weight<int> := (x: int, y: int) => Some(1.0);
      Cost(w, [0, 1, 2]) == 2.0 && PrefixCostSum(w, [0, 1, 2]) == 3.0
  {
    var w: Weight<int> := (x: int, y: int) => Some(1.0);
    assert [0, 1, 2][..2] == [0, 1] && [0, 1][..1] == [0];
    assert Cost(w, [0, 1]) == 1.0;
    assert Cost(w, [0, 1, 2]) == 2.0;
    assert PrefixCostSum(w, [0]) == 0.0;
  }
}
