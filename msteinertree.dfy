/** The router's rectilinear Steiner tree heuristic: a union-find with path
    compression and union by weight, Kruskal's algorithm over the Manhattan
    distances between points, the Hanan grid candidates and the loop that
    adds Steiner points while they shorten the tree. */
module SteinerTree {
  import opened Wrappers

  const EmptyMaxError := "ValueError: max() arg is an empty sequence"

  /** x is a known item. Quantified facts about the forest are triggered by
      this predicate alone, so that facts about an item's parent or name do
      not set off facts about the parent's parent. */
  ghost predicate Known(p: map<int, int>, x: int)
  {
    x in p
  }

  /** What the forest promises about one known item x: its parent and
      name are known, its name is a root, it shares its parent's name, and
      ranks grow strictly towards the roots (the ghost measure under which
      every chain of parents ends). */
  ghost predicate NodeOk(p: map<int, int>, rep: map<int, int>, rk: map<int, nat>, bound: nat, x: int)
    requires rep.Keys == p.Keys && rk.Keys == p.Keys && x in p
  {
    p[x] in p && rep[x] in p && rk[x] < bound &&
    p[rep[x]] == rep[x] && rep[p[x]] == rep[x] &&
    (p[x] == x ==> rep[x] == x) &&
    (p[x] != x ==> rk[x] < rk[p[x]]) &&
    (rep[x] != x ==> rk[x] < rk[rep[x]])
  }

  /** The forest behind a union-find: every known item is as NodeOk says. */
  ghost predicate Forest(p: map<int, int>, rep: map<int, int>, rk: map<int, nat>, bound: nat)
  {
    rep.Keys == p.Keys && rk.Keys == p.Keys &&
    forall x {:trigger Known(p, x)} :: Known(p, x) ==> NodeOk(p, rep, rk, bound, x)
  }

  /** An unseen item added as its own parent and name. */
  lemma AddKeeps(p: map<int, int>, rep: map<int, int>, rk: map<int, nat>, bound: nat, a: int)
    requires Forest(p, rep, rk, bound) && a !in p
    ensures Forest(p[a := a], rep[a := a], rk[a := 0], bound + 1)
  {
    var p', rep', rk' := p[a := a], rep[a := a], rk[a := 0];
    forall x | Known(p', x)
      ensures NodeOk(p', rep', rk', bound + 1, x)
    {
      if x != a {
        assert Known(p, x);
      }
    }
  }

  /** Path compression: a pointed straight at its root r. */
  lemma CompressKeeps(p: map<int, int>, rep: map<int, int>, rk: map<int, nat>, bound: nat, a: int, r: int)
    requires Forest(p, rep, rk, bound) && a in p && rep[a] == r
    ensures Forest(p[a := r], rep, rk, bound)
  {
    var p' := p[a := r];
    assert Known(p, a);
    assert Known(p, r);
    forall x | Known(p', x)
      ensures NodeOk(p', rep, rk, bound, x)
    {
      assert Known(p, x);
    }
  }

  /** The names after pointing root r at root h: r's items take h's name. */
  function Linked(rep: map<int, int>, r: int, h: int): map<int, int>
  {
    map y | y in rep :: if rep[y] == r then h else rep[y]
  }

  /** Union: root r pointed at another root h, whose rank rises above all others. */
  lemma LinkKeeps(p: map<int, int>, rep: map<int, int>, rk: map<int, nat>, bound: nat, r: int, h: int)
    requires Forest(p, rep, rk, bound) && r in p && h in p && p[r] == r && p[h] == h && r != h
    ensures Forest(p[r := h], Linked(rep, r, h), rk[h := bound], bound + 1)
  {
    var p', rep', rk' := p[r := h], Linked(rep, r, h), rk[h := bound];
    assert Known(p, r) && Known(p, h);
    forall x | Known(p', x)
      ensures NodeOk(p', rep', rk', bound + 1, x)
    {
      assert Known(p, x);
      assert Known(p, p[x]);
    }
  }

  /** Part way through the loop of `union`: the roots in `merged` now
      point at h and all their items are named h; every other weight is as
      before the loop. */
  ghost predicate Merging(rep0: map<int, int>, w0: map<int, int>, h: int, merged: set<int>,
                          p: map<int, int>, rep: map<int, int>, w: map<int, int>)
  {
    w.Keys == w0.Keys &&
    (forall y :: y in rep0 ==> y in rep && rep[y] == if rep0[y] in merged then h else rep0[y]) &&
    (forall x :: x in merged && x != h ==> x in p && p[x] == h) &&
    (forall y :: y in w0 && y != h ==> w[y] == w0[y])
  }

  /** One turn of the loop of `union` for an original root x other than h:
      pointing x at h either links a new tree under h or, for a repeated x,
      changes nothing. */
  lemma MergeStep(rep0: map<int, int>, w0: map<int, int>, h: int, merged: set<int>,
                  p: map<int, int>, rep: map<int, int>, rk: map<int, nat>, bound: nat, w: map<int, int>, x: int)
    requires Forest(p, rep, rk, bound) && Merging(rep0, w0, h, merged, p, rep, w)
    requires x in rep0 && rep0[x] == x && h in rep0 && rep0[h] == h && x != h && h in w && x in w
    ensures x in merged ==> p[x := h] == p && Merging(rep0, w0, h, merged + {x}, p, rep, w[h := w[h] + w[x]])
    ensures x !in merged ==> p[x] == x && p[h] == h
    ensures x !in merged ==> Forest(p[x := h], Linked(rep, x, h), rk[h := bound], bound + 1)
    ensures x !in merged ==> Merging(rep0, w0, h, merged + {x}, p[x := h], Linked(rep, x, h), w[h := w[h] + w[x]])
  {
    if x !in merged {
      assert Known(p, x) && Known(p, h);
      LinkKeeps(p, rep, rk, bound, x, h);
    }
  }

  /** A weight that `__getitem__` gives an unseen item: 1. */
  function WeightOr1(ws: map<int, int>, x: int): int
  {
    if x in ws then ws[x] else 1
  }

  /** Python's order on the pairs (weight, name) that `max` compares. */
  predicate PairLe(a: (int, int), b: (int, int))
  {
    a.0 < b.0 || (a.0 == b.0 && a.1 <= b.1)
  }

  /** The weight `union` adds to the heaviest root h: that of every listed
      root other than h, counted once per occurrence. */
  function Added(ws: map<int, int>, roots: seq<int>, h: int): int
  {
    if roots == [] then 0
    else Added(ws, roots[..|roots| - 1], h) + (if roots[|roots| - 1] != h then WeightOr1(ws, roots[|roots| - 1]) else 0)
  }

  /** The name `__getitem__` returns for x: the name recorded for a known
      item, and x itself for an item not seen yet. */
  function NameOf(p: map<int, int>, rep: map<int, int>, x: int): int
  {
    if x in p && x in rep then rep[x] else x
  }

  function NamesOf(p: map<int, int>, rep: map<int, int>, xs: seq<int>): (r: seq<int>)
    ensures |r| == |xs|
  {
    if xs == [] then [] else NamesOf(p, rep, xs[..|xs| - 1]) + [NameOf(p, rep, xs[|xs| - 1])]
  }

  /** The items of a list, as a set. */
  function Items(xs: seq<int>): set<int>
  {
    if xs == [] then {} else Items(xs[..|xs| - 1]) + {xs[|xs| - 1]}
  }

  lemma {:induction false} ItemsIn(xs: seq<int>)
    ensures forall x :: x in Items(xs) <==> x in xs
  {
    if xs != [] {
      ItemsIn(xs[..|xs| - 1]);
      assert xs == xs[..|xs| - 1] + [xs[|xs| - 1]];
    }
  }

  /** Every item, known or not, has the same name in both states. */
  ghost predicate SameNames(p0: map<int, int>, r0: map<int, int>, p1: map<int, int>, r1: map<int, int>)
  {
    forall y :: NameOf(p1, r1, y) == NameOf(p0, r0, y)
  }

  /** What one lookup `X[obj]` leaves behind: root is obj's name before
      the lookup, no name changes, obj is known (weight 1 if it was not),
      root is a root, and the other weights stay. */
  ghost predicate Found(p0: map<int, int>, r0: map<int, int>, w0: map<int, int>,
                        p1: map<int, int>, r1: map<int, int>, w1: map<int, int>, obj: int, root: int)
  {
    r1.Keys == p1.Keys && w1.Keys == p1.Keys &&
    root == NameOf(p0, r0, obj) && SameNames(p0, r0, p1, r1) &&
    p1.Keys == p0.Keys + {obj} && root in p1 && r1[root] == root &&
    (obj !in p0 ==> w1 == w0[obj := 1]) && (obj in p0 ==> w1 == w0)
  }

  /** What looking up each listed object in turn leaves behind: the roots
      are the objects' names before the lookups, every name is unchanged,
      unseen objects have become known with weight 1, and the roots are
      roots. */
  ghost predicate LookedUp(p0: map<int, int>, r0: map<int, int>, w0: map<int, int>,
                           p1: map<int, int>, r1: map<int, int>, w1: map<int, int>,
                           objects: seq<int>, roots: seq<int>)
  {
    r1.Keys == p1.Keys && w1.Keys == p1.Keys &&
    roots == NamesOf(p0, r0, objects) && SameNames(p0, r0, p1, r1) &&
    p1.Keys == p0.Keys + Items(objects) &&
    (forall y :: y in w1 ==> w1[y] == WeightOr1(w0, y)) &&
    (forall k :: 0 <= k < |roots| ==> roots[k] in p1 && r1[roots[k]] == roots[k])
  }

  /** What the loop of `union` leaves behind: every root listed now points
      at h and its items are named h, h has gained the weight of every
      listed root other than itself, once per occurrence, and nothing else
      changed. */
  ghost predicate MergedInto(p1: map<int, int>, r1: map<int, int>, w1: map<int, int>,
                             p2: map<int, int>, r2: map<int, int>, w2: map<int, int>,
                             roots: seq<int>, h: int)
  {
    r2.Keys == p2.Keys && p2.Keys == p1.Keys && w2.Keys == w1.Keys && h in w1 &&
    Merging(r1, w1, h, Items(roots), p2, r2, w2) && w2[h] == w1[h] + Added(w1, roots, h)
  }

  /** One more lookup extends what the earlier lookups left behind. */
  lemma LookedUpStep(p0: map<int, int>, r0: map<int, int>, w0: map<int, int>,
                     p1: map<int, int>, r1: map<int, int>, w1: map<int, int>,
                     p2: map<int, int>, r2: map<int, int>, w2: map<int, int>,
                     objects: seq<int>, roots: seq<int>, obj: int, root: int)
    requires LookedUp(p0, r0, w0, p1, r1, w1, objects, roots) && w0.Keys == p0.Keys
    requires Found(p1, r1, w1, p2, r2, w2, obj, root)
    ensures LookedUp(p0, r0, w0, p2, r2, w2, objects + [obj], roots + [root])
  {
    assert (objects + [obj])[..|objects|] == objects;
    assert NameOf(p1, r1, obj) == NameOf(p0, r0, obj);
    forall k | 0 <= k < |roots|
      ensures roots[k] in p2 && r2[roots[k]] == roots[k]
    {
      assert NameOf(p2, r2, roots[k]) == NameOf(p1, r1, roots[k]);
    }
  }

  /** What `union(*objects)` promises when objects is not empty, in terms of
      the tables before (p0, r0, w0) and after (p2, r2, w2): h is the name
      of a listed object with the greatest (weight, name); every item whose
      name was a listed object's name is now named h and every other name
      is unchanged; h weighs its old weight plus that of every other listed
      name, once per occurrence, and every other weight is unchanged (1 for
      an item first seen here); the objects are now known. */
  ghost predicate Unioned(p0: map<int, int>, r0: map<int, int>, w0: map<int, int>,
                          p2: map<int, int>, r2: map<int, int>, w2: map<int, int>,
                          objects: seq<int>, h: int)
  {
    var names := NamesOf(p0, r0, objects);
    p2.Keys == p0.Keys + Items(objects) &&
    h in names && h in w2 &&
    (forall k :: 0 <= k < |names| ==> PairLe((WeightOr1(w0, names[k]), names[k]), (WeightOr1(w0, h), h))) &&
    (forall y :: NameOf(p2, r2, y) == if NameOf(p0, r0, y) in names then h else NameOf(p0, r0, y)) &&
    w2[h] == WeightOr1(w0, h) + Added(w0, names, h) &&
    (forall y :: y in w2 && y != h ==> w2[y] == WeightOr1(w0, y))
  }

  /** The lookups, the choice of h and the loop together make a union. */
  lemma UnionFacts(p0: map<int, int>, r0: map<int, int>, w0: map<int, int>,
                   p1: map<int, int>, r1: map<int, int>, w1: map<int, int>,
                   p2: map<int, int>, r2: map<int, int>, w2: map<int, int>,
                   objects: seq<int>, roots: seq<int>, h: int)
    requires LookedUp(p0, r0, w0, p1, r1, w1, objects, roots)
    requires h in roots && forall k :: 0 <= k < |roots| ==> roots[k] in w1 && PairLe((w1[roots[k]], roots[k]), (w1[h], h))
    requires MergedInto(p1, r1, w1, p2, r2, w2, roots, h)
    ensures Unioned(p0, r0, w0, p2, r2, w2, objects, h)
  {
    ItemsIn(roots);
    forall y
      ensures NameOf(p2, r2, y) == if NameOf(p0, r0, y) in roots then h else NameOf(p0, r0, y)
    {
      assert NameOf(p1, r1, y) == NameOf(p0, r0, y);
    }
    AddedSame(w1, w0, roots, h);
  }

  lemma {:induction false} AddedSame(w1: map<int, int>, w0: map<int, int>, roots: seq<int>, h: int)
    requires forall k :: 0 <= k < |roots| ==> WeightOr1(w1, roots[k]) == WeightOr1(w0, roots[k])
    ensures Added(w1, roots, h) == Added(w0, roots, h)
  {
    if roots != [] {
      AddedSame(w1, w0, roots[..|roots| - 1], h);
    }
  }

  /** The union-find structure over hashable items (here integers). The
      ghost map `rep` names each item's set; the methods keep it equal to
      the root reached by following `parents`. */
  class UnionFind {
    var parents: map<int, int>
    var weights: map<int, int>
    ghost var rep: map<int, int>
    ghost var rank: map<int, nat>
    ghost var bound: nat

    ghost predicate Valid()
      reads this
    {
      Forest(parents, rep, rank, bound) && weights.Keys == parents.Keys
    }

    constructor ()
      ensures Valid() && parents == map[] && weights == map[] && rep == map[]
    {
      parents, weights := map[], map[];
      rep, rank, bound := map[], map[], 0;
    }

    /** `X[obj]`: an unseen item becomes a singleton of weight 1 named by
        itself; otherwise the root is found and every item on the way is
        pointed straight at it, which leaves every item's name unchanged. */
    method Find(obj: int) returns (root: int)
      requires Valid()
      modifies this
      ensures Valid() && Found(old(parents), old(rep), old(weights), parents, rep, weights, obj, root)
      ensures parents[obj] == root && rep == old(rep)[obj := root]
      ensures forall y :: y in old(parents) ==> parents[y] == old(parents)[y] || parents[y] == root
    {
      if obj !in parents {
        AddKeeps(parents, rep, rank, bound, obj);
        parents := parents[obj := obj];
        weights := weights[obj := 1];
        rep := rep[obj := obj];
        rank := rank[obj := 0];
        bound := bound + 1;
        return obj;
      }
      var path;
      path, root := Climb(obj);
      Compress(path, root);
      assert Known(parents, root);
    }

    /** The walk from obj along parents up to its root. */
    method Climb(obj: int) returns (path: seq<int>, root: int)
      requires Valid() && obj in parents
      ensures |path| >= 1 && path[0] == obj && root == rep[obj] && root in parents && parents[root] == root
      ensures forall k :: 0 <= k < |path| ==> path[k] in parents && rep[path[k]] == root
    {
      assert Known(parents, obj);
      path := [obj];
      root := parents[obj];
      while root != path[|path| - 1]
        invariant |path| >= 1 && path[0] == obj && root in parents
        invariant forall k :: 0 <= k < |path| ==> path[k] in parents && rep[path[k]] == rep[obj]
        invariant root == parents[path[|path| - 1]]
        decreases bound - rank[path[|path| - 1]]
      {
        assert Known(parents, path[|path| - 1]) && Known(parents, root);
        path := path + [root];
        root := parents[root];
      }
      assert Known(parents, root);
    }

    /** Points every item of path at its root. */
    method Compress(path: seq<int>, root: int)
      requires Valid() && root in parents && parents[root] == root
      requires forall k :: 0 <= k < |path| ==> path[k] in parents && rep[path[k]] == root
      modifies this
      ensures Valid() && weights == old(weights) && rep == old(rep) && parents.Keys == old(parents.Keys)
      ensures parents[root] == root
      ensures forall y :: y in parents ==> parents[y] == old(parents)[y] || parents[y] == root
      ensures forall k :: 0 <= k < |path| ==> parents[path[k]] == root
    {
      for i := 0 to |path|
        invariant Valid() && weights == old(weights) && rep == old(rep) && rank == old(rank) && bound == old(bound)
        invariant parents.Keys == old(parents.Keys) && parents[root] == root
        invariant forall y :: y in parents ==> parents[y] == old(parents)[y] || parents[y] == root
        invariant forall k :: 0 <= k < i ==> parents[path[k]] == root
      {
        CompressKeeps(parents, rep, rank, bound, path[i], root);
        parents := parents[path[i] := root];
      }
    }

    /** `union(*objects)`: every object is looked up in turn, the root of
        greatest (weight, name) becomes the parent of every other root and
        gains its weight, once per occurrence in the list. With no objects
        `max` of an empty list raises and nothing has changed. */
    method Union(objects: seq<int>) returns (r: Result<int, string>)
      requires Valid()
      modifies this
      ensures Valid()
      ensures r.Failure? <==> objects == []
      ensures r.Failure? ==> r.error == EmptyMaxError && parents == old(parents) && weights == old(weights)
      ensures r.Success? ==> Unioned(old(parents), old(rep), old(weights), parents, rep, weights, objects, r.value)
    {
      ghost var p0, r0, w0 := parents, rep, weights;
      var roots := FindAll(objects);
      if roots == [] {
        return Failure(EmptyMaxError);
      }
      var h := Heaviest(weights, roots);
      ghost var p1, r1, w1 := parents, rep, weights;
      MergeAll(roots, h);
      UnionFacts(p0, r0, w0, p1, r1, w1, parents, rep, weights, objects, roots, h);
      r := Success(h);
    }

    /** The loop of `union`, run on this structure's tables. */
    method MergeAll(roots: seq<int>, h: int)
      requires Valid() && h in roots
      requires forall k :: 0 <= k < |roots| ==> roots[k] in parents && rep[roots[k]] == roots[k]
      modifies this
      ensures Valid() && MergedInto(old(parents), old(rep), old(weights), parents, rep, weights, roots, h)
    {
      parents, weights, rep, rank, bound := MergeRoots(parents, weights, roots, h, rep, rank, bound);
    }

    /** `[self[x] for x in objects]`: the names of the objects, each looked
        up in turn; the lookups leave every name as it was. */
    method FindAll(objects: seq<int>) returns (roots: seq<int>)
      requires Valid()
      modifies this
      ensures Valid() && LookedUp(old(parents), old(rep), old(weights), parents, rep, weights, objects, roots)
      ensures objects == [] ==> parents == old(parents) && weights == old(weights)
    {
      ghost var p0, r0, w0 := parents, rep, weights;
      roots := [];
      for i := 0 to |objects|
        invariant Valid() && LookedUp(p0, r0, w0, parents, rep, weights, objects[..i], roots)
        invariant i == 0 ==> parents == p0 && weights == w0
      {
        ghost var p1, r1, w1 := parents, rep, weights;
        var root := Find(objects[i]);
        LookedUpStep(p0, r0, w0, p1, r1, w1, parents, rep, weights, objects[..i], roots, objects[i], root);
        assert objects[..i + 1] == objects[..i] + [objects[i]];
        roots := roots + [root];
      }
      assert objects[..|objects|] == objects;
    }
  }

  /** The loop of `union` over the parent and weight tables: each root
      other than h is pointed at h, and h's weight grows by the root's
      weight, once per occurrence. The ghost name, rank and bound tables
      follow along. */
  method MergeRoots(p: map<int, int>, w: map<int, int>, roots: seq<int>, h: int,
                    ghost rep: map<int, int>, ghost rk: map<int, nat>, ghost bound: nat)
    returns (p': map<int, int>, w': map<int, int>, ghost rep': map<int, int>, ghost rk': map<int, nat>, ghost bound': nat)
    requires Forest(p, rep, rk, bound) && w.Keys == p.Keys && h in roots
    requires forall k :: 0 <= k < |roots| ==> roots[k] in p && rep[roots[k]] == roots[k]
    ensures Forest(p', rep', rk', bound') && w'.Keys == p'.Keys
    ensures MergedInto(p, rep, w, p', rep', w', roots, h)
  {
    p', w', rep', rk', bound' := p, w, rep, rk, bound;
    ghost var merged: set<int> := {};
    assert Known(p, h);
    for i := 0 to |roots|
      invariant Forest(p', rep', rk', bound') && w'.Keys == p'.Keys && p'.Keys == p.Keys
      invariant merged == Items(roots[..i])
      invariant Merging(rep, w, h, merged, p', rep', w')
      invariant w'[h] == w[h] + Added(w, roots[..i], h)
    {
      var x := roots[i];
      assert roots[..i + 1][..i] == roots[..i];
      if x != h {
        assert Known(p', x);
        MergeStep(rep, w, h, merged, p', rep', rk', bound', w', x);
        if x !in merged {
          rep' := Linked(rep', x, h);
          rk' := rk'[h := bound'];
          bound' := bound' + 1;
        }
        w' := w'[h := w'[h] + w'[x]];
        p' := p'[x := h];
      }
      merged := merged + {x};
    }
    assert roots[..|roots|] == roots;
  }

  /** The root `max` picks: the greatest (weight, name) pair, the first such
      on ties. */
  method Heaviest(ws: map<int, int>, roots: seq<int>) returns (h: int)
    requires roots != [] && forall k :: 0 <= k < |roots| ==> roots[k] in ws
    ensures h in roots && h in ws
    ensures forall k :: 0 <= k < |roots| ==> PairLe((ws[roots[k]], roots[k]), (ws[h], h))
  {
    h := roots[0];
    for i := 1 to |roots|
      invariant h in roots[..i] && h in ws
      invariant forall k :: 0 <= k < i ==> PairLe((ws[roots[k]], roots[k]), (ws[h], h))
    {
      if !PairLe((ws[roots[i]], roots[i]), (ws[h], h)) {
        h := roots[i];
      }
    }
  }

  /** A point of the router. `id` stands for the identity of the Python
      object (two points are the same point exactly when they are the same
      object); `node` is the input node it stands for, None for a Steiner
      point. Coordinates are integers here. */
  datatype Point = Point(id: nat, x: int, y: int, node: Option<nat>)

  /** `Line`: the two end points, in the order given, and the weight. */
  datatype Line = Line(first: Point, last: Point, w: int)

  const LineError := "The line does not contain points that make sense."

  /** The weight `kruskal` gives the edge from a point to itself. */
  const SelfLoopWeight := 100000

  /** `Line.getOther`: the end point that is not pt; an error when pt is
      not an end point. */
  function GetOther(line: Line, pt: Point): (r: Result<Point, string>)
    ensures r.Success? <==> pt == line.first || pt == line.last
    ensures r.Success? ==> {pt, r.value} == {line.first, line.last}
    ensures r.Failure? ==> r.error == LineError
  {
    if pt == line.first then Success(line.last)
    else if pt == line.last then Success(line.first)
    else Failure(LineError)
  }

  function Abs(a: int): int
  {
    if a < 0 then -a else a
  }

  /** The Manhattan distance `kruskal` puts on an edge. */
  function Dist(a: Point, b: Point): (d: int)
    ensures d >= 0 && (d == 0 <==> a.x == b.x && a.y == b.y)
  {
    Abs(a.x - b.x) + Abs(a.y - b.y)
  }

  /** No two listed points are the same object. */
  predicate Distinct(points: seq<Point>)
  {
    forall i, j :: 0 <= i < j < |points| ==> points[i].id != points[j].id
  }

  /** The k-th edge `kruskal` records for point i: the line to point k,
      first end point the one of lower index, and the self-loop at k = i. */
  function EdgeTo(points: seq<Point>, i: nat, k: nat): Line
    requires i < |points| && k < |points|
  {
    if i == k then Line(points[i], points[i], SelfLoopWeight)
    else if k < i then Line(points[k], points[i], Dist(points[k], points[i]))
    else Line(points[i], points[k], Dist(points[i], points[k]))
  }

  /** Edge k of point i joins point i to point k. */
  lemma EdgeToJoins(points: seq<Point>, i: nat, k: nat)
    requires Distinct(points) && i < |points| && k < |points|
    ensures GetOther(EdgeTo(points, i, k), points[i]) == Success(points[k])
    ensures EdgeTo(points, i, k).w == if i == k then SelfLoopWeight else Dist(points[i], points[k])
    ensures EdgeTo(points, i, k) == EdgeTo(points, k, i)
  {
  }

  /** The nested loops of `kruskal` that record every point's edges. */
  method BuildEdges(points: seq<Point>) returns (edges: seq<seq<Line>>)
    ensures |edges| == |points|
    ensures forall a :: 0 <= a < |points| ==> |edges[a]| == |points|
    ensures forall a, k :: 0 <= a < |points| && 0 <= k < |points| ==> edges[a][k] == EdgeTo(points, a, k)
  {
    var n := |points|;
    edges := seq(n, _ => []);
    for i := 0 to n
      invariant |edges| == n
      invariant forall a :: 0 <= a < i ==> |edges[a]| == n
      invariant forall a :: i <= a < n ==> |edges[a]| == i
      invariant forall a, k :: 0 <= a < n && 0 <= k < |edges[a]| ==> edges[a][k] == EdgeTo(points, a, k)
    {
      for j := i to n
        invariant |edges| == n
        invariant forall a :: 0 <= a < i ==> |edges[a]| == n
        invariant |edges[i]| == j
        invariant forall a :: i < a < n ==> |edges[a]| == if a < j then i + 1 else i
        invariant forall a, k :: 0 <= a < n && 0 <= k < |edges[a]| ==> edges[a][k] == EdgeTo(points, a, k)
      {
        if i != j {
          var line := Line(points[i], points[j], Dist(points[i], points[j]));
          edges := edges[i := edges[i] + [line]];
          edges := edges[j := edges[j] + [line]];
        } else {
          var line := Line(points[i], points[j], SelfLoopWeight);
          edges := edges[i := edges[i] + [line]];
        }
      }
    }
  }

  /** The loop that copies each point's edge weights into the table `G`. */
  method WeightTable(edges: seq<seq<Line>>) returns (g: seq<seq<int>>)
    ensures |g| == |edges|
    ensures forall i :: 0 <= i < |edges| ==> |g[i]| == |edges[i]|
    ensures forall i, j :: 0 <= i < |edges| && 0 <= j < |edges[i]| ==> g[i][j] == edges[i][j].w
  {
    g := [];
    for i := 0 to |edges|
      invariant |g| == i
      invariant forall a :: 0 <= a < i ==> |g[a]| == |edges[a]|
      invariant forall a, j :: 0 <= a < i && 0 <= j < |edges[a]| ==> g[a][j] == edges[a][j].w
    {
      var subset := [];
      for j := 0 to |edges[i]|
        invariant |subset| == j
        invariant forall b :: 0 <= b < j ==> subset[b] == edges[i][b].w
      {
        subset := subset + [edges[i][j].w];
      }
      g := g + [subset];
    }
  }

  /** A candidate edge (weight, u, v) as `kruskal` sorts them. */
  type Triple = (int, nat, nat)

  /** Python's order on the triples: by weight, then u, then v. */
  predicate TripleLe(a: Triple, b: Triple)
  {
    a.0 < b.0 || (a.0 == b.0 && (a.1 < b.1 || (a.1 == b.1 && a.2 <= b.2)))
  }

  predicate SortedTriples(s: seq<Triple>)
  {
    forall i, j :: 0 <= i < j < |s| ==> TripleLe(s[i], s[j])
  }

  /** Row u of the generator `(G[u][v], u, v) for v in G[u]`. */
  function Row(g: seq<seq<int>>, u: nat, m: nat): (r: seq<Triple>)
    requires u < |g| && m <= |g[u]|
    ensures |r| == m
    ensures forall k :: 0 <= k < m ==> r[k] == (g[u][k], u, k)
  {
    if m == 0 then [] else Row(g, u, m - 1) + [(g[u][m - 1], u, m - 1)]
  }

  /** The generator `(G[u][v], u, v) for u in G for v in G[u]`, rows 0 to m - 1. */
  function Triples(g: seq<seq<int>>, m: nat): seq<Triple>
    requires m <= |g|
  {
    if m == 0 then [] else Triples(g, m - 1) + Row(g, m - 1, |g[m - 1]|)
  }

  /** Every entry of the table is a triple, and every triple is an entry. */
  lemma {:induction false} TriplesHold(g: seq<seq<int>>, m: nat)
    requires m <= |g|
    ensures forall u, v :: 0 <= u < m && 0 <= v < |g[u]| ==> (g[u][v], u, v) in Triples(g, m)
    ensures forall t :: t in Triples(g, m) ==> t.1 < m && t.2 < |g[t.1]| && t.0 == g[t.1][t.2]
  {
    if m > 0 {
      TriplesHold(g, m - 1);
      var row := Row(g, m - 1, |g[m - 1]|);
      assert forall v :: 0 <= v < |g[m - 1]| ==> row[v] == (g[m - 1][v], m - 1, v);
    }
  }

  /** Inserts t in front of the first element not below it. */
  function Insert(t: Triple, s: seq<Triple>): (r: seq<Triple>)
    ensures multiset(r) == multiset(s) + multiset{t}
  {
    if s == [] then [t]
    else if TripleLe(t, s[0]) then [t] + s
    else
      assert s == [s[0]] + s[1..];
      [s[0]] + Insert(t, s[1..])
  }

  lemma {:induction false} InsertSorted(t: Triple, s: seq<Triple>)
    requires SortedTriples(s)
    ensures SortedTriples(Insert(t, s))
  {
    if s != [] && !TripleLe(t, s[0]) {
      var rest := Insert(t, s[1..]);
      InsertSorted(t, s[1..]);
      forall x | x in rest
        ensures TripleLe(s[0], x)
      {
        assert x in multiset(rest);
        assert x == t || x in multiset(s[1..]);
      }
    }
  }

  /** `sorted`: the triples in ascending order. */
  function Sort(ts: seq<Triple>): (r: seq<Triple>)
    ensures multiset(r) == multiset(ts) && SortedTriples(r)
  {
    if ts == [] then [] else
      assert ts == [ts[0]] + ts[1..];
      InsertSorted(ts[0], Sort(ts[1..]));
      Insert(ts[0], Sort(ts[1..]))
  }

  /** Labels for the sets `kruskal` has joined so far: comp[i] labels point i. */
  function Identity(n: nat): (r: seq<nat>)
    ensures |r| == n && forall i :: 0 <= i < n ==> r[i] == i
  {
    seq(n, i => i)
  }

  /** Label `from` merged into label `to`. */
  function Relabel(comp: seq<nat>, from: nat, to: nat): (r: seq<nat>)
    ensures |r| == |comp|
    ensures forall i :: 0 <= i < |comp| ==> r[i] == if comp[i] == from then to else comp[i]
  {
    seq(|comp|, i requires 0 <= i < |comp| => if comp[i] == from then to else comp[i])
  }

  /** The tree edges chosen and the labels at the end. */
  datatype Selection = Selection(tree: seq<(nat, nat)>, comp: seq<nat>)

  predicate InRange(ts: seq<Triple>, n: nat)
  {
    forall k :: 0 <= k < |ts| ==> ts[k].1 < n && ts[k].2 < n
  }

  /** The loop of `kruskal` over the sorted triples, on labels: a triple
      whose ends carry different labels becomes a tree edge and the two
      labels merge; any other triple is passed over. */
  function Select(ts: seq<Triple>, comp: seq<nat>): (s: Selection)
    requires InRange(ts, |comp|)
    ensures |s.comp| == |comp|
    decreases |ts|
  {
    if ts == [] then Selection([], comp)
    else
      var u, v := ts[0].1, ts[0].2;
      if comp[u] != comp[v] then
        var rest := Select(ts[1..], Relabel(comp, comp[u], comp[v]));
        Selection([(u, v)] + rest.tree, rest.comp)
      else Select(ts[1..], comp)
  }

  /** The union-find names the same sets as the labels. */
  ghost predicate Agrees(p: map<int, int>, rep: map<int, int>, comp: seq<nat>)
  {
    forall i, j :: 0 <= i < |comp| && 0 <= j < |comp| ==>
      (NameOf(p, rep, i) == NameOf(p, rep, j) <==> comp[i] == comp[j])
  }

  lemma AgreesSame(p0: map<int, int>, r0: map<int, int>, p1: map<int, int>, r1: map<int, int>, comp: seq<nat>)
    requires SameNames(p0, r0, p1, r1) && Agrees(p0, r0, comp)
    ensures Agrees(p1, r1, comp)
  {
    forall i, j | 0 <= i < |comp| && 0 <= j < |comp|
      ensures NameOf(p1, r1, i) == NameOf(p1, r1, j) <==> comp[i] == comp[j]
    {
      assert NameOf(p1, r1, i) == NameOf(p0, r0, i) && NameOf(p1, r1, j) == NameOf(p0, r0, j);
    }
  }

  /** `union(u, v)` of two differently labelled points merges exactly
      the two labelled sets. */
  lemma AgreesUnion(p0: map<int, int>, r0: map<int, int>, w0: map<int, int>,
                    p2: map<int, int>, r2: map<int, int>, w2: map<int, int>,
                    u: nat, v: nat, h: int, comp: seq<nat>)
    requires Agrees(p0, r0, comp) && u < |comp| && v < |comp| && comp[u] != comp[v]
    requires Unioned(p0, r0, w0, p2, r2, w2, [u, v], h)
    ensures Agrees(p2, r2, Relabel(comp, comp[u], comp[v]))
  {
    var uv: seq<int> := [u, v];
    var names := NamesOf(p0, r0, uv);
    assert uv[..1] == [u] && [u][..0] == [];
    assert NamesOf(p0, r0, [u]) == [NameOf(p0, r0, u)];
    assert names == [NameOf(p0, r0, u), NameOf(p0, r0, v)];
    var comp' := Relabel(comp, comp[u], comp[v]);
    forall i, j | 0 <= i < |comp| && 0 <= j < |comp|
      ensures NameOf(p2, r2, i) == NameOf(p2, r2, j) <==> comp'[i] == comp'[j]
    {
      assert NameOf(p0, r0, i) in names <==> comp[i] == comp[u] || comp[i] == comp[v];
      assert NameOf(p0, r0, j) in names <==> comp[j] == comp[u] || comp[j] == comp[v];
    }
  }

  /** One turn of the selection loop of `kruskal`: u and v are looked up
      and, when their names differ, joined; they differ exactly when their
      labels do. */
  method Consider(subtrees: UnionFind, u: nat, v: nat, ghost comp: seq<nat>) returns (joined: bool)
    requires subtrees.Valid() && u < |comp| && v < |comp| && Agrees(subtrees.parents, subtrees.rep, comp)
    modifies subtrees
    ensures subtrees.Valid() && joined == (comp[u] != comp[v])
    ensures Agrees(subtrees.parents, subtrees.rep, if joined then Relabel(comp, comp[u], comp[v]) else comp)
  {
    ghost var p0, r0 := subtrees.parents, subtrees.rep;
    var a := subtrees.Find(u);
    AgreesSame(p0, r0, subtrees.parents, subtrees.rep, comp);
    ghost var p1, r1 := subtrees.parents, subtrees.rep;
    var b := subtrees.Find(v);
    AgreesSame(p1, r1, subtrees.parents, subtrees.rep, comp);
    assert a == NameOf(subtrees.parents, subtrees.rep, u);
    joined := a != b;
    if joined {
      ghost var p2, r2, w2 := subtrees.parents, subtrees.rep, subtrees.weights;
      var merged := subtrees.Union([u, v]);
      AgreesUnion(p2, r2, w2, subtrees.parents, subtrees.rep, subtrees.weights, u, v, merged.value, comp);
    }
  }

  /** The selection loop of `kruskal`, run with a union-find as the source
      does; the chosen edges are those of the label model. */
  method SelectTree(ts: seq<Triple>, n: nat) returns (tree: seq<(nat, nat)>)
    requires InRange(ts, n)
    ensures tree == Select(ts, Identity(n)).tree
  {
    var subtrees := new UnionFind();
    tree := [];
    ghost var comp := Identity(n);
    for k := 0 to |ts|
      invariant subtrees.Valid() && |comp| == n
      invariant Agrees(subtrees.parents, subtrees.rep, comp)
      invariant Select(ts, Identity(n)).tree == tree + Select(ts[k..], comp).tree
    {
      var u, v := ts[k].1, ts[k].2;
      assert ts[k..][0] == ts[k] && ts[k..][1..] == ts[k + 1..];
      var joined := Consider(subtrees, u, v, comp);
      if joined {
        tree := tree + [(u, v)];
        comp := Relabel(comp, comp[u], comp[v]);
      }
    }
  }

  /** The labels in use. */
  function Labels(comp: seq<nat>): set<nat>
  {
    set i | 0 <= i < |comp| :: comp[i]
  }

  /** Merging two labels in use leaves one label fewer. */
  lemma RelabelDrops(comp: seq<nat>, u: nat, v: nat)
    requires u < |comp| && v < |comp| && comp[u] != comp[v]
    ensures |Labels(Relabel(comp, comp[u], comp[v]))| == |Labels(comp)| - 1
  {
    var comp' := Relabel(comp, comp[u], comp[v]);
    assert Labels(comp') == Labels(comp) - {comp[u]} by {
      forall l | l in Labels(comp) - {comp[u]}
        ensures l in Labels(comp')
      {
        var i :| 0 <= i < |comp| && comp[i] == l;
        assert comp'[i] == l;
      }
      assert comp'[v] == comp[v];
    }
  }

  /** Every tree edge costs one label: edges chosen plus labels left equal
      the labels at the start. */
  lemma {:induction false} SelectCount(ts: seq<Triple>, comp: seq<nat>)
    requires InRange(ts, |comp|)
    ensures |Select(ts, comp).tree| + |Labels(Select(ts, comp).comp)| == |Labels(comp)|
    decreases |ts|
  {
    if ts != [] {
      var u, v := ts[0].1, ts[0].2;
      if comp[u] != comp[v] {
        RelabelDrops(comp, u, v);
        SelectCount(ts[1..], Relabel(comp, comp[u], comp[v]));
      } else {
        SelectCount(ts[1..], comp);
      }
    }
  }

  /** Points with one label keep sharing a label, and the two ends of
      every triple considered end up with one label. */
  lemma {:induction false} SelectJoins(ts: seq<Triple>, comp: seq<nat>)
    requires InRange(ts, |comp|)
    ensures forall i, j :: 0 <= i < |comp| && 0 <= j < |comp| && comp[i] == comp[j] ==>
      Select(ts, comp).comp[i] == Select(ts, comp).comp[j]
    ensures forall k :: 0 <= k < |ts| ==> Select(ts, comp).comp[ts[k].1] == Select(ts, comp).comp[ts[k].2]
    decreases |ts|
  {
    if ts != [] {
      var u, v := ts[0].1, ts[0].2;
      var next := if comp[u] != comp[v] then Relabel(comp, comp[u], comp[v]) else comp;
      SelectJoins(ts[1..], next);
      assert Select(ts, comp).comp == Select(ts[1..], next).comp;
      forall k | 1 <= k < |ts|
        ensures Select(ts, comp).comp[ts[k].1] == Select(ts, comp).comp[ts[k].2]
      {
        assert ts[k] == ts[1..][k - 1];
      }
    }
  }

  lemma {:induction false} IdentityLabels(n: nat)
    ensures |Labels(Identity(n))| == n
  {
    if n > 0 {
      IdentityLabels(n - 1);
      assert Labels(Identity(n)) == Labels(Identity(n - 1)) + {n - 1} by {
        forall l | l in Labels(Identity(n))
          ensures l in Labels(Identity(n - 1)) + {n - 1}
        {
          var i :| 0 <= i < n && Identity(n)[i] == l;
          if i < n - 1 {
            assert Identity(n - 1)[i] == l;
          }
        }
        assert Identity(n)[n - 1] == n - 1;
        forall l | l in Labels(Identity(n - 1))
          ensures l in Labels(Identity(n))
        {
          var i :| 0 <= i < n - 1 && Identity(n - 1)[i] == l;
          assert Identity(n)[i] == l;
        }
      }
    }
  }

  /** Some triple runs from u to v. */
  predicate Covers(ts: seq<Triple>, u: nat, v: nat)
  {
    exists k :: 0 <= k < |ts| && ts[k].1 == u && ts[k].2 == v
  }

  /** When every pair of the n points is among the triples, the selection
      joins all n points under one label with exactly n - 1 edges: a
      spanning tree. */
  lemma Spans(ts: seq<Triple>, n: nat)
    requires n >= 1 && InRange(ts, n)
    requires forall u, v :: 0 <= u < n && 0 <= v < n ==> Covers(ts, u, v)
    ensures |Select(ts, Identity(n)).tree| == n - 1
    ensures forall i :: 0 <= i < n ==> Select(ts, Identity(n)).comp[i] == Select(ts, Identity(n)).comp[0]
  {
    var fin := Select(ts, Identity(n)).comp;
    SelectJoins(ts, Identity(n));
    forall i | 0 <= i < n
      ensures fin[i] == fin[0]
    {
      assert Covers(ts, 0, i);
      var k :| 0 <= k < |ts| && ts[k].1 == 0 && ts[k].2 == i;
    }
    assert Labels(fin) == {fin[0]};
    IdentityLabels(n);
    SelectCount(ts, Identity(n));
  }

  /** Every edge the selection picks joins two different points in range. */
  lemma {:induction false} SelectEdges(ts: seq<Triple>, comp: seq<nat>)
    requires InRange(ts, |comp|)
    ensures forall e :: e in Select(ts, comp).tree ==> e.0 < |comp| && e.1 < |comp| && e.0 != e.1
    decreases |ts|
  {
    if ts != [] {
      var u, v := ts[0].1, ts[0].2;
      if comp[u] != comp[v] {
        SelectEdges(ts[1..], Relabel(comp, comp[u], comp[v]));
      } else {
        SelectEdges(ts[1..], comp);
      }
    }
  }

  /** The table `G` of `kruskal`: the weight of every point's every edge. */
  function Weights(points: seq<Point>): (g: seq<seq<int>>)
    ensures |g| == |points|
    ensures forall i :: 0 <= i < |points| ==> |g[i]| == |points|
  {
    seq(|points|, i requires 0 <= i < |points| =>
      seq(|points|, k requires 0 <= k < |points| => EdgeTo(points, i, k).w))
  }

  /** The triples `kruskal` sorts, in sorted order. */
  function Candidates(points: seq<Point>): seq<Triple>
  {
    Sort(Triples(Weights(points), |points|))
  }

  /** Every sorted triple joins two of the points, and every pair of points
      has its triple. */
  lemma CandidatesCover(points: seq<Point>)
    ensures InRange(Candidates(points), |points|)
    ensures forall u, v :: 0 <= u < |points| && 0 <= v < |points| ==> Covers(Candidates(points), u, v)
  {
    var g, n := Weights(points), |points|;
    var ts := Candidates(points);
    TriplesHold(g, n);
    forall k | 0 <= k < |ts|
      ensures ts[k].1 < n && ts[k].2 < n
    {
      assert ts[k] in multiset(ts);
    }
    forall u, v | 0 <= u < n && 0 <= v < n
      ensures Covers(ts, u, v)
    {
      var t := (g[u][v], u, v);
      assert t in multiset(Triples(g, n));
      assert t in ts;
      var k :| 0 <= k < |ts| && ts[k] == t;
    }
  }

  /** The pairs of point indices `kruskal` selects. */
  function TreeOf(points: seq<Point>): (tree: seq<(nat, nat)>)
    ensures forall e :: e in tree ==> e.0 < |points| && e.1 < |points| && e.0 != e.1
  {
    CandidatesCover(points);
    SelectEdges(Candidates(points), Identity(|points|));
    Select(Candidates(points), Identity(|points|)).tree
  }

  /** The edge lines of the selected pairs, in selection order. */
  function MstLines(points: seq<Point>, tree: seq<(nat, nat)>): (r: seq<Line>)
    requires forall e :: e in tree ==> e.0 < |points| && e.1 < |points|
    ensures |r| == |tree|
  {
    if tree == [] then []
    else
      var e := tree[|tree| - 1];
      MstLines(points, tree[..|tree| - 1]) + [EdgeTo(points, e.0, e.1)]
  }

  lemma {:induction false} MstLinesAt(points: seq<Point>, tree: seq<(nat, nat)>)
    requires forall e :: e in tree ==> e.0 < |points| && e.1 < |points|
    ensures forall k :: 0 <= k < |tree| ==> MstLines(points, tree)[k] == EdgeTo(points, tree[k].0, tree[k].1)
  {
    if tree != [] {
      var init := tree[..|tree| - 1];
      assert forall e :: e in init ==> e in tree;
      MstLinesAt(points, init);
      assert forall k :: 0 <= k < |init| ==> init[k] == tree[k];
    }
  }

  lemma MstLinesSnoc(points: seq<Point>, tree: seq<(nat, nat)>, i: nat)
    requires forall e :: e in tree ==> e.0 < |points| && e.1 < |points|
    requires i < |tree|
    ensures MstLines(points, tree[..i + 1]) == MstLines(points, tree[..i]) + [EdgeTo(points, tree[i].0, tree[i].1)]
  {
    assert tree[..i + 1][..i] == tree[..i];
    assert forall e :: e in tree[..i + 1] ==> e in tree;
  }

  /** The list `kruskal` returns.  Kruskal's selection spans the points:
      n - 1 edges for n points. */
  function Mst(points: seq<Point>): (r: seq<Line>)
    ensures |r| == if points == [] then 0 else |points| - 1
  {
    if points != [] then
      CandidatesCover(points);
      Spans(Candidates(points), |points|);
      MstLines(points, TreeOf(points))
    else
      assert Candidates(points) == [];
      MstLines(points, TreeOf(points))
  }

  /** Every returned line joins two different listed points, lower index
      first, and weighs their Manhattan distance. */
  lemma MstEdges(points: seq<Point>)
    requires Distinct(points)
    ensures forall l :: l in Mst(points) ==>
      exists i, j :: 0 <= i < j < |points| && l == Line(points[i], points[j], Dist(points[i], points[j]))
  {
    var tree := TreeOf(points);
    MstLinesAt(points, tree);
    forall l | l in Mst(points)
      ensures exists i, j :: 0 <= i < j < |points| && l == Line(points[i], points[j], Dist(points[i], points[j]))
    {
      var k :| 0 <= k < |tree| && Mst(points)[k] == l;
      assert tree[k] in tree;
      var u, v := tree[k].0, tree[k].1;
      if u < v {
        assert l == Line(points[u], points[v], Dist(points[u], points[v]));
      } else {
        assert l == Line(points[v], points[u], Dist(points[v], points[u]));
      }
    }
  }

  /** The summed weight of some lines. */
  function Total(lines: seq<Line>): int
  {
    if lines == [] then 0 else Total(lines[..|lines| - 1]) + lines[|lines| - 1].w
  }

  lemma {:induction false} MstTotalNonnegative(points: seq<Point>)
    requires Distinct(points)
    ensures Total(Mst(points)) >= 0
  {
    MstEdges(points);
    TotalOfDistances(Mst(points));
  }

  lemma {:induction false} TotalOfDistances(lines: seq<Line>)
    requires forall l :: l in lines ==> l.w == Dist(l.first, l.last)
    ensures Total(lines) >= 0
  {
    if lines != [] {
      assert lines[|lines| - 1] in lines;
      TotalOfDistances(lines[..|lines| - 1]);
    }
  }

  /** The number of times point `id` ends a line: its `deg` once `kruskal`
      has recorded the lines. */
  function Degree(lines: seq<Line>, id: nat): nat
  {
    if lines == [] then 0
    else
      var l := lines[|lines| - 1];
      Degree(lines[..|lines| - 1], id) + (if l.first.id == id then 1 else 0) + (if l.last.id == id then 1 else 0)
  }

  /** The identities of the listed points. */
  function IdsOf(points: seq<Point>): set<nat>
  {
    set j | 0 <= j < |points| :: points[j].id
  }

  /** `deg` of every point after `kruskal(points)`: reset, then counted on
      the returned lines; other points keep theirs. */
  function DegAfter(d: map<nat, nat>, points: seq<Point>): (r: map<nat, nat>)
    ensures r.Keys == d.Keys + IdsOf(points)
  {
    map id | id in d.Keys + IdsOf(points) :: if id in IdsOf(points) then Degree(Mst(points), id) else d[id]
  }

  /** The loop over one point's edges that looks for the edge to p2:
      `getOther` raises on an edge p1 does not end. */
  function MatchesOf(row: seq<Line>, p1: Point, p2: Point): Result<seq<Line>, string>
  {
    if row == [] then Success([])
    else
      match MatchesOf(row[..|row| - 1], p1, p2)
      case Failure(e) => Failure(e)
      case Success(found) =>
        var o := GetOther(row[|row| - 1], p1);
        if o.Failure? then Failure(o.error)
        else if o.value == p2 then Success(found + [row[|row| - 1]])
        else Success(found)
  }

  /** Among the edges of point u exactly one leads to point v. */
  lemma {:induction false} MatchesOne(points: seq<Point>, u: nat, v: nat, m: nat)
    requires Distinct(points) && u < |points| && v < |points| && m <= |points|
    ensures MatchesOf(seq(m, k requires 0 <= k < m => EdgeTo(points, u, k)), points[u], points[v])
      == Success(if v < m then [EdgeTo(points, u, v)] else [])
  {
    var row := seq(m, k requires 0 <= k < m => EdgeTo(points, u, k));
    if m > 0 {
      MatchesOne(points, u, v, m - 1);
      assert row[..m - 1] == seq(m - 1, k requires 0 <= k < m - 1 => EdgeTo(points, u, k));
      EdgeToJoins(points, u, m - 1);
      assert GetOther(row[m - 1], points[u]) == Success(points[m - 1]);
      assert points[m - 1] == points[v] <==> m - 1 == v;
      var prev := MatchesOf(row[..m - 1], points[u], points[v]);
      assert prev == Success(if v < m - 1 then [EdgeTo(points, u, v)] else []);
      assert MatchesOf(row, points[u], points[v]) ==
        if m - 1 == v then Success(prev.value + [row[m - 1]]) else prev;
      if m - 1 == v {
        assert prev.value + [row[m - 1]] == [EdgeTo(points, u, v)];
      }
    }
  }

  /** The `deg` attribute of every point object, by identity, and the
      identity the next point object created gets. */
  class PointStore {
    var deg: map<nat, nat>
    var next: nat

    constructor ()
      ensures deg == map[] && next == 0
    {
      deg := map[];
      next := 0;
    }

    /** `kruskal`: the lines Kruskal's selection picks, in order of
        Manhattan distance, which span the points, with every point's `deg`
        set to its number of tree lines. */
    method Kruskal(points: seq<Point>) returns (mst: seq<Line>)
      requires Distinct(points)
      modifies this
      ensures mst == Mst(points)
      ensures deg == DegAfter(old(deg), points) && next == old(next)
    {
      ghost var d0 := deg;
      Reset(points);
      var edges := BuildEdges(points);
      var g := WeightTable(edges);
      WeightsMatch(points, edges, g);
      var ts := Sort(Triples(g, |points|));
      CandidatesCover(points);
      var tree := SelectTree(ts, |points|);
      assert tree == TreeOf(points);
      ghost var d1 := deg;
      mst := Collect(points, edges, tree);
      DegMatches(d0, d1, deg, points, mst);
    }

    /** A new `Point`: the next identity, `deg` 0 as `reset` sets it. */
    method NewPoint(x: int, y: int, node: Option<nat>) returns (p: Point)
      modifies this
      ensures p == Point(old(next), x, y, node)
      ensures next == old(next) + 1 && deg == old(deg)[old(next) := 0]
    {
      p := Point(next, x, y, node);
      deg := deg[next := 0];
      next := next + 1;
    }

    /** `delta_mst`: the tree weight saved by adding point x; both calls
        of `kruskal` leave their `deg` behind. */
    method DeltaMst(points: seq<Point>, x: Point) returns (r: int)
      requires Distinct(points + [x])
      modifies this
      ensures r == Delta(points, x)
      ensures deg == AfterDelta(old(deg), points, x) && next == old(next)
    {
      DistinctPrefix(points, x);
      var mst := Kruskal(points);
      var cost1 := SumWeights(mst);
      var combo := points + [x];
      mst := Kruskal(combo);
      var cost2 := SumWeights(mst);
      r := cost1 - cost2;
    }

    /** `hanan_points`: two new points for every pair of listed points,
        at the corners their coordinates cross. */
    method HananPoints(input: seq<Point>) returns (pts: seq<Point>)
      modifies this
      ensures Places(pts) == Hanan(input) && Numbered(pts, old(next))
      ensures next == old(next) + |pts| && deg == Fresh(old(deg), old(next), |pts|)
    {
      pts := [];
      for i := 0 to |input|
        invariant Places(pts) == HananTo(input, i) && Numbered(pts, old(next))
        invariant next == old(next) + |pts| && deg == Fresh(old(deg), old(next), |pts|)
      {
        ghost var before := pts;
        var row := CornerPoints(input, i);
        pts := pts + row;
        PlacesAppend(before, row);
        FreshMore(old(deg), old(next), |before|, |row|);
      }
    }

    /** The inner loop of `hanan_points` for point i. */
    method CornerPoints(input: seq<Point>, i: nat) returns (row: seq<Point>)
      requires i < |input|
      modifies this
      ensures Places(row) == CornersOf(input, i, |input|) && Numbered(row, old(next))
      ensures next == old(next) + |row| && deg == Fresh(old(deg), old(next), |row|)
    {
      row := [];
      for j := i to |input|
        invariant Places(row) == CornersOf(input, i, j) && Numbered(row, old(next))
        invariant next == old(next) + |row| && deg == Fresh(old(deg), old(next), |row|)
      {
        if i != j {
          var a := NewPoint(input[i].x, input[j].y, None);
          var b := NewPoint(input[j].x, input[i].y, None);
          CornerStep(input, i, j, row, a, b, old(deg), old(next));
          row := row + [a, b];
        }
      }
    }

    /** The comprehension of the main loop that keeps the Hanan points
        whose `delta_mst` is positive. */
    method Positive(points: seq<Point>, xs: seq<Point>) returns (cands: seq<Point>)
      requires forall x :: x in xs ==> Distinct(points + [x])
      modifies this
      ensures cands == PositiveOf(DeltaFn(points), xs)
      ensures deg == AfterDeltas(old(deg), points, xs) && next == old(next)
    {
      cands := [];
      for k := 0 to |xs|
        invariant cands == PositiveOf(DeltaFn(points), xs[..k])
        invariant deg == AfterDeltas(old(deg), points, xs[..k]) && next == old(next)
      {
        cands := PositiveStep(points, xs, k, cands, old(deg));
      }
      assert xs[..|xs|] == xs;
    }

    /** One turn of that comprehension. */
    method PositiveStep(points: seq<Point>, xs: seq<Point>, k: nat, cands: seq<Point>, ghost d: map<nat, nat>)
      returns (cands': seq<Point>)
      requires k < |xs| && forall x :: x in xs ==> Distinct(points + [x])
      requires cands == PositiveOf(DeltaFn(points), xs[..k]) && deg == AfterDeltas(d, points, xs[..k])
      modifies this
      ensures cands' == PositiveOf(DeltaFn(points), xs[..k + 1])
      ensures deg == AfterDeltas(d, points, xs[..k + 1]) && next == old(next)
    {
      assert xs[k] in xs;
      Snoc(DeltaFn(points), xs, k);
      DeltasSnoc(points, xs, k, d);
      var delta := DeltaMst(points, xs[k]);
      assert DeltaFn(points)(xs[k]) == delta;
      cands' := cands;
      if delta > 0 {
        cands' := cands' + [xs[k]];
      }
    }

    /** The loop of the main loop that picks the candidate with the largest
        `delta_mst`, the first of equals, starting from cost 0. */
    method Best(points: seq<Point>, cands: seq<Point>) returns (best: Option<Point>)
      requires forall x :: x in cands ==> Distinct(points + [x])
      modifies this
      ensures best == BestOf(DeltaFn(points), cands).0
      ensures deg == AfterDeltas(old(deg), points, cands) && next == old(next)
    {
      best := None;
      var cost := 0;
      for k := 0 to |cands|
        invariant (best, cost) == BestOf(DeltaFn(points), cands[..k])
        invariant deg == AfterDeltas(old(deg), points, cands[..k]) && next == old(next)
      {
        best, cost := BestStep(points, cands, k, best, cost, old(deg));
      }
      assert cands[..|cands|] == cands;
    }

    /** One turn of that loop. */
    method BestStep(points: seq<Point>, cands: seq<Point>, k: nat, best: Option<Point>, cost: int, ghost d: map<nat, nat>)
      returns (best': Option<Point>, cost': int)
      requires k < |cands| && Distinct(points + [cands[k]])
      requires (best, cost) == BestOf(DeltaFn(points), cands[..k]) && deg == AfterDeltas(d, points, cands[..k])
      modifies this
      ensures (best', cost') == BestOf(DeltaFn(points), cands[..k + 1])
      ensures deg == AfterDeltas(d, points, cands[..k + 1]) && next == old(next)
    {
      Snoc(DeltaFn(points), cands, k);
      DeltasSnoc(points, cands, k, d);
      var delta := DeltaMst(points, cands[k]);
      assert DeltaFn(points)(cands[k]) == delta;
      best', cost' := best, cost;
      if delta > cost {
        best', cost' := Some(cands[k]), delta;
      }
    }

    /** The comprehension that makes a `Point` for every input node. */
    method MakePoints(centroids: seq<(int, int)>) returns (points: seq<Point>)
      modifies this
      ensures points == InputPoints(old(next), centroids)
      ensures next == old(next) + |centroids| && deg == Fresh(old(deg), old(next), |centroids|)
    {
      points := [];
      for k := 0 to |centroids|
        invariant points == InputPoints(old(next), centroids[..k])
        invariant next == old(next) + k && deg == Fresh(old(deg), old(next), k)
      {
        var p := NewPoint(centroids[k].0, centroids[k].1, Some(k));
        points := points + [p];
        assert points == InputPoints(old(next), centroids[..k + 1]);
      }
      assert centroids[..|centroids|] == centroids;
    }

    /** `rectilinear_steiner_minimum_spanning_tree`: starting from the
        input points, adds the Hanan point that shortens the tree most,
        drops Steiner points of degree two or less, and stops once a round
        leaves the Steiner points as they were or finds no candidate; the
        result is the last tree, as pairs of nodes. At most `fuel` rounds
        are run. */
    method Rsmt(centroids: seq<(int, int)>, fuel: nat) returns (mst: seq<(Terminal, Terminal)>, steiner: seq<Point>)
      requires fuel >= 1
      modifies this
      ensures SteinerOk(steiner, old(next) + |centroids|, next)
      ensures mst == Output(Mst(InputPoints(old(next), centroids) + steiner))
      ensures centroids != [] ==> |mst| == |centroids| + |steiner| - 1
    {
      var points := MakePoints(centroids);
      ghost var base, lo := old(next), old(next) + |centroids|;
      steiner := [];
      var rsmt: seq<Line> := [];
      var going, rounds := true, 0;
      while going && rounds < fuel
        invariant points == InputPoints(base, centroids) && lo <= next
        invariant SteinerOk(steiner, lo, next)
        invariant rounds <= fuel && (rounds == 0 ==> going)
        invariant rounds > 0 ==> rsmt == Mst(points + steiner)
        decreases fuel - rounds
      {
        var merged := points + steiner;
        JoinDistinct(base, centroids, steiner, lo, next);
        ghost var n0 := next;
        var hanan := HananPoints(merged);
        FreshDistinct(merged, hanan, n0);
        var cands := Positive(merged, hanan);
        PositiveMembers(DeltaFn(merged), hanan);
        var best := Best(merged, cands);
        BestIsMax(DeltaFn(merged), cands);
        var before := steiner;
        if best.Some? {
          NewSteiner(steiner, lo, n0, next, hanan, best.value);
          steiner := steiner + [best.value];
        }
        BranchingKeeps(steiner, deg, lo, next);
        steiner := Branching(steiner, deg);
        JoinDistinct(base, centroids, steiner, lo, next);
        rsmt := Kruskal(points + steiner);
        rounds := rounds + 1;
        if before == steiner {
          break;
        }
        going := cands != [];
      }
      mst := Pairs(rsmt);
    }

    /** `p.reset()` for every listed point. */
    method Reset(points: seq<Point>)
      modifies this
      ensures deg.Keys == old(deg).Keys + IdsOf(points) && next == old(next)
      ensures forall j :: 0 <= j < |points| ==> deg[points[j].id] == 0
      ensures forall id :: id in old(deg) && id !in IdsOf(points) ==> deg[id] == old(deg)[id]
    {
      for i := 0 to |points|
        invariant deg.Keys == old(deg).Keys + IdsOf(points[..i]) && next == old(next)
        invariant forall j :: 0 <= j < i ==> deg[points[j].id] == 0
        invariant forall id :: id in old(deg) && id !in IdsOf(points[..i]) ==> deg[id] == old(deg)[id]
      {
        assert IdsOf(points[..i + 1]) == IdsOf(points[..i]) + {points[i].id} by {
          assert points[..i + 1][i] == points[i];
          forall id | id in IdsOf(points[..i + 1]) ensures id in IdsOf(points[..i]) + {points[i].id} {
            var j :| 0 <= j < i + 1 && points[..i + 1][j].id == id;
            if j < i { assert points[..i][j] == points[j]; }
          }
          forall id | id in IdsOf(points[..i]) ensures id in IdsOf(points[..i + 1]) {
            var j :| 0 <= j < i && points[..i][j].id == id;
            assert points[..i + 1][j] == points[j];
          }
        }
        deg := deg[points[i].id := 0];
      }
      assert points[..|points|] == points;
    }

    /** The last loop of `kruskal`, run on the `deg` of every point. */
    method Collect(points: seq<Point>, edges: seq<seq<Line>>, tree: seq<(nat, nat)>) returns (mst: seq<Line>)
      requires Distinct(points) && |edges| == |points|
      requires forall a :: 0 <= a < |points| ==> |edges[a]| == |points|
      requires forall a, k :: 0 <= a < |points| && 0 <= k < |points| ==> edges[a][k] == EdgeTo(points, a, k)
      requires forall e :: e in tree ==> e.0 < |points| && e.1 < |points| && e.0 != e.1
      requires forall j :: 0 <= j < |points| ==> points[j].id in deg && deg[points[j].id] == 0
      modifies this
      ensures mst == MstLines(points, tree)
      ensures deg.Keys == old(deg).Keys && next == old(next)
      ensures forall j :: 0 <= j < |points| ==> deg[points[j].id] == Degree(mst, points[j].id)
      ensures forall id :: id in old(deg) && id !in IdsOf(points) ==> deg[id] == old(deg)[id]
    {
      mst, deg := CollectLines(points, edges, tree, deg);
    }
  }

  /** The last loop of `kruskal`: for each selected pair (u, v) the edges
      of point u leading to point v are appended and both points' `deg`
      counts them. */
  method CollectLines(points: seq<Point>, edges: seq<seq<Line>>, tree: seq<(nat, nat)>, deg: map<nat, nat>)
    returns (mst: seq<Line>, deg': map<nat, nat>)
    requires Distinct(points) && |edges| == |points|
    requires forall a :: 0 <= a < |points| ==> |edges[a]| == |points|
    requires forall a, k :: 0 <= a < |points| && 0 <= k < |points| ==> edges[a][k] == EdgeTo(points, a, k)
    requires forall e :: e in tree ==> e.0 < |points| && e.1 < |points| && e.0 != e.1
    requires forall j :: 0 <= j < |points| ==> points[j].id in deg && deg[points[j].id] == 0
    ensures mst == MstLines(points, tree)
    ensures deg'.Keys == deg.Keys
    ensures forall j :: 0 <= j < |points| ==> deg'[points[j].id] == Degree(mst, points[j].id)
    ensures forall id :: id in deg && id !in IdsOf(points) ==> deg'[id] == deg[id]
  {
    mst, deg' := [], deg;
    for i := 0 to |tree|
      invariant mst == MstLines(points, tree[..i])
      invariant deg'.Keys == deg.Keys
      invariant forall j :: 0 <= j < |points| ==> deg'[points[j].id] == Degree(mst, points[j].id)
      invariant forall id :: id in deg && id !in IdsOf(points) ==> deg'[id] == deg[id]
    {
      assert tree[i] in tree;
      MstLinesSnoc(points, tree, i);
      mst, deg' := CollectPair(points, edges, tree[i].0, tree[i].1, mst, deg');
    }
    assert tree[..|tree|] == tree;
  }

  /** One turn of the last loop of `kruskal`: the edges of point u that
      lead to point v are appended and counted in both points' `deg`. */
  method CollectPair(points: seq<Point>, edges: seq<seq<Line>>, u: nat, v: nat, mst: seq<Line>, deg: map<nat, nat>)
    returns (mst': seq<Line>, deg': map<nat, nat>)
    requires Distinct(points) && |edges| == |points| && u < |points| && v < |points| && u != v
    requires |edges[u]| == |points|
    requires forall k :: 0 <= k < |points| ==> edges[u][k] == EdgeTo(points, u, k)
    requires forall j :: 0 <= j < |points| ==> points[j].id in deg && deg[points[j].id] == Degree(mst, points[j].id)
    ensures mst' == mst + [EdgeTo(points, u, v)]
    ensures deg'.Keys == deg.Keys
    ensures forall j :: 0 <= j < |points| ==> deg'[points[j].id] == Degree(mst', points[j].id)
    ensures forall id :: id !in IdsOf(points) && id in deg ==> deg'[id] == deg[id]
  {
    var point1, point2 := points[u], points[v];
    var found := Matches(edges[u], point1, point2);
    EdgesMatch(points, edges, u, v);
    var c := |found.value|;
    deg' := deg[point1.id := deg[point1.id] + c];
    ghost var d1 := deg';
    deg' := deg'[point2.id := deg'[point2.id] + c];
    mst' := mst + found.value;
    CountStep(points, deg, d1, deg', mst, u, v, c);
  }

  /** The table built from the recorded edges is `Weights(points)`. */
  lemma WeightsMatch(points: seq<Point>, edges: seq<seq<Line>>, g: seq<seq<int>>)
    requires |edges| == |points| && forall a :: 0 <= a < |points| ==> |edges[a]| == |points|
    requires forall a, k :: 0 <= a < |points| && 0 <= k < |points| ==> edges[a][k] == EdgeTo(points, a, k)
    requires |g| == |edges| && forall i :: 0 <= i < |edges| ==> |g[i]| == |edges[i]|
    requires forall i, j :: 0 <= i < |edges| && 0 <= j < |edges[i]| ==> g[i][j] == edges[i][j].w
    ensures g == Weights(points)
  {
    forall i | 0 <= i < |points|
      ensures g[i] == Weights(points)[i]
    {
      forall k | 0 <= k < |points|
        ensures g[i][k] == Weights(points)[i][k]
      {
        assert g[i][k] == edges[i][k].w;
      }
    }
  }

  /** Reset, then counted: the `deg` map `DegAfter` describes. */
  lemma DegMatches(d0: map<nat, nat>, d1: map<nat, nat>, d: map<nat, nat>, points: seq<Point>, mst: seq<Line>)
    requires mst == Mst(points)
    requires d1.Keys == d0.Keys + IdsOf(points)
    requires forall id :: id in d0 && id !in IdsOf(points) ==> d1[id] == d0[id]
    requires d.Keys == d1.Keys
    requires forall j :: 0 <= j < |points| ==> d[points[j].id] == Degree(mst, points[j].id)
    requires forall id :: id in d1 && id !in IdsOf(points) ==> d[id] == d1[id]
    ensures d == DegAfter(d0, points)
  {
    forall id | id in d.Keys
      ensures d[id] == DegAfter(d0, points)[id]
    {
      if id in IdsOf(points) {
        var j :| 0 <= j < |points| && points[j].id == id;
      }
    }
  }

  /** The edges of point u, searched for point v, give the one line joining them. */
  lemma EdgesMatch(points: seq<Point>, edges: seq<seq<Line>>, u: nat, v: nat)
    requires Distinct(points) && |edges| == |points| && u < |points| && v < |points|
    requires |edges[u]| == |points|
    requires forall k :: 0 <= k < |points| ==> edges[u][k] == EdgeTo(points, u, k)
    ensures MatchesOf(edges[u], points[u], points[v]) == Success([EdgeTo(points, u, v)])
  {
    assert edges[u] == seq(|points|, k requires 0 <= k < |points| => EdgeTo(points, u, k));
    MatchesOne(points, u, v, |points|);
  }

  /** Recording the line between points u and v adds one to the `deg` of
      each and changes no other. */
  lemma CountStep(points: seq<Point>, d: map<nat, nat>, d1: map<nat, nat>, d': map<nat, nat>, mst: seq<Line>,
                  u: nat, v: nat, c: nat)
    requires Distinct(points) && u < |points| && v < |points| && u != v && c == 1
    requires forall j :: 0 <= j < |points| ==> points[j].id in d && d[points[j].id] == Degree(mst, points[j].id)
    requires points[u].id in d && d1 == d[points[u].id := d[points[u].id] + c]
    requires points[v].id in d1 && d' == d1[points[v].id := d1[points[v].id] + c]
    ensures d'.Keys == d.Keys
    ensures forall j :: 0 <= j < |points| ==> d'[points[j].id] == Degree(mst + [EdgeTo(points, u, v)], points[j].id)
    ensures forall id :: id !in IdsOf(points) && id in d ==> d'[id] == d[id]
  {
    var mst' := mst + [EdgeTo(points, u, v)];
    assert mst'[..|mst'| - 1] == mst;
    forall j | 0 <= j < |points|
      ensures d'[points[j].id] == Degree(mst', points[j].id)
    {
      assert points[j].id == points[u].id <==> j == u;
      assert points[j].id == points[v].id <==> j == v;
    }
  }

  /** The inner loop over one point's edges. */
  method Matches(row: seq<Line>, p1: Point, p2: Point) returns (r: Result<seq<Line>, string>)
    ensures r == MatchesOf(row, p1, p2)
  {
    var found := [];
    for k := 0 to |row|
      invariant MatchesOf(row[..k], p1, p2) == Success(found)
    {
      assert row[..k + 1][..k] == row[..k];
      var o := GetOther(row[k], p1);
      if o.Failure? {
        r := Failure(o.error);
        assert MatchesOf(row[..k + 1], p1, p2) == r;
        FailureSticks(row, p1, p2, k + 1);
        return;
      }
      if o.value == p2 {
        found := found + [row[k]];
      }
    }
    assert row[..|row|] == row;
    r := Success(found);
  }

  /** Once `getOther` has raised, the loop stays failed. */
  lemma {:induction false} FailureSticks(row: seq<Line>, p1: Point, p2: Point, m: nat)
    requires m <= |row| && MatchesOf(row[..m], p1, p2).Failure?
    ensures MatchesOf(row, p1, p2) == MatchesOf(row[..m], p1, p2)
    decreases |row| - m
  {
    if m < |row| {
      assert row[..m + 1][..m] == row[..m];
      FailureSticks(row, p1, p2, m + 1);
    } else {
      assert row[..m] == row;
    }
  }

  /** Distinctness survives dropping the last point. */
  lemma DistinctPrefix(points: seq<Point>, x: Point)
    requires Distinct(points + [x])
    ensures Distinct(points) && x.id !in IdsOf(points)
  {
    var all := points + [x];
    forall i, j | 0 <= i < j < |points|
      ensures points[i].id != points[j].id
    {
      assert all[i] == points[i] && all[j] == points[j];
    }
    forall j | 0 <= j < |points|
      ensures points[j].id != x.id
    {
      assert all[j] == points[j] && all[|points|] == x;
    }
  }

  /** `delta_mst(points, x)`. */
  function Delta(points: seq<Point>, x: Point): int
  {
    Total(Mst(points)) - Total(Mst(points + [x]))
  }

  /** The loops of `delta_mst` that add up a tree's line weights. */
  method SumWeights(lines: seq<Line>) returns (cost: int)
    ensures cost == Total(lines)
  {
    cost := 0;
    for k := 0 to |lines|
      invariant cost == Total(lines[..k])
    {
      assert lines[..k + 1][..k] == lines[..k];
      cost := cost + lines[k].w;
    }
    assert lines[..|lines|] == lines;
  }

  /** The coordinates of some points. */
  function Places(pts: seq<Point>): (r: seq<(int, int)>)
    ensures |r| == |pts| && forall k :: 0 <= k < |pts| ==> r[k] == (pts[k].x, pts[k].y)
  {
    seq(|pts|, k requires 0 <= k < |pts| => (pts[k].x, pts[k].y))
  }

  /** One turn of the inner loop of `hanan_points` adds the two corners of
      points i and j, numbered on. */
  lemma CornerStep(input: seq<Point>, i: nat, j: nat, row: seq<Point>, a: Point, b: Point, d: map<nat, nat>, from: nat)
    requires i < j < |input|
    requires Places(row) == CornersOf(input, i, j) && Numbered(row, from)
    requires a == Point(from + |row|, input[i].x, input[j].y, None)
    requires b == Point(from + |row| + 1, input[j].x, input[i].y, None)
    ensures Places(row + [a, b]) == CornersOf(input, i, j + 1)
    ensures Numbered(row + [a, b], from)
    ensures Fresh(d, from, |row|)[from + |row| := 0][from + |row| + 1 := 0] == Fresh(d, from, |row + [a, b]|)
  {
    PlacesAppend(row, [a, b]);
    assert Places([a, b]) == [(input[i].x, input[j].y), (input[j].x, input[i].y)];
    CornerNumbered(row, a, b, from);
    FreshTwo(d, from, |row|);
  }

  lemma CornerNumbered(row: seq<Point>, a: Point, b: Point, from: nat)
    requires Numbered(row, from) && a.id == from + |row| && b.id == from + |row| + 1 && a.node == None && b.node == None
    ensures Numbered(row + [a, b], from)
  {
  }

  lemma FreshTwo(d: map<nat, nat>, from: nat, m: nat)
    ensures Fresh(d, from, m)[from + m := 0][from + m + 1 := 0] == Fresh(d, from, m + 2)
  {
  }

  lemma PlacesAppend(a: seq<Point>, b: seq<Point>)
    ensures Places(a + b) == Places(a) + Places(b)
  {
  }

  /** New Steiner points numbered on from identity `from`. */
  predicate Numbered(pts: seq<Point>, from: nat)
  {
    forall k :: 0 <= k < |pts| ==> pts[k].id == from + k && pts[k].node == None
  }

  lemma {:induction false} FreshMore(d: map<nat, nat>, from: nat, m: nat, c: nat)
    ensures Fresh(Fresh(d, from, m), from + m, c) == Fresh(d, from, m + c)
  {
    if c > 0 {
      FreshMore(d, from, m, c - 1);
    }
  }

  /** `deg` after `count` new points from identity `from` on. */
  function Fresh(d: map<nat, nat>, from: nat, count: nat): map<nat, nat>
  {
    if count == 0 then d else Fresh(d, from, count - 1)[from + count - 1 := 0]
  }

  /** The corners the inner loop of `hanan_points` adds for point i, with
      the points i to j - 1. */
  function CornersOf(ps: seq<Point>, i: nat, j: nat): seq<(int, int)>
    requires i < |ps| && j <= |ps|
  {
    if j <= i then []
    else CornersOf(ps, i, j - 1) + (if i != j - 1 then [(ps[i].x, ps[j - 1].y), (ps[j - 1].x, ps[i].y)] else [])
  }

  /** The corners `hanan_points` adds for the points 0 to m - 1. */
  function HananTo(ps: seq<Point>, m: nat): seq<(int, int)>
    requires m <= |ps|
  {
    if m == 0 then [] else HananTo(ps, m - 1) + CornersOf(ps, m - 1, |ps|)
  }

  /** The coordinates of the points `hanan_points` returns, in order. */
  function Hanan(ps: seq<Point>): seq<(int, int)>
  {
    HananTo(ps, |ps|)
  }

  lemma {:induction false} CornersSize(ps: seq<Point>, i: nat, j: nat)
    requires i < |ps| && i <= j <= |ps|
    ensures |CornersOf(ps, i, j)| == if j == i then 0 else 2 * (j - i - 1)
  {
    if j > i {
      CornersSize(ps, i, j - 1);
    }
  }

  lemma {:induction false} HananToSize(ps: seq<Point>, m: nat)
    requires m <= |ps|
    ensures |HananTo(ps, m)| == m * (2 * |ps| - m - 1)
  {
    if m > 0 {
      assert |HananTo(ps, m)| == |HananTo(ps, m - 1)| + |CornersOf(ps, m - 1, |ps|)|;
      HananToSize(ps, m - 1);
      CornersSize(ps, m - 1, |ps|);
      var n := |ps|;
      calc {
        (m - 1) * (2 * n - (m - 1) - 1) + 2 * (n - m);
        (m - 1) * (2 * n - m) + 2 * (n - m);
        { assert (m - 1) * (2 * n - m) == m * (2 * n - m) - (2 * n - m); }
        m * (2 * n - m) - 2 * n + m + 2 * n - 2 * m;
        m * (2 * n - m) - m;
        m * (2 * n - m - 1);
      }
    }
  }

  /** n points give n(n - 1) corners. */
  lemma HananSize(ps: seq<Point>)
    ensures |Hanan(ps)| == |ps| * (|ps| - 1)
  {
    HananToSize(ps, |ps|);
  }

  lemma {:induction false} CornersHas(ps: seq<Point>, i: nat, j: nat, k: nat)
    requires i < k < j <= |ps|
    ensures (ps[i].x, ps[k].y) in CornersOf(ps, i, j) && (ps[k].x, ps[i].y) in CornersOf(ps, i, j)
  {
    if k < j - 1 {
      CornersHas(ps, i, j - 1, k);
    }
  }

  /** The corners of point i are among those of points 0 to m - 1 once i < m. */
  lemma {:induction false} HananToHas(ps: seq<Point>, m: nat, i: nat, c: (int, int))
    requires i < m <= |ps| && c in CornersOf(ps, i, |ps|)
    ensures c in HananTo(ps, m)
  {
    if i < m - 1 {
      HananToHas(ps, m - 1, i, c);
      assert c in HananTo(ps, m - 1);
    } else {
      assert c in CornersOf(ps, m - 1, |ps|);
    }
  }

  /** Every two different listed points give both their corners. */
  lemma HananHas(ps: seq<Point>)
    ensures forall i, j :: 0 <= i < |ps| && 0 <= j < |ps| && i != j ==> (ps[i].x, ps[j].y) in Hanan(ps)
  {
    forall i, j | 0 <= i < |ps| && 0 <= j < |ps| && i != j
      ensures (ps[i].x, ps[j].y) in Hanan(ps)
    {
      if i < j {
        CornersHas(ps, i, |ps|, j);
        HananToHas(ps, |ps|, i, (ps[i].x, ps[j].y));
      } else {
        CornersHas(ps, j, |ps|, i);
        HananToHas(ps, |ps|, j, (ps[i].x, ps[j].y));
      }
    }
  }

  /** A corner of two different listed points. */
  predicate Corner(ps: seq<Point>, c: (int, int))
  {
    exists i, j :: 0 <= i < |ps| && 0 <= j < |ps| && i != j && c == (ps[i].x, ps[j].y)
  }

  lemma {:induction false} CornersOnly(ps: seq<Point>, i: nat, j: nat)
    requires i < |ps| && j <= |ps|
    ensures forall c :: c in CornersOf(ps, i, j) ==> Corner(ps, c)
  {
    if j > i {
      CornersOnly(ps, i, j - 1);
      if i != j - 1 {
        assert Corner(ps, (ps[i].x, ps[j - 1].y)) && Corner(ps, (ps[j - 1].x, ps[i].y));
      }
    }
  }

  lemma {:induction false} HananToOnly(ps: seq<Point>, m: nat)
    requires m <= |ps|
    ensures forall c :: c in HananTo(ps, m) ==> Corner(ps, c)
  {
    if m > 0 {
      CornersOnly(ps, m - 1, |ps|);
      HananToOnly(ps, m - 1);
      forall c | c in HananTo(ps, m)
        ensures Corner(ps, c)
      {
        if c !in HananTo(ps, m - 1) {
          assert c in CornersOf(ps, m - 1, |ps|);
        }
      }
    }
  }

  /** And nothing else: every point returned sits at such a corner. */
  lemma HananOnly(ps: seq<Point>)
    ensures forall c :: c in Hanan(ps) ==> Corner(ps, c)
  {
    HananToOnly(ps, |ps|);
  }


  /** `deg` after `delta_mst(points, x)`. */
  function AfterDelta(d: map<nat, nat>, points: seq<Point>, x: Point): map<nat, nat>
  {
    DegAfter(DegAfter(d, points), points + [x])
  }

  /** `deg` after `delta_mst(points, x)` for each x in turn. */
  function AfterDeltas(d: map<nat, nat>, points: seq<Point>, xs: seq<Point>): map<nat, nat>
  {
    if xs == [] then d else AfterDelta(AfterDeltas(d, points, xs[..|xs| - 1]), points, xs[|xs| - 1])
  }

  /** `delta_mst(points, x)` as a function of x. */
  function DeltaFn(points: seq<Point>): Point -> int
  {
    x => Delta(points, x)
  }

  /** One more point of xs for the loops over the candidates. */
  lemma Snoc(f: Point -> int, xs: seq<Point>, k: nat)
    requires k < |xs|
    ensures PositiveOf(f, xs[..k + 1]) == PositiveOf(f, xs[..k]) + if f(xs[k]) > 0 then [xs[k]] else []
    ensures BestOf(f, xs[..k + 1]) ==
      if f(xs[k]) > BestOf(f, xs[..k]).1 then (Some(xs[k]), f(xs[k])) else BestOf(f, xs[..k])
  {
    assert xs[..k + 1][..k] == xs[..k];
  }

  lemma DeltasSnoc(points: seq<Point>, xs: seq<Point>, k: nat, d: map<nat, nat>)
    requires k < |xs|
    ensures AfterDeltas(d, points, xs[..k + 1]) == AfterDelta(AfterDeltas(d, points, xs[..k]), points, xs[k])
  {
    assert xs[..k + 1][..k] == xs[..k];
  }

  /** The points of xs whose saving f is positive, in order. */
  function PositiveOf(f: Point -> int, xs: seq<Point>): seq<Point>
  {
    if xs == [] then []
    else
      var x := xs[|xs| - 1];
      PositiveOf(f, xs[..|xs| - 1]) + if f(x) > 0 then [x] else []
  }

  /** A candidate is a listed point with a positive saving. */
  lemma {:induction false} PositiveMembers(f: Point -> int, xs: seq<Point>)
    ensures forall x :: x in PositiveOf(f, xs) <==> x in xs && f(x) > 0
  {
    if xs != [] {
      var init, x := xs[..|xs| - 1], xs[|xs| - 1];
      PositiveMembers(f, init);
      assert xs == init + [x];
    }
  }

  /** The candidate chosen and its saving: the first strictly greater
      saving wins, against a starting cost of 0. */
  function BestOf(f: Point -> int, xs: seq<Point>): (Option<Point>, int)
  {
    if xs == [] then (None, 0)
    else
      var (b, c) := BestOf(f, xs[..|xs| - 1]);
      var x := xs[|xs| - 1];
      if f(x) > c then (Some(x), f(x)) else (b, c)
  }

  /** The chosen candidate saves the most of all and more than nothing;
      none is chosen exactly when no candidate saves anything. */
  lemma {:induction false} BestIsMax(f: Point -> int, xs: seq<Point>)
    ensures BestOf(f, xs).1 >= 0
    ensures forall x :: x in xs ==> f(x) <= BestOf(f, xs).1
    ensures BestOf(f, xs).0.None? ==> BestOf(f, xs).1 == 0
    ensures BestOf(f, xs).0.Some? ==>
      BestOf(f, xs).0.value in xs && BestOf(f, xs).1 > 0 && f(BestOf(f, xs).0.value) == BestOf(f, xs).1
  {
    if xs != [] {
      var init, x := xs[..|xs| - 1], xs[|xs| - 1];
      BestIsMax(f, init);
      assert xs == init + [x];
    }
  }

  /** Of several candidates saving the most, the first is chosen. */
  lemma {:induction false} BestIsFirst(f: Point -> int, xs: seq<Point>)
    ensures BestOf(f, xs).0.Some? ==>
      exists k :: 0 <= k < |xs| && xs[k] == BestOf(f, xs).0.value &&
        forall j :: 0 <= j < k ==> f(xs[j]) < BestOf(f, xs).1
  {
    if xs != [] {
      var init, x := xs[..|xs| - 1], xs[|xs| - 1];
      BestIsMax(f, init);
      BestIsFirst(f, init);
      var (b, c) := BestOf(f, init);
      if f(x) > c {
        assert xs[|xs| - 1] == x;
        forall j | 0 <= j < |xs| - 1
          ensures f(xs[j]) < f(x)
        {
          assert xs[j] in init;
        }
      } else if b.Some? {
        var k :| 0 <= k < |init| && init[k] == b.value && forall j :: 0 <= j < k ==> f(init[j]) < c;
        assert xs[k] == b.value;
        forall j | 0 <= j < k
          ensures f(xs[j]) < c
        {
          assert xs[j] == init[j];
        }
      }
    }
  }

  /** The `deg` a point has, 0 for one never reset. */
  function DegOf(d: map<nat, nat>, id: nat): nat
  {
    if id in d then d[id] else 0
  }

  /** `[pt for pt in steiner_points if pt.deg > 2]`. */
  function Branching(ps: seq<Point>, d: map<nat, nat>): (r: seq<Point>)
    ensures |r| <= |ps|
    ensures forall k :: 0 <= k < |r| ==> DegOf(d, r[k].id) > 2
  {
    if ps == [] then []
    else
      var p := ps[|ps| - 1];
      Branching(ps[..|ps| - 1], d) + if DegOf(d, p.id) > 2 then [p] else []
  }

  /** Steiner points: distinct, with no input node, numbered in [lo, hi). */
  predicate SteinerOk(ps: seq<Point>, lo: nat, hi: nat)
  {
    Distinct(ps) && forall k :: 0 <= k < |ps| ==> ps[k].node == None && lo <= ps[k].id < hi
  }

  /** Keeping the branching Steiner points keeps exactly those of `deg`
      above 2, and keeps them Steiner points. */
  lemma {:induction false} BranchingKeeps(ps: seq<Point>, d: map<nat, nat>, lo: nat, hi: nat)
    requires SteinerOk(ps, lo, hi)
    ensures SteinerOk(Branching(ps, d), lo, hi)
    ensures forall p :: p in Branching(ps, d) <==> p in ps && DegOf(d, p.id) > 2
  {
    if ps != [] {
      var init, p := ps[..|ps| - 1], ps[|ps| - 1];
      assert ps == init + [p];
      assert SteinerOk(init, lo, hi) by {
        forall i, j | 0 <= i < j < |init| ensures init[i].id != init[j].id {
          assert init[i] == ps[i] && init[j] == ps[j];
        }
      }
      BranchingKeeps(init, d, lo, hi);
      var kept := Branching(init, d);
      var r := Branching(ps, d);
      forall i | 0 <= i < |kept|
        ensures kept[i].id != p.id
      {
        assert kept[i] in init;
        var j :| 0 <= j < |init| && init[j] == kept[i];
        assert ps[j] == init[j] && ps[|ps| - 1] == p;
      }
      forall k | 0 <= k < |r|
        ensures r[k].node == None && lo <= r[k].id < hi
      {
        assert r[k] in ps;
        var j :| 0 <= j < |ps| && ps[j] == r[k];
      }
    }
  }

  /** The input points: identities from `base` on, node k for centroid k. */
  function InputPoints(base: nat, centroids: seq<(int, int)>): (r: seq<Point>)
    ensures |r| == |centroids|
  {
    seq(|centroids|, k requires 0 <= k < |centroids| => Point(base + k, centroids[k].0, centroids[k].1, Some(k)))
  }

  /** Input points and Steiner points together are distinct, and their
      identities are below hi. */
  lemma JoinDistinct(base: nat, centroids: seq<(int, int)>, steiner: seq<Point>, lo: nat, hi: nat)
    requires lo == base + |centroids| && lo <= hi && SteinerOk(steiner, lo, hi)
    ensures Distinct(InputPoints(base, centroids) + steiner)
    ensures forall p :: p in InputPoints(base, centroids) + steiner ==> p.id < hi
  {
    var all := InputPoints(base, centroids) + steiner;
    forall i, j | 0 <= i < j < |all|
      ensures all[i].id != all[j].id
    {
      if j >= |centroids| {
        assert all[j] == steiner[j - |centroids|];
        if i >= |centroids| {
          assert all[i] == steiner[i - |centroids|];
        }
      }
    }
  }

  /** A Hanan point is new: adding it to the listed points keeps them distinct. */
  lemma FreshDistinct(merged: seq<Point>, hanan: seq<Point>, n0: nat)
    requires Distinct(merged) && (forall p :: p in merged ==> p.id < n0) && Numbered(hanan, n0)
    ensures forall x :: x in hanan ==> Distinct(merged + [x])
  {
    forall x | x in hanan
      ensures Distinct(merged + [x])
    {
      var all := merged + [x];
      forall i, j | 0 <= i < j < |all|
        ensures all[i].id != all[j].id
      {
        assert all[i] in merged;
      }
    }
  }

  /** The chosen Hanan point joins the Steiner points as a Steiner point. */
  lemma NewSteiner(steiner: seq<Point>, lo: nat, n0: nat, hi: nat, hanan: seq<Point>, x: Point)
    requires SteinerOk(steiner, lo, n0) && lo <= n0 && Numbered(hanan, n0) && hi == n0 + |hanan| && x in hanan
    ensures SteinerOk(steiner + [x], lo, hi)
  {
    var all := steiner + [x];
    forall i, j | 0 <= i < j < |all|
      ensures all[i].id != all[j].id
    {
      if j == |steiner| {
        assert all[i] == steiner[i];
      } else {
        assert all[i] == steiner[i] && all[j] == steiner[j];
      }
    }
  }

  /** What an input node or a Steiner point stands for in the result. */
  datatype Terminal = Input(node: nat) | Branch(id: nat, x: int, y: int)

  /** `point_to_node`: an input point's node, or the one `Branch` made for
      a Steiner point. */
  function ToNode(p: Point): Terminal
  {
    match p.node
    case Some(n) => Input(n)
    case None => Branch(p.id, p.x, p.y)
  }

  /** Input points keep their node; every Steiner point gets a branch of
      its own at its coordinates. */
  lemma ToNodeFaithful(a: Point, b: Point)
    ensures ToNode(a).Input? <==> a.node.Some?
    ensures a.node.Some? ==> ToNode(a) == Input(a.node.value)
    ensures a.node == None && b.node == None ==> (ToNode(a) == ToNode(b) <==> a.id == b.id && a.x == b.x && a.y == b.y)
  {
  }

  /** The tree as pairs of nodes. */
  function Output(lines: seq<Line>): (r: seq<(Terminal, Terminal)>)
    ensures |r| == |lines|
  {
    seq(|lines|, k requires 0 <= k < |lines| => (ToNode(lines[k].first), ToNode(lines[k].last)))
  }

  /** The final loop that turns every line into a pair of nodes. */
  method Pairs(lines: seq<Line>) returns (mst: seq<(Terminal, Terminal)>)
    ensures mst == Output(lines)
  {
    mst := [];
    for k := 0 to |lines|
      invariant mst == Output(lines[..k])
    {
      var a := ToNode(lines[k].first);
      var b := ToNode(lines[k].last);
      mst := mst + [(a, b)];
    }
    assert lines[..|lines|] == lines;
  }
}
