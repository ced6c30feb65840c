/** The router's layer assignment.  Every two-net (a pair of terminals to
    join) gets a small directed graph with a copy of its route on each
    copper layer, split by via points, and a `Configuration` commits one
    source-to-sink route per two-net, greedily and then by re-routing.
    Edge weights come from the board geometry, which is given as an
    oracle; they are memoised in a cache that committed routes invalidate. */
module LayerAssign {
  import opened Wrappers
  import opened ShortestPath
  import Utils

  datatype Layer = Front | Back

  /** The two layers, in the order the graph is built. */
  const Layers: seq<Layer> := [Front, Back]

  /** A terminal of a two-net: its identity and the layers it is present on. */
  datatype Terminal = Terminal(id: nat, on: set<Layer>)

  datatype TwoNet = TwoNet(a: Terminal, b: Terminal)

  /** A node of a layer graph: the 'source' and 'sink' strings, or a branch
      object made by the `tag`-th graph build, on `layer`, at position `pos`
      of that layer's node list (0 stands for `a`, 1 for `b`, 2 + i for the
      i-th via point).  Branches of different builds are different objects. */
  datatype Node = Source | Sink | Branch(tag: nat, layer: Layer, pos: nat)

  /** The number of via points `build_layer_graph` places by default. */
  const ViaCount: nat := 2

  function Other(l: Layer): Layer
  {
    if l == Front then Back else Front
  }

  /** The next node along `l`'s chain a -> v1 -> ... -> vk -> b. */
  function Chain(tag: nat, k: nat, l: Layer, p: nat): Node
  {
    if p == 0 then (if k == 0 then Branch(tag, l, 1) else Branch(tag, l, 2))
    else if p + 1 < k + 2 then Branch(tag, l, p + 1)
    else Branch(tag, l, 1)
  }

  /** The nodes of the layer graph of `net` with `k` via points. */
  predicate InGraph(tag: nat, k: nat, n: Node)
  {
    n.Source? || n.Sink? || (n.tag == tag && n.pos < k + 2)
  }

  /** The source's edges, to `a` on each of the first `li` layers where `a` is present. */
  function SourceEdges(tag: nat, net: TwoNet, li: nat): seq<Node>
    requires li <= |Layers|
  {
    if li == 0 then []
    else SourceEdges(tag, net, li - 1) + (if Layers[li - 1] in net.a.on then [Branch(tag, Layers[li - 1], 0)] else [])
  }

  /** A branch's edges along its own layer: the chain successor, or for
      `b` the sink where `b` is present on that layer. */
  function Along(tag: nat, net: TwoNet, k: nat, l: Layer, p: nat): seq<Node>
  {
    if p == 1 then (if l in net.b.on then [Sink] else [])
    else [Chain(tag, k, l, p)]
  }

  /** The successors of each node, in the order the edges are added. */
  function Succ(tag: nat, net: TwoNet, k: nat, n: Node): seq<Node>
  {
    match n
    case Source => SourceEdges(tag, net, 2)
    case Sink => []
    case Branch(_, l, p) => Along(tag, net, k, l, p) + [Branch(tag, Other(l), p)]
  }

  /** g is the layer graph of `net` with `k` via points. */
  ghost predicate IsLayerGraph(g: Graph<Node>, tag: nat, net: TwoNet, k: nat)
  {
    (forall n :: n in g <==> InGraph(tag, k, n)) &&
    (forall n :: n in g ==> g[n] == Succ(tag, net, k, n))
  }

  /** The branches of `net` on `l` at positions from..to-1. */
  function Span(tag: nat, l: Layer, from: nat, to: nat): set<Node>
  {
    set p | from <= p < to :: Branch(tag, l, p)
  }

  lemma SpanGrows(tag: nat, l: Layer, from: nat, to: nat)
    requires from <= to
    ensures Span(tag, l, from, to + 1) == Span(tag, l, from, to) + {Branch(tag, l, to)}
  {
    var a, b := Span(tag, l, from, to + 1), Span(tag, l, from, to) + {Branch(tag, l, to)};
    forall n | n in a ensures n in b {
    }
  }

  /** networkx `add_edge`: both ends become nodes and y is appended to x's successors. */
  function AddEdge(g: Graph<Node>, x: Node, y: Node): Graph<Node>
  {
    var g1 := if y in g then g else g[y := []];
    g1[x := (if x in g then g[x] else []) + [y]]
  }

  /** `build_layer_graph(a, b, via_count)`. */
  method BuildLayerGraph(tag: nat, net: TwoNet, k: nat) returns (g: Graph<Node>)
    ensures IsLayerGraph(g, tag, net, k)
  {
    g := Layered(tag, net, k);
    ghost var g1 := g;
    for i := 0 to k + 2
      invariant CrossAt(g1, g, tag, net, k, i)
    {
      CrossStep(g1, g, tag, net, k, i);
      g := AddEdge(g, Branch(tag, Front, i), Branch(tag, Back, i));
      g := AddEdge(g, Branch(tag, Back, i), Branch(tag, Front, i));
    }
    CrossDone(g1, g, tag, net, k);
  }

  /** The layer loop of `build_layer_graph`: source, sink and both chains. */
  method Layered(tag: nat, net: TwoNet, k: nat) returns (g: Graph<Node>)
    ensures g.Keys == {Source, Sink} + Span(tag, Front, 0, k + 2) + Span(tag, Back, 0, k + 2)
    ensures CrossAt(g, g, tag, net, k, 0)
  {
    g := map[Source := [], Sink := []];
    g := LayerChain(g, tag, net, k, Front);
    ghost var front := g;
    g := LayerChain(g, tag, net, k, Back);
    assert SourceEdges(tag, net, 2) == g[Source] by {
      assert Layers[0] == Front && Layers[1] == Back;
      assert SourceEdges(tag, net, 1) == [] + (if Front in net.a.on then [Branch(tag, Front, 0)] else []);
    }
    forall l, p | 0 <= p < k + 2
      ensures Branch(tag, l, p) in g && g[Branch(tag, l, p)] == Along(tag, net, k, l, p)
    {
      assert Branch(tag, l, p) in Span(tag, l, 0, k + 2);
      if l == Front {
        assert Branch(tag, l, p) in front;
      }
    }
  }

  lemma CrossDone(g1: Graph<Node>, g: Graph<Node>, tag: nat, net: TwoNet, k: nat)
    requires g1.Keys == {Source, Sink} + Span(tag, Front, 0, k + 2) + Span(tag, Back, 0, k + 2)
    requires CrossAt(g1, g, tag, net, k, k + 2)
    ensures IsLayerGraph(g, tag, net, k)
  {
    CrossDoneKeys(g1, g, tag, net, k);
    CrossDoneSucc(g1, g, tag, net, k);
  }

  lemma CrossDoneSucc(g1: Graph<Node>, g: Graph<Node>, tag: nat, net: TwoNet, k: nat)
    requires forall n :: n in g <==> InGraph(tag, k, n)
    requires CrossAt(g1, g, tag, net, k, k + 2)
    ensures forall n :: n in g ==> g[n] == Succ(tag, net, k, n)
  {
    forall n | n in g ensures g[n] == Succ(tag, net, k, n) {
      if n.Branch? {
        assert InGraph(tag, k, n);
        assert g[Branch(tag, n.layer, n.pos)] == Along(tag, net, k, n.layer, n.pos) + [Branch(tag, Other(n.layer), n.pos)];
      }
    }
  }

  lemma CrossDoneKeys(g1: Graph<Node>, g: Graph<Node>, tag: nat, net: TwoNet, k: nat)
    requires g1.Keys == {Source, Sink} + Span(tag, Front, 0, k + 2) + Span(tag, Back, 0, k + 2)
    requires g.Keys == g1.Keys
    ensures forall n :: n in g <==> InGraph(tag, k, n)
  {
    forall n ensures n in g <==> InGraph(tag, k, n) {
      SpansHold(tag, k, n);
    }
  }

  lemma SpansHold(tag: nat, k: nat, n: Node)
    ensures n in {Source, Sink} + Span(tag, Front, 0, k + 2) + Span(tag, Back, 0, k + 2) <==> InGraph(tag, k, n)
  {
    var all := {Source, Sink} + Span(tag, Front, 0, k + 2) + Span(tag, Back, 0, k + 2);
    if !n.Branch? {
      assert n in {Source, Sink};
    } else if n.tag == tag && n.pos < k + 2 {
      if n.layer == Front {
        assert n in Span(tag, Front, 0, k + 2);
      } else {
        assert n in Span(tag, Back, 0, k + 2);
      }
      assert n in all;
    } else {
      assert n !in Span(tag, Front, 0, k + 2);
      assert n !in Span(tag, Back, 0, k + 2);
    }
  }

  /** The graph after `i` turns of the final loop, which links the i-th
      FRONT node and the i-th BACK node both ways. */
  ghost predicate CrossAt(g1: Graph<Node>, g: Graph<Node>, tag: nat, net: TwoNet, k: nat, i: nat)
  {
    g.Keys == g1.Keys && Source in g && Sink in g &&
    g[Sink] == [] && g[Source] == SourceEdges(tag, net, 2) &&
    (forall l, p :: 0 <= p < k + 2 ==> Branch(tag, l, p) in g) &&
    forall l, p :: 0 <= p < k + 2 ==>
      g[Branch(tag, l, p)] == Along(tag, net, k, l, p) + (if p < i then [Branch(tag, Other(l), p)] else [])
  }

  lemma CrossStep(g1: Graph<Node>, g: Graph<Node>, tag: nat, net: TwoNet, k: nat, i: nat)
    requires CrossAt(g1, g, tag, net, k, i) && i < k + 2
    ensures var g' := AddEdge(g, Branch(tag, Front, i), Branch(tag, Back, i));
      CrossAt(g1, AddEdge(g', Branch(tag, Back, i), Branch(tag, Front, i)), tag, net, k, i + 1)
  {
    var f, b := Branch(tag, Front, i), Branch(tag, Back, i);
    var g' := AddEdge(g, f, b);
    var g'' := AddEdge(g', b, f);
    assert g' == g[f := g[f] + [b]];
    assert g'' == g'[b := g[b] + [f]];
    assert g''.Keys == g.Keys;
    forall l, p | 0 <= p < k + 2
      ensures g''[Branch(tag, l, p)] == Along(tag, net, k, l, p) + (if p < i + 1 then [Branch(tag, Other(l), p)] else [])
    {
      var n := Branch(tag, l, p);
      if n == f {
        assert g''[n] == g[f] + [b];
      } else if n == b {
        assert g''[n] == g[b] + [f];
      } else {
        assert g''[n] == g[n];
      }
    }
  }

  /** One turn of the layer loop (layers FRONT then BACK): the chain
      a -> v1 -> ... -> vk -> b on `l`, with the source and sink edges
      where a and b are present. */
  method LayerChain(g0: Graph<Node>, tag: nat, net: TwoNet, k: nat, l: Layer) returns (g: Graph<Node>)
    requires Source in g0 && Sink in g0 && g0[Sink] == []
    requires forall p :: Branch(tag, l, p) !in g0
    ensures g.Keys == g0.Keys + Span(tag, l, 0, k + 2)
    ensures g[Sink] == [] && g[Source] == g0[Source] + (if l in net.a.on then [Branch(tag, l, 0)] else [])
    ensures forall n :: n in g0 && n != Source ==> g[n] == g0[n]
    ensures forall p :: 0 <= p < k + 2 ==> g[Branch(tag, l, p)] == Along(tag, net, k, l, p)
  {
    var al, bl := Branch(tag, l, 0), Branch(tag, l, 1);
    var last;
    g, last := Vias(g0, tag, k, l);
    LastLink(g0, g, tag, k, l, last);
    g := AddEdge(g, last, bl);
    if l in net.a.on {
      g := AddEdge(g, Source, al);
    }
    if l in net.b.on {
      g := AddEdge(g, bl, Sink);
    }
  }

  /** Closing the chain with the edge from the last via point (or from a) to b. */
  lemma LastLink(g0: Graph<Node>, g: Graph<Node>, tag: nat, k: nat, l: Layer, last: Node)
    requires ViasAt(g0, g, tag, k, l, k, last)
    ensures var g' := AddEdge(g, last, Branch(tag, l, 1));
      g'.Keys == g0.Keys + Span(tag, l, 0, k + 2) &&
      (forall n :: n in g0 ==> g'[n] == g0[n]) &&
      g'[Branch(tag, l, 1)] == [] &&
      forall p :: 0 <= p < k + 2 && p != 1 ==> g'[Branch(tag, l, p)] == [Chain(tag, k, l, p)]
  {
  }

  /** The via loop of one layer: a and b become nodes and the chain from a
      through the via points is laid, up to the last via point. */
  method Vias(g0: Graph<Node>, tag: nat, k: nat, l: Layer) returns (g: Graph<Node>, last: Node)
    requires forall p :: Branch(tag, l, p) !in g0
    ensures ViasAt(g0, g, tag, k, l, k, last)
  {
    var al, bl := Branch(tag, l, 0), Branch(tag, l, 1);
    g := g0[al := []][bl := []];
    last := al;
    assert Span(tag, l, 0, 2) == {al, bl};
    for i := 0 to k
      invariant ViasAt(g0, g, tag, k, l, i, last)
    {
      ViasStep(g0, g, tag, k, l, i, last);
      g, last := AddEdge(g, last, Branch(tag, l, i + 2)), Branch(tag, l, i + 2);
    }
  }

  /** The graph after `i` turns of the via loop on `l`. */
  ghost predicate ViasAt(g0: Graph<Node>, g: Graph<Node>, tag: nat, k: nat, l: Layer, i: nat, last: Node)
  {
    (forall p :: Branch(tag, l, p) !in g0) &&
    last == Branch(tag, l, if i == 0 then 0 else i + 1) &&
    g.Keys == g0.Keys + Span(tag, l, 0, i + 2) &&
    (forall n :: n in g0 ==> g[n] == g0[n]) &&
    g[Branch(tag, l, 1)] == [] && g[last] == [] &&
    forall p :: 0 <= p < i + 2 && p != 1 && Branch(tag, l, p) != last ==> g[Branch(tag, l, p)] == [Chain(tag, k, l, p)]
  }

  lemma ViasStep(g0: Graph<Node>, g: Graph<Node>, tag: nat, k: nat, l: Layer, i: nat, last: Node)
    requires ViasAt(g0, g, tag, k, l, i, last) && i < k
    ensures ViasAt(g0, AddEdge(g, last, Branch(tag, l, i + 2)), tag, k, l, i + 1, Branch(tag, l, i + 2))
  {
    var nx := Branch(tag, l, i + 2);
    ViasFresh(g0, g, tag, k, l, i, last);
    assert AddEdge(g, last, nx) == g[nx := []][last := [nx]];
    ViasUpdate(g0, g, tag, k, l, i, last);
  }

  /** The next via point is new, and the last one is a leaf that now chains to it. */
  lemma ViasFresh(g0: Graph<Node>, g: Graph<Node>, tag: nat, k: nat, l: Layer, i: nat, last: Node)
    requires ViasAt(g0, g, tag, k, l, i, last) && i < k
    ensures Branch(tag, l, i + 2) !in g && last in g && g[last] == [] && g[last] + [Branch(tag, l, i + 2)] == [Branch(tag, l, i + 2)]
  {
    assert Branch(tag, l, i + 2) !in Span(tag, l, 0, i + 2);
    assert last in Span(tag, l, 0, i + 2);
  }

  lemma ViasUpdate(g0: Graph<Node>, g: Graph<Node>, tag: nat, k: nat, l: Layer, i: nat, last: Node)
    requires ViasAt(g0, g, tag, k, l, i, last) && i < k && Branch(tag, l, i + 2) !in g
    ensures ViasAt(g0, g[Branch(tag, l, i + 2) := []][last := [Branch(tag, l, i + 2)]], tag, k, l, i + 1, Branch(tag, l, i + 2))
  {
    var nx := Branch(tag, l, i + 2);
    var g' := g[nx := []][last := [nx]];
    SpanGrows(tag, l, 0, i + 2);
    assert g'.Keys == g0.Keys + Span(tag, l, 0, i + 3);
    ViasCells(g0, g, tag, k, l, i, last);
  }

  lemma ViasCells(g0: Graph<Node>, g: Graph<Node>, tag: nat, k: nat, l: Layer, i: nat, last: Node)
    requires ViasAt(g0, g, tag, k, l, i, last) && i < k
    ensures var nx := Branch(tag, l, i + 2); var g' := g[nx := []][last := [nx]];
      forall p :: 0 <= p < i + 3 && p != 1 && Branch(tag, l, p) != nx ==> g'[Branch(tag, l, p)] == [Chain(tag, k, l, p)]
  {
    var nx := Branch(tag, l, i + 2);
    var g' := g[nx := []][last := [nx]];
    assert Chain(tag, k, l, last.pos) == nx;
    forall p | 0 <= p < i + 3 && p != 1 && Branch(tag, l, p) != nx
      ensures g'[Branch(tag, l, p)] == [Chain(tag, k, l, p)]
    {
      if Branch(tag, l, p) != last {
        assert g'[Branch(tag, l, p)] == g[Branch(tag, l, p)];
      }
    }
  }

  /** A weight defined on every edge, as `edge_weight` is. */
  ghost predicate Total(w: Weight<Node>)
  {
    forall x, y :: w(x, y).Some?
  }

  lemma SourceEdgesHas(tag: nat, net: TwoNet, li: nat, x: Node)
    requires li <= |Layers|
    ensures x in SourceEdges(tag, net, li) <==> exists j :: 0 <= j < li && Layers[j] in net.a.on && x == Branch(tag, Layers[j], 0)
  {
    if li > 0 {
      SourceEdgesHas(tag, net, li - 1, x);
    }
  }

  /** A layer graph routes its source to its sink exactly when `a` is
      present on some layer and `b` is present on some layer. */
  lemma {:induction false} RouteIff(g: Graph<Node>, tag: nat, net: TwoNet, k: nat, w: Weight<Node>)
    requires IsLayerGraph(g, tag, net, k) && Total(w)
    ensures (exists p :: Walk(g, w, p, Source, Sink)) <==> net.a.on != {} && net.b.on != {}
  {
    if p :| Walk(g, w, p, Source, Sink) {
      LinkedStep(g, w, p, 0);
      SourceEdgesHas(tag, net, 2, p[1]);
      LinkedStep(g, w, p, |p| - 2);
      var x := p[|p| - 2];
      assert Sink in g[x] && g[x] == Succ(tag, net, k, x);
      SourceEdgesHas(tag, net, 2, Sink);
      assert x.Branch? && Sink in Along(tag, net, k, x.layer, x.pos);
      assert x.layer in net.b.on;
    }
    if net.a.on != {} && net.b.on != {} {
      var la :| la in net.a.on;
      var lb :| lb in net.b.on;
      var p := RouteThrough(g, tag, net, k, w, la, lb);
    }
  }

  /** The walk source -> a on `la` (-> a on `lb`) -> via points on `lb` -> b -> sink. */
  lemma RouteThrough(g: Graph<Node>, tag: nat, net: TwoNet, k: nat, w: Weight<Node>, la: Layer, lb: Layer) returns (p: seq<Node>)
    requires IsLayerGraph(g, tag, net, k) && Total(w) && la in net.a.on && lb in net.b.on
    ensures Walk(g, w, p, Source, Sink)
  {
    p := RouteStart(g, tag, net, k, w, la, lb);
    p := RouteFinish(g, tag, net, k, w, lb, p);
  }

  /** From the source to the first branch of `lb`, by way of a via when `la` differs. */
  lemma RouteStart(g: Graph<Node>, tag: nat, net: TwoNet, k: nat, w: Weight<Node>, la: Layer, lb: Layer) returns (p: seq<Node>)
    requires IsLayerGraph(g, tag, net, k) && Total(w) && la in net.a.on
    ensures Walk(g, w, p, Source, Branch(tag, lb, 0))
  {
    assert la == Layers[0] || la == Layers[1];
    SourceEdgesHas(tag, net, 2, Branch(tag, la, 0));
    p := [Source, Branch(tag, la, 0)];
    assert Walk(g, w, p, Source, Branch(tag, la, 0)) by {
      assert p[..1] == [Source];
      assert Branch(tag, la, 0) in g[Source];
      assert Step(g, w, Source, Branch(tag, la, 0));
    }
    if la != lb {
      assert Other(la) == lb;
      WalkAppend(g, w, p, Source, Branch(tag, la, 0), Branch(tag, lb, 0));
      p := p + [Branch(tag, lb, 0)];
    }
  }

  /** From the first branch of `lb` along its chain to the sink. */
  lemma RouteFinish(g: Graph<Node>, tag: nat, net: TwoNet, k: nat, w: Weight<Node>, lb: Layer, p0: seq<Node>) returns (p: seq<Node>)
    requires IsLayerGraph(g, tag, net, k) && Total(w) && lb in net.b.on
    requires Walk(g, w, p0, Source, Branch(tag, lb, 0))
    ensures Walk(g, w, p, Source, Sink)
  {
    p := p0;
    for j := 0 to k
      invariant Walk(g, w, p, Source, Branch(tag, lb, if j == 0 then 0 else j + 1))
    {
      var last := Branch(tag, lb, if j == 0 then 0 else j + 1);
      assert g[last][0] == Branch(tag, lb, j + 2);
      WalkAppend(g, w, p, Source, last, Branch(tag, lb, j + 2));
      p := p + [Branch(tag, lb, j + 2)];
    }
    var last := Branch(tag, lb, if k == 0 then 0 else k + 1);
    assert g[last][0] == Branch(tag, lb, 1);
    WalkAppend(g, w, p, Source, last, Branch(tag, lb, 1));
    p := p + [Branch(tag, lb, 1)];
    assert g[Branch(tag, lb, 1)][0] == Sink;
    WalkAppend(g, w, p, Source, Branch(tag, lb, 1), Sink);
    p := p + [Sink];
  }


  /** The board geometry, which the router reads through shapely, as an
      oracle: `gap(x, y)` is the distance between the shapes of x and y,
      `span(x, y)` the length of the segment between their centroids and
      `crosses(i, j, x, y)` whether the segment i-j meets the segment x-y. */
  datatype Geometry = Geometry(gap: (Node, Node) -> real, span: (Node, Node) -> real,
                               crosses: (Node, Node, Node, Node) -> bool)

  /** Distances and lengths are never negative. */
  ghost predicate GeoOk(geo: Geometry)
  {
    forall x, y :: geo.gap(x, y) >= 0.0 && geo.span(x, y) >= 0.0
  }

  /** ALPHA, the balance between vias and line length (0 < ALPHA < 1). */
  const Alpha: real := 0.1

  /** Both ends of a segment are branches (the source and sink have no shape). */
  predicate Shaped(e: (Node, Node))
  {
    e.0.Branch? && e.1.Branch?
  }

  /** The committed segment e lies on the layer of s -> t and crosses it. */
  predicate Blocks(geo: Geometry, s: Node, t: Node, e: (Node, Node))
  {
    Shaped(e) && s.Branch? && e.0.layer == s.layer && geo.crosses(e.0, e.1, s, t)
  }

  /** The way round a blocking segment: s -> e.0 -> t or s -> e.1 -> t, whichever is shorter. */
  function Around(geo: Geometry, s: Node, t: Node, e: (Node, Node)): real
  {
    Utils.Min(geo.span(s, e.0) + geo.span(e.0, t), geo.span(s, e.1) + geo.span(e.1, t))
  }

  /** One segment's turn of the detour loop: the first blocking segment
      sets the detour (while it is still 0), later ones can only lower it. */
  function Visit(geo: Geometry, s: Node, t: Node, acc: real, e: (Node, Node)): (r: real)
    ensures !Blocks(geo, s, t, e) ==> r == acc
    ensures Blocks(geo, s, t, e) ==> r <= Around(geo, s, t, e) && (acc != 0.0 ==> r <= acc)
    ensures r == acc || r == Around(geo, s, t, e)
  {
    if Blocks(geo, s, t, e) then
      var d := Around(geo, s, t, e);
      if acc == 0.0 then d else Utils.Min(acc, d)
    else acc
  }

  /** The detour loop over the segments `segs`, from `acc`. */
  function DetourIn(geo: Geometry, s: Node, t: Node, acc: real, segs: seq<(Node, Node)>): real
  {
    if segs == [] then acc
    else Visit(geo, s, t, DetourIn(geo, s, t, acc, segs[..|segs| - 1]), segs[|segs| - 1])
  }

  /** The detour loop over the segments of every committed path, in order. */
  function DetourOver(geo: Geometry, s: Node, t: Node, paths: seq<seq<Node>>): real
  {
    if paths == [] then 0.0
    else DetourIn(geo, s, t, DetourOver(geo, s, t, paths[..|paths| - 1]), Utils.Pairwise(paths[|paths| - 1]))
  }

  /** The segments of every path, in order. */
  function Segments(paths: seq<seq<Node>>): seq<(Node, Node)>
  {
    if paths == [] then [] else Segments(paths[..|paths| - 1]) + Utils.Pairwise(paths[|paths| - 1])
  }

  /** What `edge_weight` computes for s -> t on a cache miss. */
  function Fresh(geo: Geometry, paths: seq<seq<Node>>, s: Node, t: Node): real
  {
    if !s.Branch? || !t.Branch? then 0.0
    else if s.layer != t.layer then (1.0 - Alpha) * (geo.gap(s, t) + 0.0) + Alpha * ((1 + 1) / 2) as real
    else (1.0 - Alpha) * (geo.gap(s, t) + DetourOver(geo, s, t, paths))
  }

  /** The weight `edge_weight` returns: the cached value, else a fresh one. */
  function Memo(geo: Geometry, cache: map<(Node, Node), real>, paths: seq<seq<Node>>, s: Node, t: Node): real
  {
    if (s, t) in cache then cache[(s, t)] else Fresh(geo, paths, s, t)
  }

  /** The weight the configuration's searches see. */
  function Weigh(geo: Geometry, cache: map<(Node, Node), real>, paths: seq<seq<Node>>): Weight<Node>
  {
    (s: Node, t: Node) => Some(Memo(geo, cache, paths, s, t))
  }

  lemma {:induction false} DetourAppend(geo: Geometry, s: Node, t: Node, acc: real, a: seq<(Node, Node)>, b: seq<(Node, Node)>)
    ensures DetourIn(geo, s, t, acc, a + b) == DetourIn(geo, s, t, DetourIn(geo, s, t, acc, a), b)
  {
    if b == [] {
      assert a + b == a;
    } else {
      DetourAppend(geo, s, t, acc, a, b[..|b| - 1]);
      assert (a + b)[..|a + b| - 1] == a + b[..|b| - 1];
    }
  }

  /** Folding path by path is folding over all their segments. */
  lemma {:induction false} DetourFlat(geo: Geometry, s: Node, t: Node, paths: seq<seq<Node>>)
    ensures DetourOver(geo, s, t, paths) == DetourIn(geo, s, t, 0.0, Segments(paths))
  {
    if paths != [] {
      var init := paths[..|paths| - 1];
      DetourFlat(geo, s, t, init);
      DetourAppend(geo, s, t, 0.0, Segments(init), Utils.Pairwise(paths[|paths| - 1]));
    }
  }

  /** With no zero-length way round, the detour is 0 when nothing blocks
      s -> t and otherwise the shortest way round a blocking segment. */
  lemma {:induction false} DetourLeast(geo: Geometry, s: Node, t: Node, segs: seq<(Node, Node)>)
    requires forall e :: e in segs && Blocks(geo, s, t, e) ==> Around(geo, s, t, e) > 0.0
    ensures var r := DetourIn(geo, s, t, 0.0, segs);
      ((forall e :: e in segs ==> !Blocks(geo, s, t, e)) ==> r == 0.0) &&
      (forall e :: e in segs && Blocks(geo, s, t, e) ==> r <= Around(geo, s, t, e)) &&
      ((exists e :: e in segs && Blocks(geo, s, t, e)) ==>
         exists e :: e in segs && Blocks(geo, s, t, e) && r == Around(geo, s, t, e))
  {
    if segs != [] {
      var init, e := segs[..|segs| - 1], segs[|segs| - 1];
      assert forall x :: x in init ==> x in segs;
      DetourLeast(geo, s, t, init);
      var r0 := DetourIn(geo, s, t, 0.0, init);
      var r := DetourIn(geo, s, t, 0.0, segs);
      assert r == Visit(geo, s, t, r0, e);
      forall x | x in segs && Blocks(geo, s, t, x)
        ensures r <= Around(geo, s, t, x)
      {
        if x != e {
          assert x in init;
          var y :| y in init && Blocks(geo, s, t, y) && r0 == Around(geo, s, t, y);
        }
      }
      if r != r0 {
        assert Blocks(geo, s, t, e) && r == Around(geo, s, t, e);
      } else if exists x :: x in segs && Blocks(geo, s, t, x) {
        if !Blocks(geo, s, t, e) || r0 != 0.0 {
          var x :| x in segs && Blocks(geo, s, t, x);
          if x != e {
            assert x in init;
          }
          var y :| y in init && Blocks(geo, s, t, y) && r0 == Around(geo, s, t, y);
          assert y in segs;
        }
      }
    }
  }

  /** The detour is never negative. */
  lemma {:induction false} DetourNonNeg(geo: Geometry, s: Node, t: Node, acc: real, segs: seq<(Node, Node)>)
    requires GeoOk(geo) && acc >= 0.0
    ensures DetourIn(geo, s, t, acc, segs) >= 0.0
  {
    if segs != [] {
      DetourNonNeg(geo, s, t, acc, segs[..|segs| - 1]);
    }
  }

  /** Edges at the source or sink weigh 0, a via weighs (1 - ALPHA) times
      the gap plus ALPHA, an edge along a layer (1 - ALPHA) times the gap
      plus the detour; no weight is negative. */
  lemma FreshWeight(geo: Geometry, paths: seq<seq<Node>>, s: Node, t: Node)
    requires GeoOk(geo)
    ensures Fresh(geo, paths, s, t) >= 0.0
    ensures !s.Branch? || !t.Branch? ==> Fresh(geo, paths, s, t) == 0.0
    ensures s.Branch? && t.Branch? && s.layer != t.layer ==> Fresh(geo, paths, s, t) == 0.9 * geo.gap(s, t) + 0.1
    ensures s.Branch? && t.Branch? && s.layer == t.layer ==>
      Fresh(geo, paths, s, t) == 0.9 * (geo.gap(s, t) + DetourIn(geo, s, t, 0.0, Segments(paths)))
  {
    DetourFlat(geo, s, t, paths);
    DetourNonNeg(geo, s, t, 0.0, Segments(paths));
  }

  /** Cached weights are never negative, so neither is any weight a search sees. */
  lemma WeighNonNeg(geo: Geometry, cache: map<(Node, Node), real>, paths: seq<seq<Node>>)
    requires GeoOk(geo) && forall e :: e in cache ==> cache[e] >= 0.0
    ensures NonNeg(Weigh(geo, cache, paths)) && Total(Weigh(geo, cache, paths))
  {
    forall x, y ensures Memo(geo, cache, paths, x, y) >= 0.0 {
      FreshWeight(geo, paths, x, y);
    }
  }

  /** Storing a freshly computed weight leaves every weight as it was. */
  lemma MemoFill(geo: Geometry, cache: map<(Node, Node), real>, paths: seq<seq<Node>>, s: Node, t: Node)
    requires (s, t) !in cache
    ensures forall x, y :: Memo(geo, cache[(s, t) := Fresh(geo, paths, s, t)], paths, x, y) == Memo(geo, cache, paths, x, y)
  {
  }

  /** The edges `dijkstra` weighs: every edge out of a node it fixes, but
      the target, where it stops before looking at the edges. */
  function Weighed(g: Graph<Node>, fixed: set<Node>, target: Node): (r: set<(Node, Node)>)
    ensures forall v, u :: (v, u) in r <==> v in fixed && v != target && v in g && u in g[v]
  {
    set v, u | v in fixed && v != target && v in g && u in g[v] :: (v, u)
  }

  /** The cache once `edge_weight` has been called on every edge of `es`:
      an edge already cached keeps its weight, any other gets its fresh one. */
  function Filled(geo: Geometry, cache: map<(Node, Node), real>, paths: seq<seq<Node>>,
                  es: set<(Node, Node)>): (r: map<(Node, Node), real>)
    ensures r.Keys == cache.Keys + es
    ensures forall e :: e in cache ==> r[e] == cache[e]
    ensures forall e :: e in es && e !in cache ==> r[e] == Fresh(geo, paths, e.0, e.1)
  {
    map e | e in cache.Keys + es :: Memo(geo, cache, paths, e.0, e.1)
  }

  /** Filling the cache changes no weight a search sees, and keeps cached
      weights non-negative. */
  lemma FilledAgree(geo: Geometry, cache: map<(Node, Node), real>, paths: seq<seq<Node>>, es: set<(Node, Node)>)
    ensures Agree(Weigh(geo, Filled(geo, cache, paths, es), paths), Weigh(geo, cache, paths))
    ensures GeoOk(geo) && (forall e :: e in cache ==> cache[e] >= 0.0) ==>
      forall e :: e in Filled(geo, cache, paths, es) ==> Filled(geo, cache, paths, es)[e] >= 0.0
  {
    var f := Filled(geo, cache, paths, es);
    forall x, y ensures Memo(geo, f, paths, x, y) == Memo(geo, cache, paths, x, y) {
      if (x, y) in es && (x, y) !in cache {
        assert f[(x, y)] == Fresh(geo, paths, x, y);
      }
    }
    if GeoOk(geo) && (forall e :: e in cache ==> cache[e] >= 0.0) {
      forall e | e in f ensures f[e] >= 0.0 {
        FreshWeight(geo, paths, e.0, e.1);
      }
    }
  }

  /** Two fills in a row are one fill with both sets of edges. */
  lemma FilledTwice(geo: Geometry, cache: map<(Node, Node), real>, paths: seq<seq<Node>>, a: set<(Node, Node)>, b: set<(Node, Node)>)
    ensures Filled(geo, Filled(geo, cache, paths, a), paths, b) == Filled(geo, cache, paths, a + b)
  {
    var l, r := Filled(geo, Filled(geo, cache, paths, a), paths, b), Filled(geo, cache, paths, a + b);
    assert l.Keys == r.Keys;
    forall e | e in l ensures l[e] == r[e] {
    }
  }

  /** The ends of the shaped segments among `segs` that meet the segment q. */
  function HitsIn(geo: Geometry, q: (Node, Node), segs: seq<(Node, Node)>): set<Node>
  {
    if segs == [] then {}
    else
      var e := segs[|segs| - 1];
      HitsIn(geo, q, segs[..|segs| - 1]) + (if Shaped(e) && geo.crosses(e.0, e.1, q.0, q.1) then {e.0, e.1} else {})
  }

  /** The same over the segments of every committed path, path by path. */
  function HitsOver(geo: Geometry, q: (Node, Node), paths: seq<seq<Node>>): set<Node>
  {
    if paths == [] then {}
    else HitsOver(geo, q, paths[..|paths| - 1]) + HitsIn(geo, q, Utils.Pairwise(paths[|paths| - 1]))
  }

  /** The nodes `_invalidate_cache_for_path` marks for the segments `qs` of a new path. */
  function Hits(geo: Geometry, paths: seq<seq<Node>>, qs: seq<(Node, Node)>): (r: set<Node>)
    ensures forall k :: 0 <= k < |qs| && Shaped(qs[k]) ==> HitsOver(geo, qs[k], paths) <= r
  {
    if qs == [] then {}
    else
      var q := qs[|qs| - 1];
      Hits(geo, paths, qs[..|qs| - 1]) + (if Shaped(q) then HitsOver(geo, q, paths) else {})
  }

  /** The cache without the entries that have a marked end. */
  function Purged(cache: map<(Node, Node), real>, dead: set<Node>): (r: map<(Node, Node), real>)
    ensures r.Keys <= cache.Keys && forall key :: key in r ==> r[key] == cache[key]
    ensures forall key :: key in cache && key !in r ==> key.0 in dead || key.1 in dead
  {
    map key | key in cache && key.0 !in dead && key.1 !in dead :: cache[key]
  }

  /** e meets the new segment q, both being shaped. */
  predicate Meets(geo: Geometry, q: (Node, Node), e: (Node, Node))
  {
    Shaped(q) && Shaped(e) && geo.crosses(e.0, e.1, q.0, q.1)
  }

  lemma {:induction false} HitsInIff(geo: Geometry, q: (Node, Node), segs: seq<(Node, Node)>, x: Node)
    requires Shaped(q)
    ensures x in HitsIn(geo, q, segs) <==> exists e :: e in segs && Meets(geo, q, e) && (x == e.0 || x == e.1)
  {
    if segs != [] {
      var init, e := segs[..|segs| - 1], segs[|segs| - 1];
      HitsInIff(geo, q, init, x);
      assert forall y :: y in segs <==> y in init || y == e;
    }
  }

  lemma {:induction false} SegmentsHas(paths: seq<seq<Node>>, e: (Node, Node))
    ensures e in Segments(paths) <==> exists i :: 0 <= i < |paths| && e in Utils.Pairwise(paths[i])
  {
    if paths != [] {
      var init := paths[..|paths| - 1];
      SegmentsHas(init, e);
      if e in Segments(paths) && e !in Segments(init) {
        assert e in Utils.Pairwise(paths[|paths| - 1]);
      }
      if i :| 0 <= i < |paths| && e in Utils.Pairwise(paths[i]) {
        if i < |paths| - 1 {
          assert init[i] == paths[i];
        }
      }
    }
  }

  lemma {:induction false} HitsOverIff(geo: Geometry, q: (Node, Node), paths: seq<seq<Node>>, x: Node)
    requires Shaped(q)
    ensures x in HitsOver(geo, q, paths) <==> exists e :: e in Segments(paths) && Meets(geo, q, e) && (x == e.0 || x == e.1)
  {
    if paths != [] {
      var init, last := paths[..|paths| - 1], Utils.Pairwise(paths[|paths| - 1]);
      HitsOverIff(geo, q, init, x);
      HitsInIff(geo, q, last, x);
      assert Segments(paths) == Segments(init) + last;
      assert forall y :: y in Segments(paths) <==> y in Segments(init) || y in last;
    }
  }

  /** A node is marked exactly when it ends a committed segment that meets
      a segment of the new path, both shaped. */
  lemma {:induction false} HitsIff(geo: Geometry, paths: seq<seq<Node>>, qs: seq<(Node, Node)>, x: Node)
    ensures x in Hits(geo, paths, qs) <==>
      exists q, e :: q in qs && e in Segments(paths) && Meets(geo, q, e) && (x == e.0 || x == e.1)
  {
    if qs != [] {
      var init, q := qs[..|qs| - 1], qs[|qs| - 1];
      HitsIff(geo, paths, init, x);
      if Shaped(q) {
        HitsOverIff(geo, q, paths, x);
      }
      assert forall y :: y in qs <==> y in init || y == q;
    }
  }

  /** The marking loops of `_invalidate_cache_for_path`. */
  method Marked(geo: Geometry, paths: seq<seq<Node>>, path: seq<Node>) returns (dead: set<Node>)
    ensures dead == Hits(geo, paths, Utils.Pairwise(path))
  {
    var qs := Utils.Pairwise(path);
    dead := {};
    for k := 0 to |qs|
      invariant dead == Hits(geo, paths, qs[..k])
    {
      assert qs[..k + 1][..k] == qs[..k];
      var q := qs[k];
      if q.0.Branch? && q.1.Branch? {
        var more := MarkedBy(geo, paths, q);
        dead := dead + more;
      }
    }
    assert qs[..|qs|] == qs;
  }

  /** The two inner loops: the ends of committed segments meeting q. */
  method MarkedBy(geo: Geometry, paths: seq<seq<Node>>, q: (Node, Node)) returns (dead: set<Node>)
    ensures dead == HitsOver(geo, q, paths)
  {
    dead := {};
    for i := 0 to |paths|
      invariant dead == HitsOver(geo, q, paths[..i])
    {
      assert paths[..i + 1][..i] == paths[..i];
      var segs := Utils.Pairwise(paths[i]);
      ghost var before := dead;
      for m := 0 to |segs|
        invariant dead == before + HitsIn(geo, q, segs[..m])
      {
        assert segs[..m + 1][..m] == segs[..m];
        var e := segs[m];
        if e.0.Branch? && e.1.Branch? && geo.crosses(e.0, e.1, q.0, q.1) {
          dead := dead + {e.0};
          dead := dead + {e.1};
        }
      }
      assert segs[..|segs|] == segs;
    }
    assert paths[..|paths|] == paths;
  }

  /** The deletion loop: every entry with a marked end goes, and the
      count of deleted entries is returned. */
  method Purge(cache: map<(Node, Node), real>, dead: set<Node>) returns (kept: map<(Node, Node), real>, n: nat)
    ensures kept == Purged(cache, dead)
    ensures n == |cache.Keys| - |kept.Keys|
  {
    kept := cache;
    n := 0;
    var keys := cache.Keys;
    while keys != {}
      invariant keys <= kept.Keys <= cache.Keys
      invariant forall key :: key in cache && key !in keys ==> (key in kept <==> key.0 !in dead && key.1 !in dead)
      invariant forall key :: key in kept ==> kept[key] == cache[key]
      invariant n == |cache.Keys| - |kept.Keys|
      decreases keys
    {
      var key :| key in keys;
      if key.0 in dead || key.1 in dead {
        assert (kept - {key}).Keys == kept.Keys - {key};
        kept := kept - {key};
        n := n + 1;
      }
      keys := keys - {key};
    }
    assert kept.Keys == Purged(cache, dead).Keys;
  }

  /** The summed weight of every path. */
  function PathsCost(w: Weight<Node>, ps: seq<seq<Node>>): real
  {
    if ps == [] then 0.0 else PathsCost(w, ps[..|ps| - 1]) + Cost(w, ps[|ps| - 1])
  }

  /** Two weights that agree on every edge. */
  ghost predicate Agree(w1: Weight<Node>, w2: Weight<Node>)
  {
    forall x, y :: Wt(w1, x, y) == Wt(w2, x, y)
  }

  lemma {:induction false} CostAgree(w1: Weight<Node>, w2: Weight<Node>, p: seq<Node>)
    requires Agree(w1, w2)
    ensures Cost(w1, p) == Cost(w2, p)
  {
    if |p| >= 2 {
      CostAgree(w1, w2, p[..|p| - 1]);
    }
  }

  /** Under two weights defined everywhere that agree on every edge, the
      same sequences are walks, at the same weight. */
  lemma WalkAgree(g: Graph<Node>, w1: Weight<Node>, w2: Weight<Node>, p: seq<Node>, a: Node, b: Node)
    requires Total(w1) && Total(w2) && Agree(w1, w2)
    ensures Walk(g, w1, p, a, b) <==> Walk(g, w2, p, a, b)
    ensures Cost(w1, p) == Cost(w2, p)
  {
    LinkedAny(g, w1, p);
    LinkedAny(g, w2, p);
    CostAgree(w1, w2, p);
  }

  /** So a search under either finds the same least distances and the same
      unreachable targets. */
  lemma SearchAgree(g: Graph<Node>, w1: Weight<Node>, w2: Weight<Node>, source: Node, cutoff: Option<real>, u: Node, d: real)
    requires Total(w1) && Total(w2) && Agree(w1, w2)
    ensures Least(g, w1, source, cutoff, u, d) ==> Least(g, w2, source, cutoff, u, d)
    ensures Unreachable(g, w1, source, cutoff, u) ==> Unreachable(g, w2, source, cutoff, u)
  {
    forall p ensures (Walk(g, w1, p, source, u) <==> Walk(g, w2, p, source, u)) && Cost(w1, p) == Cost(w2, p) {
      WalkAgree(g, w1, w2, p, source, u);
    }
  }

  /** Paths cost the same under weights that agree on every edge. */
  lemma {:induction false} PathsCostAgree(w1: Weight<Node>, w2: Weight<Node>, ps: seq<seq<Node>>)
    requires Agree(w1, w2)
    ensures PathsCost(w1, ps) == PathsCost(w2, ps)
  {
    if ps != [] {
      PathsCostAgree(w1, w2, ps[..|ps| - 1]);
      CostAgree(w1, w2, ps[|ps| - 1]);
    }
  }

  /** A weight with every edge present, for stating that a path is a walk. */
  const Any: Weight<Node> := (x: Node, y: Node) => Some(0.0)

  /** p is a walk from the source to the sink of g. */
  ghost predicate IsRoute(g: Graph<Node>, p: seq<Node>)
  {
    Walk(g, Any, p, Source, Sink)
  }

  /** Whether a sequence is a walk does not depend on a weight defined everywhere. */
  lemma {:induction false} LinkedAny(g: Graph<Node>, w: Weight<Node>, p: seq<Node>)
    requires Total(w)
    ensures Linked(g, w, p) <==> Linked(g, Any, p)
  {
    if |p| >= 2 {
      LinkedAny(g, w, p[..|p| - 1]);
    }
  }

  /** g is the layer graph of `net` from some build. */
  ghost predicate IsLayered(g: Graph<Node>, net: TwoNet)
  {
    exists tag :: IsLayerGraph(g, tag, net, ViaCount)
  }

  /** A layer graph holds its source and every successor of its nodes. */
  lemma LayeredIsClosed(g: Graph<Node>, net: TwoNet)
    requires IsLayered(g, net)
    ensures Source in g && Closed(g)
  {
    var tag :| IsLayerGraph(g, tag, net, ViaCount);
    forall x, i | x in g && 0 <= i < |g[x]| ensures g[x][i] in g {
      if x.Source? {
        SourceEdgesHas(tag, net, 2, g[x][i]);
      }
    }
  }

  /** The distinct elements of s, each where it first occurs. */
  function Dedup<T(==)>(s: seq<T>): seq<T>
  {
    if s == [] then []
    else
      var r := Dedup(s[..|s| - 1]);
      if s[|s| - 1] in r then r else r + [s[|s| - 1]]
  }

  /** Dedup keeps every element once and nothing else. */
  lemma {:induction false} DedupFacts<T>(s: seq<T>)
    ensures forall x :: x in Dedup(s) <==> x in s
    ensures forall i, j :: 0 <= i < j < |Dedup(s)| ==> Dedup(s)[i] != Dedup(s)[j]
  {
    if s != [] {
      var init := s[..|s| - 1];
      DedupFacts(init);
      assert forall x :: x in s <==> x in init || x == s[|s| - 1];
    }
  }

  /** The detour loop of `edge_weight` over the committed paths and their segments. */
  method Detour(geo: Geometry, paths: seq<seq<Node>>, s: Node, t: Node) returns (d: real)
    ensures d == DetourOver(geo, s, t, paths)
  {
    d := 0.0;
    for i := 0 to |paths|
      invariant d == DetourOver(geo, s, t, paths[..i])
    {
      assert paths[..i + 1][..i] == paths[..i];
      var segs := Utils.Pairwise(paths[i]);
      ghost var before := d;
      for m := 0 to |segs|
        invariant d == DetourIn(geo, s, t, before, segs[..m])
      {
        assert segs[..m + 1][..m] == segs[..m];
        var e := segs[m];
        assert DetourIn(geo, s, t, before, segs[..m + 1]) == Visit(geo, s, t, d, e);
        if Blocks(geo, s, t, e) {
          var d1 := geo.span(s, e.0) + geo.span(e.0, t);
          var d2 := geo.span(s, e.1) + geo.span(e.1, t);
          var de := Utils.Min(d1, d2);
          if d == 0.0 {
            d := de;
          } else {
            d := Utils.Min(d, de);
          }
        }
      }
      assert segs[..|segs|] == segs;
    }
    assert paths[..|paths|] == paths;
  }

  /** The cache-miss branch of `edge_weight`: distance plus detour, weighted
      by 1 - ALPHA, plus ALPHA per via. */
  method Uncached(geo: Geometry, paths: seq<seq<Node>>, s: Node, t: Node) returns (c: real)
    ensures c == Fresh(geo, paths, s, t)
  {
    var detour := 0.0;
    var isVia := false;
    var basic := 0.0;
    if s.Branch? && t.Branch? {
      basic := geo.gap(s, t);
      isVia := s.layer != t.layer;
      if !isVia {
        detour := Detour(geo, paths, s, t);
      }
    }
    c := (1.0 - Alpha) * (basic + detour);
    if isVia {
      // each branch lies on exactly one layer
      var viaCount := (1 + 1) / 2;
      c := c + Alpha * viaCount as real;
    }
  }

  /** `all` is split between `done` and `free`, each two-net once. */
  ghost predicate Split(all: seq<TwoNet>, done: seq<TwoNet>, free: seq<TwoNet>)
  {
    (forall n :: n in all <==> n in done || n in free) &&
    (forall n :: n in free ==> n !in done) &&
    (forall i, j :: 0 <= i < j < |free| ==> free[i] != free[j]) &&
    (forall i, j :: 0 <= i < j < |done| ==> done[i] != done[j])
  }

  /** Moving the j-th free element to the end of `done` keeps the split. */
  lemma SplitMove(all: seq<TwoNet>, done: seq<TwoNet>, free: seq<TwoNet>, j: nat)
    requires Split(all, done, free) && j < |free|
    ensures Split(all, done + [free[j]], free[..j] + free[j + 1..])
  {
    var rest := free[..j] + free[j + 1..];
    assert forall n :: n in free <==> n == free[j] || n in rest;
    forall i, k | 0 <= i < k < |rest| ensures rest[i] != rest[k] {
      var i' := if i < j then i else i + 1;
      var k' := if k < j then k else k + 1;
      assert rest[i] == free[i'] && rest[k] == free[k'];
    }
    assert free[j] !in rest;
  }

  /** Every weight is present, whatever the cache holds. */
  lemma WeighTotal(geo: Geometry, cache: map<(Node, Node), real>, paths: seq<seq<Node>>)
    ensures Total(Weigh(geo, cache, paths))
  {
  }

  /** One turn i of the re-routing pass of `improve`, from the paths and
      cache `paths0`, `cache0` to `paths1`, `cache1`: path i is dropped and
      the cache invalidated for it, the two-net `n` is searched without
      cutoff, filling the cache with the edges the search weighed from the
      nodes it fixed, and the route found, a least one under the weights
      the search saw, is put back and the cache invalidated for it.  No
      other path changes. */
  ghost predicate RerouteStep(geo: Geometry, graphs: map<TwoNet, Graph<Node>>, n: TwoNet, i: nat,
                              paths0: seq<seq<Node>>, cache0: map<(Node, Node), real>,
                              paths1: seq<seq<Node>>, cache1: map<(Node, Node), real>, fixed: set<Node>)
  {
    n in graphs && i < |paths0| && |paths1| == |paths0| &&
    var cleared := Purged(cache0, Hits(geo, paths0, Utils.Pairwise(paths0[i])));
    var taken := paths0[i := []];
    var filled := Filled(geo, cleared, taken, Weighed(graphs[n], fixed, Sink));
    var w := Weigh(geo, filled, taken);
    (forall j :: 0 <= j < |paths0| && j != i ==> paths1[j] == paths0[j]) &&
    Agree(w, Weigh(geo, cleared, taken)) &&
    IsRoute(graphs[n], paths1[i]) && Walk(graphs[n], w, paths1[i], Source, Sink) &&
    Least(graphs[n], w, Source, None, Sink, Cost(w, paths1[i])) &&
    cache1 == Purged(filled, Hits(geo, paths1, Utils.Pairwise(paths1[i])))
  }

  /** One more turn of the re-routing pass extends the trace of turns by
      one, and no later turn moves an earlier turn's path. */
  lemma TraceExtend(geo: Geometry, graphs: map<TwoNet, Graph<Node>>, order: seq<TwoNet>,
                    steps: seq<(seq<seq<Node>>, map<(Node, Node), real>)>, fixeds: seq<set<Node>>, i: nat,
                    next: (seq<seq<Node>>, map<(Node, Node), real>), fixed: set<Node>)
    requires |steps| == i + 1 && |fixeds| == i && i < |order|
    requires forall k :: 0 <= k <= i ==> |steps[k].0| == |order|
    requires forall k :: 0 <= k < i ==>
      RerouteStep(geo, graphs, order[k], k, steps[k].0, steps[k].1, steps[k + 1].0, steps[k + 1].1, fixeds[k]) &&
      steps[i].0[k] == steps[k + 1].0[k]
    requires RerouteStep(geo, graphs, order[i], i, steps[i].0, steps[i].1, next.0, next.1, fixed)
    ensures var steps', fixeds' := steps + [next], fixeds + [fixed];
      (forall k :: 0 <= k <= i + 1 ==> |steps'[k].0| == |order|) &&
      forall k :: 0 <= k < i + 1 ==>
        RerouteStep(geo, graphs, order[k], k, steps'[k].0, steps'[k].1, steps'[k + 1].0, steps'[k + 1].1, fixeds'[k]) &&
        next.0[k] == steps'[k + 1].0[k]
  {
    var steps', fixeds' := steps + [next], fixeds + [fixed];
    assert |next.0| == |order|;
    forall k | 0 <= k <= i + 1
      ensures |steps'[k].0| == |order|
    {
      if k <= i {
        assert steps'[k] == steps[k];
      }
    }
    forall k | 0 <= k < i + 1
      ensures RerouteStep(geo, graphs, order[k], k, steps'[k].0, steps'[k].1, steps'[k + 1].0, steps'[k + 1].1, fixeds'[k])
      ensures next.0[k] == steps'[k + 1].0[k]
    {
      assert steps'[k] == steps[k];
      if k < i {
        assert fixeds'[k] == fixeds[k] && steps'[k + 1] == steps[k + 1];
        assert next.0[k] == steps[i].0[k];
      } else {
        assert fixeds'[k] == fixed && steps'[k + 1] == next;
      }
    }
  }

  /** Replacing path i by another route keeps every committed path a route. */
  lemma RoutesKept(graphs: map<TwoNet, Graph<Node>>, order: seq<TwoNet>, paths: seq<seq<Node>>, i: nat, path: seq<Node>)
    requires |paths| == |order| && i < |order|
    requires forall j :: 0 <= j < |order| ==> order[j] in graphs && IsRoute(graphs[order[j]], paths[j])
    requires IsRoute(graphs[order[i]], path)
    ensures forall j :: 0 <= j < |order| ==> order[j] in graphs && IsRoute(graphs[order[j]], paths[i := path][j])
  {
  }

  /** The three stages of a turn, taken together, are a re-routing step. */
  lemma RerouteIntro(geo: Geometry, graphs: map<TwoNet, Graph<Node>>, n: TwoNet, i: nat,
                     paths0: seq<seq<Node>>, cache0: map<(Node, Node), real>,
                     cleared: map<(Node, Node), real>, filled: map<(Node, Node), real>, fixed: set<Node>,
                     path: seq<Node>, paths1: seq<seq<Node>>, cache1: map<(Node, Node), real>)
    requires n in graphs && i < |paths0|
    requires cleared == Purged(cache0, Hits(geo, paths0, Utils.Pairwise(paths0[i])))
    requires filled == Filled(geo, cleared, paths0[i := []], Weighed(graphs[n], fixed, Sink))
    requires Agree(Weigh(geo, filled, paths0[i := []]), Weigh(geo, cleared, paths0[i := []]))
    requires IsRoute(graphs[n], path) && Walk(graphs[n], Weigh(geo, filled, paths0[i := []]), path, Source, Sink)
    requires Least(graphs[n], Weigh(geo, filled, paths0[i := []]), Source, None, Sink, Cost(Weigh(geo, filled, paths0[i := []]), path))
    requires paths1 == paths0[i := path]
    requires cache1 == Purged(filled, Hits(geo, paths1, Utils.Pairwise(path)))
    ensures RerouteStep(geo, graphs, n, i, paths0, cache0, paths1, cache1, fixed)
  {
    assert paths1[i] == path;
  }

  const TypeError := "TypeError: cannot unpack non-iterable NoneType object"
  const NotIterable := "TypeError: 'NoneType' object is not iterable"
  const AttributeError := "AttributeError: 'Configuration' object has no attribute 'two_nets'"

  /** A layer assignment in progress: the committed route of each two-net,
      in commit order, with the weight cache and the memoised total. */
  class Configuration {
    const geo: Geometry
    /** `two_nets`; a copy has none. */
    var nets: Option<seq<TwoNet>>
    var graphs: map<TwoNet, Graph<Node>>
    var paths: seq<seq<Node>>
    /** `assignment_order`: the two-net of each committed path. */
    var order: seq<TwoNet>
    /** `cost_cache`. */
    var cache: map<(Node, Node), real>
    /** `cost`: the memoised total, None when it must be recomputed. */
    var cost: Option<real>

    /** The weights this configuration's searches see. */
    function W(): Weight<Node>
      reads this
    {
      Weigh(geo, cache, paths)
    }

    /** What `compute_cost` adds up: the weight of every committed path. */
    function Sum(): real
      reads this
    {
      PathsCost(W(), paths)
    }

    /** The geometry is sound, cached weights are not negative, every graph
        is the layer graph of its two-net, and each path has its two-net. */
    ghost predicate Sound()
      reads this
    {
      GeoOk(geo) && (forall e :: e in cache ==> cache[e] >= 0.0) &&
      (forall n :: n in graphs ==> IsLayered(graphs[n], n)) && |paths| == |order| &&
      (nets.Some? ==> forall n :: n in nets.value ==> n in graphs)
    }

    /** Sound, and a memoised total is the current one. */
    ghost predicate Valid()
      reads this
    {
      Sound() && (cost.Some? ==> cost.value == Sum())
    }

    /** Every committed path is a source-to-sink route of its two-net's graph. */
    ghost predicate Routed()
      reads this
    {
      |paths| == |order| && forall i :: 0 <= i < |order| ==> order[i] in graphs && IsRoute(graphs[order[i]], paths[i])
    }

    /** `Configuration(two_nets)`: a layer graph for every two-net, nothing committed. */
    constructor (twoNets: seq<TwoNet>, geo: Geometry)
      requires GeoOk(geo)
      ensures Valid() && Routed()
      ensures this.geo == geo && nets == Some(twoNets) && paths == [] && order == [] && cache == map[] && cost == Some(0.0)
      ensures forall n :: n in graphs <==> n in twoNets
    {
      var gs: map<TwoNet, Graph<Node>> := map[];
      for i := 0 to |twoNets|
        invariant forall n :: n in gs <==> n in twoNets[..i]
        invariant forall n :: n in gs ==> IsLayered(gs[n], n)
      {
        var g := BuildLayerGraph(i, twoNets[i], ViaCount);
        gs := gs[twoNets[i] := g];
      }
      assert twoNets[..|twoNets|] == twoNets;
      this.geo := geo;
      nets := Some(twoNets);
      graphs := gs;
      paths := [];
      order := [];
      cache := map[];
      cost := Some(0.0);
    }

    /** `Configuration(src)` with a configuration: the copy constructor,
        which leaves `two_nets` unset. */
    constructor Clone(src: Configuration)
      ensures geo == src.geo && nets == None && graphs == src.graphs && paths == src.paths
      ensures cache == src.cache && order == src.order && cost == src.cost
    {
      geo := src.geo;
      nets := None;
      graphs := src.graphs;
      paths := src.paths;
      cache := src.cache;
      order := src.order;
      cost := src.cost;
    }

    /** `copy`: a new configuration with the same state and no shared
        state, so that changing one never changes the other. */
    method Copy() returns (c: Configuration)
      ensures fresh(c) && c.geo == geo && c.nets == None && c.graphs == graphs && c.paths == paths
      ensures c.cache == cache && c.order == order && c.cost == cost
      ensures Valid() ==> c.Valid()
      ensures Routed() ==> c.Routed()
    {
      c := new Configuration.Clone(this);
    }

    /** `clear`: nothing committed, nothing cached, the total unknown. */
    method Clear()
      modifies this
      ensures paths == [] && cache == map[] && order == [] && cost == None
      ensures graphs == old(graphs) && nets == old(nets)
      ensures old(Sound()) ==> Valid() && Routed()
    {
      paths := [];
      cache := map[];
      order := [];
      cost := None;
    }

    /** `edge_weight(source, target)`: the cached weight, or a fresh one
        that is then cached.  Caching never changes any weight. */
    method EdgeWeight(s: Node, t: Node) returns (c: real)
      modifies this
      ensures c == Memo(geo, old(cache), paths, s, t)
      ensures cache == if (s, t) in old(cache) then old(cache) else old(cache)[(s, t) := c]
      ensures Agree(W(), old(W()))
      ensures paths == old(paths) && order == old(order) && graphs == old(graphs) && cost == old(cost) && nets == old(nets)
      ensures old(Valid()) ==> Valid()
    {
      if (s, t) in cache {
        return cache[(s, t)];
      }
      c := Uncached(geo, paths, s, t);
      ghost var w0 := W();
      MemoFill(geo, cache, paths, s, t);
      cache := cache[(s, t) := c];
      assert Agree(W(), w0);
      PathsCostAgree(W(), w0, paths);
      if GeoOk(geo) {
        FreshWeight(geo, paths, s, t);
      }
    }

    /** `dijkstra(G, source, target, cutoff)`: the search of dijkstra.py
        under this configuration's weights, which `edge_weight` caches for
        every edge out of a node the search fixes (`fixed`) but the target.
        Caching changes no weight, so the search sees the same weights
        from start to end. */
    method Dijkstra(g: Graph<Node>, source: Node, target: Node, cutoff: Option<real>)
      returns (r: Result<Option<(real, seq<Node>)>, string>, ghost fixed: set<Node>)
      modifies this
      ensures r.Failure? ==> r.error == ContradictionError || r.error == KeyError
      ensures old(Sound()) && source in g && Closed(g) ==> r.Success?
      ensures r.Success? && r.value.Some? ==>
        var (cost, path) := r.value.value;
        Walk(g, W(), path, source, target) && cost == Cost(W(), path) &&
        (target != source ==> Fits(cutoff, cost))
      ensures old(Sound()) && r.Success? && r.value.Some? ==> Least(g, W(), source, cutoff, target, r.value.value.0)
      ensures old(Sound()) && r.Success? && r.value.None? ==> Unreachable(g, W(), source, cutoff, target)
      ensures r.Success? ==> source in fixed && (r.value.Some? <==> target in fixed)
      ensures cache == Filled(geo, old(cache), paths, Weighed(g, fixed, target))
      ensures Agree(W(), old(W()))
      ensures paths == old(paths) && order == old(order) && graphs == old(graphs) && cost == old(cost) && nets == old(nets)
      ensures old(Sound()) ==> Sound()
      ensures old(Valid()) ==> Valid()
    {
      ghost var w0 := W();
      ghost var sound := Sound();
      if sound {
        WeighNonNeg(geo, cache, paths);
      }
      WeighTotal(geo, cache, paths);
      var f;
      r, f := Distance(g, W(), source, target, cutoff);
      fixed := f;
      var es := Weighed(g, f, target);
      FilledAgree(geo, cache, paths, es);
      cache := Filled(geo, cache, paths, es);
      WeighTotal(geo, cache, paths);
      assert Agree(W(), w0);
      PathsCostAgree(W(), w0, paths);
      if r.Success? && r.value.Some? {
        WalkAgree(g, w0, W(), r.value.value.1, source, target);
        SearchAgree(g, w0, W(), source, cutoff, target, r.value.value.0);
      } else if r.Success? {
        SearchAgree(g, w0, W(), source, cutoff, target, 0.0);
      }
    }

    /** `_invalidate_cache_for_path(path)`: drop every cached weight that
        touches an end of a committed segment meeting a segment of `path`. */
    method InvalidateCacheForPath(path: seq<Node>) returns (n: nat)
      modifies this
      ensures cache == Purged(old(cache), Hits(geo, paths, Utils.Pairwise(path)))
      ensures n == |old(cache).Keys| - |cache.Keys|
      ensures paths == old(paths) && order == old(order) && graphs == old(graphs) && cost == old(cost) && nets == old(nets)
      ensures old(Sound()) ==> Sound()
    {
      var dead := Marked(geo, paths, path);
      var kept;
      kept, n := Purge(cache, dead);
      cache := kept;
    }

    /** `add_path(node, path)`: commit `path` for the two-net `node`. */
    method AddPath(node: TwoNet, path: seq<Node>)
      modifies this
      ensures paths == old(paths) + [path] && order == old(order) + [node] && cost == None
      ensures cache == Purged(old(cache), Hits(geo, paths, Utils.Pairwise(path)))
      ensures graphs == old(graphs) && nets == old(nets)
      ensures old(Sound()) ==> Valid()
      ensures old(Routed()) && node in graphs && IsRoute(graphs[node], path) ==> Routed()
    {
      paths := paths + [path];
      var _ := InvalidateCacheForPath(path);
      cost := None;
      order := order + [node];
    }

    /** The inner loop of `compute_cost`: the weight of one path, filling the cache. */
    method PathWeight(p: seq<Node>) returns (c: real)
      modifies this
      ensures c == Cost(old(W()), p)
      ensures Agree(W(), old(W()))
      ensures paths == old(paths) && order == old(order) && graphs == old(graphs) && cost == old(cost) && nets == old(nets)
      ensures old(Valid()) ==> Valid()
    {
      ghost var w0 := W();
      var segs := Utils.Pairwise(p);
      c := 0.0;
      for m := 0 to |segs|
        invariant c == Cost(w0, p[..if m < |p| then m + 1 else m])
        invariant Agree(W(), w0)
        invariant paths == old(paths) && order == old(order) && graphs == old(graphs) && cost == old(cost) && nets == old(nets)
        invariant old(Valid()) ==> Valid()
      {
        var (a, b) := segs[m];
        var x := EdgeWeight(a, b);
        CostStep(w0, p, m);
        c := c + x;
      }
      assert p[..if |segs| < |p| then |segs| + 1 else |segs|] == p;
    }

    /** `compute_cost`: the memoised total, or the weight of every
        committed path, which is then memoised.  Weights do not change. */
    method ComputeCost() returns (c: real)
      requires Valid()
      modifies this
      ensures Valid() && cost == Some(c) && c == Sum() && c == PathsCost(old(W()), paths)
      ensures old(cost).Some? ==> c == old(cost).value && cache == old(cache)
      ensures Agree(W(), old(W()))
      ensures paths == old(paths) && order == old(order) && graphs == old(graphs) && nets == old(nets)
    {
      if cost.Some? {
        return cost.value;
      }
      ghost var w0 := W();
      c := 0.0;
      for q := 0 to |paths|
        invariant paths == old(paths) && order == old(order) && graphs == old(graphs) && cost == None && nets == old(nets)
        invariant c == PathsCost(w0, paths[..q])
        invariant Agree(W(), w0) && Valid()
      {
        assert paths[..q + 1][..q] == paths[..q];
        ghost var wq := W();
        var x := PathWeight(paths[q]);
        CostAgree(wq, w0, paths[q]);
        c := c + x;
      }
      assert paths[..|paths|] == paths;
      PathsCostAgree(W(), w0, paths);
      cost := Some(c);
    }

    /** `best` = (cost, index in free, path) is no dearer than any route of
        the first m free two-nets, and strictly cheaper than any route of
        one before its own; there is a best as soon as one of them has a route. */
    ghost predicate Beats(free: seq<TwoNet>, m: nat, best: Option<(real, nat, seq<Node>)>, w: Weight<Node>)
      reads this
      requires m <= |free| && forall n :: n in free ==> n in graphs
    {
      forall i, p {:trigger Walk(graphs[free[i]], w, p, Source, Sink)} :: 0 <= i < m && Walk(graphs[free[i]], w, p, Source, Sink) ==>
        best.Some? && best.value.0 <= Cost(w, p) && (i < best.value.1 ==> best.value.0 < Cost(w, p))
    }

    /** `Beats` depends only on the weight of each edge. */
    lemma BeatsAgree(free: seq<TwoNet>, m: nat, best: Option<(real, nat, seq<Node>)>, w1: Weight<Node>, w2: Weight<Node>)
      requires m <= |free| && forall n :: n in free ==> n in graphs
      requires Total(w1) && Total(w2) && Agree(w1, w2)
      requires Beats(free, m, best, w1)
      ensures Beats(free, m, best, w2)
    {
      forall i, p {:trigger Walk(graphs[free[i]], w2, p, Source, Sink)} | 0 <= i < m && Walk(graphs[free[i]], w2, p, Source, Sink)
        ensures best.Some? && best.value.0 <= Cost(w2, p) && (i < best.value.1 ==> best.value.0 < Cost(w2, p))
      {
        WalkAgree(graphs[free[i]], w1, w2, p, Source, Sink);
      }
    }

    /** One round of `initial_assignment`: search every free two-net with
        the best cost so far as cutoff; a two-net replaces the best only
        when strictly cheaper, so the first of equally cheap ones wins. */
    method Pick(free: seq<TwoNet>) returns (best: Option<(real, nat, seq<Node>)>, ghost weighed: set<(Node, Node)>)
      requires Sound() && forall n :: n in free ==> n in graphs
      modifies this
      ensures paths == old(paths) && order == old(order) && graphs == old(graphs) && cost == old(cost) && nets == old(nets)
      ensures best.Some? ==>
        var (c, j, path) := best.value;
        j < |free| && Walk(graphs[free[j]], W(), path, Source, Sink) && c == Cost(W(), path)
      ensures Beats(free, |free|, best, W())
      ensures cache == Filled(geo, old(cache), paths, weighed)
      ensures Agree(W(), old(W()))
      ensures Sound() && (old(Valid()) ==> Valid())
    {
      best := None;
      weighed := {};
      for m := 0 to |free|
        invariant paths == old(paths) && order == old(order) && graphs == old(graphs) && cost == old(cost) && nets == old(nets)
        invariant Sound() && (old(Valid()) ==> Valid())
        invariant cache == Filled(geo, old(cache), paths, weighed)
        invariant Agree(W(), old(W()))
        invariant best.Some? ==>
          var (c, j, path) := best.value;
          j < m && Walk(graphs[free[j]], W(), path, Source, Sink) && c == Cost(W(), path)
        invariant Beats(free, m, best, W())
      {
        var g := graphs[free[m]];
        LayeredIsClosed(g, free[m]);
        var cutoff := if best.Some? then Some(best.value.0) else None;
        ghost var w0 := W();
        WeighTotal(geo, cache, paths);
        var d;
        ghost var fixed;
        d, fixed := Dijkstra(g, Source, Sink, cutoff);
        if d.Failure? {
          assert false;
        }
        WeighTotal(geo, cache, paths);
        FilledTwice(geo, old(cache), paths, weighed, Weighed(g, fixed, Sink));
        weighed := weighed + Weighed(g, fixed, Sink);
        BeatsAgree(free, m, best, w0, W());
        if best.Some? {
          WalkAgree(graphs[free[best.value.1]], w0, W(), best.value.2, Source, Sink);
        }
        ghost var before := best;
        if d.value.Some? {
          var (c, path) := d.value.value;
          if best.None? || c < best.value.0 {
            best := Some((c, m, path));
          }
        }
        BeatsStep(free, m, before, cutoff, d.value, best, W());
      }
    }

    /** A search of the m-th free two-net with cutoff the best cost so far
        keeps `Beats` going. */
    lemma BeatsStep(free: seq<TwoNet>, m: nat, best: Option<(real, nat, seq<Node>)>, cutoff: Option<real>,
                    d: Option<(real, seq<Node>)>, next: Option<(real, nat, seq<Node>)>, w: Weight<Node>)
      requires m < |free| && forall n :: n in free ==> n in graphs
      requires Beats(free, m, best, w)
      requires cutoff == if best.Some? then Some(best.value.0) else None
      requires d.Some? ==> Fits(cutoff, d.value.0) && Least(graphs[free[m]], w, Source, cutoff, Sink, d.value.0)
      requires d.None? ==> Unreachable(graphs[free[m]], w, Source, cutoff, Sink)
      requires next == if d.Some? && (best.None? || d.value.0 < best.value.0) then Some((d.value.0, m, d.value.1)) else best
      requires best.Some? ==> best.value.1 < m
      ensures Beats(free, m + 1, next, w)
    {
      forall i, p | 0 <= i < m + 1 && Walk(graphs[free[i]], w, p, Source, Sink)
        ensures next.Some? && next.value.0 <= Cost(w, p) && (i < next.value.1 ==> next.value.0 < Cost(w, p))
      {
        if i < m {
        } else if d.None? {
          assert !Fits(cutoff, Cost(w, p));
        } else if Fits(cutoff, Cost(w, p)) {
          assert d.value.0 <= Cost(w, p);
        } else {
          assert best.Some? && best.value.0 < Cost(w, p);
        }
      }
    }

    /** When no free two-net has a route, each has a terminal on no layer. */
    lemma Stuck(free: seq<TwoNet>)
      requires Sound() && forall n :: n in free ==> n in graphs
      requires Beats(free, |free|, None, W())
      ensures forall n :: n in free ==> n.a.on == {} || n.b.on == {}
    {
      WeighNonNeg(geo, cache, paths);
      forall n | n in free ensures n.a.on == {} || n.b.on == {} {
        var tag :| IsLayerGraph(graphs[n], tag, n, ViaCount);
        RouteIff(graphs[n], tag, n, ViaCount, W());
        var i :| 0 <= i < |free| && free[i] == n;
        assert forall p :: !Walk(graphs[free[i]], W(), p, Source, Sink);
      }
    }

    /** Each two-net of `nets` appears exactly once in `done`. */
    ghost predicate Assigned(nets: seq<TwoNet>, done: seq<TwoNet>)
    {
      (forall n :: n in done <==> n in nets) &&
      forall i, j :: 0 <= i < j < |done| ==> done[i] != done[j]
    }

    /** The end of a round of `initial_assignment`: commit the chosen
        route and bring the total up to date. */
    method Commit(n: TwoNet, path: seq<Node>)
      requires Valid() && n in graphs && Walk(graphs[n], W(), path, Source, Sink)
      modifies this
      ensures Valid() && paths == old(paths) + [path] && order == old(order) + [n]
      ensures graphs == old(graphs) && nets == old(nets)
      ensures old(Routed()) ==> Routed()
    {
      WeighTotal(geo, cache, paths);
      LinkedAny(graphs[n], W(), path);
      AddPath(n, path);
      var _ := ComputeCost();
    }

    /** `initial_assignment`: commit, round by round, the cheapest route of
        any two-net still free, until none is free.  A copy has no two-nets
        (AttributeError); a round with no route left fails to unpack (TypeError),
        which happens exactly when a free two-net has a terminal on no layer. */
    method InitialAssignment() returns (r: Result<(), string>)
      requires Valid()
      modifies this
      ensures Valid() && graphs == old(graphs) && nets == old(nets)
      ensures |order| >= |old(order)| && order[..|old(order)|] == old(order)
      ensures r.Failure? ==> r.error == AttributeError || r.error == TypeError
      ensures old(nets).None? <==> r == Failure(AttributeError)
      ensures old(nets).None? ==> order == old(order) && paths == old(paths) && cache == old(cache)
      ensures r.Success? ==> Assigned(nets.value, order[|old(order)|..])
      ensures r == Failure(TypeError) ==>
        (exists n :: n in nets.value && n !in order[|old(order)|..]) &&
        forall n :: n in nets.value && n !in order[|old(order)|..] ==> n.a.on == {} || n.b.on == {}
      ensures old(Routed()) ==> Routed()
    {
      if nets.None? {
        return Failure(AttributeError);
      }
      var free := Dedup(nets.value);
      DedupFacts(nets.value);
      ghost var done: seq<TwoNet> := [];
      while |free| > 0
        invariant Valid() && graphs == old(graphs) && nets == old(nets)
        invariant order == old(order) + done
        invariant Split(nets.value, done, free)
        invariant old(Routed()) ==> Routed()
        decreases |free|
      {
        var picked;
        ghost var weighed;
        picked, weighed := Pick(free);
        if picked.None? {
          Stuck(free);
          assert order[|old(order)|..] == done;
          assert free[0] in nets.value;
          return Failure(TypeError);
        }
        var (c, j, path) := picked.value;
        var n := free[j];
        SplitMove(nets.value, done, free, j);
        free := free[..j] + free[j + 1..];
        done := done + [n];
        Commit(n, path);
      }
      assert order[|old(order)|..] == done;
      return Success(());
    }

    /** The re-routing pass of `improve`: each committed path in turn is
        searched again; `cost` is then unknown.  `steps` holds the paths and
        cache before each turn and after the last one. */
    method Reroute() returns (ghost steps: seq<(seq<seq<Node>>, map<(Node, Node), real>)>, ghost fixeds: seq<set<Node>>)
      requires Valid() && Routed()
      modifies this
      ensures Valid() && Routed() && cost == None
      ensures graphs == old(graphs) && order == old(order) && nets == old(nets) && |paths| == |old(paths)|
      ensures |steps| == |order| + 1 && |fixeds| == |order|
      ensures forall k :: 0 <= k <= |order| ==> |steps[k].0| == |order|
      ensures steps[0] == (old(paths), old(cache)) && steps[|order|] == (paths, cache)
      ensures forall k :: 0 <= k < |order| ==>
        RerouteStep(geo, graphs, order[k], k, steps[k].0, steps[k].1, steps[k + 1].0, steps[k + 1].1, fixeds[k]) &&
        paths[k] == steps[k + 1].0[k]
    {
      steps, fixeds := [(paths, cache)], [];
      for i := 0 to |order|
        invariant Sound() && Routed() && graphs == old(graphs) && order == old(order) && nets == old(nets)
        invariant |steps| == i + 1 && |fixeds| == i
        invariant forall k :: 0 <= k <= i ==> |steps[k].0| == |order|
        invariant steps[0] == (old(paths), old(cache)) && steps[i] == (paths, cache)
        invariant forall k :: 0 <= k < i ==>
          RerouteStep(geo, graphs, order[k], k, steps[k].0, steps[k].1, steps[k + 1].0, steps[k + 1].1, fixeds[k]) &&
          paths[k] == steps[k + 1].0[k]
      {
        ghost var fixed := RerouteOne(i);
        TraceExtend(geo, graphs, order, steps, fixeds, i, (paths, cache), fixed);
        steps, fixeds := steps + [(paths, cache)], fixeds + [fixed];
      }
      cost := None;
    }

    /** One turn of the re-routing pass: the i-th path is taken out, its
        two-net searched again without cutoff, and the new route put back.
        A route always exists, since the old one still does. */
    method RerouteOne(i: nat) returns (ghost fixed: set<Node>)
      requires Sound() && Routed() && i < |order|
      modifies this
      ensures Sound() && Routed() && graphs == old(graphs) && order == old(order) && nets == old(nets)
      ensures RerouteStep(geo, graphs, order[i], i, old(paths), old(cache), paths, cache, fixed)
    {
      ghost var before := paths;
      TakeOut(i);
      ghost var cleared := cache;
      var path;
      path, fixed := Research(order[i], before[i]);
      ghost var filled := cache;
      PutBack(i, path);
      RoutesKept(graphs, order, before, i, path);
      RerouteIntro(geo, graphs, order[i], i, before, old(cache), cleared, filled, fixed, path, paths, cache);
    }

    /** The start of a turn: the cache is invalidated for path i, which is
        then emptied. */
    method TakeOut(i: nat)
      requires Sound() && i < |paths|
      modifies this
      ensures paths == old(paths)[i := []]
      ensures cache == Purged(old(cache), Hits(geo, old(paths), Utils.Pairwise(old(paths)[i])))
      ensures order == old(order) && graphs == old(graphs) && cost == old(cost) && nets == old(nets)
      ensures Sound()
    {
      var _ := InvalidateCacheForPath(paths[i]);
      paths := paths[i := []];
    }

    /** The end of a turn: the new route becomes path i and the cache is
        invalidated for it. */
    method PutBack(i: nat, path: seq<Node>)
      requires Sound() && i < |paths|
      modifies this
      ensures paths == old(paths)[i := path]
      ensures cache == Purged(old(cache), Hits(geo, paths, Utils.Pairwise(path)))
      ensures order == old(order) && graphs == old(graphs) && cost == old(cost) && nets == old(nets)
      ensures Sound()
    {
      paths := paths[i := path];
      var _ := InvalidateCacheForPath(path);
    }

    /** The search of the re-routing pass, for a two-net that has a route:
        the cheapest route, with the edges the search weighed now cached. */
    method Research(n: TwoNet, ghost route: seq<Node>) returns (path: seq<Node>, ghost fixed: set<Node>)
      requires Sound() && n in graphs && IsRoute(graphs[n], route)
      modifies this
      ensures paths == old(paths) && order == old(order) && graphs == old(graphs) && cost == old(cost) && nets == old(nets)
      ensures IsRoute(graphs[n], path) && Walk(graphs[n], W(), path, Source, Sink)
      ensures Least(graphs[n], W(), Source, None, Sink, Cost(W(), path))
      ensures cache == Filled(geo, old(cache), paths, Weighed(graphs[n], fixed, Sink))
      ensures Agree(W(), old(W()))
      ensures Sound()
    {
      var g := graphs[n];
      LayeredIsClosed(g, n);
      WeighTotal(geo, cache, paths);
      LinkedAny(g, W(), route);
      ghost var w0 := W();
      var d;
      d, fixed := Dijkstra(g, Source, Sink, None);
      WeighTotal(geo, cache, paths);
      WalkAgree(g, w0, W(), route, Source, Sink);
      if d.Failure? || d.value.None? {
        assert false;
      }
      path := d.value.value.1;
      LinkedAny(g, W(), path);
    }

    /** One round of `improve` on the best configuration so far: re-route a
        copy, then the costs of the copy and of the receiver. */
    method Attempt() returns (copy: Configuration, attempt: real, current: real)
      requires Valid() && Routed()
      modifies this
      ensures fresh(copy) && Finished(copy, order) && copy.cost == Some(attempt)
      ensures Valid() && Routed() && paths == old(paths) && order == old(order)
      ensures cost == Some(current) && current == old(Sum())
    {
      copy := Copy();
      ghost var steps, fixeds;
      steps, fixeds := copy.Reroute();
      attempt := copy.ComputeCost();
      current := ComputeCost();
    }

    /** The loop of `improve`, for at most `fuel` rounds: re-route a copy of
        the best configuration so far, and keep going while the copy is
        strictly cheaper.  `last` is the final copy, `best` the cheapest
        configuration, and `costs` the cost of each copy in turn. */
    method Rounds(fuel: nat) returns (last: Configuration, best: Configuration, ghost costs: seq<real>)
      requires fuel >= 1 && Valid() && Routed()
      modifies this
      ensures fresh(last) && (best == this || fresh(best))
      ensures Finished(last, old(order)) && Finished(best, old(order))
      ensures 1 <= |costs| <= fuel && (last.cost.value, best.cost.value) == Outcome(old(Sum()), costs)
      ensures |costs| < fuel ==> last != best && last.cost.value >= best.cost.value
    {
      ghost var start := Sum();
      best := this;
      last := this;
      costs := [];
      var improved := true;
      var rounds := 0;
      while improved && rounds < fuel
        invariant rounds == |costs| <= fuel
        invariant best == this || fresh(best)
        invariant rounds == 0 ==> improved && best == this && Valid() && Routed() && order == old(order) && Sum() == start
        invariant rounds > 0 ==> fresh(last) && Finished(last, old(order)) && Finished(best, old(order))
        invariant rounds > 0 ==> (last.cost.value, best.cost.value) == Outcome(start, costs)
        invariant !improved ==> last != best && last.cost.value >= best.cost.value
        decreases fuel - rounds
      {
        improved := false;
        ghost var prev := if rounds == 0 then start else Outcome(start, costs).1;
        var attempt, current;
        last, attempt, current := best.Attempt();
        assert current == prev;
        if attempt < current {
          improved := true;
          best := last;
        }
        OutcomeNext(start, costs, attempt);
        costs := costs + [attempt];
        rounds := rounds + 1;
      }
    }

    /** `improve` as written: the configuration of the last round, which is
        the rejected copy whenever the loop ends by not improving. */
    method Improve(fuel: nat) returns (cfg: Configuration, ghost best: Configuration, ghost costs: seq<real>)
      requires fuel >= 1 && Valid() && Routed()
      modifies this
      ensures fresh(cfg) && cfg.Valid() && cfg.Routed() && cfg.order == old(order) && cfg.cost.Some?
      ensures best.Valid() && best.cost.Some? && 1 <= |costs| <= fuel
      ensures (cfg.cost.value, best.cost.value) == Outcome(old(Sum()), costs)
      ensures |costs| < fuel ==> cfg != best && cfg.cost.value >= best.cost.value
    {
      cfg, best, costs := Rounds(fuel);
    }

    /** `improve` returning `best_cfg`: never dearer than the receiver. */
    method ImproveBest(fuel: nat) returns (best: Configuration)
      requires fuel >= 1 && Valid() && Routed()
      modifies this
      ensures (best == this || fresh(best)) && best.Valid() && best.Routed() && best.order == old(order)
      ensures best.cost.Some? && best.cost.value <= old(Sum())
    {
      var last;
      ghost var costs;
      last, best, costs := Rounds(fuel);
      OutcomeBest(old(Sum()), costs);
    }
  }

  /** c is a configuration with every path routed, in the given order, and its total known. */
  ghost predicate Finished(c: Configuration, order: seq<TwoNet>)
    reads c
  {
    c.Valid() && c.Routed() && c.order == order && c.cost.Some?
  }

  /** The costs `improve` ends with, (last copy, best configuration), from
      the starting cost and the cost of each copy: a copy replaces the best
      only when strictly cheaper. */
  function Outcome(start: real, costs: seq<real>): (real, real)
    requires |costs| >= 1
  {
    var best := if |costs| == 1 then start else Outcome(start, costs[..|costs| - 1]).1;
    var c := costs[|costs| - 1];
    (c, if c < best then c else best)
  }

  /** One more round: the copy's cost comes last, and the copy becomes
      the best only when strictly cheaper. */
  lemma OutcomeNext(start: real, costs: seq<real>, c: real)
    ensures var prev := if costs == [] then start else Outcome(start, costs).1;
      Outcome(start, costs + [c]) == (c, if c < prev then c else prev)
  {
    assert (costs + [c])[..|costs|] == costs;
  }

  /** The best configuration is never dearer than the start, nor than the last copy. */
  lemma {:induction false} OutcomeBest(start: real, costs: seq<real>)
    requires |costs| >= 1
    ensures Outcome(start, costs).1 <= start && Outcome(start, costs).1 <= Outcome(start, costs).0
  {
    if |costs| > 1 {
      OutcomeBest(start, costs[..|costs| - 1]);
    }
  }

  /** A first copy dearer than the start ends `improve`, which then returns
      that copy: the result is dearer than the configuration improved. */
  lemma ImproveCanWorsen()
    ensures Outcome(5.0, [7.0]) == (7.0, 5.0)
  {
  }
}
