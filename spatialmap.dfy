/** The exact-vertex spatial index of the PCB router: every recorded shape
    is filed under each of its vertices and under its centroid, and is
    found again by exact coordinate or by distance from a point.  The
    KD-tree is modelled by the list of points it is built from. */
module SpatialIndex {
  import opened Wrappers

  /** A coordinate; shapely's floating-point pairs are modelled as exact reals. */
  type Coord = (real, real)

  /** The shapely geometries the index meets.  A polygon carries its
      exterior ring without the closing vertex; `Collection` stands for a
      MultiPolygon or a GeometryCollection; every other geometry type
      (MultiPoint, MultiLineString, ...) is `Unsupported`, with its points. */
  datatype Shape =
    | Point(at: Option<Coord>)
    | LineString(coords: seq<Coord>)
    | Polygon(ring: seq<Coord>)
    | Collection(parts: seq<Shape>)
    | Unsupported(kind: string, points: seq<Coord>)

  /** A ring as shapely lists it: the first vertex again at the end. */
  function Closed(ring: seq<Coord>): seq<Coord>
  {
    if |ring| == 0 then [] else ring + [ring[0]]
  }

  /** `vertices(shape)`. */
  function Vertices(s: Shape): (r: Result<seq<Coord>, string>)
    ensures s.Unsupported? ==> r.Failure?
    ensures !s.Collection? && !s.Unsupported? ==> r.Success?
    ensures s.Point? && r.Success? ==> |r.value| <= 1
    ensures s.Polygon? && |s.ring| > 0 ==> r.Success? && |r.value| == |s.ring| + 1 && r.value[0] == r.value[|r.value| - 1]
    decreases s, 1
  {
    match s
    case Point(p) => Success(if p.Some? then [p.value] else [])
    case LineString(cs) => Success(cs)
    case Polygon(ring) => Success(Closed(ring))
    case Collection(parts) => PartVertices(s, |parts|)
    case Unsupported(kind, _) => Failure("geom_type " + kind)
  }

  /** The vertices of the first n parts of a collection, concatenated;
      the first part that raises makes the whole call raise. */
  function PartVertices(s: Shape, n: nat): Result<seq<Coord>, string>
    requires s.Collection? && n <= |s.parts|
    decreases s, 0, n
  {
    if n == 0 then Success([])
    else
      var init := PartVertices(s, n - 1);
      if init.Failure? then init
      else
        var last := Vertices(s.parts[n - 1]);
        if last.Failure? then last else Success(init.value + last.value)
  }

  /** Every coordinate of a shape, in shapely's order, whatever its type. */
  function CoordList(s: Shape): seq<Coord>
    decreases s, 1
  {
    match s
    case Point(p) => if p.Some? then [p.value] else []
    case LineString(cs) => cs
    case Polygon(ring) => Closed(ring)
    case Collection(parts) => PartCoords(s, |parts|)
    case Unsupported(_, pts) => pts
  }

  function PartCoords(s: Shape, n: nat): seq<Coord>
    requires s.Collection? && n <= |s.parts|
    decreases s, 0, n
  {
    if n == 0 then [] else PartCoords(s, n - 1) + CoordList(s.parts[n - 1])
  }

  /** No part of the shape is of a type `vertices` refuses. */
  predicate Supported(s: Shape)
  {
    match s
    case Unsupported(_, _) => false
    case Collection(ps) => forall i :: 0 <= i < |ps| ==> Supported(ps[i])
    case _ => true
  }

  /** shapely's `is_empty`. */
  predicate IsEmpty(s: Shape)
  {
    match s
    case Point(p) => p.None?
    case LineString(cs) => |cs| == 0
    case Polygon(ring) => |ring| == 0
    case Collection(ps) => forall i :: 0 <= i < |ps| ==> IsEmpty(ps[i])
    case Unsupported(_, pts) => |pts| == 0
  }

  /** `vertices` raises exactly for a shape with an unsupported part, and
      otherwise lists every coordinate of the shape. */
  lemma {:induction false} VerticesSupported(s: Shape)
    ensures Vertices(s).Success? <==> Supported(s)
    ensures Vertices(s).Success? ==> Vertices(s).value == CoordList(s)
    decreases s, 1
  {
    match s
    case Collection(parts) => PartVerticesSupported(s, |parts|);
    case _ =>
  }

  lemma {:induction false} PartVerticesSupported(s: Shape, n: nat)
    requires s.Collection? && n <= |s.parts|
    ensures PartVertices(s, n).Success? <==> forall i :: 0 <= i < n ==> Supported(s.parts[i])
    ensures PartVertices(s, n).Success? ==> PartVertices(s, n).value == PartCoords(s, n)
    decreases s, 0, n
  {
    if n > 0 {
      PartVerticesSupported(s, n - 1);
      VerticesSupported(s.parts[n - 1]);
    }
  }

  /** A polygon's vertex list closes: it ends where it starts. */
  lemma PolygonRingCloses(ring: seq<Coord>)
    requires |ring| > 0
    ensures Vertices(Polygon(ring)).Success?
    ensures var v := Vertices(Polygon(ring)).value; |v| == |ring| + 1 && v[|ring|] == v[0] && v[..|ring|] == ring
  {
  }

  /** An empty shape is one with no coordinates at all. */
  lemma {:induction false} EmptyIffNoCoords(s: Shape)
    ensures IsEmpty(s) <==> CoordList(s) == []
    decreases s, 1
  {
    match s
    case Collection(parts) => PartsEmpty(s, |parts|);
    case _ =>
  }

  lemma {:induction false} PartsEmpty(s: Shape, n: nat)
    requires s.Collection? && n <= |s.parts|
    ensures (forall i :: 0 <= i < n ==> IsEmpty(s.parts[i])) <==> PartCoords(s, n) == []
    decreases s, 0, n
  {
    if n > 0 {
      PartsEmpty(s, n - 1);
      EmptyIffNoCoords(s.parts[n - 1]);
    }
  }

  /** shapely's `bounds`: (minx, miny, maxx, maxy). */
  function Box(cs: seq<Coord>): (b: (real, real, real, real))
    requires |cs| > 0
    ensures forall i :: 0 <= i < |cs| ==> b.0 <= cs[i].0 <= b.2 && b.1 <= cs[i].1 <= b.3
  {
    if |cs| == 1 then (cs[0].0, cs[0].1, cs[0].0, cs[0].1)
    else
      var b := Box(cs[..|cs| - 1]);
      var c := cs[|cs| - 1];
      assert forall i :: 0 <= i < |cs| - 1 ==> cs[i] == cs[..|cs| - 1][i];
      (RMin(b.0, c.0), RMin(b.1, c.1), RMax(b.2, c.0), RMax(b.3, c.1))
  }

  function RMin(a: real, b: real): real { if a <= b then a else b }
  function RMax(a: real, b: real): real { if a >= b then a else b }

  /** The box is the smallest one: each of its sides touches a coordinate. */
  lemma {:induction false} BoxTight(cs: seq<Coord>)
    requires |cs| > 0
    ensures exists i :: 0 <= i < |cs| && cs[i].0 == Box(cs).0
    ensures exists i :: 0 <= i < |cs| && cs[i].1 == Box(cs).1
    ensures exists i :: 0 <= i < |cs| && cs[i].0 == Box(cs).2
    ensures exists i :: 0 <= i < |cs| && cs[i].1 == Box(cs).3
  {
    if |cs| > 1 {
      var init := cs[..|cs| - 1];
      BoxTight(init);
      var last := |cs| - 1;
      var i0 :| 0 <= i0 < |init| && init[i0].0 == Box(init).0;
      var i1 :| 0 <= i1 < |init| && init[i1].1 == Box(init).1;
      var i2 :| 0 <= i2 < |init| && init[i2].0 == Box(init).2;
      var i3 :| 0 <= i3 < |init| && init[i3].1 == Box(init).3;
      assert init[i0] == cs[i0] && init[i1] == cs[i1] && init[i2] == cs[i2] && init[i3] == cs[i3];
      if cs[last].0 < Box(init).0 { assert cs[last].0 == Box(cs).0; } else { assert cs[i0].0 == Box(cs).0; }
      if cs[last].1 < Box(init).1 { assert cs[last].1 == Box(cs).1; } else { assert cs[i1].1 == Box(cs).1; }
      if cs[last].0 > Box(init).2 { assert cs[last].0 == Box(cs).2; } else { assert cs[i2].0 == Box(cs).2; }
      if cs[last].1 > Box(init).3 { assert cs[last].1 == Box(cs).3; } else { assert cs[i3].1 == Box(cs).3; }
    } else {
      assert cs[0].0 == Box(cs).0 && cs[0].1 == Box(cs).1 && cs[0].0 == Box(cs).2 && cs[0].1 == Box(cs).3;
    }
  }

  /** `_filter`'s search radius for a shape with coordinates cs: half the
      larger side of the bounding box. */
  function SearchRadius(cs: seq<Coord>): (r: real)
    requires |cs| > 0
    ensures r >= 0.0
    ensures var b := Box(cs);
      2.0 * r >= b.2 - b.0 && 2.0 * r >= b.3 - b.1 && (2.0 * r == b.2 - b.0 || 2.0 * r == b.3 - b.1)
  {
    var b := Box(cs);
    assert b.0 <= b.2 && b.1 <= b.3 by {
      assert b.0 <= cs[0].0 <= b.2;
    }
    RMax(b.2 - b.0, b.3 - b.1) / 2.0
  }

  /** `query_ball_point`'s test: c lies within the closed disc of the
      given radius around p. */
  predicate Within(c: Coord, p: Coord, radius: real)
  {
    radius >= 0.0 && (c.0 - p.0) * (c.0 - p.0) + (c.1 - p.1) * (c.1 - p.1) <= radius * radius
  }

  /** An `Entry`: the shape and its data.  Entries are objects, compared
      by identity, so each carries the number of its creation. */
  datatype Entry<T> = Entry(id: nat, shape: Shape, value: T)

  /** `_map`: the entries filed under each coordinate, and the order in
      which the coordinates first appeared (the dictionary's key order). */
  datatype Table<T> = Table(index: map<Coord, seq<Entry<T>>>, order: seq<Coord>)

  /** The key order lists every key exactly once. */
  ghost predicate Ordered<T>(t: Table<T>)
  {
    (forall i, j :: 0 <= i < j < |t.order| ==> t.order[i] != t.order[j]) &&
    (forall c :: c in t.index <==> c in t.order)
  }

  /** `_add(coord, entry)`. */
  function File<T>(t: Table<T>, c: Coord, e: Entry<T>): Table<T>
  {
    if c in t.index then Table(t.index[c := t.index[c] + [e]], t.order)
    else Table(t.index[c := [e]], t.order + [c])
  }

  /** `_add` for each coordinate of cs in turn. */
  function FileAll<T>(t: Table<T>, cs: seq<Coord>, e: Entry<T>): Table<T>
  {
    if |cs| == 0 then t else File(FileAll(t, cs[..|cs| - 1], e), cs[|cs| - 1], e)
  }

  /** Filing keeps the key order a list of the keys. */
  lemma {:induction false} FileAllOrdered<T>(t: Table<T>, cs: seq<Coord>, e: Entry<T>)
    requires Ordered(t)
    ensures Ordered(FileAll(t, cs, e))
    ensures t.order <= FileAll(t, cs, e).order
  {
    if |cs| > 0 {
      FileAllOrdered(t, cs[..|cs| - 1], e);
    }
  }

  /** Filing never removes or alters an earlier association: each old list
      is a prefix of the new one, and a coordinate outside cs is untouched. */
  lemma {:induction false} FileAllKeeps<T>(t: Table<T>, cs: seq<Coord>, e: Entry<T>, c: Coord)
    ensures c in t.index ==> c in FileAll(t, cs, e).index && t.index[c] <= FileAll(t, cs, e).index[c]
    ensures c !in cs ==> (c in FileAll(t, cs, e).index <==> c in t.index)
    ensures c !in cs && c in t.index ==> FileAll(t, cs, e).index[c] == t.index[c]
  {
    if |cs| > 0 {
      FileAllKeeps(t, cs[..|cs| - 1], e, c);
    }
  }

  /** After filing, the entry is found under every coordinate of cs. */
  lemma {:induction false} FileAllFinds<T>(t: Table<T>, cs: seq<Coord>, e: Entry<T>, i: nat)
    requires i < |cs|
    ensures cs[i] in FileAll(t, cs, e).index && e in FileAll(t, cs, e).index[cs[i]]
  {
    var init := cs[..|cs| - 1];
    if i < |cs| - 1 {
      FileAllFinds(t, init, e, i);
      assert init[i] == cs[i];
      FileAllKeeps(File(FileAll(t, init, e), cs[|cs| - 1], e), [], e, cs[i]);
      var c := cs[i];
      var u := FileAll(t, init, e);
      assert u.index[c] <= File(u, cs[|cs| - 1], e).index[c];
    }
  }

  /** The entries within radius of p (what the KD-tree query yields). */
  function Nearby<T(==)>(t: Table<T>, p: Coord, radius: real): set<Entry<T>>
  {
    set c, e | c in t.index && Within(c, p, radius) && e in t.index[c] :: e
  }

  /** The elements of a list, collected into a set one by one. */
  method Collect<T(==)>(list: seq<Entry<T>>, acc: set<Entry<T>>) returns (r: set<Entry<T>>)
    ensures forall e :: e in r <==> e in acc || e in list
  {
    r := acc;
    for i := 0 to |list|
      invariant forall e :: e in r <==> e in acc || e in list[..i]
    {
      assert list[..i + 1] == list[..i] + [list[i]];
      r := r + {list[i]};
    }
    assert list[..|list|] == list;
  }

  class SpatialMap<T(==)> {
    var table: Table<T>
    /** The cached tree, as the point list it was built from. */
    var tree: Option<seq<Coord>>
    var points: Option<seq<Coord>>
    var entries: set<Entry<T>>
    /** The number of entries created so far. */
    var created: nat
    /** `SpatialMap.USE_TREE`. */
    var useTree: bool

    /** The key order matches the map, every filed entry was recorded, and
        a built tree is the current key list. */
    ghost predicate Valid()
      reads this
    {
      Ordered(table) &&
      (forall c, e :: c in table.index && e in table.index[c] ==> e in entries) &&
      (forall e :: e in entries ==> e.id < created) &&
      (tree.Some? ==> tree.value == table.order && |table.order| > 0 && points == tree)
    }

    constructor()
      ensures Valid() && table == Table(map[], []) && tree.None? && points.None?
      ensures entries == {} && created == 0 && useTree
    {
      table := Table(map[], []);
      tree := None;
      points := None;
      entries := {};
      created := 0;
      useTree := true;
    }

    /** `add(shape, data)`: drops the cached tree, creates an entry and files
        it under every vertex of the shape and then under its centroid
        (whose coordinates shapely computes and the caller passes in).  When
        `vertices` raises, the entry is already recorded but filed nowhere. */
    method Add(shape: Shape, centroid: Option<Coord>, data: T) returns (r: Result<Entry<T>, string>)
      requires Valid()
      modifies this
      ensures Valid() && tree.None? && points.None? && useTree == old(useTree)
      ensures created == old(created) + 1
      ensures entries == old(entries) + {Entry(old(created), shape, data)}
      ensures r.Success? <==> Supported(shape)
      ensures r.Success? ==> (r.value == Entry(old(created), shape, data) &&
        table == FileAll(old(table), CoordList(shape) + CoordList(Point(centroid)), r.value))
      ensures r.Failure? ==> table == old(table)
    {
      tree := None;
      points := None;
      var e := Entry(created, shape, data);
      created := created + 1;
      entries := entries + {e};
      VerticesSupported(shape);
      var vs := Vertices(shape);
      if vs.Failure? {
        return Failure(vs.error);
      }
      var cs := vs.value + CoordList(Point(centroid));
      ghost var t0 := table;
      FileCoords(cs, e);
      FileAllOrdered(t0, cs, e);
      FileAllRecorded(t0, cs, e, entries);
      return Success(e);
    }

    /** The filing loop of `add`: `_add(coord, entry)` for each coordinate. */
    method FileCoords(cs: seq<Coord>, e: Entry<T>)
      modifies this
      ensures table == FileAll(old(table), cs, e)
      ensures tree == old(tree) && points == old(points) && entries == old(entries)
      ensures created == old(created) && useTree == old(useTree)
    {
      for i := 0 to |cs|
        invariant table == FileAll(old(table), cs[..i], e)
        invariant tree == old(tree) && points == old(points) && entries == old(entries)
        invariant created == old(created) && useTree == old(useTree)
      {
        assert cs[..i + 1][..i] == cs[..i];
        table := File(table, cs[i], e);
      }
      assert cs[..|cs|] == cs;
    }

    /** `at(coord)`: the entries filed under exactly this coordinate; none
        for a coordinate never filed. */
    method At(c: Coord) returns (r: set<Entry<T>>)
      ensures c !in table.index ==> r == {}
      ensures c in table.index ==> forall e :: e in r <==> e in table.index[c]
    {
      if c !in table.index {
        return {};
      }
      r := Collect(table.index[c], {});
    }

    /** `_get_tree`: the cached tree, else a tree over the current keys;
        there is none while the map is empty. */
    method GetTree() returns (r: Option<seq<Coord>>)
      requires Valid()
      modifies this
      ensures Valid() && table == old(table) && entries == old(entries)
      ensures created == old(created) && useTree == old(useTree)
      ensures r == tree && points.Some? && points.value == table.order
      ensures r == (if |table.order| == 0 then None else Some(table.order))
    {
      if tree.Some? {
        return tree;
      }
      points := Some(table.order);
      if |table.order| == 0 {
        return None;
      }
      tree := Some(table.order);
      return tree;
    }

    /** `near(coord, radius)`: with the tree, every entry filed under a
        coordinate within radius; without it, every entry ever added. */
    method Near(p: Coord, radius: real) returns (r: set<Entry<T>>)
      requires Valid()
      modifies this
      ensures Valid() && table == old(table) && entries == old(entries)
      ensures created == old(created) && useTree == old(useTree)
      ensures useTree ==> r == Nearby(table, p, radius)
      ensures !useTree ==> r == entries && tree == old(tree) && points == old(points)
    {
      if !useTree {
        return entries;
      }
      var t := GetTree();
      if t.None? {
        return {};
      }
      assert forall j :: 0 <= j < |t.value| ==> t.value[j] in table.order;
      r := Scan(table.index, t.value, p, radius);
      ScanNearby(table, p, radius, r);
    }

    /** `_filter(shape, fn)`: nothing for an empty shape; otherwise the
        entries near the shape's centroid (passed in) within half the larger
        side of its bounding box, whose shape passes `keep`. */
    method Filter(shape: Shape, centroid: Coord, keep: Shape -> bool) returns (r: set<Entry<T>>)
      requires Valid()
      modifies this
      ensures Valid() && table == old(table) && entries == old(entries)
      ensures created == old(created) && useTree == old(useTree)
      ensures CoordList(shape) == [] ==> r == {}
      ensures CoordList(shape) != [] ==>
        var candidates := if useTree then Nearby(table, centroid, SearchRadius(CoordList(shape))) else entries;
        r == set e | e in candidates && keep(e.shape)
    {
      EmptyIffNoCoords(shape);
      if IsEmpty(shape) {
        return {};
      }
      var radius := SearchRadius(CoordList(shape));
      var near := Near(centroid, radius);
      r := set e | e in near && keep(e.shape);
    }
  }

  /** The loop of `near` over the tree's hits: the entries filed under each
      point of pts that lies within radius of p. */
  method Scan<T(==)>(index: map<Coord, seq<Entry<T>>>, pts: seq<Coord>, p: Coord, radius: real) returns (r: set<Entry<T>>)
    requires forall j :: 0 <= j < |pts| ==> pts[j] in index
    ensures forall e :: e in r <==> exists j :: 0 <= j < |pts| && Within(pts[j], p, radius) && e in index[pts[j]]
  {
    r := {};
    for i := 0 to |pts|
      invariant forall e :: e in r <==> exists j :: 0 <= j < i && Within(pts[j], p, radius) && e in index[pts[j]]
    {
      if Within(pts[i], p, radius) {
        ghost var before := r;
        r := Collect(index[pts[i]], r);
        forall e | e in r
          ensures exists j :: 0 <= j < i + 1 && Within(pts[j], p, radius) && e in index[pts[j]]
        {
          if e !in before {
            assert Within(pts[i], p, radius) && e in index[pts[i]];
          }
        }
      }
    }
  }

  /** Scanning the whole key list finds exactly the entries nearby. */
  lemma ScanNearby<T>(t: Table<T>, p: Coord, radius: real, r: set<Entry<T>>)
    requires Ordered(t)
    requires forall e :: e in r <==> exists j :: 0 <= j < |t.order| && Within(t.order[j], p, radius) && e in t.index[t.order[j]]
    ensures r == Nearby(t, p, radius)
  {
    forall e
      ensures e in r <==> e in Nearby(t, p, radius)
    {
      if e in Nearby(t, p, radius) {
        var c :| c in t.index && Within(c, p, radius) && e in t.index[c];
        var j :| 0 <= j < |t.order| && t.order[j] == c;
      }
    }
  }

  /** Filing an entry that is recorded keeps every filed entry recorded. */
  lemma FileAllRecorded<T>(t: Table<T>, cs: seq<Coord>, e: Entry<T>, entries: set<Entry<T>>)
    requires forall c, e2 :: c in t.index && e2 in t.index[c] ==> e2 in entries
    requires e in entries
    ensures forall c, e2 :: c in FileAll(t, cs, e).index && e2 in FileAll(t, cs, e).index[c] ==> e2 in entries
  {
    forall c, e2 | c in FileAll(t, cs, e).index && e2 in FileAll(t, cs, e).index[c]
      ensures e2 in entries
    {
      FileFiles(t, cs, e, c, e2);
    }
  }

  /** Whatever is filed under a coordinate of cs came from the old table or is e. */
  lemma {:induction false} FileFiles<T>(t: Table<T>, cs: seq<Coord>, e: Entry<T>, c: Coord, e2: Entry<T>)
    requires c in FileAll(t, cs, e).index && e2 in FileAll(t, cs, e).index[c]
    ensures e2 == e || (c in t.index && e2 in t.index[c])
  {
    if |cs| > 0 {
      var u := FileAll(t, cs[..|cs| - 1], e);
      if c == cs[|cs| - 1] {
        if c in u.index && e2 in u.index[c] {
          FileFiles(t, cs[..|cs| - 1], e, c, e2);
        }
      } else {
        FileFiles(t, cs[..|cs| - 1], e, c, e2);
      }
    }
  }
}
