/** Small helpers of the host tools: consecutive pairs of a sequence and the
    combined bounding box of a collection of shapes. */
module Utils {
  /** The pairs (s[0], s[1]), (s[1], s[2]), ... of consecutive elements. */
  function Pairwise<T>(s: seq<T>): (r: seq<(T, T)>)
    ensures |r| == if |s| <= 1 then 0 else |s| - 1
    ensures forall i :: 0 <= i < |r| ==> r[i] == (s[i], s[i + 1])
  {
    if |s| <= 1 then [] else [(s[0], s[1])] + Pairwise(s[1..])
  }

  /** Consecutive pairs overlap: the second half of one pair is the first
      half of the next, so the pairs retrace the input as a chain. */
  lemma PairwiseChain<T>(s: seq<T>, i: nat)
    requires i + 1 < |Pairwise(s)|
    ensures Pairwise(s)[i].1 == Pairwise(s)[i + 1].0
  {
    var r := Pairwise(s);
    assert r[i] == (s[i], s[i + 1]);
    assert r[i + 1] == (s[i + 1], s[i + 2]);
  }

  /** Pairing a sequence extended by one element adds exactly one pair at the
      end, joining the old last element to the new one. */
  lemma {:induction false} PairwiseSnoc<T>(s: seq<T>, x: T)
    requires |s| >= 1
    ensures Pairwise(s + [x]) == Pairwise(s) + [(s[|s| - 1], x)]
  {
    var l := Pairwise(s + [x]);
    var r := Pairwise(s) + [(s[|s| - 1], x)];
    assert |l| == |r|;
    forall i | 0 <= i < |l|
      ensures l[i] == r[i]
    {
      assert l[i] == ((s + [x])[i], (s + [x])[i + 1]);
      if i < |s| - 1 {
        assert (s + [x])[i] == s[i] && (s + [x])[i + 1] == s[i + 1];
        assert r[i] == Pairwise(s)[i];
      } else {
        assert (s + [x])[i] == s[|s| - 1] && (s + [x])[i + 1] == x;
      }
    }
  }

  /** A shape's `bounds`: (minx, miny, maxx, maxy). */
  datatype Bounds = Bounds(minX: real, minY: real, maxX: real, maxY: real)

  const Origin := Bounds(0.0, 0.0, 0.0, 0.0)

  function Min(a: real, b: real): real { if a <= b then a else b }
  function Max(a: real, b: real): real { if a >= b then a else b }

  /** One step of `bounds_of`: widen `acc` to take in `b`. */
  function Widen(acc: Bounds, b: Bounds): Bounds
  {
    Bounds(Min(acc.minX, b.minX), Min(acc.minY, b.minY), Max(acc.maxX, b.maxX), Max(acc.maxY, b.maxY))
  }

  /** The box `bounds_of` computes: all shapes folded in, starting from the
      degenerate box at the origin. */
  function Enclosing(shapes: seq<Bounds>): Bounds
  {
    if |shapes| == 0 then Origin else Widen(Enclosing(shapes[..|shapes| - 1]), shapes[|shapes| - 1])
  }

  /** `a` contains `b` (closed boxes). */
  predicate Contains(a: Bounds, b: Bounds)
  {
    a.minX <= b.minX && a.minY <= b.minY && b.maxX <= a.maxX && b.maxY <= a.maxY
  }

  /** Computes the box enclosing every shape's bounds and the origin. */
  method BoundsOf(shapes: seq<Bounds>) returns (r: Bounds)
    ensures r == Enclosing(shapes)
    ensures shapes == [] ==> r == Origin
    ensures r.minX <= 0.0 <= r.maxX && r.minY <= 0.0 <= r.maxY
    ensures forall i :: 0 <= i < |shapes| ==> Contains(r, shapes[i])
  {
    r := Origin;
    var k := 0;
    while k < |shapes|
      invariant 0 <= k <= |shapes|
      invariant r == Enclosing(shapes[..k])
    {
      assert shapes[..k + 1][..k] == shapes[..k];
      r := Widen(r, shapes[k]);
      k := k + 1;
    }
    assert shapes[..k] == shapes;
    EnclosingContainsOrigin(shapes);
    EnclosingContainsAll(shapes);
  }

  /** The result always contains the origin, since the fold starts there. */
  lemma {:induction false} EnclosingContainsOrigin(shapes: seq<Bounds>)
    ensures var r := Enclosing(shapes); r.minX <= 0.0 <= r.maxX && r.minY <= 0.0 <= r.maxY
  {
    if |shapes| > 0 {
      EnclosingContainsOrigin(shapes[..|shapes| - 1]);
    }
  }

  /** The result encloses every input box. */
  lemma {:induction false} EnclosingContainsAll(shapes: seq<Bounds>)
    ensures forall i :: 0 <= i < |shapes| ==> Contains(Enclosing(shapes), shapes[i])
  {
    if |shapes| > 0 {
      var init := shapes[..|shapes| - 1];
      EnclosingContainsAll(init);
      forall i | 0 <= i < |shapes|
        ensures Contains(Enclosing(shapes), shapes[i])
      {
        if i < |init| {
          assert init[i] == shapes[i];
        }
      }
    }
  }

  /** The result is the least such box: any box containing the origin and
      every input contains it. */
  lemma {:induction false} EnclosingIsLeast(shapes: seq<Bounds>, box: Bounds)
    requires box.minX <= 0.0 <= box.maxX && box.minY <= 0.0 <= box.maxY
    requires forall i :: 0 <= i < |shapes| ==> Contains(box, shapes[i])
    ensures Contains(box, Enclosing(shapes))
  {
    if |shapes| > 0 {
      var init := shapes[..|shapes| - 1];
      forall i | 0 <= i < |init|
        ensures Contains(box, init[i])
      {
        assert init[i] == shapes[i];
      }
      EnclosingIsLeast(init, box);
    }
  }

  /** Each component of the result is 0 or the same component of some input. */
  lemma {:induction false} EnclosingAttained(shapes: seq<Bounds>)
    ensures var r := Enclosing(shapes);
      (r.minX == 0.0 || exists i :: 0 <= i < |shapes| && r.minX == shapes[i].minX) &&
      (r.minY == 0.0 || exists i :: 0 <= i < |shapes| && r.minY == shapes[i].minY) &&
      (r.maxX == 0.0 || exists i :: 0 <= i < |shapes| && r.maxX == shapes[i].maxX) &&
      (r.maxY == 0.0 || exists i :: 0 <= i < |shapes| && r.maxY == shapes[i].maxY)
  {
    if |shapes| > 0 {
      var n := |shapes| - 1;
      var init := shapes[..n];
      EnclosingAttained(init);
      var p := Enclosing(init);
      forall i | 0 <= i < |init|
        ensures init[i] == shapes[i]
      {
      }
    }
  }
}
