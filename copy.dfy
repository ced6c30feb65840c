/** Copy.h: the generic `copy` and `copy_n` algorithms.  The input range is
    the sequence of values its iterator yields; the output iterator is a
    position in an array. */
module Copying {

  /** `a` with the elements from position `at` on overwritten by `src`. */
  function Spliced<T>(a: seq<T>, at: nat, src: seq<T>): (r: seq<T>)
    requires at + |src| <= |a|
    ensures |r| == |a|
  {
    a[..at] + src + a[at + |src|..]
  }

  /** The spliced range reads back as `src`, and everything outside it is
      the old contents. */
  lemma SplicedReadsBack<T>(a: seq<T>, at: nat, src: seq<T>)
    requires at + |src| <= |a|
    ensures Spliced(a, at, src)[at..at + |src|] == src
    ensures Spliced(a, at, src)[..at] == a[..at]
    ensures Spliced(a, at, src)[at + |src|..] == a[at + |src|..]
  {
    var r := Spliced(a, at, src);
    assert r == (a[..at] + src) + a[at + |src|..];
    assert (a[..at] + src)[at..] == src;
  }

  /** copy: writes every element of [first, last) to d_first, d_first + 1,
      ... and returns d_first advanced by the element count. */
  method Copy<T>(src: seq<T>, dst: array<T>, dFirst: nat) returns (dEnd: nat)
    requires dFirst + |src| <= dst.Length
    modifies dst
    ensures dEnd == dFirst + |src|
    ensures dst[..] == Spliced(old(dst[..]), dFirst, src)
  {
    ghost var a := dst[..];
    var i := 0;
    dEnd := dFirst;
    while i < |src|
      invariant 0 <= i <= |src| && dEnd == dFirst + i
      invariant forall k :: 0 <= k < dst.Length ==> dst[k] == if dFirst <= k < dEnd then src[k - dFirst] else a[k]
    {
      dst[dEnd] := src[i];
      dEnd := dEnd + 1;
      i := i + 1;
    }
    assert dst[..] == Spliced(a, dFirst, src) by {
      forall k | 0 <= k < dst.Length
        ensures dst[..][k] == Spliced(a, dFirst, src)[k]
      {
        if k < dFirst {
          assert Spliced(a, dFirst, src)[k] == (a[..dFirst] + src)[k];
        } else if k < dEnd {
          assert Spliced(a, dFirst, src)[k] == (a[..dFirst] + src)[k];
        }
      }
    }
  }

  /** copy_n: for count > 0 dereferences the input once, then advances and
      dereferences it count - 1 more times, writing each value through the
      output iterator; for count <= 0 it does nothing.  Besides the advanced
      output position, the model returns how often the input was
      dereferenced and advanced. */
  method CopyN<T>(src: seq<T>, count: int, dst: array<T>, result: nat) returns (out: nat, derefs: nat, advances: nat)
    requires count > 0 ==> count <= |src| && result + count <= dst.Length
    modifies dst
    ensures count > 0 ==> (out == result + count && derefs == count && advances == count - 1 &&
                           dst[..] == Spliced(old(dst[..]), result, src[..count]))
    ensures count <= 0 ==> out == result && derefs == 0 && advances == 0 && dst[..] == old(dst[..])
  {
    ghost var a := dst[..];
    out, derefs, advances := result, 0, 0;
    if count > 0 {
      var first := 0;
      dst[out] := src[first];
      derefs := derefs + 1;
      out := out + 1;
      var i := 1;
      while i < count
        invariant 1 <= i <= count && out == result + i && first == i - 1
        invariant derefs == i && advances == i - 1
        invariant forall k :: 0 <= k < dst.Length ==> dst[k] == if result <= k < out then src[k - result] else a[k]
      {
        first := first + 1;
        advances := advances + 1;
        dst[out] := src[first];
        derefs := derefs + 1;
        out := out + 1;
        i := i + 1;
      }
      assert dst[..] == Spliced(a, result, src[..count]) by {
        forall k | 0 <= k < dst.Length
          ensures dst[..][k] == Spliced(a, result, src[..count])[k]
        {
          if k < result {
            assert Spliced(a, result, src[..count])[k] == (a[..result] + src[..count])[k];
          } else if k < out {
            assert Spliced(a, result, src[..count])[k] == (a[..result] + src[..count])[k];
          }
        }
      }
    }
  }
}
