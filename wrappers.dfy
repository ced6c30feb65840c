/** Small value types shared by every module: optional values, fallible
    results and the fixed-width unsigned integers of the firmware. */
module Wrappers {
  datatype Option<T> = None | Some(value: T)

  datatype Result<T, E> = Success(value: T) | Failure(error: E)
  {
    predicate IsFailure() { Failure? }
  }
}

module Bytes {
  /** uint8_t, uint16_t and uint32_t of the AVR target. */
  type uint8 = x: int | 0 <= x < 0x100
  type uint16 = x: int | 0 <= x < 0x1_0000
  type uint32 = x: int | 0 <= x < 0x1_0000_0000

  /** `a - b` on two uint16_t values.  On AVR both operands are
      `unsigned int` (16 bits), so the difference wraps modulo 2^16. */
  function Sub16(a: uint16, b: uint16): (r: uint16)
    ensures a >= b ==> r == a - b
    ensures a < b ==> r == a - b + 0x1_0000
  {
    (a - b) % 0x1_0000
  }
}

module Seqs {
  import opened Wrappers

  /** The index of the first occurrence of `x` in `s`, if any. */
  function IndexOf<T(==)>(s: seq<T>, x: T): (r: Option<nat>)
    ensures r.Some? ==> (r.value < |s| && s[r.value] == x &&
                         forall j :: 0 <= j < r.value ==> s[j] != x)
    ensures r.None? <==> x !in s
  {
    if |s| == 0 then None
    else if s[0] == x then Some(0)
    else
      var p := IndexOf(s[1..], x);
      if p.Some? then Some(p.value + 1) else None
  }

  lemma ConcatAssoc<T>(a: seq<T>, b: seq<T>, c: seq<T>)
    ensures (a + b) + c == a + (b + c)
  {
  }

  /** `s` cut before index `i`: the element at `i` heads the second part. */
  lemma SplitAt<T>(s: seq<T>, i: nat)
    requires i < |s|
    ensures s[..i] + s[i..] == s && s[i..][0] == s[i] && s[i..][1..] == s[i + 1..]
  {
  }

  /** Dropping a prefix and then the last element is dropping the last
      element and then the prefix. */
  lemma DropThenInit<T>(s: seq<T>, n: nat)
    requires n < |s|
    ensures s[n..][..|s| - n - 1] == s[..|s| - 1][n..]
  {
  }

  /** A prefix is the shorter prefix and one more element. */
  lemma TakeSnoc<T>(s: seq<T>, m: nat)
    requires 0 < m <= |s|
    ensures s[..m] == s[..m - 1] + [s[m - 1]]
  {
  }
}
