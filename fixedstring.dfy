/** FixedString.h: byte strings with a fixed capacity, compared with
    compareSequences, and the mutable string that appends with truncation. */
module FixedStrings {
  import opened Bytes
  import opened Copying

  /** A char of the string buffers, compared as unsigned. */
  type Char = uint8

  const CR: Char := 13
  const LF: Char := 10

  ghost predicate NulFree(s: seq<Char>)
  {
    forall i :: 0 <= i < |s| ==> s[i] != 0
  }

  // ---------------------------------------------------------------------
  // compareSequences

  /** The value of the element an iterator points at, or 0 at the end. */
  function HeadOrZero(s: seq<Char>): int
  {
    if s == [] then 0 else s[0]
  }

  /** What compareSequences returns: -1 or 1 at the first differing pair
      (compared unsigned), and otherwise the difference of the elements
      after the common part, an ended side counting as 0. */
  function Compare(left: seq<Char>, right: seq<Char>): int
  {
    if left == [] || right == [] then HeadOrZero(left) - HeadOrZero(right)
    else if left[0] < right[0] then -1
    else if left[0] > right[0] then 1
    else Compare(left[1..], right[1..])
  }

  /** compareSequences: walks both ranges while neither has ended. */
  method CompareSequences(left: seq<Char>, right: seq<Char>) returns (r: int)
    ensures r == Compare(left, right)
  {
    var i := 0;
    while i < |left| && i < |right|
      invariant 0 <= i <= |left| && i <= |right|
      invariant Compare(left[i..], right[i..]) == Compare(left, right)
    {
      var l := left[i];
      var rr := right[i];
      if l < rr {
        return -1;
      }
      if l > rr {
        return 1;
      }
      assert left[i..][1..] == left[i + 1..] && right[i..][1..] == right[i + 1..];
      i := i + 1;
    }
    var l: int := if i == |left| then 0 else left[i];
    var rr: int := if i == |right| then 0 else right[i];
    r := l - rr;
  }

  /** Lexicographic order on unsigned bytes, a proper prefix first. */
  ghost predicate LexLess(a: seq<Char>, b: seq<Char>)
  {
    (exists k :: 0 <= k < |a| && k < |b| && a[..k] == b[..k] && a[k] < b[k]) ||
    (|a| < |b| && a == b[..|a|])
  }

  /** Swapping the operands negates the result. */
  lemma {:induction false} CompareAntisymmetric(a: seq<Char>, b: seq<Char>)
    ensures Compare(a, b) == -Compare(b, a)
    decreases |a|
  {
    if a != [] && b != [] && a[0] == b[0] {
      CompareAntisymmetric(a[1..], b[1..]);
    }
  }

  /** For sequences without NUL bytes the result is 0 exactly when they are
      equal, so == on strings is equality of contents. */
  lemma {:induction false} CompareZeroIffEqual(a: seq<Char>, b: seq<Char>)
    requires NulFree(a) && NulFree(b)
    ensures Compare(a, b) == 0 <==> a == b
    decreases |a|
  {
    if a != [] && b != [] && a[0] == b[0] {
      CompareZeroIffEqual(a[1..], b[1..]);
      assert a == [a[0]] + a[1..] && b == [b[0]] + b[1..];
    } else if a != [] && b == [] {
      assert a[0] != 0;
    } else if a == [] && b != [] {
      assert b[0] != 0;
    }
  }

  /** Ranges of the same length compare 0 exactly when they are equal,
      whatever bytes they hold. */
  lemma {:induction false} CompareSameLength(a: seq<Char>, b: seq<Char>)
    requires |a| == |b|
    ensures Compare(a, b) == 0 <==> a == b
    decreases |a|
  {
    if a != [] && a[0] == b[0] {
      CompareSameLength(a[1..], b[1..]);
      assert a == [a[0]] + a[1..] && b == [b[0]] + b[1..];
    }
  }

  /** A common first element does not change the order. */
  lemma LexLessCons(a: seq<Char>, b: seq<Char>)
    requires a != [] && b != [] && a[0] == b[0]
    ensures LexLess(a, b) <==> LexLess(a[1..], b[1..])
  {
    var a', b' := a[1..], b[1..];
    if LexLess(a', b') {
      if k :| 0 <= k < |a'| && k < |b'| && a'[..k] == b'[..k] && a'[k] < b'[k] {
        assert a[..k + 1] == [a[0]] + a'[..k] && b[..k + 1] == [b[0]] + b'[..k];
        assert a[k + 1] == a'[k] && b[k + 1] == b'[k];
      } else {
        assert a == [a[0]] + a' && b[..|a|] == [b[0]] + b'[..|a'|];
      }
    }
    if LexLess(a, b) {
      if k :| 0 <= k < |a| && k < |b| && a[..k] == b[..k] && a[k] < b[k] {
        assert k > 0;
        assert a'[..k - 1] == a[..k][1..] && b'[..k - 1] == b[..k][1..];
        assert a'[k - 1] == a[k] && b'[k - 1] == b[k];
      } else {
        assert a' == a[..|a|][1..] && b'[..|a'|] == b[..|a|][1..];
      }
    }
  }

  /** A larger first element is never lexicographically less. */
  lemma LexLessHead(a: seq<Char>, b: seq<Char>)
    requires a != [] && b != [] && a[0] > b[0]
    ensures !LexLess(a, b)
  {
  }

  /** For NUL-free sequences the sign of the result is the unsigned
      lexicographic order. */
  lemma {:induction false} CompareNegativeIffLess(a: seq<Char>, b: seq<Char>)
    requires NulFree(a) && NulFree(b)
    ensures Compare(a, b) < 0 <==> LexLess(a, b)
    decreases |a|
  {
    if a == [] {
      if b != [] {
        assert b[0] != 0;
        assert a == b[..0];
      }
    } else if b == [] {
      assert a[0] != 0;
    } else if a[0] < b[0] {
      assert a[..0] == b[..0];
    } else if a[0] > b[0] {
      LexLessHead(a, b);
    } else {
      CompareNegativeIffLess(a[1..], b[1..]);
      LexLessCons(a, b);
    }
  }

  /** The proper-prefix case returns minus the next element of the longer
      range, not -1. */
  lemma {:induction false} ComparePrefix(a: seq<Char>, b: seq<Char>)
    requires |a| < |b| && a == b[..|a|]
    ensures Compare(a, b) == -(b[|a|] as int)
    decreases |a|
  {
    if a != [] {
      assert a[1..] == b[1..][..|a| - 1];
      ComparePrefix(a[1..], b[1..]);
    }
  }

  /** The constant-string test: "woto" equals "woto" and differs from
      "wooo", "w" and "waaaaa" (ASCII codes). */
  lemma ConstStringTest()
    ensures var woto: seq<Char> := [119, 111, 116, 111];
      Compare(woto, woto) == 0 &&
      Compare(woto, [119, 111, 111, 111]) != 0 &&
      Compare(woto, [119]) != 0 &&
      Compare(woto, [119, 97, 97, 97, 97, 97]) != 0
  {
    var woto: seq<Char> := [119, 111, 116, 111];
    CompareSameLength(woto, woto);
    CompareSameLength(woto, [119, 111, 111, 111]);
    ComparePrefix([119], woto);
    CompareAntisymmetric(woto, [119]);
    var waaaaa: seq<Char> := [119, 97, 97, 97, 97, 97];
    assert woto[1..] == [111, 116, 111] && waaaaa[1..] == [97, 97, 97, 97, 97];
  }

  // ---------------------------------------------------------------------
  // C strings and endsWith

  /** strlen: the length up to the first NUL byte. */
  function StrLen(s: seq<Char>): (n: nat)
    ensures n <= |s| && NulFree(s[..n]) && (n < |s| ==> s[n] == 0)
  {
    if s == [] || s[0] == 0 then 0
    else
      var n := 1 + StrLen(s[1..]);
      assert s[..n] == [s[0]] + s[1..][..n - 1];
      n
  }

  /** endsWith: false for a longer suffix, otherwise a comparison of the
      last other.size() elements. */
  method EndsWith(s: seq<Char>, other: seq<Char>) returns (b: bool)
    ensures b <==> |other| <= |s| && s[|s| - |other|..] == other
  {
    if |s| < |other| {
      return false;
    }
    var c := CompareSequences(s[|s| - |other|..], other);
    CompareSameLength(s[|s| - |other|..], other);
    b := c == 0;
  }

  /** endsWith of a NUL-terminated string. */
  method EndsWithCStr(s: seq<Char>, cstr: seq<Char>) returns (b: bool)
    ensures b <==> StrLen(cstr) <= |s| && s[|s| - StrLen(cstr)..] == cstr[..StrLen(cstr)]
  {
    var otherSize := StrLen(cstr);
    b := EndsWith(s, cstr[..otherSize]);
  }

  // ---------------------------------------------------------------------
  // Truncating append

  /** The contents after appending `src` to `s` in a buffer of `capacity`
      characters: as much of `src` as fits. */
  function Appended(s: seq<Char>, capacity: nat, src: seq<Char>): seq<Char>
    requires |s| <= capacity
  {
    var toCopy := if capacity - |s| < |src| then capacity - |s| else |src|;
    s + src[..toCopy]
  }

  /** Appending never exceeds the capacity, keeps the old contents, appends
      a prefix of `src`, and appends all of it exactly when it fits; a
      truncated append fills the buffer. */
  lemma AppendedBounds(s: seq<Char>, capacity: nat, src: seq<Char>)
    requires |s| <= capacity
    ensures var r := Appended(s, capacity, src);
      |r| <= capacity && r[..|s|] == s && r[|s|..] == src[..|r| - |s|] &&
      (r == s + src <==> |s| + |src| <= capacity) &&
      (|s| + |src| > capacity ==> |r| == capacity)
  {
    var r := Appended(s, capacity, src);
    if |s| + |src| > capacity {
      assert |r| < |s + src|;
    }
  }

  /** Two appends in a row leave what one append of the concatenation
      leaves: once the buffer is full, later appends change nothing. */
  lemma AppendedTwice(s: seq<Char>, capacity: nat, a: seq<Char>, b: seq<Char>)
    requires |s| <= capacity
    ensures |Appended(s, capacity, a)| <= capacity
    ensures Appended(Appended(s, capacity, a), capacity, b) == Appended(s, capacity, a + b)
  {
    var sa := Appended(s, capacity, a);
    if |s| + |a| <= capacity {
      assert sa == s + a;
      var toCopy := if capacity - |sa| < |b| then capacity - |sa| else |b|;
      assert (a + b)[..|a| + toCopy] == a + b[..toCopy];
    } else {
      assert (a + b)[..capacity - |s|] == a[..capacity - |s|];
    }
  }

  /** Once a prefix of `src` no longer fits, the rest of it changes
      nothing. */
  lemma AppendedFull(s: seq<Char>, capacity: nat, src: seq<Char>, n: nat)
    requires |s| <= capacity && n <= |src| && |s| + n > capacity
    ensures Appended(s, capacity, src[..n]) == Appended(s, capacity, src)
    ensures |s| + |src| > capacity
  {
    AppendedTwice(s, capacity, src[..n], src[n..]);
    assert src[..n] + src[n..] == src;
    AppendedBounds(s, capacity, src[..n]);
  }

  /** The truncation test: "hello" in a 12-character string, then "there",
      then "woot", which is cut to "wo" (ASCII codes). */
  lemma TruncationTest()
    ensures var hello: seq<Char> := [104, 101, 108, 108, 111];
      var there: seq<Char> := [116, 104, 101, 114, 101];
      var woot: seq<Char> := [119, 111, 111, 116];
      Appended(hello, 12, there) == hello + there &&
      Appended(hello + there, 12, woot) == hello + there + [119, 111]
  {
  }

  // ---------------------------------------------------------------------
  // Hex digits

  /** _toHexDigit: '0' + b below 10, 'A' + (b - 10) otherwise, as a char. */
  function ToHexDigit(b: uint8): Char
  {
    if b > 9 then (65 + b - 10) % 0x100 else 48 + b
  }

  /** The value of an upper-case hex digit, or -1. */
  function HexValue(c: Char): int
  {
    if 48 <= c <= 57 then c - 48
    else if 65 <= c <= 70 then c - 55
    else -1
  }

  /** Every nibble becomes its upper-case hex digit. */
  lemma HexDigitRoundTrip(b: uint8)
    requires b < 16
    ensures HexValue(ToHexDigit(b)) == b
    ensures b < 10 ==> ToHexDigit(b) == '0' as int + b
    ensures b >= 10 ==> ToHexDigit(b) == 'A' as int + b - 10
  {
  }

  /** appendHex(uint8_t): the two nibbles, most significant first. */
  function HexDigits8(b: uint8): seq<Char>
  {
    [ToHexDigit(b / 0x10), ToHexDigit(b % 0x10)]
  }

  /** appendHex(uint16_t): the four nibbles, most significant first. */
  function HexDigits16(w: uint16): seq<Char>
  {
    [ToHexDigit(w / 0x1000), ToHexDigit((w / 0x100) % 0x10), ToHexDigit((w / 0x10) % 0x10), ToHexDigit(w % 0x10)]
  }

  /** The value of a sequence of hex digits, most significant first. */
  function ParseHex(s: seq<Char>): int
  {
    if s == [] then 0 else ParseHex(s[..|s| - 1]) * 16 + HexValue(s[|s| - 1])
  }

  lemma ParseHexSnoc(s: seq<Char>, c: Char)
    ensures ParseHex(s + [c]) == ParseHex(s) * 16 + HexValue(c)
  {
    assert (s + [c])[..|s|] == s;
  }

  /** The nibbles of a byte, most significant first. */
  lemma ByteNibbles(b: nat)
    ensures b == (b / 0x10) * 16 + b % 0x10
  {
  }

  lemma HexDigits8RoundTrip(b: uint8)
    ensures |HexDigits8(b)| == 2 && ParseHex(HexDigits8(b)) == b
  {
    var hi, lo := b / 0x10, b % 0x10;
    HexDigitRoundTrip(hi);
    HexDigitRoundTrip(lo);
    ParseHexSnoc([], ToHexDigit(hi));
    assert [] + [ToHexDigit(hi)] == [ToHexDigit(hi)];
    ParseHexSnoc([ToHexDigit(hi)], ToHexDigit(lo));
    assert [ToHexDigit(hi)] + [ToHexDigit(lo)] == HexDigits8(b);
  }

  lemma HexDigits16RoundTrip(w: uint16)
    ensures |HexDigits16(w)| == 4 && ParseHex(HexDigits16(w)) == w
  {
    var n0, n1, n2, n3 := w / 0x1000, (w / 0x100) % 0x10, (w / 0x10) % 0x10, w % 0x10;
    HexDigitRoundTrip(n0);
    HexDigitRoundTrip(n1);
    HexDigitRoundTrip(n2);
    HexDigitRoundTrip(n3);
    var d0, d1, d2, d3 := ToHexDigit(n0), ToHexDigit(n1), ToHexDigit(n2), ToHexDigit(n3);
    ParseHexSnoc([], d0);
    assert [] + [d0] == [d0];
    ParseHexSnoc([d0], d1);
    assert [d0] + [d1] == [d0, d1];
    ParseHexSnoc([d0, d1], d2);
    assert [d0, d1] + [d2] == [d0, d1, d2];
    ParseHexSnoc([d0, d1, d2], d3);
    assert [d0, d1, d2] + [d3] == HexDigits16(w);
    ByteNibbles(w / 0x100);
    ByteNibbles(w / 0x10);
    ByteNibbles(w);
    assert w / 0x100 / 0x10 == n0;
    assert w / 0x10 / 0x10 == w / 0x100;
    assert w / 0x10 == (w / 0x100) * 16 + n2;
  }

  // ---------------------------------------------------------------------
  // MutableString

  class MutableString {
    /** Size, the template capacity. */
    const capacity: nat
    /** data_: Size characters and room for the terminator. */
    const data: array<Char>
    var size: nat

    ghost predicate Valid()
      reads this
    {
      data.Length == capacity + 1 && size <= capacity
    }

    function Contents(): seq<Char>
      requires Valid()
      reads this, data
    {
      data[..size]
    }

    /** The default constructor zero-fills the storage. */
    constructor (capacity: nat)
      ensures Valid() && this.capacity == capacity && fresh(data)
      ensures size == 0 && forall i :: 0 <= i < data.Length ==> data[i] == 0
    {
      this.capacity := capacity;
      data := new Char[capacity + 1](_ => 0);
      size := 0;
    }

    /** Construction from a literal that fits: its characters, then zeros. */
    constructor FromLiteral(capacity: nat, literal: seq<Char>)
      requires |literal| <= capacity
      ensures Valid() && this.capacity == capacity && fresh(data)
      ensures Contents() == literal && forall i :: |literal| <= i < data.Length ==> data[i] == 0
    {
      this.capacity := capacity;
      data := new Char[capacity + 1](i => if 0 <= i < |literal| then literal[i] else 0);
      size := |literal|;
      new;
      assert data[..size] == literal;
    }

    /** clear() only resets the size; the bytes, terminator included, stay. */
    method Clear()
      requires Valid()
      modifies this`size
      ensures Valid() && size == 0 && Contents() == []
    {
      size := 0;
    }

    /** rtrim(): drops trailing CR and LF characters. */
    method RTrim()
      requires Valid()
      modifies this`size
      ensures Valid() && Contents() == RTrimmed(old(Contents()))
    {
      while size > 0 && (data[size - 1] == CR || data[size - 1] == LF)
        invariant Valid() && RTrimmed(data[..size]) == RTrimmed(old(Contents()))
      {
        assert data[..size - 1] == data[..size][..size - 1];
        size := size - 1;
      }
    }

    /** append(const Char*, len): memcpy of as much as fits, then the
        terminator; a zero-length copy touches nothing. */
    method Append(src: seq<Char>, len: nat) returns (ok: bool)
      requires Valid() && len <= |src|
      modifies this`size, data
      ensures Valid()
      ensures AppendEffect(old(size), old(data[..]), src[..len], ok)
    {
      var avail := capacity - size;
      var toCopy := if avail < len then avail else len;
      if toCopy > 0 {
        var _ := Copy(src[..toCopy], data, size);
        SplicedReadsBack(old(data[..]), size, src[..toCopy]);
        assert src[..len][..toCopy] == src[..toCopy];
        size := size + toCopy;
        data[size] := 0;
      }
      ok := toCopy == len;
    }

    /** append(InputIt first, size_t len): the same, copying with copy_n. */
    method AppendIter(src: seq<Char>, len: nat) returns (ok: bool)
      requires Valid() && len <= |src|
      modifies this`size, data
      ensures Valid()
      ensures AppendEffect(old(size), old(data[..]), src[..len], ok)
    {
      var avail := capacity - size;
      var toCopy := if avail < len then avail else len;
      if toCopy > 0 {
        var _, _, _ := CopyN(src, toCopy, data, size);
        SplicedReadsBack(old(data[..]), size, src[..toCopy]);
        assert src[..len][..toCopy] == src[..toCopy];
        size := size + toCopy;
        data[size] := 0;
      }
      ok := toCopy == len;
    }

    /** append(first, last) over the range [first, last). */
    method AppendRange(range: seq<Char>) returns (ok: bool)
      requires Valid()
      modifies this`size, data
      ensures Valid()
      ensures AppendEffect(old(size), old(data[..]), range, ok)
    {
      ok := AppendIter(range, |range|);
      assert range[..|range|] == range;
    }

    /** append(const Char* cstr): the characters before the NUL. */
    method AppendCStr(cstr: seq<Char>) returns (ok: bool)
      requires Valid()
      modifies this`size, data
      ensures Valid()
      ensures AppendEffect(old(size), old(data[..]), cstr[..StrLen(cstr)], ok)
    {
      ok := Append(cstr, StrLen(cstr));
    }

    /** append(const Stringy&): the other string's contents. */
    method AppendString(other: seq<Char>) returns (ok: bool)
      requires Valid()
      modifies this`size, data
      ensures Valid()
      ensures AppendEffect(old(size), old(data[..]), other, ok)
    {
      ok := AppendRange(other);
    }

    /** The new state after appending `src` to a string of `size0`
        characters whose storage held `data0`: the contents are
        Appended(...), the result says whether all of `src` fitted, a
        non-empty copy is NUL-terminated, and no other byte changes. */
    ghost predicate AppendEffect(size0: nat, data0: seq<Char>, src: seq<Char>, ok: bool)
      requires Valid() && |data0| == data.Length && size0 <= capacity
      reads this, data
    {
      Contents() == Appended(data0[..size0], capacity, src) &&
      (ok <==> size0 + |src| <= capacity) &&
      (if size > size0 then data[size] == 0 && data[size + 1..] == data0[size + 1..]
       else size == size0 && data[..] == data0)
    }

    /** appendHex(uint8_t): two digits; stops at the first that does not
        fit, possibly after appending the first one. */
    method AppendHex8(b: uint8) returns (ok: bool)
      requires Valid()
      modifies this`size, data
      ensures Valid()
      ensures Contents() == Appended(old(Contents()), capacity, HexDigits8(b))
      ensures ok <==> old(size) + 2 <= capacity
      ensures size > old(size) ==> data[size] == 0
    {
      var digits := HexDigits8(b);
      ok := AppendDigits(digits);
    }

    /** appendHex(uint16_t): four digits, with the same early stop. */
    method AppendHex16(w: uint16) returns (ok: bool)
      requires Valid()
      modifies this`size, data
      ensures Valid()
      ensures Contents() == Appended(old(Contents()), capacity, HexDigits16(w))
      ensures ok <==> old(size) + 4 <= capacity
      ensures size > old(size) ==> data[size] == 0
    {
      var digits := HexDigits16(w);
      ok := AppendDigits(digits);
    }

    /** The digit-by-digit appends of appendHex, one `append(&digit, 1)`
        each, returning false at the first that fails. */
    method AppendDigits(digits: seq<Char>) returns (ok: bool)
      requires Valid()
      modifies this`size, data
      ensures Valid()
      ensures Contents() == Appended(old(Contents()), capacity, digits)
      ensures ok <==> old(size) + |digits| <= capacity
      ensures size > old(size) ==> data[size] == 0
    {
      ghost var s0 := Contents();
      var i := 0;
      ok := true;
      while i < |digits|
        invariant 0 <= i <= |digits| && Valid()
        invariant Contents() == Appended(s0, capacity, digits[..i])
        invariant old(size) + i <= capacity
        invariant size > old(size) ==> data[size] == 0
      {
        ghost var before := Contents();
        var digitOk := Append([digits[i]], 1);
        AppendedTwice(s0, capacity, digits[..i], [digits[i]]);
        assert digits[..i] + [digits[i]] == digits[..i + 1];
        if !digitOk {
          AppendedFull(s0, capacity, digits, i + 1);
          return false;
        }
        i := i + 1;
      }
      assert digits[..i] == digits;
      AppendedBounds(s0, capacity, digits);
    }
  }

  /** The contents after rtrim(). */
  function RTrimmed(s: seq<Char>): seq<Char>
  {
    if |s| > 0 && (s[|s| - 1] == CR || s[|s| - 1] == LF) then RTrimmed(s[..|s| - 1]) else s
  }

  /** rtrim keeps a prefix, removes only CR and LF characters, and leaves
      none at the end. */
  lemma {:induction false} RTrimmedShape(s: seq<Char>)
    ensures var r := RTrimmed(s);
      |r| <= |s| && r == s[..|r|] &&
      (forall i :: |r| <= i < |s| ==> s[i] == CR || s[i] == LF) &&
      (|r| > 0 ==> r[|r| - 1] != CR && r[|r| - 1] != LF)
    decreases |s|
  {
    if |s| > 0 && (s[|s| - 1] == CR || s[|s| - 1] == LF) {
      var t := s[..|s| - 1];
      RTrimmedShape(t);
      var r := RTrimmed(t);
      assert forall i :: |r| <= i < |t| ==> s[i] == t[i];
    }
  }
}
