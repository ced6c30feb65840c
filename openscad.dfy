/** The OpenSCAD serialiser of the host tools: a tree of actions (modifiers,
    operators, polygons, modules) rendered to OpenSCAD source text. */
module OpenScad {
  import opened Wrappers

  // ---------------------------------------------------------------------
  // Values and their text

  /** The Python values that reach `scad_repr`: strings, integers, lists
      and `None`. */
  datatype Val = Str(s: string) | Int(i: int) | List(items: seq<Val>) | NoneVal

  function DigitChar(d: nat): char
    requires d < 10
  {
    "0123456789"[d]
  }

  /** The decimal digits of `n`. */
  function NatText(n: nat): (r: string)
    ensures |r| >= 1
    ensures forall k :: 0 <= k < |r| ==> '0' <= r[k] <= '9'
  {
    if n < 10 then [DigitChar(n)] else NatText(n / 10) + [DigitChar(n % 10)]
  }

  function IntText(i: int): string
  {
    if i < 0 then "-" + NatText(-i) else NatText(i)
  }

  /** `sep.join(parts)`. */
  function Join(parts: seq<string>, sep: string): (r: string)
    ensures |parts| == 0 ==> r == ""
    ensures |parts| == 1 ==> r == parts[0]
  {
    if |parts| == 0 then ""
    else if |parts| == 1 then parts[0]
    else Join(parts[..|parts| - 1], sep) + sep + parts[|parts| - 1]
  }

  // ---------------------------------------------------------------------
  // Python's repr of a string

  /** The quote `repr` puts round a string: a double quote when the string
      holds a single quote and no double quote, else a single quote. */
  function PyQuote(s: string): (q: char)
    ensures q == '"' <==> ('\'' in s && '"' !in s)
    ensures q == '"' || q == '\''
  {
    if '\'' in s && '"' !in s then '"' else '\''
  }

  function HexLower(d: nat): char
    requires d < 16
  {
    "0123456789abcdef"[d]
  }

  predicate IsHexLower(c: char)
  {
    ('0' <= c <= '9') || ('a' <= c <= 'f')
  }

  function HexLowerValue(c: char): (d: nat)
    requires IsHexLower(c)
    ensures d < 16
  {
    if c <= '9' then c as int - '0' as int else c as int - 'a' as int + 10
  }

  /** A character outside the printable ASCII range that has no escape
      letter of its own: `repr` writes it as `\xhh`. */
  predicate HexEscaped(c: char)
  {
    (c < ' ' && c != '\t' && c != '\n' && c != '\r') || c == '\U{7F}'
  }

  /** How `repr` writes one character of a string quoted with `q`. */
  function EscapeChar(c: char, q: char): string
  {
    if c == q || c == '\\' then ['\\', c]
    else if c == '\t' then "\\t"
    else if c == '\n' then "\\n"
    else if c == '\r' then "\\r"
    else if HexEscaped(c) then ['\\', 'x', HexLower(c as int / 16), HexLower(c as int % 16)]
    else [c]
  }

  /** The characters of a string as `repr` writes them between the quotes. */
  function EscapeBody(s: string, q: char): string
  {
    if |s| == 0 then "" else EscapeChar(s[0], q) + EscapeBody(s[1..], q)
  }

  /** `repr` of a string. */
  function PyStrRepr(s: string): string
  {
    var q := PyQuote(s);
    [q] + EscapeBody(s, q) + [q]
  }

  function Prepend(c: char, rest: Option<string>): Option<string>
  {
    if rest.Some? then Some([c] + rest.value) else None
  }

  /** Reads back the body of a Python string literal quoted with `q`: the
      escapes `\\`, `\q`, `\t`, `\n`, `\r` and `\xhh`; `None` on an
      unescaped quote, an unescaped control character or a broken escape. */
  function Unescape(t: string, q: char): (r: Option<string>)
    decreases |t|
  {
    if |t| == 0 then Some("")
    else if t[0] == q || t[0] < ' ' || t[0] == '\U{7F}' then None
    else if t[0] != '\\' then Prepend(t[0], Unescape(t[1..], q))
    else if |t| < 2 then None
    else if t[1] == 't' then Prepend('\t', Unescape(t[2..], q))
    else if t[1] == 'n' then Prepend('\n', Unescape(t[2..], q))
    else if t[1] == 'r' then Prepend('\r', Unescape(t[2..], q))
    else if t[1] == 'x' then
      if |t| >= 4 && IsHexLower(t[2]) && IsHexLower(t[3]) then
        Prepend((HexLowerValue(t[2]) * 16 + HexLowerValue(t[3])) as char, Unescape(t[4..], q))
      else None
    else if t[1] == q || t[1] == '\\' then Prepend(t[1], Unescape(t[2..], q))
    else None
  }

  /** Reads back a Python string literal in single or double quotes. */
  function Unrepr(t: string): Option<string>
  {
    if |t| >= 2 && (t[0] == '\'' || t[0] == '"') && t[|t| - 1] == t[0] then
      Unescape(t[1..|t| - 1], t[0])
    else None
  }

  lemma HexLowerRoundTrip(d: nat)
    requires d < 16
    ensures IsHexLower(HexLower(d)) && HexLowerValue(HexLower(d)) == d
  {
  }

  lemma UnescapeHex(c: char, q: char, rest: string)
    requires q == '"' || q == '\''
    requires HexEscaped(c)
    ensures Unescape(EscapeChar(c, q) + rest, q) == Prepend(c, Unescape(rest, q))
  {
    var hi, lo := c as int / 16, c as int % 16;
    var t := EscapeChar(c, q) + rest;
    assert EscapeChar(c, q) == ['\\', 'x', HexLower(hi), HexLower(lo)];
    HexLowerRoundTrip(hi);
    HexLowerRoundTrip(lo);
    assert t[4..] == rest;
    assert (hi * 16 + lo) as char == c;
  }

  lemma UnescapePair(c: char, q: char, rest: string)
    requires q == '"' || q == '\''
    requires !HexEscaped(c) && |EscapeChar(c, q)| == 2
    ensures Unescape(EscapeChar(c, q) + rest, q) == Prepend(c, Unescape(rest, q))
  {
    var t := EscapeChar(c, q) + rest;
    assert t[2..] == rest;
  }

  /** Reading back one written character gives that character before
      whatever the rest reads back as. */
  lemma UnescapeChar(c: char, q: char, rest: string)
    requires q == '"' || q == '\''
    ensures Unescape(EscapeChar(c, q) + rest, q) == Prepend(c, Unescape(rest, q))
  {
    if HexEscaped(c) {
      UnescapeHex(c, q, rest);
    } else if |EscapeChar(c, q)| == 2 {
      UnescapePair(c, q, rest);
    } else {
      var t := EscapeChar(c, q) + rest;
      assert t[1..] == rest;
    }
  }

  lemma {:induction false} UnescapeBody(s: string, q: char)
    requires q == '"' || q == '\''
    ensures Unescape(EscapeBody(s, q), q) == Some(s)
  {
    if |s| > 0 {
      var e := EscapeBody(s[1..], q);
      assert EscapeBody(s, q) == EscapeChar(s[0], q) + e;
      UnescapeBody(s[1..], q);
      UnescapeChar(s[0], q, e);
      assert [s[0]] + s[1..] == s;
      assert Prepend(s[0], Some(s[1..])) == Some(s);
    }
  }

  /** `repr` of a string is a Python literal that reads back as the string:
      the chosen quote never appears unescaped inside it, and every
      backslash and control character is escaped. */
  lemma PyStrReprRoundTrip(s: string)
    ensures Unrepr(PyStrRepr(s)) == Some(s)
  {
    var q := PyQuote(s);
    var t := PyStrRepr(s);
    assert t[1..|t| - 1] == EscapeBody(s, q);
    UnescapeBody(s, q);
  }

  lemma {:induction false} EscapeBodyPlain(s: string, q: char)
    requires forall k :: 0 <= k < |s| ==> ' ' <= s[k] < '\U{7F}' && s[k] != '\\' && s[k] != q
    ensures EscapeBody(s, q) == s
  {
    if |s| > 0 {
      EscapeBodyPlain(s[1..], q);
      assert [s[0]] + s[1..] == s;
    }
  }

  /** A string of printable ASCII characters without a backslash that does
      not hold both kinds of quote is written as it is between the quotes. */
  lemma PyStrReprPlain(s: string)
    requires forall k :: 0 <= k < |s| ==> ' ' <= s[k] < '\U{7F}' && s[k] != '\\'
    requires !('\'' in s && '"' in s)
    ensures PyStrRepr(s) == [PyQuote(s)] + s + [PyQuote(s)]
  {
    EscapeBodyPlain(s, PyQuote(s));
  }

  /** `repr` of a value; strings as Python writes them. */
  function Repr(v: Val): string
  {
    match v
    case Str(s) => PyStrRepr(s)
    case Int(i) => IntText(i)
    case NoneVal => "None"
    case List(items) => "[" + Join(seq(|items|, k requires 0 <= k < |items| => Repr(items[k])), ", ") + "]"
  }

  /** `scad_repr`: a string in double quotes, as it is, everything else
      through `repr`, which writes strings nested in lists as Python does. */
  function ScadRepr(v: Val): (r: string)
    ensures v.Str? ==> |r| == |v.s| + 2 && r[0] == '"' && r[|r| - 1] == '"' && r[1..|r| - 1] == v.s
    ensures !v.Str? ==> r == Repr(v)
  {
    if v.Str? then "\"" + v.s + "\"" else Repr(v)
  }

  lemma ReprOfSingleton(v: Val)
    ensures ScadRepr(List([v])) == "[" + Repr(v) + "]"
  {
    assert seq(1, k requires 0 <= k < 1 => Repr([v][k])) == [Repr(v)];
  }

  /** A nested string with a single quote and no double quote takes
      double quotes. */
  lemma NestedApostrophe()
    ensures ScadRepr(List([Str("it's")])) == "[\"it's\"]"
  {
    ReprOfSingleton(Str("it's"));
    var s := "it's";
    assert s[2] == '\'';
    assert PyQuote(s) == '"';
    assert EscapeBody(s, '"') == "i" + EscapeBody(s[1..], '"');
    assert EscapeBody(s[1..], '"') == "t" + EscapeBody(s[2..], '"');
    assert EscapeBody(s[2..], '"') == "'" + EscapeBody(s[3..], '"');
    assert EscapeBody(s[3..], '"') == "s" + EscapeBody(s[4..], '"');
  }

  /** A backslash in a nested string is doubled. */
  lemma NestedBackslash()
    ensures ScadRepr(List([Str("a\\b")])) == "['a\\\\b']"
  {
    ReprOfSingleton(Str("a\\b"));
    var s := "a\\b";
    assert PyQuote(s) == '\'';
    assert EscapeBody(s, '\'') == "a" + EscapeBody(s[1..], '\'');
    assert EscapeBody(s[1..], '\'') == "\\\\" + EscapeBody(s[2..], '\'');
    assert EscapeBody(s[2..], '\'') == "b" + EscapeBody(s[3..], '\'');
  }

  /** A nested string with both quotes keeps single quotes and escapes its
      single quote only. */
  lemma NestedBothQuotes()
    ensures ScadRepr(List([Str("'\"")])) == "['\\'\"']"
  {
    ReprOfSingleton(Str("'\""));
    var s := "'\"";
    assert s[1] == '"';
    assert PyQuote(s) == '\'';
    assert EscapeBody(s, '\'') == "\\'" + EscapeBody(s[1..], '\'');
    assert EscapeBody(s[1..], '\'') == "\"" + EscapeBody(s[2..], '\'');
  }

  /** Tab, newline and other control characters are escaped. */
  lemma NestedControl()
    ensures ScadRepr(List([Str("\n\t")])) == "['\\n\\t']"
    ensures ScadRepr(List([Str([7 as char])])) == "['\\x07']"
  {
    ReprOfSingleton(Str("\n\t"));
    var s := "\n\t";
    assert PyQuote(s) == '\'';
    assert EscapeBody(s, '\'') == "\\n" + EscapeBody(s[1..], '\'');
    assert EscapeBody(s[1..], '\'') == "\\t" + EscapeBody(s[2..], '\'');
    ReprOfSingleton(Str([7 as char]));
    var b := [7 as char];
    assert PyQuote(b) == '\'';
    assert EscapeBody(b, '\'') == "\\x07" + EscapeBody(b[1..], '\'');
  }

  /** A string with a double quote inside keeps it: nothing is escaped. */
  lemma ScadReprKeepsQuotes(s: string, k: nat)
    requires k < |s| && s[k] == '"'
    ensures ScadRepr(Str(s))[k + 1] == '"'
    ensures |ScadRepr(Str(s))| == |s| + 2
  {
    assert ScadRepr(Str(s))[1..|s| + 1] == s;
  }

  // ---------------------------------------------------------------------
  // pretty_pairs

  /** `is_iterable(v) and len(v) > 3`: a string or list of over 3 items. */
  predicate Long(v: Val)
  {
    (v.Str? && |v.s| > 3) || (v.List? && |v.items| > 3)
  }

  /** What iterating over `v` yields: a string's one-character strings or
      a list's items. */
  function Elements(v: Val): (r: seq<Val>)
    requires v.Str? || v.List?
    ensures v.Str? ==> |r| == |v.s| && forall k :: 0 <= k < |r| ==> r[k] == Str([v.s[k]])
    ensures v.List? ==> r == v.items
  {
    if v.Str? then seq(|v.s|, k requires 0 <= k < |v.s| => Str([v.s[k]])) else v.items
  }

  /** How deeply `pretty_pairs` may nest on `v`. */
  function Depth(v: Val): nat
  {
    match v
    case Str(s) => if |s| > 3 then 2 else 1
    case Int(_) => 0
    case NoneVal => 0
    case List(items) => 1 + MaxDepth(items)
  }

  function MaxDepth(items: seq<Val>): nat
  {
    if |items| == 0 then 0
    else
      var d := Depth(items[|items| - 1]);
      var m := MaxDepth(items[..|items| - 1]);
      if d > m then d else m
  }

  lemma {:induction false} MaxDepthBounds(items: seq<Val>, k: nat)
    requires k < |items|
    ensures Depth(items[k]) <= MaxDepth(items)
  {
    if k < |items| - 1 {
      MaxDepthBounds(items[..|items| - 1], k);
      assert items[..|items| - 1][k] == items[k];
    }
  }

  lemma ElementsShallower(v: Val)
    requires Long(v)
    ensures MaxDepth(Elements(v)) < Depth(v)
  {
    if v.List? {
      assert Depth(v) == 1 + MaxDepth(v.items);
    } else {
      StrElementsShallow(Elements(v));
    }
  }

  lemma {:induction false} StrElementsShallow(items: seq<Val>)
    requires forall k :: 0 <= k < |items| ==> items[k].Str? && |items[k].s| == 1
    ensures MaxDepth(items) <= 1
  {
    if |items| > 0 {
      StrElementsShallow(items[..|items| - 1]);
    }
  }

  /** One item of `pretty_pairs`: long iterables nest, the rest use
      `scad_repr`. */
  function PrettyItem(v: Val): string
    decreases Depth(v), 0, 0
  {
    if Long(v) then
      ElementsShallower(v);
      PrettyPairs(Elements(v))
    else ScadRepr(v)
  }

  /** `pretty_pairs`: the items one per line, indented, inside brackets. */
  function PrettyPairs(items: seq<Val>): (r: string)
    decreases MaxDepth(items), 1, 0
  {
    "[\n  " + Join(PrettyItems(items), ",\n  ") + "\n  ]"
  }

  function PrettyItems(items: seq<Val>): (r: seq<string>)
    ensures |r| == |items|
    decreases MaxDepth(items), 0, |items| + 1
  {
    if |items| == 0 then []
    else
      MaxDepthBounds(items, |items| - 1);
      assert MaxDepth(items[..|items| - 1]) <= MaxDepth(items);
      PrettyItems(items[..|items| - 1]) + [PrettyItem(items[|items| - 1])]
  }

  /** Each rendered item is the nested listing of a long iterable and the
      `scad_repr` of anything else. */
  lemma {:induction false} PrettyItemsAt(items: seq<Val>, k: nat)
    requires k < |items|
    ensures PrettyItems(items)[k] == (if Long(items[k]) then PrettyPairs(Elements(items[k])) else ScadRepr(items[k]))
    decreases |items|
  {
    if k < |items| - 1 {
      PrettyItemsAt(items[..|items| - 1], k);
      assert items[..|items| - 1][k] == items[k];
    }
  }

  /** A long string is spelled out one quoted character per line. */
  lemma LongStringSpelledOut(s: string)
    requires |s| > 3
    ensures PrettyItem(Str(s)) == PrettyPairs(seq(|s|, k requires 0 <= k < |s| => Str([s[k]])))
  {
    assert Elements(Str(s)) == seq(|s|, k requires 0 <= k < |s| => Str([s[k]]));
  }

  // ---------------------------------------------------------------------
  // Geometry and actions

  type Coord = seq<int>

  /** The shapely geometry a shape is built from: a polygon (exterior ring
      and holes), a collection with `geoms`, or any other kind. */
  datatype Geom =
    | PolygonGeom(exterior: seq<Coord>, interiors: seq<seq<Coord>>)
    | Collection(kind: string, geoms: seq<Geom>)
    | OtherGeom(kind: string)

  /** A child of an operator: an action, or something that is not one. */
  datatype Item = Act(a: Action) | NotAction(v: Val)

  datatype Action =
    | Modifier(mod: char, child: Action)
    | Operator(name: string, children: seq<Item>, kwargs: seq<(string, Val)>)
    | Polygon(shape: Geom)
    | ModuleAction(modName: string, actions: seq<Action>)

  function Disable(a: Action): Action { Modifier('*', a) }
  function ShowOnly(a: Action): Action { Modifier('!', a) }
  function Debug(a: Action): Action { Modifier('#', a) }
  function Transparent(a: Action): Action { Modifier('%', a) }

  /** `a + b`, `a - b`, `a * b`. */
  function Union(a: Action, b: Item): Action { Operator("union", [Act(a), b], []) }
  function Difference(a: Action, b: Action): Action { Operator("difference", [Act(a), Act(b)], []) }
  function Intersection(a: Action, b: Action): Action { Operator("intersection", [Act(a), Act(b)], []) }

  function LinearExtrude(a: Action, height: Val): Action { Operator("linear_extrude", [Act(a)], [("height", height)]) }
  function Translate(a: Action, v: seq<int>): Action
  {
    Operator("translate", [Act(a)], [("v", List(IntVals(v)))])
  }
  function Color(a: Action, c: Val): Action { Operator("color", [Act(a)], [("_", c)]) }

  function Up(a: Action, amount: int): Action { Translate(a, [0, 0, amount]) }
  function Down(a: Action, amount: int): Action { Translate(a, [0, 0, -amount]) }
  function Left(a: Action, amount: int): Action { Translate(a, [-amount, 0, 0]) }
  function Right(a: Action, amount: int): Action { Translate(a, [amount, 0, 0]) }
  function Forward(a: Action, amount: int): Action { Translate(a, [0, amount, 0]) }
  function Back(a: Action, amount: int): Action { Translate(a, [0, -amount, 0]) }

  /** A list of integers as Python values. */
  function IntVals(v: seq<int>): (r: seq<Val>)
    ensures |r| == |v| && forall k :: 0 <= k < |v| ==> r[k] == Int(v[k])
  {
    if |v| == 0 then [] else IntVals(v[..|v| - 1]) + [Int(v[|v| - 1])]
  }

  /** The integers of a list of values, if all are integers. */
  function IntsOf(items: seq<Val>): Option<seq<int>>
  {
    if |items| == 0 then Some([])
    else
      var init := IntsOf(items[..|items| - 1]);
      var last := items[|items| - 1];
      if init.None? || !last.Int? then None else Some(init.value + [last.i])
  }

  lemma {:induction false} IntsOfIntVals(v: seq<int>)
    ensures IntsOf(IntVals(v)) == Some(v)
  {
    if |v| > 0 {
      IntsOfIntVals(v[..|v| - 1]);
      assert IntVals(v)[..|v| - 1] == IntVals(v[..|v| - 1]);
      assert v[..|v| - 1] + [v[|v| - 1]] == v;
    }
  }

  /** The vector of a translate operator. */
  function Offset(a: Action): (r: Option<seq<int>>)
  {
    if a.Operator? && a.name == "translate" && |a.kwargs| == 1 && a.kwargs[0].0 == "v" && a.kwargs[0].1.List?
    then IntsOf(a.kwargs[0].1.items)
    else None
  }

  /** Each direction moves along one axis only, by the amount, and opposite
      directions move by opposite vectors. */
  lemma DirectionOffsets(a: Action, amount: int)
    ensures Offset(Up(a, amount)) == Some([0, 0, amount])
    ensures Offset(Down(a, amount)) == Some([0, 0, -amount])
    ensures Offset(Left(a, amount)) == Some([-amount, 0, 0])
    ensures Offset(Right(a, amount)) == Some([amount, 0, 0])
    ensures Offset(Forward(a, amount)) == Some([0, amount, 0])
    ensures Offset(Back(a, amount)) == Some([0, -amount, 0])
  {
    TranslateOffset(a, [0, 0, amount]);
    TranslateOffset(a, [0, 0, -amount]);
    TranslateOffset(a, [-amount, 0, 0]);
    TranslateOffset(a, [amount, 0, 0]);
    TranslateOffset(a, [0, amount, 0]);
    TranslateOffset(a, [0, -amount, 0]);
  }

  lemma TranslateOffset(a: Action, v: seq<int>)
    ensures Offset(Translate(a, v)) == Some(v)
  {
    IntsOfIntVals(v);
  }

  // ---------------------------------------------------------------------
  // Rendering

  /** One operator parameter: the '_' keyword positionally, others as k=v. */
  function Param(kv: (string, Val)): string
  {
    if kv.0 == "_" then ScadRepr(kv.1) else kv.0 + "=" + ScadRepr(kv.1)
  }

  function Params(kwargs: seq<(string, Val)>): (r: seq<string>)
    ensures |r| == |kwargs| && forall k :: 0 <= k < |r| ==> r[k] == Param(kwargs[k])
  {
    seq(|kwargs|, k requires 0 <= k < |kwargs| => Param(kwargs[k]))
  }

  function OperatorHeader(name: string, kwargs: seq<(string, Val)>): string
  {
    name + "(" + Join(Params(kwargs), ", ") + ") {"
  }

  /** The error an operator raises for a child that is not an action. */
  function NotActionError(v: Val): string
  {
    Repr(v) + " is not an Action"
  }

  /** The rings of a polygon: exterior first, then each interior. */
  function Rings(exterior: seq<Coord>, interiors: seq<seq<Coord>>): seq<seq<Coord>>
  {
    [exterior] + interiors
  }

  function Flatten<T>(rings: seq<seq<T>>): (r: seq<T>)
  {
    if |rings| == 0 then [] else Flatten(rings[..|rings| - 1]) + rings[|rings| - 1]
  }

  /** `[a, a+1, ..., b-1]`. */
  function Range(a: int, b: int): (r: seq<int>)
    requires a <= b
    ensures |r| == b - a && forall k :: 0 <= k < |r| ==> r[k] == a + k
  {
    seq(b - a, k requires 0 <= k < b - a => a + k)
  }

  /** The index lists `add_path` builds: ring i's points are numbered on
      from where ring i - 1 stopped. */
  function Numbering(rings: seq<seq<Coord>>): (r: seq<seq<int>>)
    ensures |r| == |rings|
  {
    if |rings| == 0 then []
    else
      var init := rings[..|rings| - 1];
      Numbering(init) + [Range(|Flatten(init)|, |Flatten(init)| + |rings[|rings| - 1]|)]
  }

  /** The index lists, read in order, are 0, 1, ..., n-1 for the n points:
      they partition the point list. */
  lemma {:induction false} NumberingPartitions(rings: seq<seq<Coord>>)
    ensures Flatten(Numbering(rings)) == Range(0, |Flatten(rings)|)
  {
    if |rings| > 0 {
      var init := rings[..|rings| - 1];
      var n := Numbering(rings);
      NumberingPartitions(init);
      assert n[..|n| - 1] == Numbering(init);
      assert Flatten(n) == Range(0, |Flatten(init)|) + Range(|Flatten(init)|, |Flatten(rings)|);
    }
  }

  /** The i-th index list has one index per point of the i-th ring, and
      each index names that point in the flattened list. */
  lemma {:induction false} NumberingNamesPoints(rings: seq<seq<Coord>>, i: nat, j: nat)
    requires i < |rings| && j < |rings[i]|
    ensures |Numbering(rings)[i]| == |rings[i]|
    ensures 0 <= Numbering(rings)[i][j] < |Flatten(rings)|
    ensures Flatten(rings)[Numbering(rings)[i][j]] == rings[i][j]
  {
    var init := rings[..|rings| - 1];
    if i < |rings| - 1 {
      NumberingNamesPoints(init, i, j);
      assert init[i] == rings[i];
      assert Numbering(rings)[i] == Numbering(init)[i];
    }
  }

  function CoordVal(c: Coord): Val
  {
    List(IntVals(c))
  }

  function PointVals(points: seq<Coord>): (r: seq<Val>)
    ensures |r| == |points|
  {
    seq(|points|, k requires 0 <= k < |points| => CoordVal(points[k]))
  }

  function PathVals(paths: seq<seq<int>>): (r: seq<Val>)
    ensures |r| == |paths|
  {
    seq(|paths|, k requires 0 <= k < |paths| => List(IntVals(paths[k])))
  }

  function PolygonText(points: seq<Coord>, paths: seq<seq<int>>): string
  {
    "polygon(" + PrettyPairs(PointVals(points)) + ", " + PrettyPairs(PathVals(paths)) + ");\n"
  }

  /** The header `Module.render` writes: the literal "module %s() {". */
  const ModuleHeader := "module %s() {"

  /** The OpenSCAD text of an action, or the exception rendering raises. */
  function Text(a: Action): Result<string, string>
    decreases a, 2, 0
  {
    match a
    case Modifier(m, child) =>
      var t := Text(child);
      if t.Failure? then t else Success([m] + t.value)
    case Operator(_, _, _) => OperatorText(a)
    case Polygon(shape) => ShapeText(shape)
    case ModuleAction(_, _) => ModuleText(a)
  }

  /** A polygon's text; geometry without an exterior ring raises. */
  function ShapeText(shape: Geom): Result<string, string>
  {
    if shape.PolygonGeom? then
      var rings := Rings(shape.exterior, shape.interiors);
      Success(PolygonText(Flatten(rings), Numbering(rings)))
    else Failure("AttributeError: exterior")
  }

  function OperatorText(a: Action): Result<string, string>
    requires a.Operator?
    decreases a, 1, 0
  {
    var ts := ChildTexts(a, |a.children|);
    if ts.Failure? then Failure(ts.error)
    else Success(Join([OperatorHeader(a.name, a.kwargs)] + ts.value + ["}"], "\n"))
  }

  function ModuleText(a: Action): Result<string, string>
    requires a.ModuleAction?
    decreases a, 1, 0
  {
    var ts := ModuleTexts(a, |a.actions|);
    if ts.Failure? then Failure(ts.error)
    else Success(Join([ModuleHeader] + ts.value + ["}"], "\n"))
  }

  /** The texts of an operator's first `n` children, or the error of the
      first that is not an action or does not render. */
  function ChildTexts(op: Action, n: nat): (r: Result<seq<string>, string>)
    requires op.Operator? && n <= |op.children|
    ensures r.Success? ==> |r.value| == n
    decreases op, 0, n
  {
    if n == 0 then Success([])
    else
      var init := ChildTexts(op, n - 1);
      if init.Failure? then init
      else
        match op.children[n - 1]
        case NotAction(v) => Failure(NotActionError(v))
        case Act(c) =>
          var t := Text(c);
          if t.Failure? then Failure(t.error) else Success(init.value + [t.value])
  }

  /** The texts of a module's first `n` actions, or the first error. */
  function ModuleTexts(m: Action, n: nat): (r: Result<seq<string>, string>)
    requires m.ModuleAction? && n <= |m.actions|
    ensures r.Success? ==> |r.value| == n
    decreases m, 0, n
  {
    if n == 0 then Success([])
    else
      var init := ModuleTexts(m, n - 1);
      if init.Failure? then init
      else
        var t := Text(m.actions[n - 1]);
        if t.Failure? then Failure(t.error) else Success(init.value + [t.value])
  }

  /** A child renders to its own text or fails. */
  predicate ChildRenders(it: Item)
  {
    it.Act? && Text(it.a).Success?
  }

  /** Rendering children fails iff one of them is not an action or fails
      to render; otherwise each line is that child's text. */
  lemma {:induction false} ChildTextsSpec(op: Action, n: nat)
    requires op.Operator? && n <= |op.children|
    ensures ChildTexts(op, n).Success? <==> forall j :: 0 <= j < n ==> ChildRenders(op.children[j])
    ensures ChildTexts(op, n).Success? ==>
      forall j :: 0 <= j < n ==> ChildTexts(op, n).value[j] == Text(op.children[j].a).value
  {
    if n > 0 {
      ChildTextsSpec(op, n - 1);
    }
  }

  /** Once a child fails, the operator fails with that first error. */
  lemma {:induction false} ChildFailureSticks(op: Action, k: nat, n: nat)
    requires op.Operator? && k <= n <= |op.children| && ChildTexts(op, k).Failure?
    ensures ChildTexts(op, n) == ChildTexts(op, k)
  {
    if n > k {
      ChildFailureSticks(op, k, n - 1);
    }
  }

  lemma {:induction false} ModuleFailureSticks(m: Action, k: nat, n: nat)
    requires m.ModuleAction? && k <= n <= |m.actions| && ModuleTexts(m, k).Failure?
    ensures ModuleTexts(m, n) == ModuleTexts(m, k)
  {
    if n > k {
      ModuleFailureSticks(m, k, n - 1);
    }
  }

  /** `sep.join` of at least two parts starts with the first part and a
      separator and ends with a separator and the last part. */
  lemma {:induction false} JoinEnds(parts: seq<string>, sep: string)
    requires |parts| >= 2
    ensures var j := Join(parts, sep);
      |j| >= |parts[0]| + |sep| && j[..|parts[0]| + |sep|] == parts[0] + sep &&
      |j| >= |sep| + |parts[|parts| - 1]| && j[|j| - |sep| - |parts[|parts| - 1]|..] == sep + parts[|parts| - 1]
  {
    var init := parts[..|parts| - 1];
    var j := Join(parts, sep);
    var ji := Join(init, sep);
    assert j == ji + sep + parts[|parts| - 1];
    if |parts| > 2 {
      JoinEnds(init, sep);
      assert ji[..|parts[0]| + |sep|] == parts[0] + sep;
      assert j[..|parts[0]| + |sep|] == ji[..|parts[0]| + |sep|];
    } else {
      assert ji == parts[0];
    }
  }

  /** An operator whose children render is its header line, one line per
      child, and a closing brace line. */
  lemma OperatorLines(name: string, children: seq<Item>, kwargs: seq<(string, Val)>)
    requires forall j :: 0 <= j < |children| ==> ChildRenders(children[j])
    ensures var op := Operator(name, children, kwargs);
      var header := OperatorHeader(name, kwargs);
      Text(op).Success? && |Text(op).value| >= |header| + 1 && |Text(op).value| >= 2 &&
      Text(op).value[..|header| + 1] == header + "\n" &&
      Text(op).value[|Text(op).value| - 2..] == "\n}"
  {
    var op := Operator(name, children, kwargs);
    ChildTextsSpec(op, |children|);
    var ts := ChildTexts(op, |children|).value;
    JoinEnds([OperatorHeader(name, kwargs)] + ts + ["}"], "\n");
  }

  /** A child that is not an action makes the operator raise. */
  lemma NonActionChildRaises(name: string, children: seq<Item>, kwargs: seq<(string, Val)>, j: nat)
    requires j < |children| && children[j].NotAction?
    ensures Text(Operator(name, children, kwargs)).Failure?
  {
    ChildTextsSpec(Operator(name, children, kwargs), |children|);
  }

  /** `color` passes its argument positionally: "color(<value>) {". */
  lemma ColorHeader(a: Action, c: Val)
    ensures OperatorHeader("color", Color(a, c).kwargs) == "color(" + ScadRepr(c) + ") {"
  {
    assert Params([("_", c)]) == [ScadRepr(c)];
  }

  /** A module's header never mentions its name: two modules with the same
      actions render identically whatever they are called. */
  lemma ModuleNameIgnored(n1: string, n2: string, actions: seq<Action>)
    ensures Text(ModuleAction(n1, actions)) == Text(ModuleAction(n2, actions))
  {
    ModuleTextsSame(n1, n2, actions, |actions|);
  }

  lemma {:induction false} ModuleTextsSame(n1: string, n2: string, actions: seq<Action>, n: nat)
    requires n <= |actions|
    ensures ModuleTexts(ModuleAction(n1, actions), n) == ModuleTexts(ModuleAction(n2, actions), n)
  {
    if n > 0 {
      ModuleTextsSame(n1, n2, actions, n - 1);
    }
  }

  /** The header a module evidently means to write, with its name. */
  function NamedModuleHeader(name: string): (r: string)
    ensures |r| == |name| + 11 && r[..7] == "module " && r[7..7 + |name|] == name
  {
    "module " + name + "() {"
  }

  /** With the name substituted, modules of different names differ. */
  lemma NamedModulesDiffer(n1: string, n2: string)
    requires n1 != n2
    ensures NamedModuleHeader(n1) != NamedModuleHeader(n2)
  {
    var h1 := NamedModuleHeader(n1);
    var h2 := NamedModuleHeader(n2);
    if |n1| != |n2| {
      assert |h1| != |h2|;
    } else {
      assert h1[7..7 + |n1|] != h2[7..7 + |n2|];
    }
  }

  // ---------------------------------------------------------------------
  // Shape

  /** `Shape(shape)`: a polygon becomes a polygon action; a collection
      folds its parts' actions into left-nested unions (None when empty);
      any other kind raises. */
  function ShapeOf(g: Geom): Result<Option<Action>, string>
    decreases g, 1
  {
    match g
    case PolygonGeom(_, _) => Success(Some(Polygon(g)))
    case OtherGeom(kind) => Failure("unhandled geom: " + kind)
    case Collection(_, parts) => FoldParts(g, |parts|)
  }

  /** The fold over the first `n` parts of a collection. */
  function FoldParts(g: Geom, n: nat): Result<Option<Action>, string>
    requires g.Collection? && n <= |g.geoms|
    decreases g, 0, n
  {
    if n == 0 then Success(None)
    else
      var acc := FoldParts(g, n - 1);
      if acc.Failure? then acc
      else
        var s := ShapeOf(g.geoms[n - 1]);
        if s.Failure? then s
        else if acc.value.None? then s
        else Success(Some(Union(acc.value.value, if s.value.Some? then Act(s.value.value) else NotAction(NoneVal))))
  }

  /** The polygons of a geometry in order, when every leaf is a polygon
      and no collection is empty. */
  function Leaves(g: Geom): Option<seq<Geom>>
    decreases g, 1
  {
    match g
    case PolygonGeom(_, _) => Some([g])
    case OtherGeom(_) => None
    case Collection(_, parts) => if |parts| == 0 then None else PartLeaves(g, |parts|)
  }

  function PartLeaves(g: Geom, n: nat): Option<seq<Geom>>
    requires g.Collection? && n <= |g.geoms|
    decreases g, 0, n
  {
    if n == 0 then Some([])
    else
      var a := PartLeaves(g, n - 1);
      var b := Leaves(g.geoms[n - 1]);
      if a.None? || b.None? then None else Some(a.value + b.value)
  }

  /** The polygons, left to right, under the union tree of an action. */
  function UnionLeaves(a: Action): seq<Geom>
  {
    if a.Operator? && a.name == "union" && |a.children| == 2 && a.kwargs == [] &&
       a.children[0].Act? && a.children[1].Act?
    then UnionLeaves(a.children[0].a) + UnionLeaves(a.children[1].a)
    else if a.Polygon? then [a.shape]
    else []
  }

  /** For a geometry of polygons without empty collections, Shape builds a
      union tree whose leaves are exactly its polygons, in order. */
  lemma {:induction false} ShapeLeaves(g: Geom)
    requires Leaves(g).Some?
    ensures ShapeOf(g).Success? && ShapeOf(g).value.Some?
    ensures UnionLeaves(ShapeOf(g).value.value) == Leaves(g).value
    decreases g, 1
  {
    match g
    case PolygonGeom(_, _) =>
    case Collection(_, parts) =>
      FoldLeaves(g, |parts|);
  }

  lemma {:induction false} FoldLeaves(g: Geom, n: nat)
    requires g.Collection? && n <= |g.geoms| && PartLeaves(g, n).Some?
    ensures FoldParts(g, n).Success?
    ensures n == 0 ==> FoldParts(g, n).value.None?
    ensures n > 0 ==> FoldParts(g, n).value.Some? && UnionLeaves(FoldParts(g, n).value.value) == PartLeaves(g, n).value
    decreases g, 0, n
  {
    if n > 0 {
      FoldLeaves(g, n - 1);
      ShapeLeaves(g.geoms[n - 1]);
      if n - 1 > 0 {
        var acc := FoldParts(g, n - 1).value.value;
        var s := ShapeOf(g.geoms[n - 1]).value.value;
        assert FoldParts(g, n).value.value == Union(acc, Act(s));
      }
    }
  }

  /** A non-polygon leaf makes Shape raise. */
  lemma OtherGeomRaises(kind: string)
    ensures ShapeOf(OtherGeom(kind)) == Failure("unhandled geom: " + kind)
    ensures ShapeOf(Collection("MultiPoint", [OtherGeom(kind)])).Failure?
  {
    assert FoldParts(Collection("MultiPoint", [OtherGeom(kind)]), 0) == Success(None);
  }

  /** Three parts fold to union(union(p1, p2), p3). */
  lemma ShapeNestsLeft(p1: Geom, p2: Geom, p3: Geom)
    requires p1.PolygonGeom? && p2.PolygonGeom? && p3.PolygonGeom?
    ensures ShapeOf(Collection("MultiPolygon", [p1, p2, p3])) ==
      Success(Some(Union(Union(Polygon(p1), Act(Polygon(p2))), Act(Polygon(p3)))))
  {
    var g := Collection("MultiPolygon", [p1, p2, p3]);
    assert ShapeOf(p1) == Success(Some(Polygon(p1)));
    assert ShapeOf(p2) == Success(Some(Polygon(p2)));
    assert ShapeOf(p3) == Success(Some(Polygon(p3)));
    assert FoldParts(g, 0) == Success(None);
    assert FoldParts(g, 1) == Success(Some(Polygon(p1)));
    assert FoldParts(g, 2) == Success(Some(Union(Polygon(p1), Act(Polygon(p2)))));
    assert FoldParts(g, 3) == Success(Some(Union(Union(Polygon(p1), Act(Polygon(p2))), Act(Polygon(p3)))));
  }

  // ---------------------------------------------------------------------
  // Imperative rendering

  /** `Polygon.render`: `add_path` appends each ring's points and numbers
      them on from the current point count. */
  method RenderPolygon(exterior: seq<Coord>, interiors: seq<seq<Coord>>) returns (text: string)
    ensures Text(Polygon(PolygonGeom(exterior, interiors))) == Success(text)
  {
    var rings := Rings(exterior, interiors);
    var points: seq<Coord> := [];
    var paths: seq<seq<int>> := [];
    for r := 0 to |rings|
      invariant points == Flatten(rings[..r])
      invariant paths == Numbering(rings[..r])
    {
      var p: seq<int> := [];
      var idx := |points|;
      var coords := rings[r];
      for j := 0 to |coords|
        invariant points == Flatten(rings[..r]) + coords[..j]
        invariant idx == |Flatten(rings[..r])| + j
        invariant p == Range(|Flatten(rings[..r])|, idx)
      {
        assert coords[..j + 1] == coords[..j] + [coords[j]];
        points := points + [coords[j]];
        p := p + [idx];
        idx := idx + 1;
      }
      assert coords[..|coords|] == coords;
      assert rings[..r + 1][..r] == rings[..r];
      paths := paths + [p];
    }
    assert rings[..|rings|] == rings;
    text := PolygonText(points, paths);
  }

  /** `Action.render` over the whole tree, with the loops of
      `Operator.render` and `Module.render`. */
  method Render(a: Action) returns (r: Result<string, string>)
    ensures r == Text(a)
    decreases a, 2
  {
    match a
    case Modifier(m, child) =>
      var t := Render(child);
      if t.Failure? {
        return t;
      }
      r := Success([m] + t.value);
    case Polygon(shape) =>
      if !shape.PolygonGeom? {
        return Failure("AttributeError: exterior");
      }
      var text := RenderPolygon(shape.exterior, shape.interiors);
      r := Success(text);
    case Operator(_, _, _) =>
      r := RenderOperator(a);
    case ModuleAction(_, _) =>
      r := RenderModule(a);
  }

  /** The parameter list of `Operator.render`. */
  method RenderParams(kwargs: seq<(string, Val)>) returns (params: seq<string>)
    ensures params == Params(kwargs)
  {
    params := [];
    for k := 0 to |kwargs|
      invariant params == Params(kwargs[..k])
    {
      assert kwargs[..k + 1][..k] == kwargs[..k];
      params := params + [Param(kwargs[k])];
    }
    assert kwargs[..|kwargs|] == kwargs;
  }

  /** `Operator.render`: the header line, each child's text, then "}". */
  method RenderOperator(a: Action) returns (r: Result<string, string>)
    requires a.Operator?
    ensures r == Text(a)
    decreases a, 1
  {
    var params := RenderParams(a.kwargs);
    var ts := RenderChildren(a);
    if ts.Failure? {
      return Failure(ts.error);
    }
    var lines := [a.name + "(" + Join(params, ", ") + ") {"] + ts.value;
    r := Success(Join(lines + ["}"], "\n"));
  }

  /** The loop of `Operator.render` over the children. */
  method RenderChildren(a: Action) returns (r: Result<seq<string>, string>)
    requires a.Operator?
    ensures r == ChildTexts(a, |a.children|)
    decreases a, 0
  {
    var lines := [];
    for k := 0 to |a.children|
      invariant ChildTexts(a, k) == Success(lines)
    {
      var child := a.children[k];
      if child.NotAction? {
        assert ChildTexts(a, k + 1) == Failure(NotActionError(child.v));
        ChildFailureSticks(a, k + 1, |a.children|);
        return Failure(NotActionError(child.v));
      }
      var t := Render(child.a);
      if t.Failure? {
        assert ChildTexts(a, k + 1) == Failure(t.error);
        ChildFailureSticks(a, k + 1, |a.children|);
        return Failure(t.error);
      }
      assert ChildTexts(a, k + 1) == Success(lines + [t.value]);
      lines := lines + [t.value];
    }
    r := Success(lines);
  }

  /** `Module.render`: the literal header, each action's text, then "}". */
  method RenderModule(a: Action) returns (r: Result<string, string>)
    requires a.ModuleAction?
    ensures r == Text(a)
    decreases a, 1
  {
    var lines := [ModuleHeader];
    assert lines[1..] == [];
    assert ModuleTexts(a, 0) == Success([]);
    for k := 0 to |a.actions|
      invariant |lines| == k + 1 && lines[0] == ModuleHeader
      invariant ModuleTexts(a, k) == Success(lines[1..])
    {
      var t := Render(a.actions[k]);
      if t.Failure? {
        assert ModuleTexts(a, k + 1) == Failure(t.error);
        ModuleFailureSticks(a, k + 1, |a.actions|);
        return Failure(t.error);
      }
      assert ModuleTexts(a, k + 1) == Success(lines[1..] + [t.value]);
      var tail := lines[1..];
      lines := lines + [t.value];
      assert lines[1..] == tail + [t.value];
    }
    assert lines == [lines[0]] + lines[1..];
    r := Success(Join(lines + ["}"], "\n"));
  }

  // ---------------------------------------------------------------------
  // Modules and scripts

  /** `Module`: a name and a list of actions that `add` appends to. */
  class ScadModule {
    const name: string
    var actions: seq<Action>

    constructor (name: string)
      ensures this.name == name && actions == []
    {
      this.name := name;
      actions := [];
    }

    method Add(a: Action)
      modifies this
      ensures actions == old(actions) + [a]
    {
      actions := actions + [a];
    }

    /** The module as an action value, as it stands now. */
    function AsAction(): Action
      reads this
    {
      ModuleAction(name, actions)
    }
  }

  /** What `Script.add` accepts: a module, another action, or anything else. */
  datatype Thing = ModuleThing(m: ScadModule) | ActionThing(a: Action) | OtherThing

  /** `Script`: modules and top-level actions, written out by `save`. */
  class Script {
    var modules: seq<ScadModule>
    var actions: seq<Action>

    constructor ()
      ensures modules == [] && actions == []
    {
      modules := [];
      actions := [];
    }

    /** Modules and actions go to their own lists; anything else raises.
        The module test comes first, so a module given as an action value
        joins the modules, as a module holding that name and those actions. */
    method Add(thing: Thing) returns (r: Result<(), string>)
      modifies this
      ensures thing.ModuleThing? ==> modules == old(modules) + [thing.m] && actions == old(actions) && r.Success?
      ensures thing.ActionThing? && thing.a.ModuleAction? ==>
        |modules| == |old(modules)| + 1 && modules[..|old(modules)|] == old(modules) &&
        fresh(modules[|old(modules)|]) && modules[|old(modules)|].AsAction() == thing.a &&
        actions == old(actions) && r.Success?
      ensures thing.ActionThing? && !thing.a.ModuleAction? ==> actions == old(actions) + [thing.a] && modules == old(modules) && r.Success?
      ensures thing.OtherThing? ==> modules == old(modules) && actions == old(actions) && r == Failure("unsupported type")
    {
      match thing
      case ModuleThing(m) =>
        modules := modules + [m];
        r := Success(());
      case ActionThing(a) =>
        if a.ModuleAction? {
          var m := new ScadModule(a.modName);
          m.actions := a.actions;
          modules := modules + [m];
        } else {
          actions := actions + [a];
        }
        r := Success(());
      case OtherThing =>
        r := Failure("unsupported type");
    }

    /** `save`: each module's text, the mirror header, each action's text
        and the closing brace, stopping at the first render that raises. */
    method Save() returns (saved: Saved)
      ensures saved == SaveText(ModuleValues(modules), actions)
    {
      var m := WriteAll(ModuleValues(modules));
      if m.error.Some? {
        return m;
      }
      var a := WriteAll(actions);
      saved := Saved(m.text + MirrorHeader + a.text + (if a.error.None? then "}\n" else ""), a.error);
    }
  }

  /** What `save` leaves in its `WriteFileIfChanged` buffer, which `close`
      writes to the file even when a render raises, and the error that
      then propagates. */
  datatype Saved = Saved(text: string, error: Option<string>)

  const MirrorHeader := "mirror([0, 1, 0]) {\n"

  /** Every action renders. */
  ghost predicate AllRender(acts: seq<Action>)
  {
    forall i :: 0 <= i < |acts| ==> Text(acts[i]).Success?
  }

  /** Action `j` is the first that fails to render. */
  ghost predicate FirstFailure(acts: seq<Action>, j: int)
  {
    0 <= j < |acts| && AllRender(acts[..j]) && Text(acts[j]).Failure?
  }

  /** The texts of actions that all render, in order. */
  ghost function Texts(acts: seq<Action>): (r: seq<string>)
    requires AllRender(acts)
    ensures |r| == |acts|
  {
    if |acts| == 0 then []
    else Texts(acts[..|acts| - 1]) + [Text(acts[|acts| - 1]).value]
  }

  /** What a loop `for act in acts: f.write(act.render())` writes: the
      texts of the actions up to the first that raises, and its error. */
  function Emit(acts: seq<Action>): Saved
  {
    if |acts| == 0 then Saved("", None)
    else
      var init := Emit(acts[..|acts| - 1]);
      if init.error.Some? then init
      else
        var t := Text(acts[|acts| - 1]);
        if t.Failure? then Saved(init.text, Some(t.error)) else Saved(init.text + t.value, None)
  }

  /** `Script.save`: each module's text, then the actions inside a mirror
      that flips the y axis. */
  function SaveText(modules: seq<Action>, actions: seq<Action>): Saved
  {
    var m := Emit(modules);
    if m.error.Some? then m
    else
      var a := Emit(actions);
      Saved(m.text + MirrorHeader + a.text + (if a.error.None? then "}\n" else ""), a.error)
  }

  /** The write loop completes exactly when every action renders, and then
      writes every text in order. */
  lemma {:induction false} EmitRenders(acts: seq<Action>)
    ensures Emit(acts).error.None? <==> AllRender(acts)
    ensures Emit(acts).error.None? ==> Emit(acts).text == Flatten(Texts(acts))
  {
    if |acts| > 0 {
      var init := acts[..|acts| - 1];
      var last := acts[|acts| - 1];
      EmitRenders(init);
      assert AllRender(acts) <==> AllRender(init) && Text(last).Success? by {
        if AllRender(init) && Text(last).Success? {
          forall i | 0 <= i < |acts| ensures Text(acts[i]).Success? {
            if i < |init| { assert acts[i] == init[i]; }
          }
        }
        if AllRender(acts) {
          forall i | 0 <= i < |init| ensures Text(init[i]).Success? {
            assert init[i] == acts[i];
          }
        }
      }
      if Emit(acts).error.None? {
        assert Texts(acts) == Texts(init) + [Text(last).value];
        assert Texts(acts)[..|acts| - 1] == Texts(init);
      }
    }
  }

  /** When the write loop raises, it raises the error of the first action
      that does not render, having written the texts of those before it. */
  lemma {:induction false} EmitFails(acts: seq<Action>)
    requires Emit(acts).error.Some?
    ensures exists j :: (FirstFailure(acts, j) &&
      Emit(acts).error == Some(Text(acts[j]).error) && Emit(acts).text == Flatten(Texts(acts[..j])))
  {
    var init := acts[..|acts| - 1];
    var last := acts[|acts| - 1];
    if Emit(init).error.Some? {
      EmitFails(init);
      var j :| FirstFailure(init, j) &&
        Emit(init).error == Some(Text(init[j]).error) && Emit(init).text == Flatten(Texts(init[..j]));
      assert init[..j] == acts[..j];
      assert FirstFailure(acts, j);
    } else {
      EmitRenders(init);
      assert acts[..|acts| - 1] == init;
      assert FirstFailure(acts, |acts| - 1);
    }
  }

  /** Once an action has raised, the later ones are never rendered. */
  lemma {:induction false} EmitSticks(acts: seq<Action>, k: nat)
    requires k <= |acts| && Emit(acts[..k]).error.Some?
    ensures Emit(acts) == Emit(acts[..k])
  {
    if k < |acts| {
      assert acts[..|acts| - 1][..k] == acts[..k];
      EmitSticks(acts[..|acts| - 1], k);
    } else {
      assert acts[..k] == acts;
    }
  }

  /** `save` raises exactly when some module or some action does not render:
      a failing module leaves only the module texts before it and no mirror;
      a failing action leaves every module text, the mirror header and the
      action texts before it, without the closing brace. Otherwise the file
      holds the module texts, the mirror header, the action texts and "}\n". */
  lemma SaveTextSpec(modules: seq<Action>, actions: seq<Action>)
    ensures SaveText(modules, actions).error.None? <==> AllRender(modules) && AllRender(actions)
    ensures SaveText(modules, actions).error.None? ==>
      SaveText(modules, actions).text ==
        Flatten(Texts(modules)) + MirrorHeader + Flatten(Texts(actions)) + "}\n"
    ensures !AllRender(modules) ==> exists j :: (FirstFailure(modules, j) &&
      SaveText(modules, actions) == Saved(Flatten(Texts(modules[..j])), Some(Text(modules[j]).error)))
    ensures AllRender(modules) && !AllRender(actions) ==> exists j :: (FirstFailure(actions, j) &&
      SaveText(modules, actions) ==
        Saved(Flatten(Texts(modules)) + MirrorHeader + Flatten(Texts(actions[..j])), Some(Text(actions[j]).error)))
  {
    EmitRenders(modules);
    EmitRenders(actions);
    if !AllRender(modules) {
      EmitFails(modules);
    } else if !AllRender(actions) {
      EmitFails(actions);
    }
  }

  /** The loop `for act in acts: f.write(act.render())`. */
  method WriteAll(acts: seq<Action>) returns (saved: Saved)
    ensures saved == Emit(acts)
  {
    var text := "";
    for i := 0 to |acts|
      invariant Emit(acts[..i]) == Saved(text, None)
    {
      assert acts[..i + 1][..i] == acts[..i];
      var t := Render(acts[i]);
      if t.Failure? {
        EmitSticks(acts, i + 1);
        return Saved(text, Some(t.error));
      }
      text := text + t.value;
    }
    assert acts[..|acts|] == acts;
    saved := Saved(text, None);
  }

  /** The current value of each module object. */
  function ModuleValues(ms: seq<ScadModule>): (r: seq<Action>)
    reads ms
    ensures |r| == |ms| && forall i :: 0 <= i < |ms| ==> r[i] == ms[i].AsAction()
  {
    if |ms| == 0 then [] else ModuleValues(ms[..|ms| - 1]) + [ms[|ms| - 1].AsAction()]
  }
}
