/** Arduino preferences: "key=value" lines parsed into a dictionary, and
    `{name}` interpolation inside preference values. */
module Arduino {
  import opened Wrappers
  import Seqs

  /** `line.split("=", 1)` when it yields two columns: the text before the
      first '=' and the text after it. */
  function SplitFirst(line: string): (r: Option<(string, string)>)
    ensures r.None? <==> '=' !in line
    ensures r.Some? ==> line == r.value.0 + "=" + r.value.1 && '=' !in r.value.0
  {
    match Seqs.IndexOf(line, '=')
    case None => None
    case Some(i) =>
      assert line == line[..i] + "=" + line[i + 1..];
      assert forall c :: c in line[..i] ==> c != '=';
      Some((line[..i], line[i + 1..]))
  }

  /** `s.rstrip('\n')`. */
  function RStripNewlines(s: string): (r: string)
    ensures |r| <= |s| && r == s[..|r|]
    ensures forall k :: |r| <= k < |s| ==> s[k] == '\n'
    ensures |r| > 0 ==> r[|r| - 1] != '\n'
  {
    if |s| > 0 && s[|s| - 1] == '\n' then RStripNewlines(s[..|s| - 1]) else s
  }

  /** The dictionary the parsing loop builds from `lines`. */
  function PrefsOf(lines: seq<string>): map<string, string>
  {
    if |lines| == 0 then map[]
    else
      var m := PrefsOf(lines[..|lines| - 1]);
      match SplitFirst(lines[|lines| - 1])
      case None => m
      case Some(kv) => m[kv.0 := kv.1]
  }

  /** `line` has an '=' and the text before the first one is `key`. */
  predicate Defines(line: string, key: string)
  {
    SplitFirst(line).Some? && SplitFirst(line).value.0 == key
  }

  /** A key is defined iff some line with an '=' starts with it. */
  lemma {:induction false} PrefsOfKeys(lines: seq<string>, key: string)
    ensures key in PrefsOf(lines) <==> exists i :: 0 <= i < |lines| && Defines(lines[i], key)
  {
    if |lines| > 0 {
      var init := lines[..|lines| - 1];
      var last := lines[|lines| - 1];
      PrefsOfKeys(init, key);
      assert key in PrefsOf(lines) <==> key in PrefsOf(init) || Defines(last, key);
      if key in PrefsOf(init) {
        var i :| 0 <= i < |init| && Defines(init[i], key);
        assert lines[i] == init[i];
      }
      if i :| 0 <= i < |lines| && Defines(lines[i], key) {
        if i < |init| {
          assert init[i] == lines[i];
        }
      }
    }
  }

  /** A key's value comes from the last line defining it: later duplicates
      overwrite earlier ones. */
  lemma {:induction false} PrefsOfLastWins(lines: seq<string>, i: nat)
    requires i < |lines| && SplitFirst(lines[i]).Some?
    requires forall j :: i < j < |lines| && SplitFirst(lines[j]).Some? ==> SplitFirst(lines[j]).value.0 != SplitFirst(lines[i]).value.0
    ensures SplitFirst(lines[i]).value.0 in PrefsOf(lines)
    ensures PrefsOf(lines)[SplitFirst(lines[i]).value.0] == SplitFirst(lines[i]).value.1
  {
    var init := lines[..|lines| - 1];
    if i < |lines| - 1 {
      forall j | i < j < |init| && SplitFirst(init[j]).Some?
        ensures SplitFirst(init[j]).value.0 != SplitFirst(init[i]).value.0
      {
        assert init[j] == lines[j];
      }
      assert init[i] == lines[i];
      PrefsOfLastWins(init, i);
    }
  }

  /** One more line adds its key and value, when it has an '='. */
  lemma PrefsOfStep(lines: seq<string>, k: nat)
    requires k < |lines|
    ensures PrefsOf(lines[..k + 1]) ==
      match SplitFirst(lines[k]) case None => PrefsOf(lines[..k]) case Some(kv) => PrefsOf(lines[..k])[kv.0 := kv.1]
  {
    Seqs.TakeSnoc(lines, k + 1);
    assert lines[..k + 1][..k] == lines[..k];
  }

  /** The loop of `load_prefs` (`strip` set: each line loses its trailing
      newlines first) and of `board_prefs` (lines already split). */
  method ParsePrefs(lines: seq<string>, strip: bool) returns (prefs: map<string, string>)
    ensures prefs == PrefsOf(if strip then StrippedLines(lines) else lines)
  {
    var source := if strip then StrippedLines(lines) else lines;
    prefs := map[];
    var k := 0;
    while k < |lines|
      invariant 0 <= k <= |lines|
      invariant prefs == PrefsOf(source[..k])
    {
      var line := if strip then RStripNewlines(lines[k]) else lines[k];
      assert source[k] == line;
      PrefsOfStep(source, k);
      var cols := SplitFirst(line);
      if cols.Some? {
        prefs := prefs[cols.value.0 := cols.value.1];
      }
      k := k + 1;
    }
    assert source[..k] == source;
  }

  function StrippedLines(lines: seq<string>): (r: seq<string>)
    ensures |r| == |lines| && forall k :: 0 <= k < |lines| ==> r[k] == RStripNewlines(lines[k])
  {
    if |lines| == 0 then [] else StrippedLines(lines[..|lines| - 1]) + [RStripNewlines(lines[|lines| - 1])]
  }

  // ---------------------------------------------------------------------
  // `{name}` placeholders

  /** The characters of `[a-zA-Z0-9_._+-]`. */
  predicate NameChar(c: char)
  {
    ('a' <= c <= 'z') || ('A' <= c <= 'Z') || ('0' <= c <= '9') || c == '_' || c == '.' || c == '+' || c == '-'
  }

  /** The length of the run of name characters starting at `i`. */
  function NameRun(s: string, i: nat): (n: nat)
    requires i <= |s|
    ensures i + n <= |s|
    ensures forall k :: i <= k < i + n ==> NameChar(s[k])
    ensures i + n < |s| ==> !NameChar(s[i + n])
    decreases |s| - i
  {
    if i < |s| && NameChar(s[i]) then 1 + NameRun(s, i + 1) else 0
  }

  /** The name of the placeholder `{name}` starting at `i`, if one does:
      '{', one or more name characters, then '}'. */
  function MatchAt(s: string, i: nat): (r: Option<string>)
    requires i <= |s|
    ensures r.Some? <==>
      i < |s| && s[i] == '{' && NameRun(s, i + 1) > 0 && i + 1 + NameRun(s, i + 1) < |s| && s[i + 1 + NameRun(s, i + 1)] == '}'
    ensures r.Some? ==>
      |r.value| > 0 && i + 2 + |r.value| <= |s| && r.value == s[i + 1 .. i + 1 + |r.value|] &&
      (forall c :: c in r.value ==> NameChar(c)) && s[i + 1 + |r.value|] == '}'
  {
    if i < |s| && s[i] == '{' then
      var n := NameRun(s, i + 1);
      if n > 0 && i + 1 + n < |s| && s[i + 1 + n] == '}' then Some(s[i + 1 .. i + 1 + n]) else None
    else None
  }

  /** `re.search`: the leftmost placeholder at or after `from`. */
  function SearchFrom(s: string, from: nat): (r: Option<(nat, string)>)
    requires from <= |s|
    ensures r.Some? ==> from <= r.value.0 < |s| && MatchAt(s, r.value.0) == Some(r.value.1)
    ensures r.Some? ==> forall j :: from <= j < r.value.0 ==> MatchAt(s, j).None?
    ensures r.None? ==> forall j :: from <= j <= |s| ==> MatchAt(s, j).None?
    decreases |s| - from
  {
    if from == |s| then None
    else if MatchAt(s, from).Some? then Some((from, MatchAt(s, from).value))
    else SearchFrom(s, from + 1)
  }

  function Search(s: string): (r: Option<(nat, string)>)
    ensures r.Some? ==> r.value.0 < |s| && MatchAt(s, r.value.0) == Some(r.value.1)
    ensures r.Some? ==> forall j :: 0 <= j < r.value.0 ==> MatchAt(s, j).None?
    ensures r.None? ==> forall j :: 0 <= j <= |s| ==> MatchAt(s, j).None?
  {
    SearchFrom(s, 0)
  }

  /** `s.replace(pat, rep)`: every occurrence of `pat`, scanning left to
      right without overlaps, replaced by `rep`. */
  function ReplaceAll(s: string, pat: string, rep: string): string
    requires |pat| > 0
  {
    if |s| < |pat| then s
    else if s[..|pat|] == pat then rep + ReplaceAll(s[|pat|..], pat, rep)
    else [s[0]] + ReplaceAll(s[1..], pat, rep)
  }

  predicate OccursAt(s: string, pat: string, i: nat)
  {
    i + |pat| <= |s| && s[i .. i + |pat|] == pat
  }

  /** Text without `pat` is left alone. */
  lemma {:induction false} ReplaceAbsent(s: string, pat: string, rep: string)
    requires |pat| > 0
    requires forall i :: 0 <= i <= |s| ==> !OccursAt(s, pat, i)
    ensures ReplaceAll(s, pat, rep) == s
  {
    if |s| >= |pat| {
      assert !OccursAt(s, pat, 0);
      forall i | 0 <= i <= |s[1..]|
        ensures !OccursAt(s[1..], pat, i)
      {
        assert !OccursAt(s, pat, i + 1);
        if i + |pat| <= |s[1..]| {
          assert s[1..][i .. i + |pat|] == s[i + 1 .. i + 1 + |pat|];
        }
      }
      ReplaceAbsent(s[1..], pat, rep);
    }
  }

  /** The first occurrence is replaced and scanning resumes after it: text
      before it is copied, and the rest is replaced in turn. */
  lemma {:induction false} ReplaceFirst(a: string, pat: string, b: string, rep: string)
    requires |pat| > 0
    requires forall i :: 0 <= i < |a| ==> !OccursAt(a + pat + b, pat, i)
    ensures ReplaceAll(a + pat + b, pat, rep) == a + rep + ReplaceAll(b, pat, rep)
    decreases |a|
  {
    var s := a + pat + b;
    if |a| == 0 {
      assert s == pat + b;
      assert s[..|pat|] == pat && s[|pat|..] == b;
    } else {
      var s' := a[1..] + pat + b;
      assert s[1..] == s' && s[0] == a[0];
      assert !OccursAt(s, pat, 0);
      ReplaceCopies(s, pat, rep);
      OccursShift(a, pat, b);
      ReplaceFirst(a[1..], pat, b, rep);
      assert [a[0]] + a[1..] == a;
    }
  }

  /** Where no occurrence starts, the first character is copied. */
  lemma ReplaceCopies(s: string, pat: string, rep: string)
    requires |pat| > 0 && |s| >= |pat| && !OccursAt(s, pat, 0)
    ensures ReplaceAll(s, pat, rep) == [s[0]] + ReplaceAll(s[1..], pat, rep)
  {
    assert s[0 .. |pat|] == s[..|pat|];
  }

  /** Dropping the first character of `a` keeps `a` free of occurrences. */
  lemma OccursShift(a: string, pat: string, b: string)
    requires |a| > 0 && forall i :: 0 <= i < |a| ==> !OccursAt(a + pat + b, pat, i)
    ensures forall i :: 0 <= i < |a[1..]| ==> !OccursAt(a[1..] + pat + b, pat, i)
  {
    var s, s' := a + pat + b, a[1..] + pat + b;
    forall i | 0 <= i < |a[1..]|
      ensures !OccursAt(s', pat, i)
    {
      assert !OccursAt(s, pat, i + 1);
      if i + |pat| <= |s'| {
        assert s'[i .. i + |pat|] == s[i + 1 .. i + 1 + |pat|];
      }
    }
  }

  /** Replacing a pattern by itself changes nothing. */
  lemma {:induction false} ReplaceBySelf(s: string, pat: string)
    requires |pat| > 0
    ensures ReplaceAll(s, pat, pat) == s
    decreases |s|
  {
    if |s| >= |pat| {
      if s[..|pat|] == pat {
        ReplaceBySelf(s[|pat|..], pat);
        assert s == s[..|pat|] + s[|pat|..];
      } else {
        ReplaceBySelf(s[1..], pat);
        assert s == [s[0]] + s[1..];
      }
    }
  }

  // ---------------------------------------------------------------------
  // The configuration path of a key

  /** `s.split(c)`. */
  function Split(s: string, c: char): (r: seq<string>)
    ensures |r| >= 1
    ensures forall k :: 0 <= k < |r| ==> c !in r[k]
    decreases |s|
  {
    match Seqs.IndexOf(s, c)
    case None => [s]
    case Some(i) =>
      assert forall x :: x in s[..i] ==> x != c;
      [s[..i]] + Split(s[i + 1..], c)
  }

  /** `c.join(parts)`. */
  function Join(parts: seq<string>, c: char): string
    requires |parts| >= 1
  {
    if |parts| == 1 then parts[0] else Join(parts[..|parts| - 1], c) + [c] + parts[|parts| - 1]
  }

  lemma {:induction false} JoinCons(p: string, parts: seq<string>, c: char)
    requires |parts| >= 1
    ensures Join([p] + parts, c) == p + [c] + Join(parts, c)
    decreases |parts|
  {
    var l := [p] + parts;
    if |parts| > 1 {
      assert l[..|l| - 1] == [p] + parts[..|parts| - 1];
      JoinCons(p, parts[..|parts| - 1], c);
    }
  }

  /** Splitting and joining again gives back the key. */
  lemma {:induction false} JoinSplit(s: string, c: char)
    ensures Join(Split(s, c), c) == s
    decreases |s|
  {
    match Seqs.IndexOf(s, c)
    case None =>
    case Some(i) =>
      JoinSplit(s[i + 1..], c);
      JoinCons(s[..i], Split(s[i + 1..], c), c);
      assert s == s[..i] + [c] + s[i + 1..];
  }

  /** The path entries of `resolve_pref`: the running joins of the parts. */
  method BuildPath(parts: seq<string>) returns (path: seq<string>)
    requires |parts| >= 1
    ensures |path| == |parts|
    ensures forall i :: 0 <= i < |path| ==> path[i] == Join(parts[..i + 1], '.')
  {
    path := [];
    for i := 0 to |parts|
      invariant |path| == i
      invariant forall j :: 0 <= j < i ==> path[j] == Join(parts[..j + 1], '.')
    {
      if |path| > 0 {
        assert parts[..i + 1][..i] == parts[..i];
        path := path + [path[|path| - 1] + "." + parts[i]];
      } else {
        path := path + [parts[i]];
      }
    }
  }

  /** Each path entry is a prefix of the key ending just before a '.', or
      the key itself; entries grow from the first component to the key. */
  lemma {:induction false} PathEntries(key: string, i: nat)
    requires i < |Split(key, '.')|
    ensures var parts := Split(key, '.');
      var e := Join(parts[..i + 1], '.');
      (i + 1 == |parts| ==> e == key) &&
      (i + 1 < |parts| ==> |e| < |key| && key[..|e| + 1] == e + ".")
  {
    var parts := Split(key, '.');
    JoinSplit(key, '.');
    if i + 1 < |parts| {
      JoinSplitAt(parts, i + 1, '.');
      var e := Join(parts[..i + 1], '.');
      assert key == e + "." + Join(parts[i + 1..], '.');
      assert key[..|e| + 1] == e + ".";
    } else {
      assert parts[..i + 1] == parts;
    }
  }

  lemma {:induction false} JoinSplitAt(parts: seq<string>, n: nat, c: char)
    requires 1 <= n < |parts|
    ensures Join(parts, c) == Join(parts[..n], c) + [c] + Join(parts[n..], c)
    decreases |parts|
  {
    var init := parts[..|parts| - 1];
    if n == |parts| - 1 {
      assert parts[..n] == init;
      assert parts[n..] == [parts[|parts| - 1]];
    } else {
      JoinSplitAt(init, n, c);
      assert init[..n] == parts[..n];
      var tail := parts[n..];
      Seqs.DropThenInit(parts, n);
      assert tail[|tail| - 1] == parts[|parts| - 1];
      assert Join(tail, c) == Join(init[n..], c) + [c] + parts[|parts| - 1];
    }
  }

  // ---------------------------------------------------------------------
  // `resolve_pref`

  datatype ResolveError =
    | MissingKey(key: string)                  // `prefs[key]` raises KeyError
    | Unresolvable(value: string, name: string)
    | OutOfFuel                                // still substituting after the allowed rounds

  /** Where a placeholder `name` is looked up: `name` itself if it is a key,
      otherwise the first "p.name" for `p` along the path. */
  function LookupKey(prefs: map<string, string>, path: seq<string>, name: string): (r: Option<string>)
    ensures r.Some? ==> r.value in prefs
    ensures name in prefs ==> r == Some(name)
    ensures name !in prefs && r.Some? ==>
      exists i :: 0 <= i < |path| && r.value == path[i] + "." + name &&
        forall j :: 0 <= j < i ==> path[j] + "." + name !in prefs
    ensures name !in prefs && r.None? ==> forall i :: 0 <= i < |path| ==> path[i] + "." + name !in prefs
  {
    if name in prefs then Some(name) else LookupAlong(prefs, path, name)
  }

  function LookupAlong(prefs: map<string, string>, path: seq<string>, name: string): (r: Option<string>)
    ensures r.Some? ==> r.value in prefs
    ensures r.Some? ==>
      exists i :: 0 <= i < |path| && r.value == path[i] + "." + name &&
        forall j :: 0 <= j < i ==> path[j] + "." + name !in prefs
    ensures r.None? ==> forall i :: 0 <= i < |path| ==> path[i] + "." + name !in prefs
  {
    if |path| == 0 then None
    else if path[0] + "." + name in prefs then Some(path[0] + "." + name)
    else
      var r := LookupAlong(prefs, path[1..], name);
      if r.Some? then
        var i :| 0 <= i < |path[1..]| && r.value == path[1..][i] + "." + name &&
          forall j :: 0 <= j < i ==> path[1..][j] + "." + name !in prefs;
        assert forall j :: 0 <= j < i + 1 ==> path[j] + "." + name !in prefs by {
          forall j | 0 <= j < i + 1 ensures path[j] + "." + name !in prefs {
            if j > 0 { assert path[j] == path[1..][j - 1]; }
          }
        }
        assert r.value == path[i + 1] + "." + name;
        r
      else
        assert forall i :: 0 <= i < |path| ==> path[i] + "." + name !in prefs by {
          forall i | 0 <= i < |path| ensures path[i] + "." + name !in prefs {
            if i > 0 { assert path[i] == path[1..][i - 1]; }
          }
        }
        r
  }

  /** One round: the first placeholder's text replaced everywhere by the
      value it resolves to. */
  function Substitute(prefs: map<string, string>, path: seq<string>, value: string): (r: Result<string, ResolveError>)
    requires Search(value).Some?
  {
    var name := Search(value).value.1;
    match LookupKey(prefs, path, name)
    case None => Failure(Unresolvable(value, name))
    case Some(k) => Success(ReplaceAll(value, "{" + name + "}", prefs[k]))
  }

  /** What one pass of the `while True` loop does to a value: nothing when
      no placeholder is left, otherwise the outcome of the substitution. */
  function Round(prefs: map<string, string>, path: seq<string>, value: string): (r: Option<Result<string, ResolveError>>)
    ensures r.None? <==> Search(value).None?
  {
    if Search(value).None? then None else Some(Substitute(prefs, path, value))
  }

  /** Repeats `round` until no placeholder is left, a failure, or a value
      that maps to itself, allowed `fuel` substitutions. */
  function Iterate(round: string -> Option<Result<string, ResolveError>>, value: string, fuel: nat): Result<string, ResolveError>
    decreases fuel
  {
    match round(value)
    case None => Success(value)
    case Some(s) =>
      if fuel == 0 then Failure(OutOfFuel)
      else
        match s
        case Failure(e) => Failure(e)
        case Success(next) => if next == value then Success(next) else Iterate(round, next, fuel - 1)
  }

  /** The `while True` loop, allowed `fuel` substitution rounds. */
  function Rounds(prefs: map<string, string>, path: seq<string>, value: string, fuel: nat): Result<string, ResolveError>
  {
    Iterate(v => Round(prefs, path, v), value, fuel)
  }

  /** A value the iteration returns is one the round leaves alone: no
      placeholder is left, or it maps to itself. */
  lemma {:induction false} IterateResult(round: string -> Option<Result<string, ResolveError>>, value: string, fuel: nat)
    requires Iterate(round, value, fuel).Success?
    ensures var v := Iterate(round, value, fuel).value;
      round(v).None? || round(v) == Some(Success(v))
    decreases fuel
  {
    if round(value).Some? {
      var next := round(value).value.value;
      if next != value {
        IterateResult(round, next, fuel - 1);
      }
    }
  }

  /** An error the iteration raises, other than running out of rounds, is
      one the round itself raised; so it has every property `ok` that all
      the round's errors have. */
  lemma {:induction false} IterateFailure(round: string -> Option<Result<string, ResolveError>>, ok: ResolveError -> bool,
                                          value: string, fuel: nat)
    requires forall v :: round(v).Some? && round(v).value.Failure? ==> ok(round(v).value.error)
    requires Iterate(round, value, fuel).Failure? && !Iterate(round, value, fuel).error.OutOfFuel?
    ensures ok(Iterate(round, value, fuel).error)
    decreases fuel
  {
    if round(value).Some? && round(value).value.Success? {
      var next := round(value).value.value;
      if next != value {
        IterateFailure(round, ok, next, fuel - 1);
      }
    }
  }

  /** A value comes back either free of placeholders, or at a fixed point
      where its first placeholder resolves to itself. */
  lemma RoundsResult(prefs: map<string, string>, path: seq<string>, value: string, fuel: nat)
    requires Rounds(prefs, path, value, fuel).Success?
    ensures var v := Rounds(prefs, path, value, fuel).value;
      Search(v).None? || Substitute(prefs, path, v) == Success(v)
  {
    IterateResult(v => Round(prefs, path, v), value, fuel);
  }

  /** Only an unresolvable placeholder makes resolution raise. */
  lemma RoundsFailure(prefs: map<string, string>, path: seq<string>, value: string, fuel: nat)
    requires Rounds(prefs, path, value, fuel).Failure?
    requires Rounds(prefs, path, value, fuel).error.Unresolvable?
    ensures var e := Rounds(prefs, path, value, fuel).error;
      LookupKey(prefs, path, e.name).None? && Search(e.value).Some? && Search(e.value).value.1 == e.name
  {
    var round := v => Round(prefs, path, v);
    var ok := (e: ResolveError) =>
      e.Unresolvable? && LookupKey(prefs, path, e.name).None? && Search(e.value).Some? && Search(e.value).value.1 == e.name;
    forall v | round(v).Some? && round(v).value.Failure?
      ensures ok(round(v).value.error)
    {
    }
    IterateFailure(round, ok, value, fuel);
  }

  const Mutual: map<string, string> := map["a" := "{b}", "b" := "{a}"]

  /** A whole string that is the pattern is replaced by `rep`. */
  lemma ReplaceWhole(s: string, rep: string)
    requires |s| > 0
    ensures ReplaceAll(s, s, rep) == rep
  {
    assert s[..|s|] == s;
    assert s[|s|..] == [];
  }

  /** "{x}" for a one-letter name is a placeholder at index 0. */
  lemma SearchBraced(x: string)
    requires x == "a" || x == "b"
    ensures Search("{" + x + "}") == Some((0, x))
  {
    var s := "{" + x + "}";
    assert |s| == 3 && s[0] == '{' && s[1] == x[0] && s[2] == '}';
    assert NameRun(s, 2) == 0;
    assert NameRun(s, 1) == 1;
    assert s[1..2] == x;
    assert MatchAt(s, 0) == Some(x);
  }

  /** In `Mutual`, "{x}" for x in {a, b} resolves to the other placeholder. */
  lemma SubstituteMutual(x: string, y: string)
    requires (x == "a" && y == "b") || (x == "b" && y == "a")
    ensures Search("{" + x + "}") == Some((0, x))
    ensures Substitute(Mutual, ["a"], "{" + x + "}") == Success("{" + y + "}")
  {
    SearchBraced(x);
    assert LookupKey(Mutual, ["a"], x) == Some(x);
    assert Mutual[x] == "{" + y + "}";
    ReplaceWhole("{" + x + "}", "{" + y + "}");
  }

  /** Two preferences naming each other never settle: resolution keeps
      substituting however many rounds it is given. */
  lemma {:induction false} MutualReferenceDiverges(fuel: nat)
    ensures Rounds(Mutual, ["a"], "{a}", fuel) == Failure(OutOfFuel)
    ensures Rounds(Mutual, ["a"], "{b}", fuel) == Failure(OutOfFuel)
    decreases fuel
  {
    SubstituteMutual("a", "b");
    SubstituteMutual("b", "a");
    assert "{" + "a" + "}" == "{a}" && "{" + "b" + "}" == "{b}";
    if fuel > 0 {
      MutualReferenceDiverges(fuel - 1);
    }
  }

  /** The tool's state: the IDE preferences read at start-up. */
  class ArduinoPrefs {
    var prefs: map<string, string>

    constructor (lines: seq<string>)
      ensures prefs == PrefsOf(StrippedLines(lines))
    {
      var p := ParsePrefs(lines, true);
      prefs := p;
    }

    /** `resolve_pref(key, prefs)`: an absent or empty dictionary falls back
        to the stored preferences; at most `fuel` substitution rounds. */
    method ResolvePref(key: string, given: Option<map<string, string>>, fuel: nat) returns (r: Result<string, ResolveError>)
      ensures var d := if given.None? || given.value == map[] then prefs else given.value;
        (key !in d ==> r == Failure(MissingKey(key))) &&
        (key in d ==> r == Rounds(d, PathOf(key), d[key], fuel))
    {
      var d := if given.None? || given.value == map[] then prefs else given.value;
      if key !in d {
        return Failure(MissingKey(key));
      }
      var value := d[key];
      var path := BuildPath(Split(key, '.'));
      assert path == PathOf(key);
      var rounds := fuel;
      while true
        invariant Rounds(d, path, value, rounds) == Rounds(d, path, d[key], fuel)
        decreases rounds
      {
        var before := value;
        var m := Search(value);
        if m.None? {
          return Success(value);
        }
        if rounds == 0 {
          return Failure(OutOfFuel);
        }
        var name := m.value.1;
        var k := LookupKey(d, path, name);
        if k.None? {
          assert Substitute(d, path, value) == Failure(Unresolvable(value, name));
          return Failure(Unresolvable(value, name));
        }
        value := ReplaceAll(value, "{" + name + "}", d[k.value]);
        assert Substitute(d, path, before) == Success(value);
        if value == before {
          return Success(value);
        }
        rounds := rounds - 1;
      }
    }
  }

  /** The configuration path of a key. */
  function PathOf(key: string): (r: seq<string>)
    ensures |r| == |Split(key, '.')|
    ensures forall i :: 0 <= i < |r| ==> r[i] == Join(Split(key, '.')[..i + 1], '.')
  {
    var parts := Split(key, '.');
    seq(|parts|, i requires 0 <= i < |parts| => Join(parts[..i + 1], '.'))
  }
}
