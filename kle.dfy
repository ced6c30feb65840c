/** The keyboard-layout-editor reader: a serialized layout is a list of rows,
    each a list of key label strings interleaved with property objects that
    change the running key state. */
module Kle {
  import opened Wrappers
  import Arduino

  /** A JSON value as it appears in a property object.  Booleans, lists and
      objects are opaque: the walker only stores them. */
  datatype JVal = Num(n: real) | Str(s: string) | Null | Other

  /** The attributes of a key object that have been assigned. */
  type Attrs = map<string, JVal>

  /** One property object, in its iteration order. */
  type Props = seq<(string, JVal)>

  /** The class-level default of an attribute that was never assigned. */
  function Default(name: string): JVal
  {
    if name == "width" || name == "height" || name == "width2" || name == "height2" then Num(1.0)
    else if name == "x" || name == "y" || name == "x2" || name == "y2" then Num(0.0)
    else if name == "rotation_angle" || name == "rotation_x" || name == "rotation_y" then Num(0.0)
    else Null
  }

  /** `getattr(key, name)`. */
  function Get(attrs: Attrs, name: string): JVal
  {
    if name in attrs then attrs[name] else Default(name)
  }

  /** Python's `a + b` on two JSON values: numbers add, strings concatenate,
      anything else is a TypeError. */
  function Plus(a: JVal, b: JVal): (r: Result<JVal, string>)
    ensures r.Success? <==> (a.Num? && b.Num?) || (a.Str? && b.Str?)
    ensures a.Num? && b.Num? ==> r == Success(Num(a.n + b.n))
  {
    if a.Num? && b.Num? then Success(Num(a.n + b.n))
    else if a.Str? && b.Str? then Success(Str(a.s + b.s))
    else Failure("TypeError: unsupported operand type(s) for +")
  }

  /** The running state of a key: its attributes and its cluster origin. */
  datatype KeyState = KeyState(attrs: Attrs, cluster: (JVal, JVal))

  const Fresh := KeyState(map[], (Num(0.0), Num(0.0)))

  /** The attributes a serialized property name assigns. */
  function Targets(prop: string): (r: seq<string>)
    ensures |r| >= 1
  {
    if prop == "r" then ["rotation_angle"]
    else if prop == "w" then ["width", "width2"]
    else if prop == "h" then ["height", "height2"]
    else if prop == "w2" then ["width2"]
    else if prop == "h2" then ["height2"]
    else [prop]
  }

  /** Assigns `v` to every attribute in `names`. */
  function SetAll(attrs: Attrs, names: seq<string>, v: JVal): (r: Attrs)
    ensures forall n :: n in names ==> n in r && r[n] == v
    ensures forall n :: n !in names ==> (n in r <==> n in attrs) && (n in attrs ==> r[n] == attrs[n])
  {
    if |names| == 0 then attrs else SetAll(attrs, names[..|names| - 1], v)[names[|names| - 1] := v]
  }

  /** The value of `name` in a property object, if present. */
  function Lookup(props: Props, name: string): (r: Option<JVal>)
    ensures r.None? <==> forall i :: 0 <= i < |props| ==> props[i].0 != name
  {
    if |props| == 0 then None
    else if props[0].0 == name then Some(props[0].1)
    else Lookup(props[1..], name)
  }

  /** The 'rx'/'ry' step that precedes the walk over the properties: each
      sets the cluster origin and the rotation centre on its axis and moves
      the position to the cluster origin. */
  function Recenter(k: KeyState, props: Props): (r: KeyState)
  {
    var k1 := match Lookup(props, "rx")
      case Some(v) => KeyState(k.attrs["rotation_x" := v]["x" := v]["y" := k.cluster.1], (v, k.cluster.1))
      case None => k;
    match Lookup(props, "ry")
    case Some(v) => KeyState(k1.attrs["rotation_y" := v]["y" := v]["x" := k1.cluster.0], (k1.cluster.0, v))
    case None => k1
  }

  /** One property of the walk: 'rx'/'ry' are skipped, 'x'/'y' are added to
      the position, anything else overwrites its target attributes. */
  function ApplyProp(k: KeyState, p: (string, JVal)): Result<KeyState, string>
  {
    if p.0 == "rx" || p.0 == "ry" then Success(k)
    else if p.0 == "x" || p.0 == "y" then
      var s := Plus(Get(k.attrs, p.0), p.1);
      if s.Failure? then Failure(s.error) else Success(k.(attrs := k.attrs[p.0 := s.value]))
    else Success(k.(attrs := SetAll(k.attrs, Targets(p.0), p.1)))
  }

  /** A left-to-right walk that applies `step` to the first `n` elements of
      `xs` and stops at the first step that fails.  The property walk, the
      walk over a row and the walk over the rows are all of this shape. */
  function Fold<S, T>(step: (S, T) -> Result<S, string>, s: S, xs: seq<T>, n: nat): Result<S, string>
    requires n <= |xs|
  {
    if n == 0 then Success(s)
    else
      var prev := Fold(step, s, xs, n - 1);
      if prev.Failure? then prev else step(prev.value, xs[n - 1])
  }

  /** Once a step has failed, the walk's result is that failure. */
  lemma {:induction false} FoldFailureSticks<S, T>(step: (S, T) -> Result<S, string>, s: S, xs: seq<T>, i: nat, n: nat)
    requires i <= n <= |xs| && Fold(step, s, xs, i).Failure?
    ensures Fold(step, s, xs, n) == Fold(step, s, xs, i)
  {
    if n > i {
      FoldFailureSticks(step, s, xs, i, n - 1);
    }
  }

  /** A walk that succeeds took a successful walk one step further. */
  lemma FoldLast<S, T>(step: (S, T) -> Result<S, string>, s: S, xs: seq<T>, n: nat)
    requires 0 < n <= |xs| && Fold(step, s, xs, n).Success?
    ensures Fold(step, s, xs, n - 1).Success? && Fold(step, s, xs, n) == step(Fold(step, s, xs, n - 1).value, xs[n - 1])
  {
  }

  /** The state after the first `n` properties of the walk. */
  function ApplyProps(k: KeyState, props: Props, n: nat): Result<KeyState, string>
    requires n <= |props|
  {
    Fold(ApplyProp, k, props, n)
  }

  /** `Key.update_with`. */
  function UpdateWith(k: KeyState, props: Props): Result<KeyState, string>
  {
    ApplyProps(Recenter(k, props), props, |props|)
  }

  /** The property that last assigns attribute `t` among the first `n`. */
  function LastSetter(props: Props, t: string, n: nat): (r: Option<JVal>)
    requires n <= |props|
  {
    if n == 0 then None
    else if props[n - 1].0 !in {"rx", "ry", "x", "y"} && t in Targets(props[n - 1].0) then Some(props[n - 1].1)
    else LastSetter(props, t, n - 1)
  }

  /** The walk never fails on attributes other than the position, and an
      attribute other than 'x'/'y' ends with the value of the last property
      that assigns it, or keeps its value. */
  lemma {:induction false} ApplyPropsOverwrite(k: KeyState, props: Props, n: nat, t: string)
    requires n <= |props| && t != "x" && t != "y" && ApplyProps(k, props, n).Success?
    ensures var r := ApplyProps(k, props, n).value;
      r.cluster == k.cluster &&
      Get(r.attrs, t) == (match LastSetter(props, t, n) case Some(v) => v case None => Get(k.attrs, t))
  {
    if n > 0 {
      FoldLast(ApplyProp, k, props, n);
      ApplyPropsOverwrite(k, props, n - 1, t);
      ApplyPropSets(ApplyProps(k, props, n - 1).value, props[n - 1], t);
    }
  }

  /** One property keeps the cluster origin, and sets an attribute other
      than 'x'/'y' exactly when it assigns that attribute. */
  lemma ApplyPropSets(k: KeyState, p: (string, JVal), t: string)
    requires t != "x" && t != "y" && ApplyProp(k, p).Success?
    ensures var r := ApplyProp(k, p).value;
      r.cluster == k.cluster &&
      Get(r.attrs, t) == (if p.0 !in {"rx", "ry", "x", "y"} && t in Targets(p.0) then p.1 else Get(k.attrs, t))
  {
  }

  /** Sum of the first `n` values of property `a` ('x' or 'y'), when they
      are all numbers. */
  function Offset(props: Props, a: string, n: nat): (r: Option<real>)
    requires n <= |props|
  {
    if n == 0 then Some(0.0)
    else
      var prev := Offset(props, a, n - 1);
      if prev.None? || props[n - 1].0 != a then prev
      else if props[n - 1].1.Num? then Some(prev.value + props[n - 1].1.n)
      else None
  }

  /** 'x' and 'y' properties are added to the position. */
  lemma {:induction false} ApplyPropsOffset(k: KeyState, props: Props, n: nat, a: string)
    requires n <= |props| && (a == "x" || a == "y") && Get(k.attrs, a).Num? && Offset(props, a, n).Some?
    requires ApplyProps(k, props, n).Success?
    ensures Get(ApplyProps(k, props, n).value.attrs, a) == Num(Get(k.attrs, a).n + Offset(props, a, n).value)
  {
    if n > 0 {
      FoldLast(ApplyProp, k, props, n);
      ApplyPropsOffset(k, props, n - 1, a);
      ApplyPropMoves(ApplyProps(k, props, n - 1).value, props[n - 1], a);
    }
  }

  /** One property adds its value to 'x' or 'y' when it names that
      attribute, and leaves it alone otherwise. */
  lemma ApplyPropMoves(k: KeyState, p: (string, JVal), a: string)
    requires (a == "x" || a == "y") && Get(k.attrs, a).Num? && (p.0 == a ==> p.1.Num?) && ApplyProp(k, p).Success?
    ensures Get(ApplyProp(k, p).value.attrs, a) == Num(Get(k.attrs, a).n + if p.0 == a then p.1.n else 0.0)
  {
  }

  /** 'w' sets both widths when nothing else in the object assigns them. */
  lemma WidthProp(k: KeyState, w: real, rest: Props)
    requires forall i :: 0 <= i < |rest| ==> rest[i].0 !in {"w", "w2", "width", "width2"}
    ensures var r := UpdateWith(k, [("w", Num(w))] + rest);
      r.Success? ==> Get(r.value.attrs, "width") == Num(w) && Get(r.value.attrs, "width2") == Num(w)
  {
    var p := [("w", Num(w))] + rest;
    if UpdateWith(k, p).Success? {
      ApplyPropsOverwrite(Recenter(k, p), p, |p|, "width");
      ApplyPropsOverwrite(Recenter(k, p), p, |p|, "width2");
      LastSetterFirst(p, "width");
      LastSetterFirst(p, "width2");
    }
  }

  /** 'w2' sets only the secondary width when nothing else in the object
      assigns the widths. */
  lemma Width2Prop(k: KeyState, w2: real, rest: Props)
    requires forall i :: 0 <= i < |rest| ==> rest[i].0 !in {"w", "w2", "width", "width2"}
    ensures var r := UpdateWith(k, [("w2", Num(w2))] + rest);
      r.Success? ==> Get(r.value.attrs, "width") == Get(Recenter(k, [("w2", Num(w2))] + rest).attrs, "width") &&
                     Get(r.value.attrs, "width2") == Num(w2)
  {
    var p := [("w2", Num(w2))] + rest;
    if UpdateWith(k, p).Success? {
      ApplyPropsOverwrite(Recenter(k, p), p, |p|, "width");
      ApplyPropsOverwrite(Recenter(k, p), p, |p|, "width2");
      LastSetterFirst(p, "width");
      LastSetterFirst(p, "width2");
    }
  }

  /** When only the first property can assign `t`, the last setter is the
      first property or nobody. */
  lemma {:induction false} LastSetterFirst(props: Props, t: string)
    requires |props| >= 1
    requires forall i :: 1 <= i < |props| ==> props[i].0 in {"x", "y", "rx", "ry"} || t !in Targets(props[i].0)
    ensures LastSetter(props, t, |props|) ==
      (if props[0].0 !in {"rx", "ry", "x", "y"} && t in Targets(props[0].0) then Some(props[0].1) else None)
  {
    LastSetterUpTo(props, t, |props|);
  }

  lemma {:induction false} LastSetterUpTo(props: Props, t: string, n: nat)
    requires 1 <= n <= |props|
    requires forall i :: 1 <= i < |props| ==> props[i].0 in {"x", "y", "rx", "ry"} || t !in Targets(props[i].0)
    ensures LastSetter(props, t, n) ==
      (if props[0].0 !in {"rx", "ry", "x", "y"} && t in Targets(props[0].0) then Some(props[0].1) else None)
  {
    if n > 1 {
      LastSetterUpTo(props, t, n - 1);
    }
  }

  /** An 'rx' property moves the key to the cluster origin (rx, old ry)
      and makes rx its rotation centre. */
  lemma RecenterX(k: KeyState, v: JVal, rest: Props)
    requires forall i :: 0 <= i < |rest| ==> rest[i].0 != "rx" && rest[i].0 != "ry"
    ensures var r := Recenter(k, [("rx", v)] + rest);
      r.cluster == (v, k.cluster.1) && Get(r.attrs, "x") == v && Get(r.attrs, "y") == k.cluster.1 &&
      Get(r.attrs, "rotation_x") == v
  {
    var p := [("rx", v)] + rest;
    assert Lookup(p, "ry").None? by {
      forall i | 0 <= i < |p|
        ensures p[i].0 != "ry"
      {
        if i > 0 {
          assert p[i] == rest[i - 1];
        }
      }
    }
  }

  /** A 'ry' property moves the key to the cluster origin (old rx, ry) and
      makes ry its rotation centre. */
  lemma RecenterY(k: KeyState, v: JVal, rest: Props)
    requires forall i :: 0 <= i < |rest| ==> rest[i].0 != "rx" && rest[i].0 != "ry"
    ensures var r := Recenter(k, [("ry", v)] + rest);
      r.cluster == (k.cluster.0, v) && Get(r.attrs, "y") == v && Get(r.attrs, "x") == k.cluster.0 &&
      Get(r.attrs, "rotation_y") == v
  {
    var p := [("ry", v)] + rest;
    assert Lookup(p, "rx").None? by {
      forall i | 0 <= i < |p|
        ensures p[i].0 != "rx"
      {
        if i > 0 {
          assert p[i] == rest[i - 1];
        }
      }
    }
  }

  /** 'rx' and 'ry' together move the key to the cluster origin (rx, ry),
      which becomes its rotation centre on both axes. */
  lemma RecenterBoth(k: KeyState, vx: JVal, vy: JVal, rest: Props)
    requires forall i :: 0 <= i < |rest| ==> rest[i].0 != "rx" && rest[i].0 != "ry"
    ensures var r := Recenter(k, [("rx", vx), ("ry", vy)] + rest);
      r.cluster == (vx, vy) && Get(r.attrs, "x") == vx && Get(r.attrs, "y") == vy &&
      Get(r.attrs, "rotation_x") == vx && Get(r.attrs, "rotation_y") == vy
  {
    var p := [("rx", vx), ("ry", vy)] + rest;
    assert Lookup(p, "rx") == Some(vx);
    assert p[1..][0] == ("ry", vy);
    assert Lookup(p, "ry") == Some(vy);
  }

  // ---------------------------------------------------------------------
  // The key object that the row walk mutates

  class Key {
    var attrs: Attrs
    var cluster: (JVal, JVal)

    function State(): KeyState
      reads this
    {
      KeyState(attrs, cluster)
    }

    constructor()
      ensures State() == Fresh
    {
      attrs := map[];
      cluster := (Num(0.0), Num(0.0));
    }

    /** `update_with`: on success the key holds the updated state. */
    method Update(props: Props) returns (r: Result<(), string>)
      modifies this
      ensures r.Success? <==> UpdateWith(old(State()), props).Success?
      ensures r.Success? ==> State() == UpdateWith(old(State()), props).value
      ensures r.Failure? ==> r.error == UpdateWith(old(State()), props).error
    {
      var k := Recenter(State(), props);
      attrs, cluster := k.attrs, k.cluster;
      for i := 0 to |props|
        invariant ApplyProps(k, props, i) == Success(State())
      {
        var p := props[i];
        if p.0 == "rx" || p.0 == "ry" {
          continue;
        }
        if p.0 == "x" || p.0 == "y" {
          var s := Plus(Get(attrs, p.0), p.1);
          if s.Failure? {
            FoldFailureSticks(ApplyProp, k, props, i + 1, |props|);
            return Failure(s.error);
          }
          attrs := attrs[p.0 := s.value];
        } else {
          attrs := SetAll(attrs, Targets(p.0), p.1);
        }
      }
      return Success(());
    }

    /** The step after a key string: move right by the width and reset the
        sizes and secondary offsets. */
    method Advance() returns (r: Result<(), string>)
      modifies this
      ensures r.Success? <==> AfterKey(old(State())).Success?
      ensures r.Success? ==> State() == AfterKey(old(State())).value
      ensures r.Failure? ==> r.error == AfterKey(old(State())).error
    {
      var s := Plus(Get(attrs, "x"), Get(attrs, "width"));
      if s.Failure? {
        return Failure(s.error);
      }
      attrs := attrs["x" := s.value]["width" := Num(1.0)]["height" := Num(1.0)]
        ["x2" := Num(0.0)]["y2" := Num(0.0)]["width2" := Num(0.0)]["height2" := Num(0.0)];
      return Success(());
    }

    /** The step after a row: down one unit and back to the rotation centre. */
    method NextRow() returns (r: Result<(), string>)
      modifies this
      ensures r.Success? <==> EndRow(old(State())).Success?
      ensures r.Success? ==> State() == EndRow(old(State())).value
      ensures r.Failure? ==> r.error == EndRow(old(State())).error
    {
      var s := Plus(Get(attrs, "y"), Num(1.0));
      if s.Failure? {
        return Failure(s.error);
      }
      attrs := attrs["y" := s.value];
      attrs := attrs["x" := Get(attrs, "rotation_x")];
      return Success(());
    }
  }

  function AfterKey(k: KeyState): Result<KeyState, string>
  {
    var s := Plus(Get(k.attrs, "x"), Get(k.attrs, "width"));
    if s.Failure? then Failure(s.error)
    else Success(k.(attrs := k.attrs["x" := s.value]["width" := Num(1.0)]["height" := Num(1.0)]
      ["x2" := Num(0.0)]["y2" := Num(0.0)]["width2" := Num(0.0)]["height2" := Num(0.0)]))
  }

  function EndRow(k: KeyState): Result<KeyState, string>
  {
    var s := Plus(Get(k.attrs, "y"), Num(1.0));
    if s.Failure? then Failure(s.error)
    else
      var a := k.attrs["y" := s.value];
      Success(k.(attrs := a["x" := Get(a, "rotation_x")]))
  }

  // ---------------------------------------------------------------------
  // The layout

  /** An emitted key: a copy of the running state, and its labels. */
  datatype LaidKey = LaidKey(state: KeyState, labels: seq<string>)

  /** `value == 0` in Python, for the values the walker compares. */
  predicate IsZero(v: JVal)
  {
    v.Num? && v.n == 0.0
  }

  /** The key a label string emits: a copy of the state, in which a zero
      secondary width or height is replaced by the primary one. */
  function Emit(k: KeyState, text: string): LaidKey
  {
    var w2 := if IsZero(Get(k.attrs, "width2")) then Get(k.attrs, "width") else Get(k.attrs, "width2");
    var h2 := if IsZero(Get(k.attrs, "height2")) then Get(k.attrs, "height") else Get(k.attrs, "height2");
    LaidKey(k.(attrs := k.attrs["width2" := w2]["height2" := h2]), Arduino.Split(text, '\n'))
  }

  /** The emitted key keeps every attribute and the cluster of the running
      state except the secondary sizes, which fall back to the primary ones
      when zero; its labels are the lines of the string. */
  lemma EmitCopies(k: KeyState, text: string, a: string)
    ensures var r := Emit(k, text);
      r.state.cluster == k.cluster &&
      (a != "width2" && a != "height2" ==> Get(r.state.attrs, a) == Get(k.attrs, a)) &&
      Get(r.state.attrs, "width2") == (if IsZero(Get(k.attrs, "width2")) then Get(k.attrs, "width") else Get(k.attrs, "width2")) &&
      Get(r.state.attrs, "height2") == (if IsZero(Get(k.attrs, "height2")) then Get(k.attrs, "height") else Get(k.attrs, "height2")) &&
      |r.labels| >= 1 && Arduino.Join(r.labels, '\n') == text
  {
    Arduino.JoinSplit(text, '\n');
  }

  /** An entry of a row: a key label, or a property object. */
  datatype RowItem = Label(text: string) | PropItem(props: Props)

  /** A top-level entry: a row, or the metadata object. */
  datatype Entry = Row(items: seq<RowItem>) | Meta(fields: Props)

  /** The running state and the emitted keys. */
  type Walk = (KeyState, seq<LaidKey>)

  /** One row item. */
  function StepItem(w: Walk, item: RowItem): Result<Walk, string>
  {
    match item
    case PropItem(props) =>
      var u := UpdateWith(w.0, props);
      if u.Failure? then Failure(u.error) else Success((u.value, w.1))
    case Label(text) =>
      var a := AfterKey(w.0);
      if a.Failure? then Failure(a.error) else Success((a.value, w.1 + [Emit(w.0, text)]))
  }

  /** The walk over the first `n` items of a row. */
  function WalkRow(w: Walk, items: seq<RowItem>, n: nat): Result<Walk, string>
    requires n <= |items|
  {
    Fold(StepItem, w, items, n)
  }

  /** One top-level entry: the metadata object is skipped; a row is walked
      and then ends. */
  function StepEntry(w: Walk, e: Entry): Result<Walk, string>
  {
    if e.Meta? then Success(w)
    else
      var row := WalkRow(w, e.items, |e.items|);
      if row.Failure? then row
      else
        var e := EndRow(row.value.0);
        if e.Failure? then Failure(e.error) else Success((e.value, row.value.1))
  }

  /** The walk over the first `n` top-level entries. */
  function WalkRows(data: seq<Entry>, n: nat): Result<Walk, string>
    requires n <= |data|
  {
    Fold(StepEntry, (Fresh, []), data, n)
  }

  /** A loaded layout: the metadata object and the keys in order. */
  datatype Layout = Layout(meta: Props, keys: seq<LaidKey>)

  /** `Layout.__init__` on parsed JSON data.  Reading `data[0]` for the
      metadata fails on an empty list. */
  function LayoutOf(data: seq<Entry>): Result<Layout, string>
  {
    if |data| == 0 then Failure("IndexError: list index out of range")
    else
      var w := WalkRows(data, |data|);
      if w.Failure? then Failure(w.error)
      else Success(Layout(if data[0].Meta? then data[0].fields else [], w.value.1))
  }

  /** `Layout.name`. */
  function Name(l: Layout): (r: JVal)
    ensures Lookup(l.meta, "name").None? ==> r == Str("anon")
    ensures Lookup(l.meta, "name").Some? ==> r == Lookup(l.meta, "name").value
  {
    match Lookup(l.meta, "name") case Some(v) => v case None => Str("anon")
  }

  /** The loop of `Layout.__init__`, with `current` a mutable key. */
  method Load(data: seq<Entry>) returns (r: Result<Layout, string>)
    ensures r == LayoutOf(data)
  {
    if |data| == 0 {
      return Failure("IndexError: list index out of range");
    }
    var meta := if data[0].Meta? then data[0].fields else [];
    var keys := [];
    var current := new Key();
    for i := 0 to |data|
      invariant WalkRows(data, i) == Success((current.State(), keys))
    {
      if data[i].Meta? {
        continue;
      }
      var row := LoadRow(current, keys, data[i].items);
      if row.Failure? {
        FoldFailureSticks(StepEntry, (Fresh, []), data, i + 1, |data|);
        return Failure(row.error);
      }
      keys := row.value;
      var e := current.NextRow();
      if e.Failure? {
        FoldFailureSticks(StepEntry, (Fresh, []), data, i + 1, |data|);
        return Failure(e.error);
      }
    }
    return Success(Layout(meta, keys));
  }

  /** The inner loop over one row's items. */
  method LoadRow(current: Key, keys: seq<LaidKey>, items: seq<RowItem>) returns (r: Result<seq<LaidKey>, string>)
    modifies current
    ensures var w := WalkRow((old(current.State()), keys), items, |items|);
      (r.Success? <==> w.Success?) &&
      (r.Success? ==> w.value == (current.State(), r.value)) &&
      (r.Failure? ==> r.error == w.error)
  {
    var start := (current.State(), keys);
    var out := keys;
    for j := 0 to |items|
      invariant WalkRow(start, items, j) == Success((current.State(), out))
    {
      var step := LoadItem(current, out, items[j]);
      if step.Failure? {
        FoldFailureSticks(StepItem, start, items, j + 1, |items|);
        return Failure(step.error);
      }
      out := step.value;
    }
    return Success(out);
  }

  /** One turn of the inner loop: a property dictionary updates the
      running key, a label emits a key and advances. */
  method LoadItem(current: Key, keys: seq<LaidKey>, item: RowItem) returns (r: Result<seq<LaidKey>, string>)
    modifies current
    ensures var s := StepItem((old(current.State()), keys), item);
      (r.Success? <==> s.Success?) &&
      (r.Success? ==> s.value == (current.State(), r.value)) &&
      (r.Failure? ==> r.error == s.error)
  {
    match item
    case PropItem(props) =>
      var u := current.Update(props);
      if u.Failure? {
        return Failure(u.error);
      }
      return Success(keys);
    case Label(text) =>
      var key := Emit(current.State(), text);
      var a := current.Advance();
      if a.Failure? {
        return Failure(a.error);
      }
      return Success(keys + [key]);
  }

  // ---------------------------------------------------------------------
  // Labels and clusters

  /** A label `shortLabel` accepts: one character, or longer and not
      starting with '<'. */
  predicate Short(l: string)
  {
    |l| == 1 || (|l| > 1 && l[0] != '<')
  }

  /** `Key.shortLabel`: the first accepted label, else "_". */
  function ShortLabel(labels: seq<string>): (r: string)
    ensures (forall i :: 0 <= i < |labels| ==> !Short(labels[i])) ==> r == "_"
    ensures forall i :: 0 <= i < |labels| && Short(labels[i]) && (forall j :: 0 <= j < i ==> !Short(labels[j])) ==>
      r == labels[i]
  {
    if |labels| == 0 then "_"
    else if Short(labels[0]) then labels[0]
    else
      var r := ShortLabel(labels[1..]);
      assert forall i :: 1 <= i < |labels| ==> labels[i] == labels[1..][i - 1];
      r
  }

  /** The keys of `keys` whose cluster origin is `c`, in order. */
  function InCluster(keys: seq<LaidKey>, c: (JVal, JVal)): (r: seq<LaidKey>)
    ensures forall i :: 0 <= i < |r| ==> r[i].state.cluster == c && r[i] in keys
    ensures |r| <= |keys|
  {
    if |keys| == 0 then []
    else
      var init := InCluster(keys[..|keys| - 1], c);
      var last := keys[|keys| - 1];
      if last.state.cluster == c then init + [last] else init
  }

  /** The dictionary `key_clusters` builds. */
  function Clusters(keys: seq<LaidKey>): map<(JVal, JVal), seq<LaidKey>>
  {
    if |keys| == 0 then map[]
    else
      var m := Clusters(keys[..|keys| - 1]);
      var c := keys[|keys| - 1].state.cluster;
      m[c := (if c in m then m[c] else []) + [keys[|keys| - 1]]]
  }

  /** `key_clusters` has a group for exactly the cluster origins that occur,
      and each group lists that origin's keys in their original order. */
  lemma {:induction false} ClustersGroup(keys: seq<LaidKey>, c: (JVal, JVal))
    ensures c in Clusters(keys) <==> InCluster(keys, c) != []
    ensures c in Clusters(keys) ==> Clusters(keys)[c] == InCluster(keys, c)
  {
    if |keys| > 0 {
      ClustersGroup(keys[..|keys| - 1], c);
    }
  }

  /** Every key of the layout lands in the group of its cluster origin. */
  lemma {:induction false} ClustersCover(keys: seq<LaidKey>, i: nat)
    requires i < |keys|
    ensures keys[i].state.cluster in Clusters(keys) && keys[i] in Clusters(keys)[keys[i].state.cluster]
  {
    var init := keys[..|keys| - 1];
    if i < |init| {
      assert init[i] == keys[i];
      ClustersCover(init, i);
    }
  }

  /** `Layout.key_clusters`. */
  method KeyClusters(keys: seq<LaidKey>) returns (clusters: map<(JVal, JVal), seq<LaidKey>>)
    ensures clusters == Clusters(keys)
  {
    clusters := map[];
    for i := 0 to |keys|
      invariant clusters == Clusters(keys[..i])
    {
      assert keys[..i + 1][..i] == keys[..i];
      var c := keys[i].state.cluster;
      if c !in clusters {
        clusters := clusters[c := []];
      }
      clusters := clusters[c := clusters[c] + [keys[i]]];
    }
    assert keys[..|keys|] == keys;
  }

  // ---------------------------------------------------------------------
  // A layout of plain rows is a grid

  /** The (x, y) position of each key. */
  function Positions(keys: seq<LaidKey>): (r: seq<(JVal, JVal)>)
    ensures |r| == |keys|
  {
    if |keys| == 0 then []
    else
      var k := keys[|keys| - 1].state;
      Positions(keys[..|keys| - 1]) + [(Get(k.attrs, "x"), Get(k.attrs, "y"))]
  }

  /** (0, y), (1, y), ..., (n - 1, y). */
  function RowPositions(n: nat, y: real): (r: seq<(JVal, JVal)>)
    ensures |r| == n
  {
    if n == 0 then [] else RowPositions(n - 1, y) + [(Num((n - 1) as real), Num(y))]
  }

  /** A row of labels only, or the metadata object. */
  predicate Plain(e: Entry)
  {
    e.Meta? || forall j :: 0 <= j < |e.items| ==> e.items[j].Label?
  }

  /** The number of rows among the first `n` entries. */
  function Rows(data: seq<Entry>, n: nat): (r: nat)
    requires n <= |data|
    ensures r <= n
  {
    if n == 0 then 0 else Rows(data, n - 1) + (if data[n - 1].Row? then 1 else 0)
  }

  /** The grid of the first `n` entries: key j of the i-th row at (j, i). */
  function Grid(data: seq<Entry>, n: nat): seq<(JVal, JVal)>
    requires n <= |data|
  {
    if n == 0 then []
    else if data[n - 1].Meta? then Grid(data, n - 1)
    else Grid(data, n - 1) + RowPositions(|data[n - 1].items|, Rows(data, n - 1) as real)
  }

  lemma PositionsSnoc(keys: seq<LaidKey>, k: LaidKey)
    ensures Positions(keys + [k]) == Positions(keys) + [(Get(k.state.attrs, "x"), Get(k.state.attrs, "y"))]
  {
    assert (keys + [k])[..|keys|] == keys;
  }

  /** What a step does to a label when the running key has a numeric
      position and unit width: the key lands at the current position, and
      the position moves one unit right on the same row. */
  ghost predicate PlacesLabel(prev: Walk, r: Result<Walk, string>)
  {
    var x, y := Get(prev.0.attrs, "x"), Get(prev.0.attrs, "y");
    x.Num? && y.Num? && Get(prev.0.attrs, "width") == Num(1.0) ==>
      r.Success? &&
      Positions(r.value.1) == Positions(prev.1) + [(x, y)] &&
      Get(r.value.0.attrs, "x") == Num(x.n + 1.0) && Get(r.value.0.attrs, "width") == Num(1.0) &&
      Get(r.value.0.attrs, "y") == y && Get(r.value.0.attrs, "rotation_x") == Get(prev.0.attrs, "rotation_x")
  }

  /** A label at a numeric position with unit width: its key is placed
      there, and the position moves one unit right. */
  lemma PlainStep(prev: Walk, text: string)
    ensures PlacesLabel(prev, StepItem(prev, Label(text)))
  {
    var x, y := Get(prev.0.attrs, "x"), Get(prev.0.attrs, "y");
    if x.Num? && y.Num? && Get(prev.0.attrs, "width") == Num(1.0) {
      var key := Emit(prev.0, text);
      EmitCopies(prev.0, text, "x");
      EmitCopies(prev.0, text, "y");
      AfterKeyMoves(prev.0);
      PositionsSnoc(prev.1, key);
    }
  }

  /** Any walk whose step places labels as `PlainStep` says puts the keys of
      a row of labels one unit apart, left to right, from x = 0. */
  lemma {:induction false} LabelsFold(step: (Walk, RowItem) -> Result<Walk, string>, w: Walk, items: seq<RowItem>, n: nat, y: real)
    requires n <= |items| && forall j :: 0 <= j < |items| ==> items[j].Label?
    requires forall prev: Walk, text: string :: PlacesLabel(prev, step(prev, Label(text)))
    requires Get(w.0.attrs, "x") == Num(0.0) && Get(w.0.attrs, "width") == Num(1.0) && Get(w.0.attrs, "y") == Num(y)
    ensures var r := Fold(step, w, items, n);
      r.Success? &&
      Positions(r.value.1) == Positions(w.1) + RowPositions(n, y) &&
      Get(r.value.0.attrs, "x") == Num(n as real) && Get(r.value.0.attrs, "width") == Num(1.0) &&
      Get(r.value.0.attrs, "y") == Num(y) && Get(r.value.0.attrs, "rotation_x") == Get(w.0.attrs, "rotation_x")
  {
    if n > 0 {
      LabelsFold(step, w, items, n - 1, y);
      var prev := Fold(step, w, items, n - 1).value;
      assert items[n - 1] == Label(items[n - 1].text);
      assert PlacesLabel(prev, step(prev, Label(items[n - 1].text)));
      assert (n - 1) as real + 1.0 == n as real;
      var at := (Num((n - 1) as real), Num(y));
      assert RowPositions(n, y) == RowPositions(n - 1, y) + [at];
      assert Positions(w.1) + RowPositions(n, y) == (Positions(w.1) + RowPositions(n - 1, y)) + [at];
    }
  }

  /** A row of labels only puts its keys one unit apart, left to right,
      starting at x = 0 on the current row. */
  lemma PlainRowWalk(w: Walk, items: seq<RowItem>, y: real)
    requires forall j :: 0 <= j < |items| ==> items[j].Label?
    requires Get(w.0.attrs, "x") == Num(0.0) && Get(w.0.attrs, "width") == Num(1.0) && Get(w.0.attrs, "y") == Num(y)
    ensures var r := WalkRow(w, items, |items|);
      r.Success? &&
      Positions(r.value.1) == Positions(w.1) + RowPositions(|items|, y) &&
      Get(r.value.0.attrs, "x") == Num(|items| as real) && Get(r.value.0.attrs, "width") == Num(1.0) &&
      Get(r.value.0.attrs, "y") == Num(y) && Get(r.value.0.attrs, "rotation_x") == Get(w.0.attrs, "rotation_x")
  {
    forall prev: Walk, text: string
      ensures PlacesLabel(prev, StepItem(prev, Label(text)))
    {
      PlainStep(prev, text);
    }
    LabelsFold(StepItem, w, items, |items|, y);
  }

  /** What a step does to a plain entry when the running key is at x = 0
      with unit width and rotation centre x = 0: the metadata object changes
      nothing; a row of labels puts its keys one unit apart on the current
      row and moves to the start of the next row. */
  ghost predicate PlacesRow(prev: Walk, e: Entry, r: Result<Walk, string>)
  {
    var y := Get(prev.0.attrs, "y");
    Plain(e) && y.Num? && Get(prev.0.attrs, "x") == Num(0.0) && Get(prev.0.attrs, "width") == Num(1.0) &&
    Get(prev.0.attrs, "rotation_x") == Num(0.0) ==>
      r.Success? &&
      Positions(r.value.1) == Positions(prev.1) + (if e.Meta? then [] else RowPositions(|e.items|, y.n)) &&
      Get(r.value.0.attrs, "x") == Num(0.0) && Get(r.value.0.attrs, "width") == Num(1.0) &&
      Get(r.value.0.attrs, "y") == Num(y.n + if e.Meta? then 0.0 else 1.0) &&
      Get(r.value.0.attrs, "rotation_x") == Num(0.0)
  }

  /** One plain entry of the layout, as `PlacesRow` says. */
  lemma PlainEntry(prev: Walk, e: Entry)
    ensures PlacesRow(prev, e, StepEntry(prev, e))
  {
    var y := Get(prev.0.attrs, "y");
    if Plain(e) && e.Row? && y.Num? && Get(prev.0.attrs, "x") == Num(0.0) && Get(prev.0.attrs, "width") == Num(1.0) &&
       Get(prev.0.attrs, "rotation_x") == Num(0.0) {
      PlainRowWalk(prev, e.items, y.n);
      EndRowMoves(WalkRow(prev, e.items, |e.items|).value.0);
    }
  }

  /** Any walk whose step handles entries as `PlacesRow` says lays a plain
      layout out on the grid. */
  lemma {:induction false} PlainFold(step: (Walk, Entry) -> Result<Walk, string>, data: seq<Entry>, n: nat)
    requires n <= |data| && forall i :: 0 <= i < |data| ==> Plain(data[i])
    requires forall prev: Walk, e: Entry :: PlacesRow(prev, e, step(prev, e))
    ensures var r := Fold(step, (Fresh, []), data, n);
      r.Success? && Positions(r.value.1) == Grid(data, n) &&
      Get(r.value.0.attrs, "x") == Num(0.0) && Get(r.value.0.attrs, "width") == Num(1.0) &&
      Get(r.value.0.attrs, "y") == Num(Rows(data, n) as real) && Get(r.value.0.attrs, "rotation_x") == Num(0.0)
  {
    if n > 0 {
      PlainFold(step, data, n - 1);
      var prev := Fold(step, (Fresh, []), data, n - 1).value;
      assert Plain(data[n - 1]);
      assert PlacesRow(prev, data[n - 1], step(prev, data[n - 1]));
      assert Rows(data, n - 1) as real + 1.0 == (Rows(data, n - 1) + 1) as real;
    }
  }

  /** A layout made only of the metadata object and rows of labels places
      key j of the i-th row at (j, i). */
  lemma PlainLayoutIsGrid(data: seq<Entry>)
    requires |data| >= 1 && forall i :: 0 <= i < |data| ==> Plain(data[i])
    ensures LayoutOf(data).Success? && Positions(LayoutOf(data).value.keys) == Grid(data, |data|)
  {
    forall prev: Walk, e: Entry
      ensures PlacesRow(prev, e, StepEntry(prev, e))
    {
      PlainEntry(prev, e);
    }
    PlainFold(StepEntry, data, |data|);
  }

  /** Ending a row moves down one unit and back to the rotation centre's x. */
  lemma EndRowMoves(k: KeyState)
    requires Get(k.attrs, "y").Num?
    ensures var r := EndRow(k);
      r.Success? &&
      Get(r.value.attrs, "x") == Get(k.attrs, "rotation_x") &&
      Get(r.value.attrs, "y") == Num(Get(k.attrs, "y").n + 1.0) &&
      Get(r.value.attrs, "width") == Get(k.attrs, "width") &&
      Get(r.value.attrs, "rotation_x") == Get(k.attrs, "rotation_x")
  {
  }

  /** After a key the position moves right by the width, and the width is
      reset to one; the row and the rotation centre are unchanged. */
  lemma AfterKeyMoves(k: KeyState)
    requires Get(k.attrs, "x").Num? && Get(k.attrs, "width").Num?
    ensures var r := AfterKey(k);
      r.Success? &&
      Get(r.value.attrs, "x") == Num(Get(k.attrs, "x").n + Get(k.attrs, "width").n) &&
      Get(r.value.attrs, "width") == Num(1.0) && Get(r.value.attrs, "height") == Num(1.0) &&
      Get(r.value.attrs, "width2") == Num(0.0) && Get(r.value.attrs, "height2") == Num(0.0) &&
      Get(r.value.attrs, "y") == Get(k.attrs, "y") && Get(r.value.attrs, "rotation_x") == Get(k.attrs, "rotation_x") &&
      r.value.cluster == k.cluster
  {
  }
}
