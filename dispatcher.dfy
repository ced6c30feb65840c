/** The dispatcher task: turns matrix bit changes into key-state updates,
    resolves layered keymap entries, builds the keyboard report and runs
    the byte-code macros.  Everything the application-provided dispatcher
    receives (reports, consumer and system keys) and every delay is
    recorded, in order, as an event. */
module Dispatcher {
  import opened Wrappers
  import opened Bytes
  import opened KeyProcessor
  import opened Reports
  import KE = KeyEntry
  import opened Seqs

  /** HID keyboard usages (HID Usage Tables, section 10). */
  const NoEvent: bv8 := 0x00
  const LeftControlCode: bv8 := 0xE0
  const RightGuiCode: bv8 := 0xE7

  /** MacroKeyDisposition */
  const MacroEnd: bv8 := 0
  const MacroKeyDown: bv8 := 1
  const MacroKeyUp: bv8 := 2
  const MacroKeyToggle: bv8 := 3

  /** The pause after a report that the host must see on its own. */
  const ReportDelayMs := 32

  datatype Event =
    | BasicReport(report: ReportValue)
    | ConsumerKeyEvent(usage: bv16)
    | SystemKeyEvent(usage: bv16)
    | Delay(ms: nat)

  predicate IsModifierCode(c: bv8)
  {
    LeftControlCode <= c <= RightGuiCode
  }

  /** The mods bit that stands for a modifier usage. */
  function ModifierBit(c: bv8): bv8
    requires IsModifierCode(c)
  {
    (1 as bv8) << (c - LeftControlCode)
  }

  /** A keymap read; entries outside the table read as all-zero. */
  function EntryAt(keyMap: seq<bv16>, i: int): bv16
  {
    if 0 <= i < |keyMap| then keyMap[i] else 0
  }

  /** loadEntry: the entry of `scanCode` on `layer`, or the base layer's
      entry when a non-zero layer leaves it all-zero. */
  function LoadEntry(keyMap: seq<bv16>, layerSize: nat, layer: uint8, scanCode: uint8): (e: bv16)
    ensures var own := EntryAt(keyMap, layer * layerSize + scanCode - 1);
      (layer == 0 || own != 0 ==> e == own) &&
      (layer != 0 && own == 0 ==> e == EntryAt(keyMap, scanCode - 1))
    ensures e == 0 ==> EntryAt(keyMap, scanCode - 1) == 0
  {
    var own := EntryAt(keyMap, layer * layerSize + scanCode - 1);
    if layer > 0 && own == 0 then EntryAt(keyMap, scanCode - 1) else own
  }

  // ---------------------------------------------------------------------
  // Matrix changes

  /** A key whose matrix bit changed, and its new state. */
  datatype Change = Change(scanCode: uint8, down: bool)

  function ColumnBit(row: bv16, c: nat): bool
    requires c < 16
  {
    (row >> c) & 1 == 1
  }

  /** The scan code of row r, column c, truncated to uint8_t. */
  function ScanCode(r: nat, cols: nat, c: nat): uint8
  {
    (r * cols + c + 1) % 0x100
  }

  /** Changes of row r within columns 0..n-1, in column order. */
  function RowChanges(prior: bv16, current: bv16, r: nat, cols: nat, n: nat): seq<Change>
    requires n <= 16
  {
    if n == 0 then []
    else
      RowChanges(prior, current, r, cols, n - 1) +
      (if ColumnBit(prior, n - 1) != ColumnBit(current, n - 1)
       then [Change(ScanCode(r, cols, n - 1), ColumnBit(current, n - 1))]
       else [])
  }

  /** Changes of rows 0..n-1, in row-major order. */
  function MatrixChanges(prior: seq<bv16>, current: seq<bv16>, cols: nat, n: nat): seq<Change>
    requires n <= |prior| && n <= |current| && cols <= 16
  {
    if n == 0 then []
    else MatrixChanges(prior, current, cols, n - 1) + RowChanges(prior[n - 1], current[n - 1], n - 1, cols, cols)
  }

  /** The key-state table after feeding it the changes in order. */
  function ApplyChanges(s: seq<KeyState>, cs: seq<Change>, now: uint16, ti: uint16): (r: seq<KeyState>)
    ensures |r| == |s|
  {
    if cs == [] then s
    else
      var c := cs[|cs| - 1];
      Updated(ApplyChanges(s, cs[..|cs| - 1], now, ti), c.scanCode, c.down, now, ti)
  }

  lemma ApplyChangesSnoc(s: seq<KeyState>, cs: seq<Change>, c: Change, now: uint16, ti: uint16)
    ensures ApplyChanges(s, cs + [c], now, ti) == Updated(ApplyChanges(s, cs, now, ti), c.scanCode, c.down, now, ti)
  {
    assert (cs + [c])[..|cs|] == cs;
  }

  /** Feeding two batches of changes one after the other is feeding their
      concatenation. */
  lemma {:induction false} ApplyChangesAppend(s: seq<KeyState>, a: seq<Change>, b: seq<Change>, now: uint16, ti: uint16)
    ensures ApplyChanges(s, a + b, now, ti) == ApplyChanges(ApplyChanges(s, a, now, ti), b, now, ti)
    decreases |b|
  {
    if b == [] {
      assert a + b == a;
    } else {
      var b' := b[..|b| - 1];
      assert (a + b)[..|a + b| - 1] == a + b';
      ApplyChangesAppend(s, a, b', now, ti);
    }
  }

  lemma {:induction false} RowChangesExact(prior: bv16, current: bv16, r: nat, cols: nat, n: nat, ch: Change)
    requires n <= 16
    ensures ch in RowChanges(prior, current, r, cols, n) <==>
      exists c :: 0 <= c < n && ColumnBit(prior, c) != ColumnBit(current, c) &&
        ch == Change(ScanCode(r, cols, c), ColumnBit(current, c))
  {
    if n > 0 {
      RowChangesExact(prior, current, r, cols, n - 1, ch);
    }
  }

  /** A key is updated exactly when its bit differs between the prior and
      current scans; it gets scan code r*ColCount + c + 1 and the current
      bit as its state. */
  lemma {:induction false} MatrixChangesExact(prior: seq<bv16>, current: seq<bv16>, cols: nat, n: nat, ch: Change)
    requires n <= |prior| && n <= |current| && cols <= 16
    ensures ch in MatrixChanges(prior, current, cols, n) <==>
      exists r, c :: 0 <= r < n && 0 <= c < cols &&
        ColumnBit(prior[r], c) != ColumnBit(current[r], c) &&
        ch == Change(ScanCode(r, cols, c), ColumnBit(current[r], c))
  {
    if n > 0 {
      MatrixChangesExact(prior, current, cols, n - 1, ch);
      RowChangesExact(prior[n - 1], current[n - 1], n - 1, cols, cols, ch);
      if ch in RowChanges(prior[n - 1], current[n - 1], n - 1, cols, cols) {
        var c :| 0 <= c < cols && ColumnBit(prior[n - 1], c) != ColumnBit(current[n - 1], c) &&
          ch == Change(ScanCode(n - 1, cols, c), ColumnBit(current[n - 1], c));
        assert 0 <= n - 1 < n;
      }
    }
  }

  lemma {:induction false} RowNoChange(row: bv16, r: nat, cols: nat, n: nat)
    requires n <= 16
    ensures RowChanges(row, row, r, cols, n) == []
  {
    if n > 0 {
      RowNoChange(row, r, cols, n - 1);
    }
  }

  /** With no changed bit the key-state table is untouched. */
  lemma {:induction false} NoChangeNoUpdate(prior: seq<bv16>, cols: nat, n: nat, s: seq<KeyState>, now: uint16, ti: uint16)
    requires n <= |prior| && cols <= 16
    ensures MatrixChanges(prior, prior, cols, n) == []
    ensures ApplyChanges(s, MatrixChanges(prior, prior, cols, n), now, ti) == s
  {
    if n > 0 {
      NoChangeNoUpdate(prior, cols, n - 1, s, now, ti);
      RowNoChange(prior[n - 1], n - 1, cols, cols);
    }
  }

  // ---------------------------------------------------------------------
  // First pass: layer transitions

  /** A slot whose last transition happened at or after the previous
      update. */
  predicate Fresh(k: KeyState, last: uint16)
  {
    k.scanCode != 0 && k.eventTime >= last
  }

  function LayerStep(keyMap: seq<bv16>, layerSize: nat, last: uint16, layer: uint8, k: KeyState): uint8
  {
    if Fresh(k, last) then
      var e := LoadEntry(keyMap, layerSize, layer, k.scanCode);
      if KE.EntryType(e) != KE.LayerKey then layer
      else if k.down then KE.LayerId(e) as uint8
      else if KE.Momentary(e) then 0
      else layer
    else layer
  }

  /** The current layer after the first pass over the slots. */
  function LayerPass(keyMap: seq<bv16>, layerSize: nat, last: uint16, layer: uint8, s: seq<KeyState>): uint8
  {
    if s == [] then layer
    else LayerStep(keyMap, layerSize, last, LayerPass(keyMap, layerSize, last, layer, s[..|s| - 1]), s[|s| - 1])
  }

  /** A pressed layer key switches to its layer, a released momentary one
      restores layer 0, and nothing else moves the layer. */
  lemma LayerStepEffect(keyMap: seq<bv16>, layerSize: nat, last: uint16, layer: uint8, k: KeyState)
    ensures var e := LoadEntry(keyMap, layerSize, layer, k.scanCode);
      var l := LayerStep(keyMap, layerSize, last, layer, k);
      (Fresh(k, last) && KE.EntryType(e) == KE.LayerKey && k.down ==> l == KE.LayerId(e) as int) &&
      (Fresh(k, last) && KE.EntryType(e) == KE.LayerKey && !k.down && KE.Momentary(e) ==> l == 0) &&
      (l != layer ==> Fresh(k, last) && KE.EntryType(e) == KE.LayerKey && (k.down || KE.Momentary(e)))
  {
  }

  /** Without a fresh slot the first pass keeps the layer. */
  lemma {:induction false} LayerPassStable(keyMap: seq<bv16>, layerSize: nat, last: uint16, layer: uint8, s: seq<KeyState>)
    requires forall i :: 0 <= i < |s| ==> !Fresh(s[i], last)
    ensures LayerPass(keyMap, layerSize, last, layer, s) == layer
  {
    if s != [] {
      LayerPassStable(keyMap, layerSize, last, layer, s[..|s| - 1]);
    }
  }

  // ---------------------------------------------------------------------
  // Second pass: the report

  datatype PassState = PassState(report: ReportValue, events: seq<Event>, macroScanCode: uint8)

  predicate WellFormed(r: ReportValue)
  {
    |r.keys| == KeySlots
  }

  /** The contribution of one pressed slot. */
  function PressStep(e: bv16, st: PassState): PassState
  {
    var t := KE.EntryType(e);
    if t == KE.BasicKey then
      var code := KE.Code(e);
      var m := KE.Mods(e);
      if code == NoEvent && m == 0 then st
      else
        var r := st.report.(mods := st.report.mods | m);
        if IsModifierCode(code) then st.(report := r.(mods := r.mods | ModifierBit(code)))
        else st.(report := r.(keys := KeysAdded(r.keys, code)))
    else if t == KE.DualRoleKey then st.(report := st.report.(mods := st.report.mods | KE.Mods(e)))
    else if t == KE.ConsumerKey then st.(events := st.events + [ConsumerKeyEvent(KE.Usage(e))])
    else if t == KE.SystemKey then st.(events := st.events + [SystemKeyEvent(KE.Usage(e))])
    else st
  }

  /** The contribution of one slot released since the previous update. */
  function ReleaseStep(e: bv16, k: KeyState, ti: uint16, st: PassState): PassState
  {
    var t := KE.EntryType(e);
    var tapped := Sub16(k.eventTime, k.priorTime) <= ti;
    if t == KE.DualRoleKey then
      if tapped then
        var r := st.report.(keys := KeysAdded(st.report.keys, KE.Code(e)));
        PassState(r, st.events + [BasicReport(EmptyReport.(mods := r.mods)), Delay(ReportDelayMs)], st.macroScanCode)
      else st
    else if t == KE.MacroKey then
      if tapped then st.(macroScanCode := k.scanCode) else st
    else if t == KE.ConsumerKey then st.(events := st.events + [ConsumerKeyEvent(0)])
    else if t == KE.SystemKey then st.(events := st.events + [SystemKeyEvent(0)])
    else st
  }

  function KeyStep(keyMap: seq<bv16>, layerSize: nat, layer: uint8, last: uint16, ti: uint16,
                   k: KeyState, st: PassState): PassState
  {
    if k.scanCode == 0 then st
    else if k.down then PressStep(LoadEntry(keyMap, layerSize, layer, k.scanCode), st)
    else if k.eventTime > last then ReleaseStep(LoadEntry(keyMap, layerSize, layer, k.scanCode), k, ti, st)
    else st
  }

  function SecondPass(keyMap: seq<bv16>, layerSize: nat, layer: uint8, last: uint16, ti: uint16,
                      s: seq<KeyState>, st: PassState): PassState
  {
    if s == [] then st
    else KeyStep(keyMap, layerSize, layer, last, ti, s[|s| - 1], SecondPass(keyMap, layerSize, layer, last, ti, s[..|s| - 1], st))
  }

  lemma SecondPassSnoc(keyMap: seq<bv16>, layerSize: nat, layer: uint8, last: uint16, ti: uint16,
                       s: seq<KeyState>, i: nat, st: PassState)
    requires i < |s|
    ensures SecondPass(keyMap, layerSize, layer, last, ti, s[..i + 1], st) ==
      KeyStep(keyMap, layerSize, layer, last, ti, s[i], SecondPass(keyMap, layerSize, layer, last, ti, s[..i], st))
  {
    assert s[..i + 1][..i] == s[..i];
  }

  /** A held basic key ORs its mods into the report; a modifier usage sets
      its mods bit instead of taking a key slot; NO_EVENT without mods
      contributes nothing.  A held dual-role key contributes only its mods. */
  lemma PressStepEffect(e: bv16, st: PassState)
    ensures KE.EntryType(e) == KE.BasicKey && KE.Code(e) == NoEvent && KE.Mods(e) == 0 ==> PressStep(e, st) == st
    ensures KE.EntryType(e) == KE.BasicKey && IsModifierCode(KE.Code(e)) ==>
      PressStep(e, st) == st.(report := st.report.(mods := st.report.mods | KE.Mods(e) | ModifierBit(KE.Code(e))))
    ensures KE.EntryType(e) == KE.BasicKey && KE.Code(e) != NoEvent && !IsModifierCode(KE.Code(e)) ==>
      PressStep(e, st) == st.(report := ReportValue(st.report.mods | KE.Mods(e), KeysAdded(st.report.keys, KE.Code(e))))
    ensures KE.EntryType(e) == KE.DualRoleKey ==>
      PressStep(e, st) == st.(report := st.report.(mods := st.report.mods | KE.Mods(e)))
  {
  }

  /** A dual-role key released within the tapping interval adds its code
      and emits a report holding only the mods; released later it does
      nothing. */
  lemma DualRoleTap(e: bv16, k: KeyState, ti: uint16, st: PassState)
    requires KE.EntryType(e) == KE.DualRoleKey
    ensures Sub16(k.eventTime, k.priorTime) > ti ==> ReleaseStep(e, k, ti, st) == st
    ensures Sub16(k.eventTime, k.priorTime) <= ti ==>
      var r := ReleaseStep(e, k, ti, st);
      r.report.keys == KeysAdded(st.report.keys, KE.Code(e)) && r.report.mods == st.report.mods &&
      r.events == st.events + [BasicReport(ReportValue(st.report.mods, [0, 0, 0, 0, 0, 0])), Delay(ReportDelayMs)]
  {
  }

  /** The second pass only ever adds modifier bits, and it keeps the
      report well formed. */
  lemma {:induction false} SecondPassModsGrow(keyMap: seq<bv16>, layerSize: nat, layer: uint8, last: uint16, ti: uint16,
                                              s: seq<KeyState>, st: PassState)
    requires WellFormed(st.report)
    ensures var r := SecondPass(keyMap, layerSize, layer, last, ti, s, st);
      WellFormed(r.report) && st.report.mods & r.report.mods == st.report.mods
  {
    if s != [] {
      SecondPassModsGrow(keyMap, layerSize, layer, last, ti, s[..|s| - 1], st);
    }
  }

  /** Events already recorded are never rewritten: the second pass only
      appends. */
  lemma {:induction false} SecondPassAppends(keyMap: seq<bv16>, layerSize: nat, layer: uint8, last: uint16, ti: uint16,
                                             s: seq<KeyState>, st: PassState)
    ensures var r := SecondPass(keyMap, layerSize, layer, last, ti, s, st);
      |st.events| <= |r.events| && r.events[..|st.events|] == st.events
  {
    if s != [] {
      SecondPassAppends(keyMap, layerSize, layer, last, ti, s[..|s| - 1], st);
      var mid := SecondPass(keyMap, layerSize, layer, last, ti, s[..|s| - 1], st);
      var r := SecondPass(keyMap, layerSize, layer, last, ti, s, st);
      assert r.events[..|mid.events|] == mid.events;
      assert mid.events[..|st.events|] == st.events;
    }
  }

  // ---------------------------------------------------------------------
  // Macros

  /** The macro stream; the model reads MacroEnd past its end. */
  function MacroByte(code: seq<bv8>, i: nat): bv8
  {
    if i < |code| then code[i] else MacroEnd
  }

  predicate IsKeyOp(op: bv8)
  {
    op == MacroKeyDown || op == MacroKeyUp || op == MacroKeyToggle
  }

  /** The mods after a Down/Up/Toggle of a modifier usage. */
  function ModifierOp(mods: bv8, op: bv8, key: bv8): bv8
    requires IsModifierCode(key)
  {
    var mask := ModifierBit(key);
    var resolved := if op == MacroKeyToggle then (if mods & mask != 0 then MacroKeyUp else MacroKeyDown) else op;
    if resolved == MacroKeyDown then mods | mask else mods & !mask
  }

  /** Each modifier usage owns one mods bit (bit key - LEFT_CONTROL). */
  lemma ModifierBitIsOneBit(c: bv8)
    requires IsModifierCode(c)
    ensures ModifierBit(c) != 0 && ModifierBit(c) & (ModifierBit(c) - 1) == 0
  {
  }

  /** A modifier operation sets (Down), clears (Up) or flips (Toggle)
      exactly the usage's mods bit. */
  lemma ModifierOpEffect(mods: bv8, op: bv8, key: bv8)
    requires IsModifierCode(key) && IsKeyOp(op)
    ensures var m := ModifierOp(mods, op, key); var mask := ModifierBit(key);
      m & !mask == mods & !mask &&
      (op == MacroKeyDown ==> m & mask == mask) &&
      (op == MacroKeyUp ==> m & mask == 0) &&
      (op == MacroKeyToggle ==> m & mask == (mods & mask) ^ mask)
  {
  }

  /** The key codes after a Down/Up/Toggle of an ordinary usage. */
  function KeyOp(keys: seq<bv8>, op: bv8, key: bv8): (r: seq<bv8>)
    ensures |r| == |keys|
  {
    if op == MacroKeyDown then KeysAdded(keys, key)
    else if op == MacroKeyUp then KeysCleared(keys, key)
    else KeysToggled(keys, key)
  }

  /** The events runMacro emits from position i of the stream, with the
      macro's report r and whether a modifier change is still unreported. */
  function MacroEvents(r: ReportValue, code: seq<bv8>, i: nat, need: bool): seq<Event>
    decreases |code| + 1 - i
  {
    var op := MacroByte(code, i);
    if IsKeyOp(op) then
      var key := MacroByte(code, i + 1);
      if IsModifierCode(key) then
        MacroEvents(r.(mods := ModifierOp(r.mods, op, key)), code, i + 2, true)
      else
        var r' := r.(keys := KeyOp(r.keys, op, key));
        [BasicReport(r'), Delay(ReportDelayMs)] + MacroEvents(r', code, i + 2, false)
    else if op == MacroEnd then
      if need then [BasicReport(r), Delay(ReportDelayMs)] else []
    else []
  }

  /** A Down/Up/Toggle of a modifier usage only changes the mods and leaves
      a report pending. */
  lemma MacroModifierStep(r: ReportValue, code: seq<bv8>, i: nat, need: bool)
    requires IsKeyOp(MacroByte(code, i)) && IsModifierCode(MacroByte(code, i + 1))
    ensures MacroEvents(r, code, i, need) ==
      MacroEvents(r.(mods := ModifierOp(r.mods, MacroByte(code, i), MacroByte(code, i + 1))), code, i + 2, true)
  {
  }

  /** A Down/Up/Toggle of any other usage applies addKey, clearKey or
      toggleKey and emits one report. */
  lemma MacroKeyStep(r: ReportValue, code: seq<bv8>, i: nat, need: bool)
    requires IsKeyOp(MacroByte(code, i)) && !IsModifierCode(MacroByte(code, i + 1))
    ensures var r' := ReportValue(r.mods, KeyOp(r.keys, MacroByte(code, i), MacroByte(code, i + 1)));
      MacroEvents(r, code, i, need) == [BasicReport(r'), Delay(ReportDelayMs)] + MacroEvents(r', code, i + 2, false)
  {
  }

  /** MacroEnd emits the pending report, if any; any other byte stops the
      macro silently. */
  lemma MacroStop(r: ReportValue, code: seq<bv8>, i: nat, need: bool)
    requires !IsKeyOp(MacroByte(code, i))
    ensures MacroByte(code, i) == MacroEnd ==>
      MacroEvents(r, code, i, need) == if need then [BasicReport(r), Delay(ReportDelayMs)] else []
    ensures MacroByte(code, i) != MacroEnd ==> MacroEvents(r, code, i, need) == []
  {
  }

  /** Only modifier operations before MacroEnd, i.e. `n` pairs from
      position i. */
  ghost predicate ModifiersThenEnd(code: seq<bv8>, i: nat, n: nat)
  {
    (forall k :: 0 <= k < n ==> IsKeyOp(MacroByte(code, i + 2 * k)) && IsModifierCode(MacroByte(code, i + 2 * k + 1))) &&
    MacroByte(code, i + 2 * n) == MacroEnd
  }

  /** A macro that only changes modifiers emits a single report at its end
      (none if it is empty and nothing is pending), carrying all the
      modifier changes. */
  lemma {:induction false} ModifierMacroReportsOnce(r: ReportValue, code: seq<bv8>, i: nat, n: nat, need: bool)
    requires ModifiersThenEnd(code, i, n)
    ensures var ev := MacroEvents(r, code, i, need);
      if need || n > 0 then |ev| == 2 && ev[0].BasicReport? && ev[0].report.keys == r.keys && ev[1] == Delay(ReportDelayMs)
      else ev == []
    decreases n
  {
    if n > 0 {
      assert IsKeyOp(MacroByte(code, i + 2 * 0)) && IsModifierCode(MacroByte(code, i + 2 * 0 + 1));
      var op := MacroByte(code, i);
      var key := MacroByte(code, i + 1);
      var r' := r.(mods := ModifierOp(r.mods, op, key));
      assert ModifiersThenEnd(code, i + 2, n - 1) by {
        forall k | 0 <= k < n - 1
          ensures IsKeyOp(MacroByte(code, i + 2 + 2 * k)) && IsModifierCode(MacroByte(code, i + 2 + 2 * k + 1))
        {
          assert i + 2 + 2 * k == i + 2 * (k + 1);
        }
        assert i + 2 + 2 * (n - 1) == i + 2 * n;
      }
      ModifierMacroReportsOnce(r', code, i + 2, n - 1, true);
    }
  }

  /** Every report the macro emits keeps the macro report well formed. */
  lemma {:induction false} MacroReportsWellFormed(r: ReportValue, code: seq<bv8>, i: nat, need: bool, j: nat)
    requires WellFormed(r)
    requires j < |MacroEvents(r, code, i, need)|
    ensures MacroEvents(r, code, i, need)[j].BasicReport? ==> WellFormed(MacroEvents(r, code, i, need)[j].report)
    decreases |code| + 1 - i
  {
    var op := MacroByte(code, i);
    if IsKeyOp(op) {
      var key := MacroByte(code, i + 1);
      if IsModifierCode(key) {
        MacroReportsWellFormed(r.(mods := ModifierOp(r.mods, op, key)), code, i + 2, true, j);
      } else if j >= 2 {
        var r' := r.(keys := KeyOp(r.keys, op, key));
        MacroReportsWellFormed(r', code, i + 2, false, j - 2);
      }
    }
  }

  // ---------------------------------------------------------------------
  // The task

  class DispatcherTask {
    const rowCount: nat
    const colCount: nat
    /** keyMapData, layer after layer of rowCount * colCount entries. */
    const keyMap: seq<bv16>
    /** lookupMacroDefinition */
    const macros: bv16 -> seq<bv8>
    const keyState: KeyboardState
    var currentLayer: uint8
    var lastStateTick: uint16
    /** Everything handed to the application's dispatcher, in order. */
    var events: seq<Event>

    ghost predicate Valid()
      reads this, keyState
    {
      keyState.Valid() && colCount <= 16
    }

    function LayerSize(): nat
      reads this
    {
      rowCount * colCount
    }

    /** The task as `run` starts it: empty key table, layer 0, and
        lastStateTick_ reset to 0. */
    constructor (rowCount: nat, colCount: nat, keyMap: seq<bv16>, macros: bv16 -> seq<bv8>,
                 rollover: uint8, tappingInterval: uint16)
      requires colCount <= 16
      ensures Valid() && fresh(keyState) && fresh(keyState.keys)
      ensures this.rowCount == rowCount && this.colCount == colCount && this.keyMap == keyMap && this.macros == macros
      ensures keyState.tappingInterval == tappingInterval && keyState.rollover == rollover
      ensures currentLayer == 0 && lastStateTick == 0 && events == []
    {
      this.rowCount := rowCount;
      this.colCount := colCount;
      this.keyMap := keyMap;
      this.macros := macros;
      keyState := new KeyboardState(rollover, tappingInterval);
      currentLayer := 0;
      lastStateTick := 0;
      events := [];
    }

    /** The nested row/column loop: every bit that differs between the
        prior and current scans updates the key table. */
    method ApplyMatrix(prior: seq<bv16>, current: seq<bv16>, nowTick: uint16)
      requires Valid() && |prior| == rowCount && |current| == rowCount
      modifies keyState.keys
      ensures keyState.keys[..] ==
        ApplyChanges(old(keyState.keys[..]), MatrixChanges(prior, current, colCount, rowCount), nowTick, keyState.tappingInterval)
    {
      ghost var s0 := keyState.keys[..];
      var rowNum := 0;
      while rowNum < rowCount
        invariant 0 <= rowNum <= rowCount
        invariant keyState.keys[..] ==
          ApplyChanges(s0, MatrixChanges(prior, current, colCount, rowNum), nowTick, keyState.tappingInterval)
      {
        ghost var done := MatrixChanges(prior, current, colCount, rowNum);
        ghost var row := RowChanges(prior[rowNum], current[rowNum], rowNum, colCount, colCount);
        assert MatrixChanges(prior, current, colCount, rowNum + 1) == done + row;
        ApplyChangesAppend(s0, done, row, nowTick, keyState.tappingInterval);
        ApplyRow(prior[rowNum], current[rowNum], rowNum, nowTick);
        rowNum := rowNum + 1;
      }
    }

    /** The column loop of one row. */
    method ApplyRow(p: bv16, c: bv16, rowNum: nat, nowTick: uint16)
      requires Valid()
      modifies keyState.keys
      ensures keyState.keys[..] ==
        ApplyChanges(old(keyState.keys[..]), RowChanges(p, c, rowNum, colCount, colCount), nowTick, keyState.tappingInterval)
    {
      ghost var s0 := keyState.keys[..];
      var colNum := 0;
      while colNum < colCount
        invariant 0 <= colNum <= colCount
        invariant keyState.keys[..] == ApplyChanges(s0, RowChanges(p, c, rowNum, colCount, colNum), nowTick, keyState.tappingInterval)
      {
        if ColumnBit(p, colNum) != ColumnBit(c, colNum) {
          var ch := Change(ScanCode(rowNum, colCount, colNum), ColumnBit(c, colNum));
          assert RowChanges(p, c, rowNum, colCount, colNum + 1) == RowChanges(p, c, rowNum, colCount, colNum) + [ch];
          ApplyChangesSnoc(s0, RowChanges(p, c, rowNum, colCount, colNum), ch, nowTick, keyState.tappingInterval);
          var _ := keyState.UpdateKeyState(ch.scanCode, ch.down, nowTick);
        } else {
          assert RowChanges(p, c, rowNum, colCount, colNum + 1) == RowChanges(p, c, rowNum, colCount, colNum) + [];
          assert RowChanges(p, c, rowNum, colCount, colNum + 1) == RowChanges(p, c, rowNum, colCount, colNum);
        }
        colNum := colNum + 1;
      }
    }

    /** The first pass over the key table. */
    method UpdateLayer()
      requires Valid()
      modifies this`currentLayer
      ensures currentLayer == LayerPass(keyMap, LayerSize(), lastStateTick, old(currentLayer), keyState.keys[..])
    {
      var i := 0;
      while i < keyState.keys.Length
        invariant 0 <= i <= keyState.keys.Length
        invariant currentLayer == LayerPass(keyMap, LayerSize(), lastStateTick, old(currentLayer), keyState.keys[..i])
      {
        assert keyState.keys[..i + 1][..i] == keyState.keys[..i];
        var k := keyState.keys[i];
        if k.scanCode != 0 && k.eventTime >= lastStateTick {
          var action := LoadEntry(keyMap, LayerSize(), currentLayer, k.scanCode);
          if KE.EntryType(action) == KE.LayerKey {
            if k.down {
              currentLayer := KE.LayerId(action) as uint8;
            } else if KE.Momentary(action) {
              currentLayer := 0;
            }
          }
        }
        i := i + 1;
      }
      assert keyState.keys[..i] == keyState.keys[..];
    }

    /** One pressed slot of the second pass. */
    method PressSlot(report: Report, action: bv16, ghost macroScanCode: uint8)
      requires report.Valid()
      modifies report, report.keys, this`events
      ensures report.Valid()
      ensures PassState(report.Value(), events, macroScanCode) ==
        PressStep(action, PassState(old(report.Value()), old(events), macroScanCode))
    {
      var t := KE.EntryType(action);
      if t == KE.BasicKey {
        var code := KE.Code(action);
        if !(code == NoEvent && KE.Mods(action) == 0) {
          report.mods := report.mods | KE.Mods(action);
          if IsModifierCode(code) {
            report.mods := report.mods | ModifierBit(code);
          } else {
            report.AddKey(code);
          }
        }
      } else if t == KE.DualRoleKey {
        report.mods := report.mods | KE.Mods(action);
      } else if t == KE.ConsumerKey {
        events := events + [ConsumerKeyEvent(KE.Usage(action))];
      } else if t == KE.SystemKey {
        events := events + [SystemKeyEvent(KE.Usage(action))];
      }
    }

    /** One slot of the second pass released since the previous update. */
    method ReleaseSlot(report: Report, action: bv16, k: KeyState, macroScanCode: uint8) returns (macro: uint8)
      requires Valid() && report.Valid()
      modifies report, report.keys, this`events
      ensures report.Valid()
      ensures PassState(report.Value(), events, macro) ==
        ReleaseStep(action, k, keyState.tappingInterval, PassState(old(report.Value()), old(events), macroScanCode))
    {
      macro := macroScanCode;
      var t := KE.EntryType(action);
      var tapped := Sub16(k.eventTime, k.priorTime) <= keyState.tappingInterval;
      if t == KE.DualRoleKey {
        if tapped {
          report.AddKey(KE.Code(action));
          events := events + [BasicReport(EmptyReport.(mods := report.mods)), Delay(ReportDelayMs)];
        }
      } else if t == KE.MacroKey {
        if tapped {
          macro := k.scanCode;
        }
      } else if t == KE.ConsumerKey {
        events := events + [ConsumerKeyEvent(0)];
      } else if t == KE.SystemKey {
        events := events + [SystemKeyEvent(0)];
      }
    }

    /** The second pass: builds `report`, forwards consumer and system
        keys, emits dual-role taps, and returns the tapped macro key. */
    method BuildReport(report: Report) returns (macroScanCode: uint8)
      requires Valid() && report.Valid() && report.keys as object != keyState.keys
      modifies report, report.keys, this`events
      ensures report.Valid()
      ensures PassState(report.Value(), events, macroScanCode) ==
        SecondPass(keyMap, LayerSize(), currentLayer, lastStateTick, keyState.tappingInterval, keyState.keys[..],
                   PassState(old(report.Value()), old(events), 0))
    {
      ghost var ks := keyState.keys[..];
      ghost var st0 := PassState(report.Value(), events, 0);
      var layerSize, layer, last, ti := LayerSize(), currentLayer, lastStateTick, keyState.tappingInterval;
      macroScanCode := 0;
      var i := 0;
      while i < keyState.keys.Length
        invariant 0 <= i <= keyState.keys.Length && report.Valid()
        invariant keyState.keys[..] == ks
        invariant PassState(report.Value(), events, macroScanCode) == SecondPass(keyMap, layerSize, layer, last, ti, ks[..i], st0)
      {
        ghost var st := PassState(report.Value(), events, macroScanCode);
        SecondPassSnoc(keyMap, layerSize, layer, last, ti, ks, i, st0);
        var k := keyState.keys[i];
        if k.scanCode != 0 {
          var action := LoadEntry(keyMap, layerSize, layer, k.scanCode);
          if k.down {
            PressSlot(report, action, macroScanCode);
          } else if k.eventTime > last {
            macroScanCode := ReleaseSlot(report, action, k, macroScanCode);
          }
        }
        assert PassState(report.Value(), events, macroScanCode) == KeyStep(keyMap, layerSize, layer, last, ti, k, st);
        i := i + 1;
      }
      assert ks[..i] == ks;
    }

    /** The report operation of a Down/Up/Toggle of an ordinary usage. */
    static method ApplyKeyOp(report: Report, op: bv8, key: bv8)
      requires report.Valid()
      modifies report.keys
      ensures report.keys[..] == KeyOp(old(report.keys[..]), op, key)
    {
      if op == MacroKeyDown {
        report.AddKey(key);
      } else if op == MacroKeyUp {
        report.ClearKey(key);
      } else {
        report.ToggleKey(key);
      }
    }

    /** One instruction of runMacro: its events so far, where it continues
        and whether a modifier change is pending; `done` at the end. */
    static method MacroInstruction(macroReport: Report, code: seq<bv8>, i: nat, needReport: bool)
      returns (out: seq<Event>, next: nat, need: bool, done: bool)
      requires macroReport.Valid() && i <= |code| + 1
      modifies macroReport, macroReport.keys
      ensures macroReport.Valid()
      ensures done ==> out == MacroEvents(old(macroReport.Value()), code, i, needReport)
      ensures !done ==> (next == i + 2 && next <= |code| + 1 &&
        out + MacroEvents(macroReport.Value(), code, next, need) == MacroEvents(old(macroReport.Value()), code, i, needReport))
    {
      ghost var r0 := macroReport.Value();
      var macro := MacroByte(code, i);
      var key := MacroByte(code, i + 1);
      next, need, done, out := i + 2, needReport, false, [];
      if IsKeyOp(macro) {
        if IsModifierCode(key) {
          MacroModifierStep(r0, code, i, needReport);
          macroReport.mods := ModifierOp(macroReport.mods, macro, key);
          need := true;
        } else {
          MacroKeyStep(r0, code, i, needReport);
          ApplyKeyOp(macroReport, macro, key);
          out := [BasicReport(macroReport.Value()), Delay(ReportDelayMs)];
          need := false;
        }
      } else {
        MacroStop(r0, code, i, needReport);
        if macro == MacroEnd && needReport {
          out := [BasicReport(macroReport.Value()), Delay(ReportDelayMs)];
        }
        done := true;
      }
    }

    /** runMacro: interprets the macro stream on a copy of the report and
        returns what it sends to the dispatcher. */
    method RunMacro(report: ReportValue, macroid: bv16) returns (emitted: seq<Event>)
      requires WellFormed(report)
      ensures emitted == MacroEvents(report, macros(macroid), 0, false)
    {
      var code := macros(macroid);
      var macroReport := new Report.FromValue(report);
      var i := 0;
      var needReport := false;
      emitted := [];
      ghost var want := MacroEvents(report, code, 0, false);
      while true
        invariant macroReport.Valid() && i <= |code| + 1
        invariant emitted + MacroEvents(macroReport.Value(), code, i, needReport) == want
        decreases |code| + 1 - i
      {
        ghost var e0 := emitted;
        var out, next, need, done := MacroInstruction(macroReport, code, i, needReport);
        emitted := emitted + out;
        if done {
          return;
        }
        ConcatAssoc(e0, out, MacroEvents(macroReport.Value(), code, next, need));
        i, needReport := next, need;
      }
    }

    /** The report the application receives and the task's new state after
        one updateKeyState. */
    ghost function Outcome(prior: seq<bv16>, current: seq<bv16>, nowTick: uint16, keys0: seq<KeyState>,
                           layer0: uint8, last: uint16, events0: seq<Event>): (r: (seq<KeyState>, uint8, seq<Event>))
      requires |prior| == rowCount && |current| == rowCount && colCount <= 16
      reads this
      ensures |r.0| == |keys0|
      ensures |r.2| >= 1 && r.2[|r.2| - 1].BasicReport?
    {
      var keys := ApplyChanges(keys0, MatrixChanges(prior, current, colCount, rowCount), nowTick, keyState.tappingInterval);
      var layer := LayerPass(keyMap, LayerSize(), last, layer0, keys);
      var st := SecondPass(keyMap, LayerSize(), layer, last, keyState.tappingInterval, keys, PassState(EmptyReport, events0, 0));
      var e := LoadEntry(keyMap, LayerSize(), layer, st.macroScanCode);
      var macroEvents :=
        if st.macroScanCode != 0 && KE.EntryType(e) == KE.MacroKey && WellFormed(st.report)
        then MacroEvents(st.report, macros(KE.Usage(e)), 0, false) else [];
      (keys, layer, st.events + macroEvents + [BasicReport(st.report)])
    }

    /** updateKeyState */
    method UpdateKeyState(prior: seq<bv16>, current: seq<bv16>, nowTick: uint16)
      requires Valid() && |prior| == rowCount && |current| == rowCount
      modifies this, keyState.keys
      ensures Valid() && lastStateTick == nowTick
      ensures var o := Outcome(prior, current, nowTick, old(keyState.keys[..]), old(currentLayer), old(lastStateTick), old(events));
        keyState.keys[..] == o.0 && currentLayer == o.1 && events == o.2
    {
      ApplyMatrix(prior, current, nowTick);
      ghost var keys1 := keyState.keys[..];
      var report := new Report();
      UpdateLayer();
      ghost var events0 := events;
      var macroScanCode := BuildReport(report);
      ghost var st := PassState(report.Value(), events, macroScanCode);
      assert st == SecondPass(keyMap, LayerSize(), currentLayer, lastStateTick, keyState.tappingInterval, keys1,
                              PassState(EmptyReport, events0, 0));
      if macroScanCode != 0 {
        var action := LoadEntry(keyMap, LayerSize(), currentLayer, macroScanCode);
        if KE.EntryType(action) == KE.MacroKey {
          var emitted := RunMacro(report.Value(), KE.Usage(action));
          events := events + emitted;
        }
      }
      events := events + [BasicReport(report.Value())];
      lastStateTick := nowTick;
    }

    /** Every update appends to what the dispatcher has already received
        and ends by sending the accumulated report. */
    lemma OutcomeEndsWithReport(prior: seq<bv16>, current: seq<bv16>, nowTick: uint16, keys0: seq<KeyState>,
                                layer0: uint8, last: uint16, events0: seq<Event>)
      requires |prior| == rowCount && |current| == rowCount && colCount <= 16
      ensures var o := Outcome(prior, current, nowTick, keys0, layer0, last, events0);
        var keys := ApplyChanges(keys0, MatrixChanges(prior, current, colCount, rowCount), nowTick, keyState.tappingInterval);
        var st := SecondPass(keyMap, LayerSize(), o.1, last, keyState.tappingInterval, keys, PassState(EmptyReport, events0, 0));
        |o.2| > |events0| && o.2[..|events0|] == events0 && o.2[|o.2| - 1] == BasicReport(st.report) &&
        WellFormed(st.report)
    {
      var o := Outcome(prior, current, nowTick, keys0, layer0, last, events0);
      var keys := ApplyChanges(keys0, MatrixChanges(prior, current, colCount, rowCount), nowTick, keyState.tappingInterval);
      var st0 := PassState(EmptyReport, events0, 0);
      SecondPassModsGrow(keyMap, LayerSize(), o.1, last, keyState.tappingInterval, keys, st0);
      SecondPassAppends(keyMap, LayerSize(), o.1, last, keyState.tappingInterval, keys, st0);
      var st := SecondPass(keyMap, LayerSize(), o.1, last, keyState.tappingInterval, keys, st0);
      assert o.2[..|st.events|] == st.events;
    }
  }
}
