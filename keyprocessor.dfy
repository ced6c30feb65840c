/** The key-state table of the key processor: a fixed number of slots,
    each tracking one scan code, whether it is down, its toggle streak and
    the times of its last two transitions. */
module KeyProcessor {
  import opened Wrappers
  import opened Bytes

  /** The 7-bit `toggles` bitfield. */
  type uint7 = x: int | 0 <= x < 0x80

  datatype KeyState = KeyState(
    scanCode: uint8,
    down: bool,
    toggles: uint7,
    eventTime: uint16,
    priorTime: uint16)

  const ZeroState := KeyState(0, false, 0, 0, 0)

  /** No two slots track the same non-zero scan code. */
  ghost predicate DistinctCodes(s: seq<KeyState>)
  {
    forall i, j :: 0 <= i < |s| && 0 <= j < |s| && i != j && s[i].scanCode != 0 ==>
      s[i].scanCode != s[j].scanCode
  }

  /** The first slot holding `code`, if any. */
  function IndexOfCode(s: seq<KeyState>, code: uint8): (r: Option<nat>)
    ensures r.Some? ==> (r.value < |s| && s[r.value].scanCode == code &&
                         forall j :: 0 <= j < r.value ==> s[j].scanCode != code)
    ensures r.None? <==> forall j :: 0 <= j < |s| ==> s[j].scanCode != code
  {
    if |s| == 0 then None
    else
      var p := IndexOfCode(s[..|s| - 1], code);
      if p.Some? then p
      else if s[|s| - 1].scanCode == code then Some(|s| - 1)
      else None
  }

  /** A slot that tracks a key which is currently released. */
  predicate Released(k: KeyState)
  {
    k.scanCode != 0 && !k.down
  }

  /** The released slot with the earliest eventTime, the first one on ties. */
  function Oldest(s: seq<KeyState>): (r: Option<nat>)
    ensures r.Some? ==> r.value < |s| && Released(s[r.value])
    ensures r.Some? ==> forall j :: 0 <= j < |s| && Released(s[j]) ==>
      s[r.value].eventTime <= s[j].eventTime
    ensures r.Some? ==> forall j :: 0 <= j < r.value && Released(s[j]) ==>
      s[r.value].eventTime < s[j].eventTime
    ensures r.None? <==> forall j :: 0 <= j < |s| ==> !Released(s[j])
  {
    if |s| == 0 then None
    else
      var p := Oldest(s[..|s| - 1]);
      var k := s[|s| - 1];
      if Released(k) && (p.None? || k.eventTime < s[p.value].eventTime) then Some(|s| - 1)
      else p
  }

  /** The slot findSlot picks: the one already tracking the scan code;
      otherwise the first unused one; otherwise the oldest released one. */
  function ChooseSlot(s: seq<KeyState>, scanCode: uint8): (r: Option<nat>)
    ensures r.Some? ==> r.value < |s|
  {
    var exact := IndexOfCode(s, scanCode);
    if exact.Some? then exact
    else
      var free := IndexOfCode(s, 0);
      if free.Some? then free else Oldest(s)
  }

  /** Aging of one slot: a released key whose last event lies more than
      the tapping interval in the past is forgotten. */
  function AgeSlot(k: KeyState, eventTime: uint16, tappingInterval: uint16): KeyState
  {
    if !k.down && Sub16(eventTime, k.eventTime) > tappingInterval then k.(scanCode := 0) else k
  }

  function Aged(s: seq<KeyState>, eventTime: uint16, tappingInterval: uint16): (r: seq<KeyState>)
    ensures |r| == |s|
  {
    seq(|s|, i requires 0 <= i < |s| => AgeSlot(s[i], eventTime, tappingInterval))
  }

  /** The new state of the chosen slot, read after aging. */
  function NewState(k: KeyState, scanCode: uint8, down: bool, eventTime: uint16,
                    tappingInterval: uint16): KeyState
  {
    var toggles: uint7 :=
      if k.scanCode == scanCode && k.down != down && Sub16(eventTime, k.eventTime) <= tappingInterval
      then (k.toggles + 1) % 0x80
      else 1;
    var prior := if k.scanCode != scanCode then eventTime else k.eventTime;
    KeyState(scanCode, down, toggles, eventTime, prior)
  }

  /** The table after updateKeyState. */
  function Updated(s: seq<KeyState>, scanCode: uint8, down: bool, eventTime: uint16,
                   tappingInterval: uint16): (r: seq<KeyState>)
    ensures |r| == |s|
  {
    var slot := ChooseSlot(s, scanCode);
    var a := Aged(s, eventTime, tappingInterval);
    if slot.None? then a
    else a[slot.value := NewState(a[slot.value], scanCode, down, eventTime, tappingInterval)]
  }

  class KeyboardState {
    const rollover: uint8
    const tappingInterval: uint16
    const keys: array<KeyState>

    ghost predicate Valid()
      reads this
    {
      keys.Length == rollover
    }

    constructor (rollover: uint8, tappingInterval: uint16)
      ensures Valid() && fresh(keys)
      ensures this.rollover == rollover && this.tappingInterval == tappingInterval
      ensures forall i :: 0 <= i < keys.Length ==> keys[i] == ZeroState
    {
      this.rollover := rollover;
      this.tappingInterval := tappingInterval;
      keys := new KeyState[rollover](_ => ZeroState);
    }

    /** findSlot: one pass that returns an exact match at once and otherwise
        remembers the first unused slot and the oldest released one. */
    method FindSlot(scanCode: uint8) returns (slot: Option<nat>)
      requires Valid()
      ensures slot == ChooseSlot(keys[..], scanCode)
    {
      var available: Option<nat> := None;
      var oldest: Option<nat> := None;
      var i := 0;
      while i < keys.Length
        invariant 0 <= i <= keys.Length
        invariant IndexOfCode(keys[..i], scanCode).None?
        invariant available == IndexOfCode(keys[..i], 0)
        invariant available.None? ==> oldest == Oldest(keys[..i])
      {
        assert keys[..i + 1][..i] == keys[..i];
        var s := keys[i];
        if s.scanCode == scanCode {
          return Some(i);
        }
        if available.None? {
          if s.scanCode == 0 {
            available := Some(i);
          } else if !s.down {
            if oldest.None? || s.eventTime < keys[oldest.value].eventTime {
              oldest := Some(i);
            }
          }
        }
        i := i + 1;
      }
      assert keys[..i] == keys[..];
      if available.Some? {
        return available;
      }
      return oldest;
    }

    /** ageSlots */
    method AgeSlots(eventTime: uint16)
      requires Valid()
      modifies keys
      ensures keys[..] == Aged(old(keys[..]), eventTime, tappingInterval)
    {
      var i := 0;
      while i < keys.Length
        invariant 0 <= i <= keys.Length
        invariant forall j :: 0 <= j < i ==> keys[j] == AgeSlot(old(keys[j]), eventTime, tappingInterval)
        invariant forall j :: i <= j < keys.Length ==> keys[j] == old(keys[j])
      {
        var k := keys[i];
        if !k.down && Sub16(eventTime, k.eventTime) > tappingInterval {
          keys[i] := k.(scanCode := 0);
        }
        i := i + 1;
      }
    }

    /** updateKeyState: record a transition of `scanCode` at `eventTime`;
        false when every slot is taken by a key that is down. */
    method UpdateKeyState(scanCode: uint8, down: bool, eventTime: uint16) returns (ok: bool)
      requires Valid()
      modifies keys
      ensures ok == ChooseSlot(old(keys[..]), scanCode).Some?
      ensures keys[..] == Updated(old(keys[..]), scanCode, down, eventTime, tappingInterval)
    {
      var slot := FindSlot(scanCode);
      AgeSlots(eventTime);
      if slot.None? {
        return false;
      }
      var s := keys[slot.value];
      var toggles: uint7 := 1;
      if s.scanCode == scanCode && s.down != down && Sub16(eventTime, s.eventTime) <= tappingInterval {
        toggles := (s.toggles + 1) % 0x80;
      }
      var prior := eventTime;
      if s.scanCode == scanCode {
        prior := s.eventTime;
      }
      keys[slot.value] := KeyState(scanCode, down, toggles, eventTime, prior);
      return true;
    }

    /** clear: every slot becomes all-zero. */
    method Clear()
      requires Valid()
      modifies keys
      ensures forall i :: 0 <= i < keys.Length ==> keys[i] == ZeroState
    {
      var i := 0;
      while i < keys.Length
        invariant 0 <= i <= keys.Length
        invariant forall j :: 0 <= j < i ==> keys[j] == ZeroState
      {
        keys[i] := ZeroState;
        i := i + 1;
      }
    }
  }

  /** A slot already tracking the scan code is reused before any other. */
  lemma ExactMatchFirst(s: seq<KeyState>, scanCode: uint8, i: nat)
    requires i < |s| && s[i].scanCode == scanCode
    requires DistinctCodes(s) && scanCode != 0
    ensures ChooseSlot(s, scanCode) == Some(i)
  {
  }

  /** Without an exact match: the first unused slot, else the oldest
      released slot, else none. */
  lemma ChooseWithoutMatch(s: seq<KeyState>, scanCode: uint8)
    requires forall j :: 0 <= j < |s| ==> s[j].scanCode != scanCode
    ensures (exists j :: 0 <= j < |s| && s[j].scanCode == 0) ==>
      ChooseSlot(s, scanCode).Some? && s[ChooseSlot(s, scanCode).value].scanCode == 0 &&
      forall j :: 0 <= j < ChooseSlot(s, scanCode).value ==> s[j].scanCode != 0
    ensures (forall j :: 0 <= j < |s| ==> s[j].scanCode != 0) ==>
      ChooseSlot(s, scanCode) == Oldest(s)
    ensures ChooseSlot(s, scanCode).None? <==>
      forall j :: 0 <= j < |s| ==> s[j].scanCode != 0 && s[j].down
  {
  }

  /** Aging never touches a pressed slot and forgets exactly the released
      slots whose last event is more than the tapping interval ago. */
  lemma AgingEffect(s: seq<KeyState>, eventTime: uint16, ti: uint16, i: nat)
    requires i < |s|
    ensures var k := Aged(s, eventTime, ti)[i];
      k.down == s[i].down && k.toggles == s[i].toggles &&
      k.eventTime == s[i].eventTime && k.priorTime == s[i].priorTime &&
      (s[i].down ==> k == s[i]) &&
      (k.scanCode == 0 <==> s[i].scanCode == 0 || (!s[i].down && Sub16(eventTime, s[i].eventTime) > ti))
  {
  }

  /** With no slot available only aging has changed the table. */
  lemma NoSlotOnlyAges(s: seq<KeyState>, scanCode: uint8, down: bool, t: uint16, ti: uint16)
    requires ChooseSlot(s, scanCode).None?
    ensures Updated(s, scanCode, down, t, ti) == Aged(s, t, ti)
    ensures forall j :: 0 <= j < |s| ==> Updated(s, scanCode, down, t, ti)[j] == s[j]
  {
    forall j | 0 <= j < |s|
      ensures Aged(s, t, ti)[j] == s[j]
    {
      assert s[j].down;
    }
  }

  /** On success the chosen slot holds exactly the given scan code, state
      and time; priorTime and toggles follow the reuse and tapping rules;
      every other slot is only aged. */
  lemma UpdateEffect(s: seq<KeyState>, scanCode: uint8, down: bool, t: uint16, ti: uint16)
    requires ChooseSlot(s, scanCode).Some?
    ensures var i := ChooseSlot(s, scanCode).value;
      var r := Updated(s, scanCode, down, t, ti);
      var kept := AgeSlot(s[i], t, ti).scanCode == scanCode;
      r[i].scanCode == scanCode && r[i].down == down && r[i].eventTime == t &&
      r[i].priorTime == (if kept then s[i].eventTime else t) &&
      r[i].toggles == (if kept && s[i].down != down && Sub16(t, s[i].eventTime) <= ti
                       then (s[i].toggles + 1) % 0x80 else 1) &&
      forall j :: 0 <= j < |s| && j != i ==> r[j] == AgeSlot(s[j], t, ti)
  {
  }

  /** A key that keeps its slot and flips within the tapping interval
      extends its toggle streak (wrapping at 128). */
  lemma TapExtendsStreak(s: seq<KeyState>, i: nat, scanCode: uint8, down: bool, t: uint16, ti: uint16)
    requires DistinctCodes(s) && scanCode != 0
    requires i < |s| && s[i].scanCode == scanCode && s[i].down != down
    requires Sub16(t, s[i].eventTime) <= ti
    ensures Updated(s, scanCode, down, t, ti)[i].toggles == (s[i].toggles + 1) % 0x80
    ensures Updated(s, scanCode, down, t, ti)[i].priorTime == s[i].eventTime
  {
    ExactMatchFirst(s, scanCode, i);
  }

  /** updateKeyState preserves the distinct-codes invariant. */
  lemma UpdatePreservesDistinct(s: seq<KeyState>, scanCode: uint8, down: bool, t: uint16, ti: uint16)
    requires DistinctCodes(s)
    ensures DistinctCodes(Updated(s, scanCode, down, t, ti))
  {
    var r := Updated(s, scanCode, down, t, ti);
    var a := Aged(s, t, ti);
    var slot := ChooseSlot(s, scanCode);
    forall i, j | 0 <= i < |r| && 0 <= j < |r| && i != j && r[i].scanCode != 0
      ensures r[i].scanCode != r[j].scanCode
    {
      if slot.Some? && (i == slot.value || j == slot.value) {
        var other := if i == slot.value then j else i;
        assert r[other] == a[other];
        if IndexOfCode(s, scanCode).None? {
          assert s[other].scanCode != scanCode;
        } else {
          assert slot.value == IndexOfCode(s, scanCode).value;
          assert s[slot.value].scanCode == scanCode;
        }
      }
    }
  }

  /** clear  yields a table that satisfies the invariant. */
  lemma ClearedDistinct(s: seq<KeyState>)
    requires forall i :: 0 <= i < |s| ==> s[i] == ZeroState
    ensures DistinctCodes(s)
    ensures forall c: uint8 :: c != 0 ==> IndexOfCode(s, c).None?
  {
  }
}
