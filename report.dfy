/** The packed 7-byte report of src/libs/keyprocessor/Report.h: the modifier
    byte and the six key codes of the boot keyboard report in Appendix B.1
    of the USB HID 1.11 specification, without B.1's reserved byte, which
    the BLE report string puts back as "-00-". */
module Reports {
  import opened Wrappers
  import opened Seqs

  const KeySlots := 6

  /** A snapshot of the packed report bytes. */
  datatype ReportValue = ReportValue(mods: bv8, keys: seq<bv8>)

  const EmptyReport := ReportValue(0, [0, 0, 0, 0, 0, 0])

  /** The report as the 7 bytes that memcmp compares. */
  function Packed(r: ReportValue): seq<bv8>
  {
    [r.mods] + r.keys
  }

  /** Key codes after addKey: the first zero entry receives the key. */
  function KeysAdded(ks: seq<bv8>, key: bv8): (r: seq<bv8>)
    ensures |r| == |ks|
  {
    match IndexOf(ks, 0)
    case Some(i) => ks[i := key]
    case None => ks
  }

  /** Key codes after clearKey: the first entry equal to the key is zeroed. */
  function KeysCleared(ks: seq<bv8>, key: bv8): (r: seq<bv8>)
    ensures |r| == |ks|
  {
    match IndexOf(ks, key)
    case Some(i) => ks[i := 0]
    case None => ks
  }

  /** Key codes after toggleKey. */
  function KeysToggled(ks: seq<bv8>, key: bv8): (r: seq<bv8>)
    ensures |r| == |ks|
  {
    match IndexOf(ks, key)
    case Some(i) => ks[i := 0]
    case None => KeysAdded(ks, key)
  }

  class Report {
    var mods: bv8
    const keys: array<bv8>

    ghost predicate Valid()
      reads this
    {
      keys.Length == KeySlots
    }

    function Value(): ReportValue
      reads this, keys
    {
      ReportValue(mods, keys[..])
    }

    constructor ()
      ensures Valid() && fresh(keys) && Value() == EmptyReport
    {
      mods := 0;
      keys := new bv8[KeySlots](_ => 0);
      new;
      assert keys[..] == [0, 0, 0, 0, 0, 0];
    }

    /** Copy construction from a snapshot (`auto copy = report`). */
    constructor FromValue(v: ReportValue)
      requires |v.keys| == KeySlots
      ensures Valid() && fresh(keys) && Value() == v
    {
      mods := v.mods;
      keys := new bv8[KeySlots](i => if 0 <= i < |v.keys| then v.keys[i] else 0);
      new;
      assert keys[..] == v.keys;
    }

    /** operator==: a byte-for-byte comparison of the packed struct. */
    method Equals(other: Report) returns (eq: bool)
      requires Valid() && other.Valid()
      ensures eq <==> Packed(Value()) == Packed(other.Value())
      ensures eq <==> mods == other.mods && forall i :: 0 <= i < KeySlots ==> keys[i] == other.keys[i]
    {
      if mods != other.mods {
        assert Packed(Value())[0] != Packed(other.Value())[0];
        return false;
      }
      var i := 0;
      while i < KeySlots
        invariant 0 <= i <= KeySlots
        invariant forall j :: 0 <= j < i ==> keys[j] == other.keys[j]
      {
        if keys[i] != other.keys[i] {
          assert Packed(Value())[i + 1] != Packed(other.Value())[i + 1];
          return false;
        }
        i := i + 1;
      }
      assert keys[..] == other.keys[..];
      return true;
    }

    /** empty(): no modifier and no key. */
    function Empty(): (e: bool)
      requires Valid()
      reads this, keys
      ensures e <==> mods == 0 && forall i :: 0 <= i < KeySlots ==> keys[i] == 0
      ensures e <==> Value() == EmptyReport
    {
      assert Value() == EmptyReport ==> forall i :: 0 <= i < KeySlots ==> keys[..][i] == 0;
      assert (forall i :: 0 <= i < KeySlots ==> keys[i] == 0) ==> keys[..] == EmptyReport.keys;
      mods == 0 && keys[0] == 0 && keys[1] == 0 && keys[2] == 0 &&
      keys[3] == 0 && keys[4] == 0 && keys[5] == 0
    }

    method AddKey(key: bv8)
      requires Valid()
      modifies keys
      ensures keys[..] == KeysAdded(old(keys[..]), key)
    {
      var i := 0;
      while i < KeySlots
        invariant 0 <= i <= KeySlots
        invariant keys[..] == old(keys[..])
        invariant 0 !in keys[..i]
      {
        if keys[i] == 0 {
          assert IndexOf(keys[..], 0) == Some(i);
          keys[i] := key;
          return;
        }
        i := i + 1;
      }
      assert keys[..i] == keys[..];
    }

    method ClearKey(key: bv8)
      requires Valid()
      modifies keys
      ensures keys[..] == KeysCleared(old(keys[..]), key)
    {
      var i := 0;
      while i < KeySlots
        invariant 0 <= i <= KeySlots
        invariant keys[..] == old(keys[..])
        invariant key !in keys[..i]
      {
        if keys[i] == key {
          assert IndexOf(keys[..], key) == Some(i);
          keys[i] := 0;
          return;
        }
        i := i + 1;
      }
      assert keys[..i] == keys[..];
    }

    method ToggleKey(key: bv8)
      requires Valid()
      modifies keys
      ensures keys[..] == KeysToggled(old(keys[..]), key)
    {
      var i := 0;
      while i < KeySlots
        invariant 0 <= i <= KeySlots
        invariant keys[..] == old(keys[..])
        invariant key !in keys[..i]
      {
        if keys[i] == key {
          assert IndexOf(keys[..], key) == Some(i);
          keys[i] := 0;
          return;
        }
        i := i + 1;
      }
      assert keys[..i] == keys[..];
      AddKey(key);
    }

    /** clear(): memset of the whole struct. */
    method Clear()
      requires Valid()
      modifies this, keys
      ensures Valid() && Value() == EmptyReport
    {
      mods := 0;
      var i := 0;
      while i < KeySlots
        invariant 0 <= i <= KeySlots
        invariant mods == 0
        invariant forall j :: 0 <= j < i ==> keys[j] == 0
      {
        keys[i] := 0;
        i := i + 1;
      }
      assert keys[..] == EmptyReport.keys;
    }
  }

  /** addKey writes the key into the lowest-index zero entry and changes
      nothing else; with no zero entry it changes nothing. */
  lemma AddKeyEffect(ks: seq<bv8>, key: bv8)
    ensures 0 !in ks ==> KeysAdded(ks, key) == ks
    ensures 0 in ks ==> exists i :: (0 <= i < |ks| && ks[i] == 0 && (forall j :: 0 <= j < i ==> ks[j] != 0) &&
                                     KeysAdded(ks, key) == ks[i := key])
  {
    if 0 in ks {
      var i := IndexOf(ks, 0).value;
      assert ks[i] == 0 && (forall j :: 0 <= j < i ==> ks[j] != 0) && KeysAdded(ks, key) == ks[i := key];
    }
  }

  /** clearKey zeroes only the first entry equal to the key. */
  lemma ClearKeyEffect(ks: seq<bv8>, key: bv8)
    ensures key !in ks ==> KeysCleared(ks, key) == ks
    ensures key in ks ==> exists i :: (0 <= i < |ks| && ks[i] == key && (forall j :: 0 <= j < i ==> ks[j] != key) &&
                                       KeysCleared(ks, key) == ks[i := 0])
  {
    if key in ks {
      var i := IndexOf(ks, key).value;
      assert ks[i] == key && (forall j :: 0 <= j < i ==> ks[j] != key) && KeysCleared(ks, key) == ks[i := 0];
    }
  }

  /** toggleKey is clearKey when the key is present and addKey otherwise. */
  lemma ToggleIsClearOrAdd(ks: seq<bv8>, key: bv8)
    ensures KeysToggled(ks, key) == if key in ks then KeysCleared(ks, key) else KeysAdded(ks, key)
  {
  }

  /** Pressing a key that is not in a report with room, then clearing it,
      restores the report; toggling it twice does the same. */
  lemma AddThenClear(ks: seq<bv8>, key: bv8)
    requires key != 0 && key !in ks && 0 in ks
    ensures KeysCleared(KeysAdded(ks, key), key) == ks
    ensures KeysToggled(KeysToggled(ks, key), key) == ks
  {
    var i := IndexOf(ks, 0).value;
    var a := ks[i := key];
    assert KeysAdded(ks, key) == a;
    assert forall j :: 0 <= j < i ==> a[j] != key;
    assert IndexOf(a, key) == Some(i);
    assert a[i := 0] == ks;
  }

  /** The other keys of the report survive addKey, and the added key is
      present afterwards when there was room. */
  lemma AddKeyKeepsOthers(ks: seq<bv8>, key: bv8, other: bv8)
    requires other != 0 && other in ks
    ensures other in KeysAdded(ks, key)
    ensures 0 in ks ==> key in KeysAdded(ks, key)
  {
    var k :| 0 <= k < |ks| && ks[k] == other;
    if 0 in ks {
      var i := IndexOf(ks, 0).value;
      assert KeysAdded(ks, key)[k] == other;
      assert KeysAdded(ks, key)[i] == key;
    }
  }
}
