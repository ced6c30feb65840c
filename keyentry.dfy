/** The 16-bit keymap entry: a union of bitfield views that share the low
    4-bit `type` field.  With GCC's little-endian, low-bit-first bitfield
    packing, each view reads fixed bit ranges of `raw`. */
module KeyEntry {
  /** KeyEntryType */
  const BasicKey: bv16 := 0
  const ConsumerKey: bv16 := 1
  const SystemKey: bv16 := 2
  const FunctionKey: bv16 := 3
  const MacroKey: bv16 := 4
  const LayerKey: bv16 := 5
  const DualRoleKey: bv16 := 6

  /** BasicKeyMods */
  const LeftControl: bv8 := 1
  const LeftShift: bv8 := 2
  const LeftAlt: bv8 := 4
  const LeftGui: bv8 := 8
  const Hyper: bv8 := 15

  /** Views of the union. */
  function EntryType(raw: bv16): bv16 { raw & 0xF }
  /** basic.mods and dual.mods: bits 4..7. */
  function Mods(raw: bv16): bv8 { ((raw >> 4) & 0xF) as bv8 }
  /** basic.code and dual.code: the high byte. */
  function Code(raw: bv16): bv8 { (raw >> 8) as bv8 }
  /** extra.usage and func.funcid: bits 4..15. */
  function Usage(raw: bv16): bv16 { raw >> 4 }
  /** layer.momentary: bit 4. */
  function Momentary(raw: bv16): bool { (raw >> 4) & 1 == 1 }
  /** layer.layerid: the high byte. */
  function LayerId(raw: bv16): bv8 { (raw >> 8) as bv8 }

  /** The constexpr constructors; each bitfield keeps only its low bits. */
  function BasicKeyEntry(code: bv8, mods: bv8): (raw: bv16)
    ensures EntryType(raw) == BasicKey && Code(raw) == code && Mods(raw) == mods & 0xF
  {
    (code as bv16 << 8) | ((mods & 0xF) as bv16 << 4) | BasicKey
  }

  function DualRoleKeyEntry(code: bv8, mods: bv8): (raw: bv16)
    ensures EntryType(raw) == DualRoleKey && Code(raw) == code && Mods(raw) == mods & 0xF
  {
    (code as bv16 << 8) | ((mods & 0xF) as bv16 << 4) | DualRoleKey
  }

  /** ExtraKeyEntry (ConsumerKey or SystemKey) and FunctionKeyEntry
      (FunctionKey or MacroKey): a type and a 12-bit payload. */
  function ExtraKeyEntry(t: bv16, usage: bv16): (raw: bv16)
    requires t < 16
    ensures EntryType(raw) == t && Usage(raw) == usage & 0xFFF
  {
    (usage << 4) | t
  }

  function LayerKeyEntry(layerid: bv8, momentary: bool): (raw: bv16)
    ensures EntryType(raw) == LayerKey && LayerId(raw) == layerid && Momentary(raw) == momentary
  {
    (layerid as bv16 << 8) | (if momentary then 0x10 else 0) | LayerKey
  }

  /** The default-constructed entry is all zero: a BasicKey with no code
      and no modifiers. */
  lemma DefaultEntry()
    ensures EntryType(0) == BasicKey && Code(0) == 0 && Mods(0) == 0
    ensures BasicKeyEntry(0, 0) == 0
  {
  }

  /** Every entry is determined by its type and the fields of its view:
      re-encoding what a view reads gives the raw value back. */
  lemma BasicRoundTrip(raw: bv16)
    requires EntryType(raw) == BasicKey
    ensures BasicKeyEntry(Code(raw), Mods(raw)) == raw
  {
  }

  lemma DualRoleRoundTrip(raw: bv16)
    requires EntryType(raw) == DualRoleKey
    ensures DualRoleKeyEntry(Code(raw), Mods(raw)) == raw
  {
  }

  lemma ExtraRoundTrip(raw: bv16)
    ensures ExtraKeyEntry(EntryType(raw), Usage(raw)) == raw
  {
  }

  lemma LayerRoundTrip(raw: bv16)
    requires EntryType(raw) == LayerKey && (raw >> 5) & 7 == 0
    ensures LayerKeyEntry(LayerId(raw), Momentary(raw)) == raw
  {
  }
}
