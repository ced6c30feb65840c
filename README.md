# clacker in Dafny

A model of the core of clacker, a keyboard project made of two halves:
AVR keyboard firmware written in C++ on FreeRTOS, and Python host tools
that build that firmware and lay out keyboard PCBs and cases. Each core
source file is one Dafny module in one file. The module takes the file's
own form: classes with `modifies` frames and loops with invariants where
the source updates state in place, and datatypes, functions and lemmas
where the source only computes.

Firmware key pipeline:

- `keyprocessor.dfy` (`KeyProcessor`) models the `KeyboardState` slot table: slot reuse, aging, tap and toggle.
- `keyentry.dfy` (`KeyEntry`) models the packed keymap entries.
- `report.dfy` (`Reports`) models the packed 7-byte report of src/libs/keyprocessor/Report.h. It holds the modifier byte and the six key codes of the boot keyboard report in Appendix B.1 of the USB HID 1.11 class definition. It leaves out B.1's reserved byte, which the BLE report string puts back as "-00-".
- `dispatcher.dfy` (`Dispatcher`) models `DispatcherTask`. It turns matrix bit changes into scan codes, resolves layers, builds reports and runs the byte-code macro interpreter.
- `scanner.dfy` (`MatrixScanning`) models the double-buffered matrix scan through the port expander.

Firmware support libraries:

- `fixedstring.dfy` (`FixedStrings`): the bounded string buffer and `compareSequences`.
- `copy.dfy` (`Copying`): `copy` and `copy_n`.
- `smallestinteger.dfy` (`SmallestInteger`): integer-width selection and `numeric_traits`.
- `avrgpio.dfy` (`AvrGpio`): the pin-to-port bit mapping.
- `timer.dfy` (`Timers`): timer configuration and register-bit encoding.
- `spifriend.dfy` (`SpiFriend`): Adafruit SDEP framing, AT-command fragmentation and reassembly, and the BLE report strings.
- `result.dfy` (`Results`): the three-state `Result`.

Host tools:

- `utils.dfy`, `targets.dfy`, `arduino.dfy`, `openscad.dfy`, `kle.dfy` and `matrix.dfy` model `utils.py`, `targets.py`, `arduino.py`, `openscad.py`, `kle.py` and `matrix.py`.
- `spatialmap.dfy` (`SpatialIndex`), `dijkstra.dfy` (`ShortestPath`), `msteinertree.dfy` (`SteinerTree`) and `layerassign.dfy` (`LayerAssign`) model the router.

Shared helpers:

- `wrappers.dfy` holds `Wrappers` (Option and Result), `Bytes` (8- and 16-bit helpers) and `Seqs` (generic sequence lemmas).

Modelling conventions:

- Machine integers are unbounded in Dafny, so the model writes their widths out:
  - On the AVR target `int` is 16 bits, so differences of `uint16_t` tick values are taken modulo 2^16.
  - Registers and bytes are `bv8` or bounded `int`.
- The dispatcher and the scanner require at most 16 columns and the scanner at most 8 rows. The source enforces both with the `static_assert`s at src/libs/keymatrix/ScannerWithExpander.h:14-15.
- Python floats become `real` in the shortest-path search, the layer assigner, the KLE layout reader (`kle.dfy`), the spatial map (`spatialmap.dfy`) and `bounds_of` (`utils.dfy`). The Steiner tree works on integer coordinates, and OpenSCAD values are integers, strings, lists and `None`.
- Shapely and scipy geometry enters as parameters:
  - the intersects/crosses test of the spatial map is a function value;
  - the gap, detour and blocking geometry of the layer assigner is a `Geometry` record of functions.
- SPI transfers, pin readings and the clock that the SDEP driver sees are scripted input sequences. The driver's writes are returned as traces.

Where the code and its comments disagree, the model follows the code:

- `compareSequences` (src/libs/strings/FixedString.h:20-51) is documented to return -1, 0 or 1.
  - It actually returns the byte difference when one range is a proper prefix of the other (`FixedStrings.ComparePrefix`).
  - The sign still agrees with the documentation (`FixedStrings.CompareNegativeIffLess`), which is all its callers use.
- `vertices` (tools/circuitlib/router/spatialmap.py:9-23) treats only `MultiPolygon` and `GeometryCollection` as collections of parts. Any other multi-part shape raises.
- `Timer.h` asks for `numeric_traits<...>::maximum()`, but `SmallestInteger.h` defines only `max()`. The model reads both as the same limit.

## Model

| member | source | states |
|---|---|---|
| KeyProcessor.IndexOfCode | src/libs/keyprocessor/KeyProcessor.h:104-108 | the exact-match scan finds the first slot holding the scan code, and finds none exactly when no slot holds it |
| KeyProcessor.Oldest | src/libs/keyprocessor/KeyProcessor.h:120-126 | the oldest candidate is a released slot with the least event time, the first one on ties, and there is none exactly when no slot is released |
| KeyProcessor.KeyboardState.constructor | src/libs/keyprocessor/KeyProcessor.h:36-37 | a fresh table of Rollover slots is all zero |
| KeyProcessor.KeyboardState.FindSlot | src/libs/keyprocessor/KeyProcessor.h:99-138 | the single pass of `findSlot`, with its early return and its `available`/`oldest` bookkeeping, returns the slot `ChooseSlot` names |
| KeyProcessor.KeyboardState.AgeSlots | src/libs/keyprocessor/KeyProcessor.h:88-94 | `ageSlots` leaves the table as `Aged` describes, each slot aged independently |
| KeyProcessor.KeyboardState.UpdateKeyState | src/libs/keyprocessor/KeyProcessor.h:39-67 | `updateKeyState` returns false exactly when no slot is available, and leaves the table as `Updated` describes |
| KeyProcessor.KeyboardState.Clear | src/libs/keyprocessor/KeyProcessor.h:70-72 | `clear` makes every slot all zero |
| KeyProcessor.ExactMatchFirst | src/libs/keyprocessor/KeyProcessor.h:104-108 | a slot already tracking the scan code is chosen before any other |
| KeyProcessor.ChooseWithoutMatch | src/libs/keyprocessor/KeyProcessor.h:110-137 | without an exact match `findSlot` picks the first unused slot, else the oldest released slot, else nothing |
| KeyProcessor.AgingEffect | src/libs/keyprocessor/KeyProcessor.h:88-94 | aging never touches a pressed slot, and forgets exactly the released slots whose last event is more than the tapping interval ago in uint16_t arithmetic; nothing but the scan code changes |
| KeyProcessor.NoSlotOnlyAges | src/libs/keyprocessor/KeyProcessor.h:40-47 | when no slot is available the table is only aged; the slots themselves are unchanged because the full table holds only pressed keys |
| KeyProcessor.UpdateEffect | src/libs/keyprocessor/KeyProcessor.h:49-66 | the chosen slot records the scan code, direction and time, its prior time and its toggle streak follow the two branches, and every other slot is only aged |
| KeyProcessor.TapExtendsStreak | src/libs/keyprocessor/KeyProcessor.h:49-51 | a key that keeps its slot and flips within the tapping interval extends its toggle streak, which wraps at 128 in the 7-bit field |
| KeyProcessor.UpdatePreservesDistinct | src/libs/keyprocessor/KeyProcessor.h:39-67 | `updateKeyState` never makes two slots track the same non-zero scan code |
| KeyProcessor.ClearedDistinct | src/libs/keyprocessor/KeyProcessor.h:70-72 | after `clear` no non-zero scan code is tracked |
| KeyEntry.BasicKeyEntry | src/libs/keyprocessor/KeyProcessor.h:163-172 | a `BasicKeyEntry` reads back as a BasicKey with its code and the low four bits of its modifiers |
| KeyEntry.DualRoleKeyEntry | src/libs/keyprocessor/KeyProcessor.h:212-218 | a `DualRoleKeyEntry` reads back as a DualRoleKey with its code and the low four bits of its modifiers |
| KeyEntry.ExtraKeyEntry | src/libs/keyprocessor/KeyProcessor.h:177-196 | an `ExtraKeyEntry` or `FunctionKeyEntry` reads back its type and the low 12 bits of its payload |
| KeyEntry.LayerKeyEntry | src/libs/keyprocessor/KeyProcessor.h:202-210 | a `LayerKeyEntry` reads back as a LayerKey with its layer id and momentary flag |
| KeyEntry.DefaultEntry | src/libs/keyprocessor/KeyProcessor.h:220 | the default entry is raw 0: a BasicKey with no code and no modifiers |
| KeyEntry.BasicRoundTrip | src/libs/keyprocessor/KeyProcessor.h:163-172 | every BasicKey raw value is re-encoded exactly from its code and modifiers |
| KeyEntry.DualRoleRoundTrip | src/libs/keyprocessor/KeyProcessor.h:212-218 | every DualRoleKey raw value is re-encoded exactly from its code and modifiers |
| KeyEntry.ExtraRoundTrip | src/libs/keyprocessor/KeyProcessor.h:177-196 | every raw value is re-encoded exactly from its type and 12-bit payload |
| KeyEntry.LayerRoundTrip | src/libs/keyprocessor/KeyProcessor.h:202-210 | every LayerKey raw value with zero spare bits is re-encoded exactly from its layer id and momentary flag |
| Reports.Report.constructor | src/libs/keyprocessor/Dispatcher.h:184 | a default report is the empty report: no modifiers and six zero key codes |
| Reports.Report.FromValue | src/libs/keyprocessor/Dispatcher.h:224 | copying a report gives a separate report with the same modifiers and key codes |
| Reports.Report.Equals | src/libs/keyprocessor/Report.cpp:5-7 | `operator==` holds exactly when the packed bytes are equal, that is when the modifiers and all six key codes agree |
| Reports.Report.Empty | src/libs/keyprocessor/Report.cpp:8-11 | `empty()` holds exactly when the modifiers and all six key codes are zero, so exactly for the cleared report |
| Reports.Report.AddKey | src/libs/keyprocessor/Report.cpp:13-20 | the loop of `addKey` leaves the key codes as `AddKeyEffect` describes |
| Reports.Report.ClearKey | src/libs/keyprocessor/Report.cpp:22-29 | the loop of `clearKey` leaves the key codes as `ClearKeyEffect` describes |
| Reports.Report.ToggleKey | src/libs/keyprocessor/Report.cpp:31-41 | the loop of `toggleKey`, with its fall-through to `addKey`, leaves the key codes as `ToggleIsClearOrAdd` describes |
| Reports.Report.Clear | src/libs/keyprocessor/Report.cpp:43-45 | `clear()` zeroes the modifiers and every key code |
| Reports.AddKeyEffect | src/libs/keyprocessor/Report.cpp:13-20 | `addKey` writes the key into the lowest-index zero entry and changes nothing else; with no zero entry it changes nothing |
| Reports.ClearKeyEffect | src/libs/keyprocessor/Report.cpp:22-29 | `clearKey` zeroes only the first entry equal to the key, and changes nothing when the key is absent |
| Reports.ToggleIsClearOrAdd | src/libs/keyprocessor/Report.cpp:31-41 | `toggleKey` is `clearKey` when the key is present and `addKey` otherwise |
| Reports.AddThenClear | src/libs/keyprocessor/Report.cpp:13-41 | adding a new non-zero key to a report with room and then clearing it restores the report; toggling it twice does the same |
| Reports.AddKeyKeepsOthers | src/libs/keyprocessor/Report.cpp:13-20 | `addKey` keeps every key already pressed, and the added key is present afterwards when there was room |
| Dispatcher.LoadEntry | src/libs/keyprocessor/Dispatcher.h:64-74 | `loadEntry` yields the current layer's entry for the scan code, or the base layer's entry when a non-zero layer leaves it all-zero; a zero result means the base layer has no entry either |
| Dispatcher.ApplyChangesAppend | src/libs/keyprocessor/Dispatcher.h:79-90 | feeding two batches of key changes one after the other is feeding their concatenation |
| Dispatcher.RowChangesExact | src/libs/keyprocessor/Dispatcher.h:82-89 | the column loop of a row reports exactly the columns whose bit differs, each with scan code row * ColCount + column + 1 and the current bit as its state |
| Dispatcher.MatrixChangesExact | src/libs/keyprocessor/Dispatcher.h:79-90 | the row/column loop reports exactly the matrix bits that differ between the prior and current scans, with their scan codes and new states |
| Dispatcher.RowNoChange | src/libs/keyprocessor/Dispatcher.h:85 | a row equal to its prior value reports no change |
| Dispatcher.NoChangeNoUpdate | src/libs/keyprocessor/Dispatcher.h:79-90 | an unchanged matrix leaves the key-state table untouched |
| Dispatcher.LayerStepEffect | src/libs/keyprocessor/Dispatcher.h:99-124 | a fresh pressed layer key switches to its layer, a fresh released momentary one restores layer 0, and nothing else moves the layer |
| Dispatcher.LayerPassStable | src/libs/keyprocessor/Dispatcher.h:99-125 | without a slot whose event is at or after the last update the first pass keeps the layer |
| Dispatcher.PressStepEffect | src/libs/keyprocessor/Dispatcher.h:131-164 | a held key's entry: a BasicKey with no code and no mods contributes nothing, a modifier usage contributes its mods and its modifier bit, another usage is added to the report with its mods, a dual-role key contributes only its mods, consumer and system keys are forwarded |
| Dispatcher.DualRoleTap | src/libs/keyprocessor/Dispatcher.h:174-191 | a released dual-role key tapped within the tapping interval adds its code and sends the mods-only report followed by the 32 ms delay; a slower release does nothing |
| Dispatcher.SecondPassModsGrow | src/libs/keyprocessor/Dispatcher.h:127-206 | the second pass only ever adds modifier bits, and keeps the report well formed |
| Dispatcher.SecondPassAppends | src/libs/keyprocessor/Dispatcher.h:127-206 | the second pass only appends to what the dispatcher has already received |
| Dispatcher.ModifierBitIsOneBit | src/libs/keyprocessor/Dispatcher.h:237-240 | each modifier usage from LEFT_CONTROL to RIGHT_GUI owns exactly one mods bit |
| Dispatcher.ModifierOpEffect | src/libs/keyprocessor/Dispatcher.h:237-253 | in a macro, Down sets, Up clears and Toggle flips exactly the usage's mods bit |
| Dispatcher.MacroModifierStep | src/libs/keyprocessor/Dispatcher.h:237-253 | a macro operation on a modifier usage only changes the mods and leaves a report pending |
| Dispatcher.MacroKeyStep | src/libs/keyprocessor/Dispatcher.h:255-267 | a macro operation on another usage applies `addKey`, `clearKey` or `toggleKey`, sends the report with a 32 ms delay and clears the pending flag |
| Dispatcher.MacroStop | src/libs/keyprocessor/Dispatcher.h:269-279 | MacroEnd sends the pending report, if any, and any other byte ends the macro silently |
| Dispatcher.ModifierMacroReportsOnce | src/libs/keyprocessor/Dispatcher.h:227-281 | a macro of modifier operations followed by MacroEnd sends a single report, with the key codes unchanged |
| Dispatcher.MacroReportsWellFormed | src/libs/keyprocessor/Dispatcher.h:223-282 | every report a macro sends is well formed when it starts from a well-formed report |
| Dispatcher.DispatcherTask.constructor | src/libs/keyprocessor/Dispatcher.h:300-302 | `run` starts from an empty key table, layer 0 and a last update tick of 0 |
| Dispatcher.DispatcherTask.ApplyMatrix | src/libs/keyprocessor/Dispatcher.h:79-90 | the nested loop feeds the key table exactly the changes `MatrixChangesExact` describes, in row-major order |
| Dispatcher.DispatcherTask.ApplyRow | src/libs/keyprocessor/Dispatcher.h:82-89 | the column loop of one row feeds the key table that row's changes in column order |
| Dispatcher.DispatcherTask.UpdateLayer | src/libs/keyprocessor/Dispatcher.h:99-125 | the first pass sets the layer to what the layer steps over the slots in order give |
| Dispatcher.DispatcherTask.PressSlot | src/libs/keyprocessor/Dispatcher.h:131-164 | one held slot of the second pass updates the report and the sent events as `PressStepEffect` describes |
| Dispatcher.DispatcherTask.ReleaseSlot | src/libs/keyprocessor/Dispatcher.h:165-205 | one freshly released slot updates the report, the sent events and the tapped macro key as the release step describes |
| Dispatcher.DispatcherTask.BuildReport | src/libs/keyprocessor/Dispatcher.h:94-206 | the second pass clears the report and folds every slot into it, the sent events and the tapped macro key |
| Dispatcher.DispatcherTask.RunMacro | src/libs/keyprocessor/Dispatcher.h:223-282 | `runMacro` interprets the macro stream on a copy of the report and sends exactly the events the macro interpreter describes |
| Dispatcher.DispatcherTask.UpdateKeyState | src/libs/keyprocessor/Dispatcher.h:76-221 | `updateKeyState` applies the matrix changes, runs both passes and any tapped macro, sends the report, and records the tick |
| Dispatcher.DispatcherTask.OutcomeEndsWithReport | src/libs/keyprocessor/Dispatcher.h:208-220 | every update only appends to what the dispatcher has received and ends by sending the well-formed report of the second pass |
| Dispatcher.DispatcherTask.Outcome | src/libs/keyprocessor/Dispatcher.h:208-220 | one update keeps a state for every key and ends by sending a basic report |
| FixedStrings.CompareSequences | src/libs/strings/FixedString.h:22-51 | `compareSequences` walks both ranges while neither has ended and returns the reference comparison of the two ranges |
| FixedStrings.CompareAntisymmetric | src/libs/strings/FixedString.h:22-51 | swapping the operands of `compareSequences` negates its result |
| FixedStrings.CompareZeroIffEqual | src/libs/strings/FixedString.h:77-97 | for ranges without NUL bytes the comparison is 0 exactly when the contents are equal, so `==` and `!=` are equality of contents |
| FixedStrings.CompareSameLength | src/libs/strings/FixedString.h:99-115 | ranges of the same length compare 0 exactly when they are equal, whatever bytes they hold, which is what `endsWith` relies on |
| FixedStrings.LexLessCons | src/libs/strings/FixedString.h:32-45 | a common first element leaves the unsigned lexicographic order to the rest |
| FixedStrings.LexLessHead | src/libs/strings/FixedString.h:37-42 | a larger first element is never lexicographically less |
| FixedStrings.CompareNegativeIffLess | src/libs/strings/FixedString.h:20-51 | for NUL-free ranges the result is negative exactly when the left range is lexicographically less, comparing bytes as unsigned |
| FixedStrings.ComparePrefix | src/libs/strings/FixedString.h:47-50 | when the left range is a proper prefix the result is minus the next byte of the right range, not the -1 the header comment promises |
| FixedStrings.ConstStringTest | src/libs/strings/test_strings.cpp:8-14 | "woto" equals "woto" and differs from "wooo", "w" and "waaaaa" |
| FixedStrings.StrLen | src/libs/strings/FixedString.h:83-86 | `strlen` counts the bytes before the first NUL, all of which are non-NUL |
| FixedStrings.EndsWith | src/libs/strings/FixedString.h:99-106 | `endsWith(other)` holds exactly when `other` is no longer than the string and equals its last `other.size()` bytes |
| FixedStrings.EndsWithCStr | src/libs/strings/FixedString.h:108-115 | `endsWith(const Char*)` is the same test against the bytes before the NUL |
| FixedStrings.AppendedBounds | src/libs/strings/FixedString.h:185-198 | an append keeps the old contents, adds a prefix of the source, never exceeds the capacity, adds everything exactly when it fits and otherwise fills the buffer |
| FixedStrings.AppendedTwice | src/libs/strings/FixedString.h:118-121 | two appends in a row leave what one append of the concatenation leaves, so once the buffer is full later appends change nothing |
| FixedStrings.AppendedFull | src/libs/strings/FixedString.h:118-121 | once a prefix of the source no longer fits, the rest of the source changes nothing |
| FixedStrings.TruncationTest | src/libs/strings/test_strings.cpp:16-24 | "hello" then "there" then "woot" in a 12-character string leaves "hellotherewo" |
| FixedStrings.HexDigitRoundTrip | src/libs/strings/FixedString.h:226-231 | `_toHexDigit` maps 0-9 to '0'-'9' and 10-15 to 'A'-'F', and each digit reads back as its nibble |
| FixedStrings.HexDigits8RoundTrip | src/libs/strings/FixedString.h:233-241 | the two digits `appendHex(uint8_t)` produces read back as the byte |
| FixedStrings.HexDigits16RoundTrip | src/libs/strings/FixedString.h:243-259 | the four digits `appendHex(uint16_t)` produces read back as the word |
| FixedStrings.MutableString.constructor | src/libs/strings/FixedString.h:138 | the default constructor gives an empty string with zero-filled storage |
| FixedStrings.MutableString.FromLiteral | src/libs/strings/FixedString.h:128-147 | construction from a literal that fits holds its characters followed by zeros |
| FixedStrings.MutableString.Clear | src/libs/strings/FixedString.h:161-163 | `clear()` empties the string and changes only the size |
| FixedStrings.MutableString.RTrim | src/libs/strings/FixedString.h:178-183 | `rtrim()` leaves the contents with trailing CR and LF removed |
| FixedStrings.RTrimmedShape | src/libs/strings/FixedString.h:178-183 | the trimmed contents are a prefix of the old ones, only CR and LF were dropped, and none is left at the end |
| FixedStrings.MutableString.Append | src/libs/strings/FixedString.h:185-198 | `append(src, len)` copies as much as fits, writes the terminator after a non-empty copy, and returns whether everything fit |
| FixedStrings.MutableString.AppendIter | src/libs/strings/FixedString.h:200-210 | the iterator `append(first, len)` has the same effect, copying with `copy_n` |
| FixedStrings.MutableString.AppendRange | src/libs/strings/FixedString.h:212-215 | `append(first, last)` appends the range |
| FixedStrings.MutableString.AppendCStr | src/libs/strings/FixedString.h:217-219 | `append(cstr)` appends the bytes before the NUL |
| FixedStrings.MutableString.AppendString | src/libs/strings/FixedString.h:221-224 | `append(other)` appends the other string's contents |
| FixedStrings.MutableString.AppendDigits | src/libs/strings/FixedString.h:233-259 | one-byte appends in turn, stopping at the first that fails, leave the truncated append of all the digits and report whether all fit |
| FixedStrings.MutableString.AppendHex8 | src/libs/strings/FixedString.h:233-241 | `appendHex(uint8_t)` appends the two hex digits as far as they fit and succeeds exactly when both fit |
| FixedStrings.MutableString.AppendHex16 | src/libs/strings/FixedString.h:243-259 | `appendHex(uint16_t)` appends the four hex digits as far as they fit and succeeds exactly when all fit |
| Copying.Spliced | src/libs/traits/Copy.h:6-12 | the destination after a copy keeps its length |
| Copying.SplicedReadsBack | src/libs/traits/Copy.h:6-12 | the copied range reads back as the source elements and every element outside it is unchanged |
| Copying.Copy | src/libs/traits/Copy.h:6-12 | `copy` writes the source elements in order from `d_first` on, touches nothing else, and returns `d_first` advanced by the element count |
| Copying.CopyN | src/libs/traits/Copy.h:14-23 | `copy_n` writes the first `count` elements when `count > 0`, dereferencing the input `count` times and advancing it `count - 1` times, and writes nothing for `count <= 0`; the result is `result + max(count, 0)` |
| SmallestInteger.SmallestIntegerBitsTable | src/libs/traits/SmallestInteger.h:6-26 | `smallest_integer_bits<N>` picks uint8_t for 0-7, uint16_t for 8-15, uint32_t for 16-31 and uint64_t from 32 on |
| SmallestInteger.WidthHoldsBits | src/libs/traits/SmallestInteger.h:3-26 | below 64 the chosen type is strictly wider than N bits, so it has a bit for each of N columns |
| SmallestInteger.MaxValues | src/libs/traits/SmallestInteger.h:31-69 | `numeric_traits<T>::max()` as intended is 0xFF, 0xFFFF, 0xFFFF_FFFF and 0xFFFF_FFFF_FFFF_FFFF |
| SmallestInteger.MaxOverflows | src/libs/traits/SmallestInteger.h:31-69 | `(1 << w) - 1` evaluated in a 16-bit `int` is defined only for the 8-bit type; in a 32-bit `int` only for the 8- and 16-bit types |
| SmallestInteger.SmallestIntegerMaxFirstFit | src/libs/traits/SmallestInteger.h:71-85 | `smallest_integer_max<N>` picks a type whose maximum is at least N, and every narrower candidate's maximum is below N |
| AvrGpio.MapBitSingle | src/libs/gpio/AvrGpio.h:62-79 | `map_bit` yields the pin's own bit exactly when the pin is on the port and bit i of x is set, and 0 otherwise |
| AvrGpio.MapBitsExpanded | src/libs/gpio/AvrGpio.h:94-104 | `map_bits` is the OR of what each of T0..T7 contributes |
| AvrGpio.MapBitBit | src/libs/gpio/AvrGpio.h:73-77 | bit b of `map_bit` is set iff the pin is on the port at bit b and bit i of x is set |
| AvrGpio.MapBitsBit | src/libs/gpio/AvrGpio.h:94-104 | bit b of `map_bits(x)` is set iff some listed pin on the port owns bit b and the corresponding bit of x is set |
| AvrGpio.MapBitsRoutes | src/libs/gpio/AvrGpio.h:94-104 | with distinct pins, every listed pin on the port receives the corresponding bit of x |
| AvrGpio.MaskBits | src/libs/gpio/AvrGpio.h:106-114 | bit b is in the port's mask iff some listed pin on the port owns it |
| AvrGpio.MaskZeroIffNoPin | src/libs/gpio/AvrGpio.h:106-114 | the mask is 0 exactly when no listed pin is on the port, which selects the no-op `write_bits` |
| AvrGpio.MapBitsWithinMask | src/libs/gpio/AvrGpio.h:94-114 | `map_bits` never sets a bit outside the port's mask |
| AvrGpio.WriteBitsKeepsUnowned | src/libs/gpio/AvrGpio.h:128-147 | `write_bits` leaves every bit that no listed pin owns unchanged |
| AvrGpio.WriteBitsRoutes | src/libs/gpio/AvrGpio.h:128-147 | after `write_bits` every listed pin on the port holds the corresponding bit of x |
| AvrGpio.WriteBitsOwnedBit | src/libs/gpio/AvrGpio.h:128-132 | a bit inside the mask takes its value from `map_bits(x)` |
| AvrGpio.MapBitsAllOnes | src/libs/gpio/AvrGpio.h:94-114 | `map_bits(0xff)` is the port's mask |
| AvrGpio.WriteAllOnes | src/libs/gpio/AvrGpio.h:351-364 | `do_setup_pins(0xff)` ORs exactly the listed pins' bits into the DDR |
| AvrGpio.AOnlyTest | src/libs/gpio/test_gpio.cpp:47-56 | with A0..A7 in order, setup makes port A all outputs and every byte written lands unchanged in port A |
| AvrGpio.AAndBTest | src/libs/gpio/test_gpio.cpp:58-114 | the register values expected by the "A and B" test for setup and for each write |
| AvrGpio.PinUpdateBits | src/libs/gpio/AvrGpio.h:182-196 | `set`, `clear` and `toggle` change only the pin's bit, to 1, to 0 or to its complement |
| AvrGpio.PinBitsAsMasks | src/libs/gpio/AvrGpio.h:160-189 | clearing or setting a pin's bit is masking the register with the pin's mask |
| AvrGpio.OutputBitOps | src/libs/gpio/AvrGpio.h:185-199 | after `set` the pin reads high, after `clear` low, and `toggle` inverts what it reads |
| AvrGpio.PinReadBit | src/libs/gpio/AvrGpio.h:167-199 | both `read` tests (`== mask` for outputs, `!= 0` for inputs) are true exactly when the pin's bit is set |
| AvrGpio.InputDdrsAt | src/libs/gpio/AvrGpio.h:160-161 | `setupPin` clears exactly the pin's bit in its port's DDR; `NoInputPin` changes nothing |
| AvrGpio.PullUpRegsAt | src/libs/gpio/AvrGpio.h:162-164 | `setupPin` sets the pin's PORT bit exactly when it is a pull-up pin |
| AvrGpio.InputsDdrsAt | src/libs/gpio/AvrGpio.h:491-500 | after `InputPins::setup` every listed pin's DDR bit is clear and every other DDR bit keeps its value |
| AvrGpio.InputsPullUpsAt | src/libs/gpio/AvrGpio.h:491-500 | after `InputPins::setup` the PORT bits of the pull-up pins are set and every other PORT bit keeps its value |
| AvrGpio.AllPortsWriteAt | src/libs/gpio/AvrGpio.h:416-458 | `OutputPins::setup` and `write` give each port's register `write_bits` for that port applied to its own old value: the per-port stores do not interfere |
| AvrGpio.Ports.constructor | src/libs/gpio/AvrGpio.h:19-28 | a fresh register file has zero DDR and PORT registers and the given input levels |
| AvrGpio.Ports.SetupOutput | src/libs/gpio/AvrGpio.h:182-184 | `OutputPin::setup` ORs the pin's mask into its port's DDR and changes nothing else |
| AvrGpio.Ports.Set | src/libs/gpio/AvrGpio.h:185-187 | `set` ORs the pin's mask into its port's register, after which the pin reads high |
| AvrGpio.Ports.Clear | src/libs/gpio/AvrGpio.h:188-190 | `clear` clears the pin's bit, after which the pin reads low |
| AvrGpio.Ports.Write | src/libs/gpio/AvrGpio.h:191-193 | `write(x)` sets or clears the pin, after which it reads x |
| AvrGpio.Ports.Toggle | src/libs/gpio/AvrGpio.h:194-196 | `toggle` flips the pin's bit, after which it reads the opposite of before |
| AvrGpio.Ports.SetupInput | src/libs/gpio/AvrGpio.h:160-165 | `InputPin::setup` clears the pin's DDR bit and, for a pull-up pin, sets its PORT bit |
| AvrGpio.Ports.SetupPin | src/libs/gpio/AvrGpio.h:463-469 | `setupPin` is the pin's setup, and does nothing for `NoInputPin` |
| AvrGpio.Ports.SetupInputs | src/libs/gpio/AvrGpio.h:491-500 | `InputPins::setup` runs `setupPin` for T0..T7 in turn, giving the register files that `InputsDdrsAt` and `InputsPullUpsAt` describe |
| AvrGpio.Ports.ReadInputsBit | src/libs/gpio/AvrGpio.h:502-506 | bit k of `InputPins::read` is set iff T<k> is a real pin that reads high |
| AvrGpio.Ports.ReadPinBit | src/libs/gpio/AvrGpio.h:471-479 | `readPin(1 << i)` has only bit i set, and only when the pin is real and reads high |
| AvrGpio.Ports.SetupPortPins | src/libs/gpio/AvrGpio.h:341-364 | `do_setup_pins<Port>(0xff)` stores `write_bits` into that port's DDR only |
| AvrGpio.Ports.WritePortPins | src/libs/gpio/AvrGpio.h:367-390 | `do_write_pins<Port>(x)` stores `write_bits` into that port's PORT register only |
| AvrGpio.Ports.SetupOutputs | src/libs/gpio/AvrGpio.h:416-436 | `OutputPins::setup` applies `do_setup_pins(0xff)` to every port in turn |
| AvrGpio.Ports.WriteOutputs | src/libs/gpio/AvrGpio.h:438-458 | `OutputPins::write(x)` applies `do_write_pins(x)` to every port in turn |
| Timers.CounterLimit | src/libs/timer/Timer.h:256-257 | the counter limit is the maximum of the timer's resolution type: 255 for Timer0, 65535 for Timer1 |
| Timers.Sub32 | src/libs/timer/Timer.h:260 | the `- 1` is uint32_t arithmetic: exact when no borrow, otherwise wrapped by 2^32 |
| Timers.ComputeTimerConfigFirstFit | src/libs/timer/Timer.h:250-283 | `computeTimerConfig` picks the first prescaler of 1, 8, 64, 256, 1024 whose compare value fits the counter, with that compare value; every earlier prescaler's value exceeds the limit; only 1024 may be returned over range |
| Timers.RatioFirstFit | src/libs/timer/Timer.h:259-280 | the same first-fit property for the cascade stated on any quotient F_CPU / frequency |
| Timers.ComputeTimerConfigNoUnderflow | src/libs/timer/Timer.h:260-276 | when frequency <= F_CPU the chosen compare value is exactly (F_CPU / frequency) / prescale - 1 with no wrap-around |
| Timers.RatioNoUnderflow | src/libs/timer/Timer.h:260-276 | the same no-wrap property on a quotient of at least 1 |
| Timers.ComputeTimerConfigAboveClock | src/libs/timer/Timer.h:256-282 | a frequency above F_CPU makes every candidate wrap to 2^32 - 1, so Prescale1024 is returned with compare 0xFFFFFFFF |
| Timers.ClockBits | src/libs/timer/Timer.h:64-88 | the CS bits ORed into TCCRnB encode the clock source's enumerator value |
| Timers.SetupBitsRoundTrip | src/libs/timer/Timer.h:141-203 | with the corrected Timer0 table, the register pair that `setup` writes decodes back to exactly the requested waveform mode and clock source for both timers |
| Timers.Timer0AsWrittenMisconfigures | src/libs/timer/Timer.h:44-51 | as written, Timer0 in CTC mode with Prescale1 decodes as Normal mode clocked at /64, because WGM01 is ORed into TCCR0B where bit 1 is CS01 |
| Timers.Timer0ModeBitsAsWritten | src/libs/timer/Timer.h:35-62 | the Timer0 mode table as written puts WGM00 in TCCR0A and WGM02 in bit 3 of TCCR0B, but WGM01 in bit 1 of TCCR0B instead of TCCR0A |
| Timers.Timer0ModeBits | src/libs/timer/Timer.h:35-62 | the corrected Timer0 table writes WGM01:0 of the data-sheet mode number into bits 1:0 of TCCR0A and WGM02 into bit 3 of TCCR0B |
| Timers.ModeBits | src/libs/timer/Timer.h:147-175 | for both timers, the mode bits are the data-sheet WGM number split as WGMn1:0 in TCCRnA and WGMn3:2 in bits 4:3 of TCCRnB |
| Timers.TimerRegisters.constructor | src/libs/timer/Timer.h:31 | a fresh timer has all its registers zero |
| Timers.TimerRegisters.Setup | src/libs/timer/Timer.h:32-99 | `setup(mode, source)` writes the mode bits to TCCRnA and the mode bits ORed with the clock bits to TCCRnB, resets the counter, and leaves the compare register and the interrupt mask unchanged |
| Timers.TimerRegisters.SetupCompare | src/libs/timer/Timer.h:101-116 | `setup(mode, source, compare)` also stores the compare value and sets OCIEnA in the interrupt mask |
| Timers.TimerRegisters.SetupTimer | src/libs/timer/Timer.h:285-292 | `setupTimer(frequency)` programs CTC mode with the computed clock source and the computed compare value truncated to the resolution type |
| MatrixScanning.DriveLowBit | src/libs/keymatrix/ScannerWithExpander.h:31 | the row write `~(1 << row)` clears exactly the bit of the scanned row |
| MatrixScanning.ComplementMeaning | src/libs/keymatrix/ScannerWithExpander.h:34-36 | the stored row is the bitwise complement of the expander reading in the row type's width; a 32-bit row holds the 16-bit complement with the upper half zero |
| MatrixScanning.ScannedRows | src/libs/keymatrix/ScannerWithExpander.h:30-40 | the scan stores one row per reading, each the complement of its reading |
| MatrixScanning.RowScans | src/libs/keymatrix/ScannerWithExpander.h:30-40 | the scan drives each row and reads the expander once per row, two events a row |
| MatrixScanning.Scanner.constructor | src/libs/keymatrix/ScannerWithExpander.h:13-16 | the constructor admits at most 8 rows and 16 columns |
| MatrixScanning.Scanner.Setup | src/libs/keymatrix/ScannerWithExpander.h:18-23 | `setup()` zeroes the current matrix, sets up the row pins and the expander, and drives every row low |
| MatrixScanning.Scanner.ScanMatrix | src/libs/keymatrix/ScannerWithExpander.h:25-44 | `scanMatrix()` saves the current matrix as the prior one, stores the complemented reading of each row, returns whether the matrix changed, and ends by driving every row low |
| MatrixScanning.PrefixDiffers | src/libs/keymatrix/ScannerWithExpander.h:37-39 | after one more row the matrices differ exactly when they differed before or the new row differs |
| MatrixScanning.ChangedIffSomeRowDiffers | src/libs/keymatrix/ScannerWithExpander.h:28-43 | a scan reports a change exactly when some row's new value differs from the one in the previous scan |
| MatrixScanning.OnlyScannedRowLow | src/libs/keymatrix/ScannerWithExpander.h:30-36 | while row r is read only row r is driven low |
| SpiFriend.FrameRoundTrip | src/libs/spifriend/SPIFriend.h:31-62 | the packed 20-byte layout of `SdepMsg` is a bijection between frames and 20-byte blocks |
| SpiFriend.CommandMsg | src/libs/spifriend/SPIFriend.h:42-49 | the command constructor makes a command frame carrying the command code, with length 0 and `more` clear |
| SpiFriend.DataMsg | src/libs/spifriend/SPIFriend.h:51-60 | the data constructor makes a command frame carrying the command code and the data, with `more` set only when asked for and the payload is full |
| SpiFriend.FrameTailContents | src/libs/spifriend/SPIFriend.h:141-145 | what `send` writes after the type byte is the little-endian command, the length byte with `more` in bit 7, and the first `len` payload bytes |
| SpiFriend.Expiry | src/libs/spifriend/SPIFriend.h:150 | the retry loop runs until the first clock reading at which `now - start < timeout` fails in 16-bit tick arithmetic |
| SpiFriend.SendOutcome | src/libs/spifriend/SPIFriend.h:135-152 | `send` succeeds exactly when the module stops answering "not ready" before the timeout has passed, and never polls the IRQ pin |
| SpiFriend.SendReadyAt | src/libs/spifriend/SPIFriend.h:140-146 | a send that finds the module ready at attempt i backs off i times, then writes the frame tail once and releases chip select |
| SpiFriend.SendExpiresAt | src/libs/spifriend/SPIFriend.h:140-151 | a send refused at attempt i whose following clock check finds the time up backs off i + 1 times, writes nothing and fails |
| SpiFriend.Send | src/libs/spifriend/SPIFriend.h:135-152 | the do-while loop of `send` produces the outcome `SendOutcome` describes |
| SpiFriend.WaitOutcome | src/libs/spifriend/SPIFriend.h:154-164 | `waitForSpiData` succeeds exactly when the IRQ pin reads high before the timeout has passed, and touches no SPI byte |
| SpiFriend.WaitHighAt | src/libs/spifriend/SPIFriend.h:156-159 | a wait whose IRQ pin first reads high at poll i succeeds after i polls |
| SpiFriend.WaitExpiresAt | src/libs/spifriend/SPIFriend.h:156-163 | a wait whose time runs out after poll i with the pin still low fails |
| SpiFriend.WaitForSpiData | src/libs/spifriend/SPIFriend.h:154-164 | the polling loop of `waitForSpiData` produces the outcome `WaitOutcome` describes |
| SpiFriend.ReadOutcome | src/libs/spifriend/SPIFriend.h:171-196 | the reading part of `recv` succeeds exactly when a type byte other than "not ready" and "overflow" arrives before the timeout, and then returns a frame of an accepted type |
| SpiFriend.RecvOutcome | src/libs/spifriend/SPIFriend.h:166-197 | `recv` fails without touching SPI when the wait fails, and otherwise is the reading part; a successful receive consumes bytes and yields a frame of an accepted type |
| SpiFriend.ReadAcceptedAt | src/libs/spifriend/SPIFriend.h:175-192 | a receive whose first accepted type byte is at attempt i backs off i times, then reads the header and, when `len` is at most 16, the payload |
| SpiFriend.ReadExpiresAt | src/libs/spifriend/SPIFriend.h:175-196 | a receive whose time runs out after refused attempt i fails, keeping the last type byte read in the message |
| SpiFriend.ReadMsg | src/libs/spifriend/SPIFriend.h:171-196 | the do-while loop of `recv` produces the outcome `ReadOutcome` describes |
| SpiFriend.Recv | src/libs/spifriend/SPIFriend.h:166-197 | `recv` is the wait followed by the read |
| SpiFriend.Fragments | src/libs/spifriend/SPIFriend.h:236-246 | `atCommand` splits a command into valid AT-wrapper command frames of at most 16 bytes each, at least one |
| SpiFriend.FragmentCount | src/libs/spifriend/SPIFriend.h:236-246 | an n-byte command takes max(1, ceil(n / 16)) frames |
| SpiFriend.FragmentFlags | src/libs/spifriend/SPIFriend.h:236-246 | every frame but the last is full with `more` set; the last holds the remaining bytes with `more` clear |
| SpiFriend.FragmentsReassemble | src/libs/spifriend/SPIFriend.h:236-246 | the payloads of the frames concatenate to the command |
| SpiFriend.SendWrites | src/libs/spifriend/SPIFriend.h:135-152 | a send writes the frame tail once if it succeeds and writes nothing otherwise |
| SpiFriend.SendFramesWrites | src/libs/spifriend/SPIFriend.h:236-250 | when every send succeeds exactly the frame tails are written, in order |
| SpiFriend.CommandOnTheWire | src/libs/spifriend/SPIFriend.h:231-250 | when all the frames of a command are sent, the data written to the module concatenates back to the command |
| SpiFriend.ReceivedData | src/libs/spifriend/SPIFriend.h:189-191 | the payload a received frame actually holds: its first `len` bytes, or nothing for an over-long frame whose payload `recv` skips |
| SpiFriend.OverlongFrameReadsPastPayload | src/libs/spifriend/SPIFriend.h:189-258 | as written, a frame announcing 17 bytes is accepted by `recv` without its payload and `append(msg.payload, msg.len)` then asks for 17 bytes from a 16-byte array |
| SpiFriend.ReceiveAll | src/libs/spifriend/SPIFriend.h:253-263 | the receive loop of `atCommand` never grows the response beyond its capacity and yields only valid frames |
| SpiFriend.ResponseOf | src/libs/spifriend/SPIFriend.h:252-263 | the response read after the last frame stays within the string's capacity |
| SpiFriend.ReceiveAllReassembles | src/libs/spifriend/SPIFriend.h:252-263 | the response is the received payloads appended in order with truncation at capacity; every frame but the last has `more` set, and a complete response ends with the first frame whose `more` is clear |
| SpiFriend.ReceiveAllStep | src/libs/spifriend/SPIFriend.h:253-263 | one turn of the receive loop: a failed recv ends it with the text so far, otherwise the payload is appended and the loop ends or continues on `more` |
| SpiFriend.AtCommandSucceeds | src/libs/spifriend/SPIFriend.h:231-273 | `atCommand` succeeds only when every frame was sent, the module received the command, the whole response arrived, and the response trimmed of trailing CR and LF ends with "OK" |
| SpiFriend.AtOutcome | src/libs/spifriend/SPIFriend.h:231-273 | `atCommand` fails with the response string untouched when a frame of the command is not sent, and succeeds only with a response ending in "OK" |
| SpiFriend.AtCommandFails | src/libs/spifriend/SPIFriend.h:236-257 | a failed send leaves the response string as it was, and a failed receive leaves the data received so far, untrimmed |
| SpiFriend.SendFramesPrepend | src/libs/spifriend/SPIFriend.h:236-250 | sending a frame followed by more frames is the first send and, only if it succeeded, the rest |
| SpiFriend.FragmentsStep | src/libs/spifriend/SPIFriend.h:236-244 | a command longer than one frame is a full frame followed by the fragments of the rest, ending with the same final frame |
| SpiFriend.SendCommand | src/libs/spifriend/SPIFriend.h:236-250 | the sending loop of `atCommand` sends the fragments in order, stops at the first failure, and on success leaves the final frame in the message buffer |
| SpiFriend.ReceiveResponse | src/libs/spifriend/SPIFriend.h:252-263 | the receiving loop clears `result` and leaves in it exactly the text `ResponseOf` describes |
| SpiFriend.AwaitReply | src/libs/spifriend/SPIFriend.h:252-272 | the receiving half of `atCommand` reads the response into `result`, trims it, and succeeds exactly when it ends with "OK" |
| SpiFriend.AtCommand | src/libs/spifriend/SPIFriend.h:231-273 | `atCommand` as a whole, including passing the same string as command and result, leaves `result` holding the text of the outcome `AtOutcome` describes |
| SpiFriend.KeyboardCodeHeadLayout | src/libs/spifriend/SPIFriend.h:321-325 | the first 27 characters of a key report's command: the prefix, the modifiers' two hex digits, "-00-" and the first key's two digits |
| SpiFriend.KeyboardCodeLayout | src/libs/spifriend/SPIFriend.h:321-335 | a key report's command has 42 characters, so it fits the 48-character string, with the modifiers' digits at offset 19 and key k's at 25 + 3k |
| SpiFriend.KeyboardCodeParses | src/libs/spifriend/SPIFriend.h:321-335 | every two-digit field of a key report's command parses back to the byte it came from |
| SpiFriend.ControlKeyLayout | src/libs/spifriend/SPIFriend.h:340-342 | a consumer key's command has 26 characters and its last four parse back to the code |
| SpiFriend.InitializeFrame | src/libs/spifriend/SPIFriend.h:219 | the software reset frame is a command frame for BleInitialize with no payload, whose tail on the wire is EF BE 00 |
| SpiFriend.Driver.constructor | src/libs/spifriend/SPIFriend.h:113-116 | a driver starts with the given reset mode and whatever its last report held |
| SpiFriend.Driver.Reset | src/libs/spifriend/SPIFriend.h:209-228 | `reset` clears the last report, powers on, and either pulses the reset line or sends the initialize frame; a failed send fails the reset and skips the 1 s delay |
| SpiFriend.Driver.Dispatch | src/libs/spifriend/SPIFriend.h:315-345 | a key report equal to the last one is dropped; a new one is formatted, sent with `atCommand` and becomes the last report; a consumer key is always sent |
| SpiFriend.AppendFitting | src/libs/strings/FixedString.h:185-198 | appending text that fits the string appends all of it |
| SpiFriend.AppendHexFitting | src/libs/strings/FixedString.h:233-241 | `appendHex` of a byte that fits appends its two hex digits |
| SpiFriend.AppendKeyField | src/libs/spifriend/SPIFriend.h:326-327 | each further key code appends "-" and its two hex digits |
| SpiFriend.FormatKeyReportHead | src/libs/spifriend/SPIFriend.h:321-325 | the start of the key-report case leaves `cmdStr` holding the 27-character head |
| SpiFriend.FormatKeyReport | src/libs/spifriend/SPIFriend.h:321-335 | the key-report case leaves `cmdStr` holding the full formatted command |
| SpiFriend.FormatControlKey | src/libs/spifriend/SPIFriend.h:340-342 | the consumer-key case leaves `cmdStr` holding the prefix and the code's four hex digits |
| SpiFriend.KeyReportOnTheWire | src/libs/spifriend/SPIFriend.h:318-336 | when all its frames are sent, the module receives exactly the formatted key report command, in three frames |
| Results.ValueOf | src/libs/result/Result.h:168-199 | reading the value succeeds exactly in the value state and yields the value; an empty result panics with "Uninitialized Result" and an error result with "Result holds Error, not Value" |
| Results.ErrorOf | src/libs/result/Result.h:201-232 | reading the error succeeds exactly in the error state and yields the error; an empty result panics with "Uninitialized Result" and a value result with "Result holds Value, not Error" |
| Results.ExactlyOneState | src/libs/result/Result.h:156-166 | exactly one of `hasValue()`, `hasError()` and `empty()` holds |
| Results.AccessorsExclusive | src/libs/result/Result.h:168-232 | `value()` and `error()` never both succeed, both panic exactly on an empty result, and then with the same reason |
| Results.Result.constructor | src/libs/result/Result.h:21 | the default constructor gives the empty state |
| Results.Result.Ok | src/libs/result/Result.h:35-48 | `Ok(value)` and the value constructors give the value state holding the value |
| Results.Result.Error | src/libs/result/Result.h:50-63 | `Error(error)` and the error constructors give the error state holding the error |
| Results.Result.MoveFrom | src/libs/result/Result.h:79-95 | move construction takes over the other result's state and payload and leaves the other result empty |
| Results.Result.CopyFrom | src/libs/result/Result.h:122-135 | copy construction reproduces the other result and leaves it unchanged |
| Results.Result.MoveAssign | src/libs/result/Result.h:97-120 | move assignment takes over the other result and empties it; assigning a result to itself changes nothing |
| Results.Result.CopyAssign | src/libs/result/Result.h:137-154 | copy assignment reproduces the other result and leaves it unchanged, including on self-assignment |
| Results.Result.GetValue | src/libs/result/Result.h:182-199 | `value()` succeeds exactly when `hasValue()` and then yields the held value |
| Results.Result.GetError | src/libs/result/Result.h:215-232 | `error()` succeeds exactly when `hasError()` and then yields the held error |
| Utils.Pairwise | tools/utils.py:4-8 | `pairwise` yields one pair fewer than the input has elements (none for 0 or 1), and pair i is (s[i], s[i + 1]) |
| Utils.PairwiseChain | tools/utils.py:4-8 | consecutive pairs overlap: the second half of one pair is the first half of the next |
| Utils.PairwiseSnoc | tools/utils.py:4-8 | pairing a sequence extended by one element adds exactly one pair, joining the old last element to the new one |
| Utils.BoundsOf | tools/utils.py:11-21 | the loop of `bounds_of` computes the enclosing box: the origin for no shapes, and otherwise a box containing the origin and every shape |
| Utils.EnclosingContainsOrigin | tools/utils.py:13 | the result always contains the origin, because the fold starts from [0, 0, 0, 0] |
| Utils.EnclosingContainsAll | tools/utils.py:14-19 | the result encloses every input box |
| Utils.EnclosingIsLeast | tools/utils.py:11-21 | the result is the least such box: any box containing the origin and every input contains it |
| Utils.EnclosingAttained | tools/utils.py:16-19 | each component of the result is 0 or the same component of some input |
| Targets.FullName | tools/targets.py:17 | the full name of a target is its directory, a colon, and its name |
| Targets.ResolveDep | tools/targets.py:46-54 | a target instance resolves to itself; a name starting with ':' is taken relative to the target's directory; a name not registered raises "depends on ..., but no such target exists"; an empty name raises |
| Targets.ResolveAll | tools/targets.py:45-54 | resolving a list of dependencies succeeds exactly when each resolves, and then yields their targets in order |
| Targets.SkipCovered | tools/targets.py:56-58 | a dependency already in `uniq` is skipped and the loop's invariant still holds |
| Targets.AppendExpansion | tools/targets.py:60-63 | a dependency not yet covered is added to `uniq`, its own expansion is listed, then the dependency itself, and the loop's invariant still holds |
| Targets.Completed | tools/targets.py:45-65 | once every dependency is looped over the list is the expansion of the target: distinct, new to `uniq`, all reachable from it, and each listed after what it pulled in |
| Targets.FailureBelow | tools/targets.py:45-62 | a dependency whose expansion raises makes the expansion of the target raise too |
| Targets.ExpansionTopological | tools/targets.py:36-38 | with no cycle among the reachable targets the list is topologically sorted: every dependency of a listed target was covered before the call or is listed earlier |
| Targets.Registry.constructor | tools/targets.py:8 | the registry starts empty |
| Targets.Registry.Register | tools/targets.py:12-18 | constructing a target stores it under its full name, replacing an earlier target of that name and keeping every other entry |
| Targets.Registry.ExpandDeps | tools/targets.py:42-43 | `_expand_deps()` without a set starts from an empty one; its result lists each target at most once, and it raises only when some reachable target's dependencies do not resolve |
| Targets.Registry.ExpandWith | tools/targets.py:36-65 | `_expand_deps(uniq)` returns the expansion of the target from `uniq` and the grown set, and raises only when some reachable target's dependencies do not resolve |
| Targets.Registry.ExpandDep | tools/targets.py:45-63 | one turn of the loop over the dependencies: it resolves the next one, skips it when already covered, otherwise lists its expansion followed by itself, keeping the partial expansion invariant; it raises only when the target cannot be resolved all the way down |
| Targets.DepFailure | tools/targets.py:61-62 | a dependency that is not resolvable all the way down makes the target naming it unresolvable |
| Arduino.SplitFirst | tools/arduino.py:56-57 | `split("=", 1)` gives two columns exactly when the line has an '=', and they are the text before the first '=' and the text after it |
| Arduino.RStripNewlines | tools/arduino.py:56 | `rstrip('\n')` removes exactly the trailing run of newlines |
| Arduino.PrefsOfKeys | tools/arduino.py:53-59 | a key is in the preferences exactly when some line with an '=' starts with it |
| Arduino.PrefsOfLastWins | tools/arduino.py:55-58 | a key's value comes from the last line defining it |
| Arduino.ParsePrefs | tools/arduino.py:89-93 | the line loops of `load_prefs` and `board_prefs` build the dictionary `PrefsOfKeys` and `PrefsOfLastWins` describe, `load_prefs` after stripping trailing newlines |
| Arduino.MatchAt | tools/arduino.py:101 | the pattern `\{([a-zA-Z0-9_._+-]+)\}` matches at i exactly when '{', a non-empty run of name characters and '}' start there, and the group is that run |
| Arduino.Search | tools/arduino.py:113 | `r.search` finds the leftmost match, and finds none exactly when no position matches |
| Arduino.ReplaceAbsent | tools/arduino.py:132 | `str.replace` leaves text without the pattern alone |
| Arduino.ReplaceFirst | tools/arduino.py:132 | `str.replace` replaces the first occurrence and resumes scanning after it |
| Arduino.ReplaceBySelf | tools/arduino.py:132-135 | replacing a pattern by itself changes nothing, which is what ends the loop through `value == before` |
| Arduino.ReplaceWhole | tools/arduino.py:132 | a whole string that is the pattern is replaced by the replacement |
| Arduino.Split | tools/arduino.py:104 | `key.split('.')` yields at least one part and no part contains '.' |
| Arduino.JoinSplit | tools/arduino.py:104 | joining the parts with '.' gives back the key |
| Arduino.BuildPath | tools/arduino.py:103-108 | the path loop makes entry i the first i + 1 parts joined by '.' |
| Arduino.PathEntries | tools/arduino.py:103-108 | the path entries run from the first component to the key itself, each a prefix of the key that ends just before a '.' |
| Arduino.PathOf | tools/arduino.py:103-108 | the path has one entry per part of the key, entry i the running join |
| Arduino.LookupKey | tools/arduino.py:117-125 | a placeholder name that is a key is used as it is; otherwise the first "entry.name" along the path that is a key; otherwise none |
| Arduino.Round | tools/arduino.py:111-135 | one pass of the loop does nothing exactly when no placeholder is left |
| Arduino.RoundsResult | tools/arduino.py:110-136 | a returned value is free of placeholders, or is a fixed point whose substitution leaves it unchanged |
| Arduino.RoundsFailure | tools/arduino.py:126-130 | resolution raises "could not resolve prefs" only for a placeholder that is neither a key nor found along the path, and that placeholder is the first in the value |
| Arduino.MutualReferenceDiverges | tools/arduino.py:110-135 | two preferences naming each other, "{a}" and "{b}", never settle: the loop keeps substituting however many rounds it is given |
| Arduino.ArduinoPrefs.constructor | tools/arduino.py:42-59 | the stored preferences are those `load_prefs` parses from the lines of the preferences file |
| Arduino.ArduinoPrefs.ResolvePref | tools/arduino.py:96-136 | `resolve_pref` uses the stored preferences when none or an empty dictionary is given, raises KeyError for a missing key, and otherwise runs the substitution rounds from the key's value along the key's path |
| OpenScad.ScadRepr | tools/openscad.py:80-83 | `scad_repr` puts a string between double quotes exactly as it is, and gives `repr` of anything else; a string nested in a list is written as Python's `repr` writes it |
| OpenScad.ScadReprKeepsQuotes | tools/openscad.py:80-83 | a double quote inside a string is kept as it is: nothing is escaped |
| OpenScad.PyQuote | tools/openscad.py:80-83 | Python's `repr` of a string uses double quotes exactly when the string holds an apostrophe and no double quote, and apostrophes otherwise |
| OpenScad.UnescapeChar | tools/openscad.py:80-83 | each character's escape in `repr` reads back as that character, whatever follows it |
| OpenScad.PyStrReprRoundTrip | tools/openscad.py:80-83 | `repr` of a string can be read back to the string: the quote is chosen, and the backslash, the chosen quote and control characters are escaped, so that nothing is lost |
| OpenScad.PyStrReprPlain | tools/openscad.py:80-83 | a string of printable ASCII without a backslash, and without both kinds of quote, appears in `repr` unchanged between its quotes |
| OpenScad.ReprOfSingleton | tools/openscad.py:80-83 | a one-element list is written as the element's `repr` between brackets |
| OpenScad.NestedApostrophe | tools/openscad.py:80-83 | `scad_repr(["it's"])` is `["it's"]`: the nested string switches to double quotes |
| OpenScad.NestedBackslash | tools/openscad.py:80-83 | a backslash in a nested string is doubled |
| OpenScad.NestedBothQuotes | tools/openscad.py:80-83 | a nested string with both quotes keeps apostrophes as its quote and escapes them inside |
| OpenScad.NestedControl | tools/openscad.py:80-83 | newline and tab in a nested string become `\n` and `\t`, and other control characters `\x` and two hex digits |
| OpenScad.Elements | tools/openscad.py:89-91 | iterating a string yields its one-character strings and iterating a list yields its items |
| OpenScad.PrettyItemsAt | tools/openscad.py:86-94 | each item of `pretty_pairs` is the nested listing of an iterable longer than 3 and `scad_repr` of anything else |
| OpenScad.LongStringSpelledOut | tools/openscad.py:89-91 | a string longer than 3 characters is spelled out as a nested listing of its one-character strings |
| OpenScad.DirectionOffsets | tools/openscad.py:41-57 | `up`, `down`, `left`, `right`, `forward` and `back` each translate along one axis by the amount, opposite directions by opposite vectors |
| OpenScad.TranslateOffset | tools/openscad.py:35-36 | `translate(v)` wraps the action in a translate operator whose `v` parameter is the vector |
| OpenScad.Params | tools/openscad.py:156-162 | the parameters are one per keyword argument, in order |
| OpenScad.NumberingPartitions | tools/openscad.py:103-117 | the index lists `add_path` builds, read in order, are 0, 1, ..., n-1 for the n points: they partition the point list |
| OpenScad.NumberingNamesPoints | tools/openscad.py:106-113 | the i-th index list has one index per point of the i-th ring, and each index names that point in the point list |
| OpenScad.ChildTextsSpec | tools/openscad.py:165-169 | rendering an operator's children fails exactly when one is not an action or fails to render; otherwise each line is that child's text |
| OpenScad.ChildFailureSticks | tools/openscad.py:165-169 | once a child raises, the operator raises with that first error |
| OpenScad.ModuleFailureSticks | tools/openscad.py:185-186 | once an action of a module raises, the module raises with that first error |
| OpenScad.JoinEnds | tools/openscad.py:171 | `'\n'.join` of at least two lines starts with the first line and a newline and ends with a newline and the last line |
| OpenScad.OperatorLines | tools/openscad.py:155-171 | an operator whose children render is its header line, a line per child, and a closing brace line |
| OpenScad.NonActionChildRaises | tools/openscad.py:166-169 | a child that is not an action makes the operator raise |
| OpenScad.ColorHeader | tools/openscad.py:38-39 | `color` passes its argument positionally, giving the header "color(<value>) {" |
| OpenScad.ModuleNameIgnored | tools/openscad.py:184 | as written, a module's header line is the literal "module %s() {", so two modules with the same actions render identically whatever they are called |
| OpenScad.NamedModuleHeader | tools/openscad.py:184 | the header a module evidently means to write: "module ", its name, then "() {" |
| OpenScad.NamedModulesDiffer | tools/openscad.py:184 | with the name substituted, modules of different names get different headers |
| OpenScad.ShapeLeaves | tools/openscad.py:122-137 | for a geometry of polygons without empty collections, `Shape` builds a union tree whose leaves are exactly its polygons, in order |
| OpenScad.OtherGeomRaises | tools/openscad.py:134-137 | a leaf that is not a polygon makes `Shape` raise "unhandled geom: <type>", also inside a collection |
| OpenScad.ShapeNestsLeft | tools/openscad.py:125-130 | three parts fold to union(union(p1, p2), p3) |
| OpenScad.RenderPolygon | tools/openscad.py:102-119 | `Polygon.render`, with its `add_path` loops, produces the polygon text over the numbered rings |
| OpenScad.Render | tools/openscad.py:4-9 | rendering any action, with the loops of `Operator.render` and `Module.render`, gives its text or the first error |
| OpenScad.RenderParams | tools/openscad.py:156-163 | the parameter loop of `Operator.render` gives one parameter per keyword argument: `scad_repr` alone for `_`, "name=value" otherwise |
| OpenScad.RenderOperator | tools/openscad.py:155-171 | `Operator.render` gives the header line, each child's text, then "}", or raises for a child that is not an action |
| OpenScad.RenderChildren | tools/openscad.py:165-169 | the loop over the children gives each child's text, or the first error |
| OpenScad.RenderModule | tools/openscad.py:183-188 | `Module.render` gives the literal header, each action's text, then "}" |
| OpenScad.ScadModule.constructor | tools/openscad.py:175-177 | a new module has its name and no actions |
| OpenScad.ScadModule.Add | tools/openscad.py:179-181 | `add` appends the action |
| OpenScad.Script.constructor | tools/openscad.py:192-194 | a new script has no modules and no actions |
| OpenScad.Script.Add | tools/openscad.py:208-217 | a module goes to the module list, and so does a module given as an action value, since the module test comes first (as a new module holding its name and actions); any other action goes to the action list, and anything else raises "unsupported type" without changing either |
| OpenScad.Script.Save | tools/openscad.py:196-206 | `save` leaves in its buffer, which `close` writes even when a render raises, what `SaveText` describes, and passes on the first render error |
| OpenScad.WriteAll | tools/openscad.py:198-199 | a write loop writes the actions' texts in order up to the first that raises, and passes on that error |
| OpenScad.EmitRenders | tools/openscad.py:198-199 | the write loop completes exactly when every action renders, and then writes every text in order |
| OpenScad.EmitFails | tools/openscad.py:198-199 | when the write loop raises, it raises the error of the first action that does not render, having written the texts of the actions before it |
| OpenScad.EmitSticks | tools/openscad.py:198-199 | once a render raises, no later action is rendered |
| OpenScad.SaveTextSpec | tools/openscad.py:196-206 | `save` raises exactly when some module or action does not render. A failing module leaves only the module texts before it. A failing action leaves every module text, the mirror header and the action texts before it, without the closing brace. Otherwise the buffer holds the module texts, "mirror([0, 1, 0]) {\n", the action texts and "}\n", in that order |
| Kle.Plus | tools/kle.py:60-61 | the `+` of an 'x' or 'y' property adds two numbers or concatenates two strings, and raises TypeError for anything else |
| Kle.ApplyPropsOverwrite | tools/kle.py:57-68 | after the property loop an attribute other than 'x' and 'y' holds the value of the last property that assigns it, or keeps its value, and the cluster origin is unchanged |
| Kle.ApplyPropSets | tools/kle.py:57-68 | one property sets an attribute other than 'x' and 'y' exactly when it assigns it, directly or through the property map |
| Kle.ApplyPropsOffset | tools/kle.py:60-62 | the 'x' and 'y' properties are added to the position |
| Kle.ApplyPropMoves | tools/kle.py:60-62 | one property adds its value to 'x' or 'y' when it names that attribute and leaves it alone otherwise |
| Kle.WidthProp | tools/kle.py:50-68 | 'w' sets both widths when nothing else in the object assigns them |
| Kle.Width2Prop | tools/kle.py:50-68 | 'w2' sets only the secondary width when nothing else in the object assigns the widths |
| Kle.LastSetterFirst | tools/kle.py:57-68 | when only the first property can assign an attribute, that property is its last setter or it has none |
| Kle.RecenterX | tools/kle.py:37-42 | an 'rx' property moves the key to the cluster origin (rx, old ry) and makes rx its rotation centre |
| Kle.RecenterY | tools/kle.py:43-48 | a 'ry' property moves the key to the cluster origin (old rx, ry) and makes ry its rotation centre |
| Kle.RecenterBoth | tools/kle.py:37-48 | 'rx' and 'ry' together move the key to the cluster origin (rx, ry), its rotation centre on both axes |
| Kle.Key.constructor | tools/kle.py:12-31 | a new key has the class defaults and cluster origin [0, 0] |
| Kle.Key.Update | tools/kle.py:33-68 | `update_with` leaves the key in the state the recentring and the property loop give, or raises with their error |
| Kle.Key.Advance | tools/kle.py:159-165 | after a key the running key moves right by its width and its sizes and secondary offsets are reset |
| Kle.Key.NextRow | tools/kle.py:167-168 | after a row the running key moves down one unit and back to its rotation centre's x |
| Kle.EmitCopies | tools/kle.py:152-155 | an emitted key copies the running key except that a zero secondary width or height takes the primary one, and its labels are the lines of the string |
| Kle.Name | tools/kle.py:170-171 | `name()` is the metadata's name, or "anon" when it has none |
| Kle.Load | tools/kle.py:134-168 | the loop of `Layout.__init__`, with `current` a mutable key, produces the layout the walk over the entries describes: metadata from a leading object, keys from the rows |
| Kle.LoadRow | tools/kle.py:147-165 | the inner loop over one row's items leaves the running key and the key list as the walk over the row describes |
| Kle.LoadItem | tools/kle.py:148-165 | a property dictionary updates the running key; a label emits a key and advances |
| Kle.ShortLabel | tools/kle.py:83-92 | `shortLabel` is the first label of length 1, or the first non-empty label not starting with '<', and "_" when there is none |
| Kle.InCluster | tools/kle.py:180-184 | the keys with a given cluster origin, in their original order |
| Kle.ClustersGroup | tools/kle.py:176-185 | `key_clusters` has a group for exactly the cluster origins that occur, each listing that origin's keys in order |
| Kle.ClustersCover | tools/kle.py:180-184 | every key lands in the group of its cluster origin |
| Kle.KeyClusters | tools/kle.py:176-185 | the loop of `key_clusters` builds the grouping `ClustersGroup` describes |
| Kle.PlainStep | tools/kle.py:152-160 | a label at a numeric position with unit width places its key there, and the running key moves one unit right |
| Kle.PlainRowWalk | tools/kle.py:147-165 | a row of labels only puts its keys one unit apart, left to right, from x = 0 on the current row |
| Kle.PlainEntry | tools/kle.py:143-168 | one entry of a plain layout places its row and moves to the next one |
| Kle.PlainLayoutIsGrid | tools/kle.py:134-168 | a layout of a metadata object and rows of labels only places key j of row i at (j, i) |
| Kle.EndRowMoves | tools/kle.py:167-168 | ending a row moves down one unit and back to the rotation centre's x, keeping the width and the rotation centre |
| Kle.AfterKeyMoves | tools/kle.py:159-165 | after a key the position moves right by the width, the sizes return to 1 and the secondary sizes and offsets to 0, with the row and rotation centre unchanged |
| Matrix.SparseGet | tools/matrix.py:24-28 | reading a `SparseList` past its end gives None, and reading inside gives the element |
| Matrix.SparseSet | tools/matrix.py:18-22 | assigning past the end pads with None up to the index; the index then holds the value and every other element is unchanged |
| Matrix.SparseGetSet | tools/matrix.py:17-28 | reading back an assignment gives the new value at that index and the old value everywhere else |
| Matrix.PutCell | tools/matrix.py:48-52 | storing a key in a cell, creating the row when it is missing, changes exactly that cell |
| Matrix.PutBounded | tools/matrix.py:51-53 | storing at a column no greater than the bound keeps every key within the bound |
| Matrix.BestCellUnique | tools/matrix.py:85-109 | the cell `placeCollision` picks is determined: free, in range, cheapest, and strictly cheaper than every free cell scanned before it |
| Matrix.Hex | tools/matrix.py:178 | `'%x'` gives at least one digit and no '_', and a single digit exactly below 16 |
| Matrix.HexInjective | tools/matrix.py:178 | different numbers have different hexadecimal spellings |
| Matrix.SplitAtUnderscore | tools/matrix.py:180 | two strings joined by '_' can be split again when neither first part has a '_' |
| Matrix.FirstUnderscore | tools/matrix.py:180 | the first '_' of `a + "_" + b` is the separator when `a` has none |
| Matrix.WideIdentifiersDistinct | tools/matrix.py:180 | with the `k%x_%x` format different cells have different identifiers |
| Matrix.CompactIdentifiersDistinct | tools/matrix.py:178 | with the `k%x%x` format cells in the first 16 rows and columns have different identifiers |
| Matrix.CompactIdentifiersCollide | tools/matrix.py:178 | past 15 the compact format is ambiguous: row 1, column 0x11 and row 0x11, column 1 are both "k111" |
| Matrix.IdentifiersDistinct | tools/matrix.py:168-183 | the format `assignIdentifiers` chooses gives every key of a matrix a different identifier |
| Matrix.RowKeys | tools/matrix.py:124-128 | a row's keys are empty exactly when every cell is None |
| Matrix.RowKeysConcat | tools/matrix.py:125-128 | the keys of joined rows are the keys of each, in order |
| Matrix.KeepRows | tools/matrix.py:121-130 | the first pass leaves only non-blank rows, and never more rows than before |
| Matrix.KeepRowsKeys | tools/matrix.py:121-130 | deleting blank rows keeps every key, in order |
| Matrix.DelCol | tools/matrix.py:140-141 | deleting a column keeps the number of rows |
| Matrix.DelColFails | tools/matrix.py:140-141 | deleting a column raises exactly when some row does not reach it |
| Matrix.DelCellKeys | tools/matrix.py:141 | deleting an empty cell keeps the row's keys |
| Matrix.DelColKeys | tools/matrix.py:132-141 | deleting a blank column keeps every row's keys |
| Matrix.SameRowKeys | tools/matrix.py:132-141 | rows with the same keys, row by row, have the same keys in row-major order |
| Matrix.DropColsKeys | tools/matrix.py:132-141 | the column pass keeps every key in row-major order and leaves no blank row |
| Matrix.RemoveBlankKeys | tools/matrix.py:118-141 | `removeBlankRowsAndCols` keeps every key in row-major order and leaves no blank row |
| Matrix.RemoveBlankRaises | tools/matrix.py:132-141 | a blank column beyond the end of a shorter row makes the pass raise: rows [k] and [k, None] with maxCols 1 fail |
| Matrix.MaxLen | tools/matrix.py:70-72 | the number of columns `dimensions` reports is at least the length of every row |
| Matrix.RowCells | tools/matrix.py:163-166 | the cells a row yields lie on that row and within the scanned columns |
| Matrix.Cells | tools/matrix.py:159-166 | the cells `keys()` yields lie within the scanned rows |
| Matrix.RowCellsComplete | tools/matrix.py:163-166 | a row yields exactly its occupied cells |
| Matrix.CellsComplete | tools/matrix.py:156-166 | `keys()` yields exactly the occupied cells |
| Matrix.RowCellsOrdered | tools/matrix.py:163-166 | a row yields its cells left to right |
| Matrix.CellsOrdered | tools/matrix.py:156-166 | `keys()` yields the cells in strictly increasing row-major order |
| Matrix.KeysIn | tools/matrix.py:182 | one key per yielded cell |
| Matrix.KeysInConcat | tools/matrix.py:182 | the keys of joined cell lists are the keys of each |
| Matrix.RowCellsKeys | tools/matrix.py:163-166 | the keys a row yields are its keys in order |
| Matrix.KeySeqSnoc | tools/matrix.py:159-162 | adding a row adds its keys at the end, and a missing row adds none |
| Matrix.CellsKeys | tools/matrix.py:156-166 | the keys `keys()` yields are the keys in row-major order, the order `removeBlankRowsAndCols` keeps |
| Matrix.Column | tools/matrix.py:252-259 | one column of the walk visits every row once, top to bottom or bottom to top |
| Matrix.ZigBounds | tools/matrix.py:247-259 | the first n columns of the walk give n times the height positions, all within those columns |
| Matrix.ZigDistinct | tools/matrix.py:252-259 | the walk never visits a position twice |
| Matrix.ZigCovers | tools/matrix.py:252-259 | the first n columns of the walk visit every position of those columns |
| Matrix.ZigzagVisitsBoxOnce | tools/matrix.py:233-259 | `zigzagpositions` visits every position of the box exactly once and nothing outside it |
| Matrix.CellBounded | tools/matrix.py:156-166 | a yielded cell lies within the rows and the column bound |
| Matrix.KeepRowsBounded | tools/matrix.py:121-130 | deleting rows keeps the column bound and leaves every row present |
| Matrix.DelColBounded | tools/matrix.py:140-141 | deleting a column moves keys left, never right |
| Matrix.DropColsBounded | tools/matrix.py:132-141 | the column pass keeps the column bound |
| Matrix.KeyboardMatrix.constructor | tools/matrix.py:31-37 | a new matrix has no rows, no collisions and zero counters |
| Matrix.KeyboardMatrix.AddKey | tools/matrix.py:39-56 | `addKey` raises the label width; the key goes to a free cell and raises maxCols, or is recorded as a collision and nothing else changes |
| Matrix.KeyboardMatrix.PlaceCollision | tools/matrix.py:78-116 | `placeCollision` puts the key into the cell `BestCellUnique` determines and raises maxCols |
| Matrix.KeyboardMatrix.ResolveCollisions | tools/matrix.py:59-61 | each collision lands, in turn, in the cell `placeCollision` picks given the cells filled before it; the rows and maxCols are those placements applied in order; every collision ends in the matrix, no key already there moves, no other cell changes, and maxKeyCapLen is unchanged |
| Matrix.PlaceAllKeeps | tools/matrix.py:59-61 | placing the collisions changes only the cells they go to |
| Matrix.PlaceAllCols | tools/matrix.py:59-61 | after placing the collisions, maxCols is the largest of its old value and their columns |
| Matrix.ResolveStep | tools/matrix.py:60-61 | one turn of `resolveCollisions` keeps the record of every earlier pick and adds the pick for the current collision |
| Matrix.KeyboardMatrix.RemoveBlankRowsAndCols | tools/matrix.py:118-141 | the rows become what the two passes give, or the pass raises its IndexError; maxCols is not changed |
| Matrix.KeyboardMatrix.DropBlankRows | tools/matrix.py:121-130 | the backward scan over the rows leaves exactly the non-blank rows, in order |
| Matrix.DropRowAt | tools/matrix.py:121-130 | deleting row y when it is blank, or keeping it, extends the rows kept from y onward |
| Matrix.IsBlankRow | tools/matrix.py:122-128 | the scan of one row reports empty exactly when the row is missing or holds no key |
| Matrix.KeyboardMatrix.Dims | tools/matrix.py:68-73 | `dimensions` is (longest row, number of rows), and raises TypeError on a missing row |
| Matrix.KeyboardMatrix.Keys | tools/matrix.py:156-166 | `keys()` yields the cells `CellsComplete` and `CellsOrdered` describe |
| Matrix.KeyboardMatrix.AssignIdentifiers | tools/matrix.py:168-183 | each key, in `keys()` order, gets `k` followed by its row and column in hex, with '_' between them once maxCols or the row count passes 15 |
| Matrix.KeyboardMatrix.Zigzag | tools/matrix.py:233-259 | `zigzagpositions` is the walk from the given corner over the given limits, which default to one past the dimensions |
| Matrix.IsBlankColumn | tools/matrix.py:133-137 | the scan of one column reports blank exactly when no row has a key there |
| Matrix.DeleteColumn | tools/matrix.py:140-141 | deleting the column from each row gives `DelCol`, including its IndexError |
| Matrix.DelColShape | tools/matrix.py:140-141 | after a successful deletion each row is the old row without that cell |
| Matrix.DelColError | tools/matrix.py:140-141 | a failed deletion raises "list assignment index out of range" |
| SpatialIndex.VerticesSupported | tools/circuitlib/router/spatialmap.py:9-23 | `vertices` raises exactly for a shape with a part of an unsupported type, and otherwise lists every coordinate of the shape in order |
| SpatialIndex.PartVerticesSupported | tools/circuitlib/router/spatialmap.py:18-22 | the vertices of a collection's parts are their coordinates joined, and the loop raises exactly when one part is unsupported |
| SpatialIndex.PolygonRingCloses | tools/circuitlib/router/spatialmap.py:10-11 | a polygon's vertex list is its ring followed by the first vertex again |
| SpatialIndex.EmptyIffNoCoords | tools/circuitlib/router/spatialmap.py:102-103 | a shape is empty exactly when it has no coordinates |
| SpatialIndex.PartsEmpty | tools/circuitlib/router/spatialmap.py:102-103 | a collection is empty exactly when every part is |
| SpatialIndex.Box | tools/circuitlib/router/spatialmap.py:104 | `bounds` encloses every coordinate |
| SpatialIndex.BoxTight | tools/circuitlib/router/spatialmap.py:104 | each side of `bounds` touches a coordinate, so it is the smallest enclosing box |
| SpatialIndex.SearchRadius | tools/circuitlib/router/spatialmap.py:104-108 | the search radius is half the larger side of the bounding box |
| SpatialIndex.FileAllOrdered | tools/circuitlib/router/spatialmap.py:44-48 | `_add` keeps the dictionary's key order a duplicate-free list of its keys, and only appends to it |
| SpatialIndex.FileAllKeeps | tools/circuitlib/router/spatialmap.py:44-48 | `_add` only appends: each old list is a prefix of the new one, and other coordinates are untouched |
| SpatialIndex.FileAllFinds | tools/circuitlib/router/spatialmap.py:44-48 | after filing, the entry is listed under every one of the coordinates |
| SpatialIndex.FileAllRecorded | tools/circuitlib/router/spatialmap.py:57-65 | filing a recorded entry keeps every filed entry recorded |
| SpatialIndex.FileFiles | tools/circuitlib/router/spatialmap.py:44-48 | whatever is filed afterwards was filed before or is the new entry |
| SpatialIndex.Collect | tools/circuitlib/router/spatialmap.py:69-72 | collecting a list into a set gives exactly the old elements and those of the list |
| SpatialIndex.SpatialMap.constructor | tools/circuitlib/router/spatialmap.py:38-42 | a new map has no coordinates, no tree, no points and no entries |
| SpatialIndex.SpatialMap.Add | tools/circuitlib/router/spatialmap.py:50-65 | `add` drops the cached tree and records a new entry; the entry is filed under each vertex and then the centroid, unless `vertices` raises, in which case nothing is filed |
| SpatialIndex.SpatialMap.FileCoords | tools/circuitlib/router/spatialmap.py:60-65 | the filing loops leave the table that filing each coordinate in turn gives |
| SpatialIndex.SpatialMap.At | tools/circuitlib/router/spatialmap.py:67-72 | `at` gives exactly the entries filed under that coordinate, and none for a coordinate never filed |
| SpatialIndex.SpatialMap.GetTree | tools/circuitlib/router/spatialmap.py:74-85 | `_get_tree` gives the cached tree or builds one over the current keys; there is none while the map is empty, and `_points` is the key list either way |
| SpatialIndex.SpatialMap.Near | tools/circuitlib/router/spatialmap.py:87-99 | with the tree, `near` gives exactly the entries filed under a coordinate within the radius; without it, every entry ever added |
| SpatialIndex.SpatialMap.Filter | tools/circuitlib/router/spatialmap.py:101-122 | `_filter` gives nothing for an empty shape, and otherwise the entries near the centroid within the search radius whose shape passes the test |
| SpatialIndex.Scan | tools/circuitlib/router/spatialmap.py:94-96 | the loop over the tree's hits gives exactly the entries filed under a hit within the radius |
| SpatialIndex.ScanNearby | tools/circuitlib/router/spatialmap.py:90-97 | scanning every key finds exactly the nearby entries |
| SpatialIndex.Vertices | tools/circuitlib/router/spatialmap.py:9-23 | `vertices` raises for a shape of an unsupported type and never for a point, line or polygon; a point gives at most one vertex, and a polygon's ring comes back closed, one vertex longer, ending where it starts |
| ShortestPath.NodesHas | tools/circuitlib/router/dijkstra.py:14-45 | every node the search can meet, the source and each listed successor, is counted among the graph's nodes |
| ShortestPath.RemoveKeeps | tools/circuitlib/router/dijkstra.py:23 | popping an item leaves the rest of the heap, one item shorter |
| ShortestPath.PopMin | tools/circuitlib/router/dijkstra.py:23 | `heappop` takes an item no later than any other in (distance, counter) order |
| ShortestPath.CostNonNeg | tools/circuitlib/router/dijkstra.py:34 | with non-negative weights a walk weighs at least 0 |
| ShortestPath.CostPrefix | tools/circuitlib/router/dijkstra.py:34 | with non-negative weights a walk weighs at least each of its prefixes |
| ShortestPath.CostStep | tools/circuitlib/router/dijkstra.py:34 | extending a prefix by one edge adds that edge's weight |
| ShortestPath.CostAppend | tools/circuitlib/router/dijkstra.py:34-45 | `paths[v] + [u]` weighs `paths[v]` plus the weight of v -> u |
| ShortestPath.LinkedStep | tools/circuitlib/router/dijkstra.py:30-45 | each consecutive pair of a recorded walk is an edge the search may follow |
| ShortestPath.LinkedPrefix | tools/circuitlib/router/dijkstra.py:45 | a prefix of a linked walk is linked |
| ShortestPath.WalkPrefix | tools/circuitlib/router/dijkstra.py:45 | a prefix of a walk is a walk to its last node |
| ShortestPath.WalkAppend | tools/circuitlib/router/dijkstra.py:45 | a walk extended by a followable edge is a walk to the new node |
| ShortestPath.ExitIndex | tools/circuitlib/router/dijkstra.py:22-45 | a walk from a fixed node to an unfixed one has an edge leaving the fixed nodes |
| ShortestPath.ExitBound | tools/circuitlib/router/dijkstra.py:22-45 | while the fixed nodes are settled, the fringe holds an item no heavier than any walk within the cutoff to an unfixed node |
| ShortestPath.SkipKeeps | tools/circuitlib/router/dijkstra.py:24-25 | dropping a stale item of a node already fixed keeps the search invariant |
| ShortestPath.FixFringe | tools/circuitlib/router/dijkstra.py:26 | fixing a node keeps every heap item tied to a recorded path |
| ShortestPath.FixKeeps | tools/circuitlib/router/dijkstra.py:23-26 | popping the least item of an unfixed node fixes it at its tentative distance and keeps the invariant |
| ShortestPath.FixPaths | tools/circuitlib/router/dijkstra.py:26 | fixing a node keeps the invariant's conditions on keys, walks and prefixes |
| ShortestPath.FixLeast | tools/circuitlib/router/dijkstra.py:23-26 | with non-negative weights the popped item is no heavier than any walk to its node within the cutoff |
| ShortestPath.FixSettles | tools/circuitlib/router/dijkstra.py:23-26 | fixing the least item keeps every fixed node at its least weight, and leaves only its own edges to relax |
| ShortestPath.FixMin | tools/circuitlib/router/dijkstra.py:23 | the popped item's distance is at most that of any heap item |
| ShortestPath.FixBelow | tools/circuitlib/router/dijkstra.py:23-26 | fixing the least item keeps every fixed distance at most the heap's, and at most the new node's |
| ShortestPath.FixRelaxed | tools/circuitlib/router/dijkstra.py:26-30 | fixing a node leaves only its own edges to relax |
| ShortestPath.PushPrefixes | tools/circuitlib/router/dijkstra.py:43-45 | recording `paths[v] + [u]` keeps every recorded path's prefixes fixed at their weights |
| ShortestPath.PushFringe | tools/circuitlib/router/dijkstra.py:43-45 | pushing u at a better distance keeps every heap item tied to a recorded path |
| ShortestPath.PushKeys | tools/circuitlib/router/dijkstra.py:43-45 | pushing a node of the graph within the cutoff keeps the tables' keys to such nodes |
| ShortestPath.PushWalks | tools/circuitlib/router/dijkstra.py:43-45 | the new path to u is a walk that weighs its tentative distance |
| ShortestPath.PushKeeps | tools/circuitlib/router/dijkstra.py:42-45 | recording a shorter route to an unfixed node through a fixed one keeps the invariant |
| ShortestPath.PushSettles | tools/circuitlib/router/dijkstra.py:42-45 | after the push the edge v -> u is relaxed and the fixed nodes stay settled |
| ShortestPath.RelaxedSkip | tools/circuitlib/router/dijkstra.py:31-42 | an edge out of v that the loop leaves alone is already relaxed |
| ShortestPath.RelaxEdge | tools/circuitlib/router/dijkstra.py:30-45 | relaxing one edge never fixes a node, never forgets a tentative distance, changes none but that of the edge's end, and can only raise the ValueError |
| ShortestPath.RelaxEdgeKeeps | tools/circuitlib/router/dijkstra.py:30-45 | relaxing one edge keeps the invariant and the fixed distances, and raises exactly when the edge is weighed, its end is within the cutoff, and it is a strictly shorter route to a fixed node; an edge past the cutoff never raises |
| ShortestPath.RelaxEdgePushes | tools/circuitlib/router/dijkstra.py:42-45 | an edge within the cutoff to an unfixed node whose tentative distance it improves pushes that node |
| ShortestPath.RelaxEdgeStays | tools/circuitlib/router/dijkstra.py:31-42 | any other edge leaves the state as it is, or raises; it raises exactly when the cutoff test passes first and the end is a fixed node that the edge reaches strictly sooner |
| ShortestPath.RelaxEdgeRaises | tools/circuitlib/router/dijkstra.py:31-41 | the ValueError is raised exactly for an edge within the cutoff that is a strictly shorter route to a fixed node, which non-negative weights rule out |
| ShortestPath.RelaxEdgeSettles | tools/circuitlib/router/dijkstra.py:30-45 | relaxing the next edge out of v extends the relaxed edges by one and keeps the fixed nodes settled |
| ShortestPath.Relax | tools/circuitlib/router/dijkstra.py:30-45 | the inner loop keeps the invariant and the fixed distances; it raises only for negative weights, and with non-negative ones leaves every edge relaxed |
| ShortestPath.RelaxedAll | tools/circuitlib/router/dijkstra.py:30-45 | once every edge out of v is relaxed, every edge is |
| ShortestPath.StartKeeps | tools/circuitlib/router/dijkstra.py:14-21 | the initial tables and heap satisfy the invariant and are settled |
| ShortestPath.FixShrinks | tools/circuitlib/router/dijkstra.py:24-26 | fixing a node leaves fewer nodes unfixed, so the loop ends |
| ShortestPath.ClosedKeys | tools/circuitlib/router/dijkstra.py:30 | in a graph that lists every successor as a node, every seen node has a successor table, so `G_succ[v]` does not raise |
| ShortestPath.Search | tools/circuitlib/router/dijkstra.py:22-45 | the search loop ends with the target fixed exactly when it has a path; with non-negative weights every fixed node holds its least walk weight within the cutoff, and an unfixed target has no walk within it |
| ShortestPath.Pop | tools/circuitlib/router/dijkstra.py:23-45 | one pass keeps the invariant, fixes the target when it pops it, and either fixes a node or shrinks the heap |
| ShortestPath.NoneLeft | tools/circuitlib/router/dijkstra.py:22-47 | with the heap exhausted, an unfixed node has no walk within the cutoff |
| ShortestPath.PathDistances | tools/circuitlib/router/dijkstra.py:45-50 | each node of a recorded path is fixed at the weight of the path up to it |
| ShortestPath.Dijkstra | tools/circuitlib/router/dijkstra.py:6-51 | `dijkstra` gives (None, None) only when no walk is within the cutoff; otherwise a walk from source to target whose reported cost is the sum of the weights of its prefixes, and whose weight is the least within the cutoff |
| ShortestPath.SumDistances | tools/circuitlib/router/dijkstra.py:48-50 | the cost loop adds up the weight of the path up to each of its nodes |
| ShortestPath.Distance | tools/circuitlib/router/layerassign.py:107-145 | `Configuration.dijkstra` gives (None, None) only when no walk is within the cutoff; otherwise a walk from source to target whose cost is its weight, the least within the cutoff; it also gives the fixed nodes, which hold the source, hold the target exactly when a walk is returned, and are graph nodes apart from the target; it raises only the ValueError or the KeyError, and never for non-negative weights |
| ShortestPath.AttrWeightDefault | tools/circuitlib/router/dijkstra.py:7-9 | the default weight is the edge's 'weight' attribute, else 1; non-negative attributes give non-negative weights |
| ShortestPath.PrefixSumOvercounts | tools/circuitlib/router/dijkstra.py:48-51 | on the unit-weight walk 0 -> 1 -> 2 `dijkstra` reports 3 while the walk weighs 2 |
| SteinerTree.AddKeeps | tools/circuitlib/router/msteinertree.py:37-41 | an unseen item becomes its own parent and name, and the forest stays well formed |
| SteinerTree.CompressKeeps | tools/circuitlib/router/msteinertree.py:50-52 | pointing an item straight at its root keeps the forest and every name |
| SteinerTree.LinkKeeps | tools/circuitlib/router/msteinertree.py:63-66 | pointing one root at another keeps the forest, and renames exactly the first root's set |
| SteinerTree.MergeStep | tools/circuitlib/router/msteinertree.py:63-66 | one turn of the loop of `union` merges one more root into the heaviest, and a root already merged changes nothing |
| SteinerTree.NamesOf | tools/circuitlib/router/msteinertree.py:61 | one name per object |
| SteinerTree.ItemsIn | tools/circuitlib/router/msteinertree.py:55-57 | iterating the structure gives exactly the items ever found or unioned |
| SteinerTree.LookedUpStep | tools/circuitlib/router/msteinertree.py:61 | one more lookup extends what the earlier lookups left behind, and leaves every name as it was |
| SteinerTree.UnionFacts | tools/circuitlib/router/msteinertree.py:59-66 | the lookups, the choice of the heaviest root and the loop together merge exactly the objects' sets into the heaviest root's |
| SteinerTree.AddedSame | tools/circuitlib/router/msteinertree.py:65 | the weight added to the heaviest root depends only on the roots' weights |
| SteinerTree.UnionFind.constructor | tools/circuitlib/router/msteinertree.py:29-32 | a new structure has no items |
| SteinerTree.UnionFind.Find | tools/circuitlib/router/msteinertree.py:34-53 | `X[item]` gives the item's set name, adding an unseen item as its own set, and compresses the path without changing any name |
| SteinerTree.UnionFind.Climb | tools/circuitlib/router/msteinertree.py:43-48 | the walk along parents starts at the item and reaches its root, every item on it sharing that name |
| SteinerTree.UnionFind.Compress | tools/circuitlib/router/msteinertree.py:50-52 | every item of the path points straight at its root; names and weights are unchanged |
| SteinerTree.UnionFind.Union | tools/circuitlib/router/msteinertree.py:59-66 | `union` merges the objects' sets into the heaviest root's and adds up their weights; with no objects `max` raises and nothing changes |
| SteinerTree.UnionFind.MergeAll | tools/circuitlib/router/msteinertree.py:63-66 | the loop of `union` points every other root at the heaviest and adds its weight |
| SteinerTree.UnionFind.FindAll | tools/circuitlib/router/msteinertree.py:61 | the names of the objects, each looked up in turn, leaving every name as it was |
| SteinerTree.MergeRoots | tools/circuitlib/router/msteinertree.py:63-66 | the loop of `union` on the parent and weight tables merges exactly the listed roots into the heaviest |
| SteinerTree.Heaviest | tools/circuitlib/router/msteinertree.py:62 | `max` picks a listed root whose (weight, name) pair is the greatest |
| SteinerTree.GetOther | tools/circuitlib/router/msteinertree.py:101-108 | `getOther` gives the other end of a line, and raises exactly when the point is not an end |
| SteinerTree.Dist | tools/circuitlib/router/msteinertree.py:157-158 | the Manhattan distance is non-negative and zero exactly for equal coordinates |
| SteinerTree.EdgeToJoins | tools/circuitlib/router/msteinertree.py:154-165 | edge k of point i leads to point k, weighs their distance or 100000 for the self-loop, and is the same line seen from either end |
| SteinerTree.BuildEdges | tools/circuitlib/router/msteinertree.py:154-165 | the nested loops give every point one edge to each point, in index order |
| SteinerTree.WeightTable | tools/circuitlib/router/msteinertree.py:167-173 | `G[i][j]` is the weight of point i's edge j |
| SteinerTree.Row | tools/circuitlib/router/msteinertree.py:177 | row u of the generator yields (G[u][v], u, v) for each v in order |
| SteinerTree.TriplesHold | tools/circuitlib/router/msteinertree.py:177 | the generator yields exactly one triple per table entry |
| SteinerTree.Insert | tools/circuitlib/router/msteinertree.py:177 | inserting a triple adds exactly it |
| SteinerTree.InsertSorted | tools/circuitlib/router/msteinertree.py:177 | inserting into a sorted list keeps it sorted |
| SteinerTree.Sort | tools/circuitlib/router/msteinertree.py:177 | `sorted` gives a sorted permutation of the triples |
| SteinerTree.Identity | tools/circuitlib/router/msteinertree.py:175 | at the start every point is its own set |
| SteinerTree.Relabel | tools/circuitlib/router/msteinertree.py:180 | merging two sets relabels exactly the points of the first |
| SteinerTree.Select | tools/circuitlib/router/msteinertree.py:175-180 | the selection keeps one label per point |
| SteinerTree.AgreesSame | tools/circuitlib/router/msteinertree.py:178 | lookups that leave every name as it was keep the labels in step with the union-find |
| SteinerTree.AgreesUnion | tools/circuitlib/router/msteinertree.py:180 | `union(u, v)` of two points with different labels merges exactly the two labelled sets |
| SteinerTree.Consider | tools/circuitlib/router/msteinertree.py:178-180 | one triple is chosen exactly when its ends have different labels, and the union-find keeps in step with the labels |
| SteinerTree.SelectTree | tools/circuitlib/router/msteinertree.py:175-180 | the selection loop, run with the union-find, picks the edges the label model picks |
| SteinerTree.RelabelDrops | tools/circuitlib/router/msteinertree.py:180 | merging two labels in use leaves one label fewer |
| SteinerTree.SelectCount | tools/circuitlib/router/msteinertree.py:175-180 | edges chosen plus labels left equal the labels at the start |
| SteinerTree.SelectJoins | tools/circuitlib/router/msteinertree.py:175-180 | points that share a label keep sharing one, and both ends of every triple considered end with one label |
| SteinerTree.IdentityLabels | tools/circuitlib/router/msteinertree.py:175 | n points start with n labels |
| SteinerTree.Spans | tools/circuitlib/router/msteinertree.py:175-180 | when every pair of points has a triple, the selection chooses n - 1 edges and leaves one label: a spanning tree |
| SteinerTree.SelectEdges | tools/circuitlib/router/msteinertree.py:178-179 | every chosen edge joins two different points in range |
| SteinerTree.Weights | tools/circuitlib/router/msteinertree.py:167-173 | the table has one row per point and one weight per point in each row |
| SteinerTree.CandidatesCover | tools/circuitlib/router/msteinertree.py:154-177 | every sorted triple joins two of the points, and every pair of points has its triple |
| SteinerTree.TreeOf | tools/circuitlib/router/msteinertree.py:175-180 | the selected pairs join two different points in range |
| SteinerTree.MstLines | tools/circuitlib/router/msteinertree.py:182-191 | one line per selected pair |
| SteinerTree.MstLinesAt | tools/circuitlib/router/msteinertree.py:182-191 | line k is the edge joining the ends of selected pair k |
| SteinerTree.MstLinesSnoc | tools/circuitlib/router/msteinertree.py:183-190 | one more selected pair adds its line at the end |
| SteinerTree.Mst | tools/circuitlib/router/msteinertree.py:143-191 | `kruskal` returns n - 1 lines for n points, none for none |
| SteinerTree.MstEdges | tools/circuitlib/router/msteinertree.py:143-191 | every returned line joins two different points, lower index first, and weighs their Manhattan distance |
| SteinerTree.MstTotalNonnegative | tools/circuitlib/router/msteinertree.py:129-132 | the tree weight `delta_mst` adds up is non-negative |
| SteinerTree.TotalOfDistances | tools/circuitlib/router/msteinertree.py:131-132 | lines that weigh their ends' distance have a non-negative total |
| SteinerTree.DegAfter | tools/circuitlib/router/msteinertree.py:151-152 | after `kruskal` every listed point's `deg` is its number of tree lines and every other point keeps its own |
| SteinerTree.MatchesOne | tools/circuitlib/router/msteinertree.py:186-190 | among the edges of point u exactly one leads to point v, and `getOther` never raises on them |
| SteinerTree.PointStore.constructor | tools/circuitlib/router/msteinertree.py:69-80 | no point has been made yet |
| SteinerTree.PointStore.Kruskal | tools/circuitlib/router/msteinertree.py:143-191 | `kruskal` returns the lines of the selected tree and sets every listed point's `deg` to its number of tree lines |
| SteinerTree.PointStore.NewPoint | tools/circuitlib/router/msteinertree.py:69-75 | a new `Point` gets the next identity and `deg` 0 |
| SteinerTree.PointStore.DeltaMst | tools/circuitlib/router/msteinertree.py:127-140 | `delta_mst` is the tree weight saved by adding the point, and leaves the second tree's `deg` behind |
| SteinerTree.PointStore.HananPoints | tools/circuitlib/router/msteinertree.py:117-124 | `hanan_points` makes two new points for every pair of listed points, at the corners where their coordinates cross |
| SteinerTree.PointStore.CornerPoints | tools/circuitlib/router/msteinertree.py:120-123 | the inner loop for point i makes the corners of i with every later point |
| SteinerTree.PointStore.Positive | tools/circuitlib/router/msteinertree.py:206-207 | the comprehension keeps exactly the Hanan points with a positive saving, in order |
| SteinerTree.PointStore.PositiveStep | tools/circuitlib/router/msteinertree.py:206-207 | one turn of the comprehension adds the point when its saving is positive |
| SteinerTree.PointStore.Best | tools/circuitlib/router/msteinertree.py:209-214 | the loop picks the first candidate with the largest saving, starting from 0 |
| SteinerTree.PointStore.BestStep | tools/circuitlib/router/msteinertree.py:210-214 | one turn of the loop takes the candidate when it saves strictly more |
| SteinerTree.PointStore.MakePoints | tools/circuitlib/router/msteinertree.py:197-198 | one new point per input node, at its centroid |
| SteinerTree.PointStore.Rsmt | tools/circuitlib/router/msteinertree.py:194-248 | `rectilinear_steiner_minimum_spanning_tree` returns the spanning tree over the inputs and the kept Steiner points, as pairs of nodes, with one line fewer than points |
| SteinerTree.PointStore.Reset | tools/circuitlib/router/msteinertree.py:151-152 | `reset` sets the `deg` of every listed point to 0 and touches no other |
| SteinerTree.PointStore.Collect | tools/circuitlib/router/msteinertree.py:182-191 | the last loop of `kruskal` returns the tree lines and counts them in the points' `deg` |
| SteinerTree.CollectLines | tools/circuitlib/router/msteinertree.py:182-191 | the last loop, on a `deg` map, gives the tree lines and the degree of every point in them |
| SteinerTree.CollectPair | tools/circuitlib/router/msteinertree.py:184-190 | one pair appends its line and adds one to the `deg` of both ends |
| SteinerTree.WeightsMatch | tools/circuitlib/router/msteinertree.py:167-173 | the table built from the recorded edges is the weight table of the points |
| SteinerTree.DegMatches | tools/circuitlib/router/msteinertree.py:151-191 | reset and then counted gives the `deg` map `DegAfter` describes |
| SteinerTree.EdgesMatch | tools/circuitlib/router/msteinertree.py:186-190 | the edges of point u, searched for point v, give the one line joining them |
| SteinerTree.CountStep | tools/circuitlib/router/msteinertree.py:188-189 | recording the line between u and v adds one to the `deg` of each and changes no other |
| SteinerTree.Matches | tools/circuitlib/router/msteinertree.py:186-190 | the loop over one point's edges collects those leading to the other point, or raises with `getOther` |
| SteinerTree.FailureSticks | tools/circuitlib/router/msteinertree.py:186-190 | once `getOther` has raised, the loop stays failed |
| SteinerTree.DistinctPrefix | tools/circuitlib/router/msteinertree.py:134 | the points stay distinct when the added point is dropped, and it is none of them |
| SteinerTree.SumWeights | tools/circuitlib/router/msteinertree.py:130-132 | the loops of `delta_mst` add up the tree's line weights |
| SteinerTree.Places | tools/circuitlib/router/msteinertree.py:117-124 | one coordinate pair per point |
| SteinerTree.CornerStep | tools/circuitlib/router/msteinertree.py:121-123 | one turn of the inner loop adds the two corners of points i and j, numbered on |
| SteinerTree.CornerNumbered | tools/circuitlib/router/msteinertree.py:122-123 | the two new points get the next two identities |
| SteinerTree.HananSize | tools/circuitlib/router/msteinertree.py:117-124 | n points give n(n - 1) corners |
| SteinerTree.HananHas | tools/circuitlib/router/msteinertree.py:117-124 | every two different listed points give both their corners |
| SteinerTree.HananOnly | tools/circuitlib/router/msteinertree.py:117-124 | every returned point sits at such a corner |
| SteinerTree.Snoc | tools/circuitlib/router/msteinertree.py:206-214 | one more candidate extends the comprehension and the choice of the best by one turn |
| SteinerTree.DeltasSnoc | tools/circuitlib/router/msteinertree.py:206-211 | one more `delta_mst` call leaves its `deg` on top of the earlier ones |
| SteinerTree.Branching | tools/circuitlib/router/msteinertree.py:223 | the filter keeps no more points than it was given, each with `deg` above 2 |
| SteinerTree.PositiveMembers | tools/circuitlib/router/msteinertree.py:206-207 | a candidate is a Hanan point with a positive saving, and every such point is a candidate |
| SteinerTree.BestIsMax | tools/circuitlib/router/msteinertree.py:209-214 | the chosen candidate saves the most of all and more than nothing; none is chosen exactly when no candidate saves anything |
| SteinerTree.BestIsFirst | tools/circuitlib/router/msteinertree.py:210-214 | of several candidates saving the most, the first is chosen |
| SteinerTree.BranchingKeeps | tools/circuitlib/router/msteinertree.py:223 | the filter keeps exactly the Steiner points of `deg` above 2, and they stay Steiner points |
| SteinerTree.InputPoints | tools/circuitlib/router/msteinertree.py:197-198 | one input point per node |
| SteinerTree.JoinDistinct | tools/circuitlib/router/msteinertree.py:205 | input points and Steiner points together are distinct |
| SteinerTree.FreshDistinct | tools/circuitlib/router/msteinertree.py:206-211 | a Hanan point is new, so adding it keeps the points distinct |
| SteinerTree.NewSteiner | tools/circuitlib/router/msteinertree.py:220-221 | the chosen Hanan point joins the Steiner points as a Steiner point |
| SteinerTree.ToNodeFaithful | tools/circuitlib/router/msteinertree.py:232-239 | an input point keeps its node, and every Steiner point gets a branch of its own at its coordinates |
| SteinerTree.Output | tools/circuitlib/router/msteinertree.py:242-248 | one pair of nodes per tree line |
| SteinerTree.Pairs | tools/circuitlib/router/msteinertree.py:242-248 | the final loop turns every line into the pair of its end nodes |
| LayerAssign.SpanGrows | tools/circuitlib/router/layerassign.py:166-179 | one more position adds exactly its branch to a layer's nodes |
| LayerAssign.BuildLayerGraph | tools/circuitlib/router/layerassign.py:147-194 | `build_layer_graph` gives, on each layer, the chain a -> via points -> b; source -> a where a is present, b -> sink where b is present, and both directions between the layers at every position |
| LayerAssign.Layered | tools/circuitlib/router/layerassign.py:161-186 | the layer loop leaves source, sink and both layers' chains, with no cross edges yet |
| LayerAssign.CrossDone | tools/circuitlib/router/layerassign.py:188-194 | once every position is crossed, the graph is the layer graph |
| LayerAssign.CrossDoneKeys | tools/circuitlib/router/layerassign.py:188-194 | the graph's nodes are exactly the source, the sink and the positions of both layers |
| LayerAssign.SpansHold | tools/circuitlib/router/layerassign.py:170-194 | a node lies in one of the two layers' position ranges, or is the source or the sink, exactly when it belongs to the layer graph |
| LayerAssign.CrossStep | tools/circuitlib/router/layerassign.py:188-192 | one turn of the cross loop adds the edges front -> back and back -> front at one position |
| LayerAssign.LayerChain | tools/circuitlib/router/layerassign.py:167-186 | one layer adds a and b, the chain through the via points, the source edge to a where a is present and the sink edge from b where b is present |
| LayerAssign.LastLink | tools/circuitlib/router/layerassign.py:181 | closing the chain adds the edge from the last via point, or from a, to b |
| LayerAssign.Vias | tools/circuitlib/router/layerassign.py:174-179 | the via loop lays the chain from a through the via points, up to the last one |
| LayerAssign.ViasStep | tools/circuitlib/router/layerassign.py:175-179 | one turn of the via loop extends the chain by one via point |
| LayerAssign.ViasFresh | tools/circuitlib/router/layerassign.py:175-179 | the next via point is not yet in the graph, and the last one is still a leaf |
| LayerAssign.ViasUpdate | tools/circuitlib/router/layerassign.py:175-179 | adding the edge from the last via point to a fresh next one extends the chain |
| LayerAssign.ViasCells | tools/circuitlib/router/layerassign.py:175-179 | after that edge, each via point but the newest links to the next one along the chain |
| LayerAssign.SourceEdgesHas | tools/circuitlib/router/layerassign.py:183-184 | the source leads exactly to a on each layer where a is present |
| LayerAssign.RouteIff | tools/circuitlib/router/layerassign.py:147-194 | a layer graph routes source to sink exactly when a is present on some layer and b is present on some layer |
| LayerAssign.RouteThrough | tools/circuitlib/router/layerassign.py:166-194 | the walk source -> a on one layer, across to b's layer, along the via points to b, then to the sink exists |
| LayerAssign.DetourAppend | tools/circuitlib/router/layerassign.py:71-97 | the detour fold over joined segment lists is the fold over the first list, then over the second |
| LayerAssign.DetourFlat | tools/circuitlib/router/layerassign.py:71-72 | folding path by path is folding over all their segments |
| LayerAssign.DetourLeast | tools/circuitlib/router/layerassign.py:69-97 | the detour is 0 when nothing blocks the segment, and otherwise the shortest way round a blocking segment |
| LayerAssign.DetourNonNeg | tools/circuitlib/router/layerassign.py:69-97 | the detour is never negative |
| LayerAssign.Visit | tools/circuitlib/router/layerassign.py:82-97 | a segment that does not block leaves the detour as it is; one that blocks sets it to the way round it or keeps it, never above the way round, and never raises a detour already found |
| LayerAssign.FreshWeight | tools/circuitlib/router/layerassign.py:49-105 | a weight is 0 at source or sink; 0.9 times the distance plus 0.1 for a via; 0.9 times distance plus detour otherwise; never negative |
| LayerAssign.Weighed | tools/circuitlib/router/layerassign.py:119-128 | the edges a search weighs are exactly the edges out of every node it fixes, except the target, where it stops first |
| LayerAssign.Filled | tools/circuitlib/router/layerassign.py:49-105 | after `edge_weight` on every edge of a set, the cache holds those edges and its old ones; old entries keep their weight, new ones get the fresh weight |
| LayerAssign.FilledAgree | tools/circuitlib/router/layerassign.py:49-105 | filling the cache changes no weight any search sees, and keeps every cached weight non-negative |
| LayerAssign.FilledTwice | tools/circuitlib/router/layerassign.py:49-105 | filling the cache for one set of edges and then another is filling it for both at once |
| LayerAssign.WalkAgree | tools/circuitlib/router/layerassign.py:107-145 | under two weights that agree on every edge, the same sequences are walks and cost the same |
| LayerAssign.SearchAgree | tools/circuitlib/router/layerassign.py:107-145 | under two weights that agree on every edge, a search has the same least distances and the same unreachable targets |
| LayerAssign.WeighNonNeg | tools/circuitlib/router/layerassign.py:49-105 | cached weights are never negative, so neither is any weight a search sees |
| LayerAssign.MemoFill | tools/circuitlib/router/layerassign.py:104 | storing a freshly computed weight leaves every weight as it was |
| LayerAssign.HitsInIff | tools/circuitlib/router/layerassign.py:212-219 | a node is marked by one new segment exactly when it ends a committed segment meeting it |
| LayerAssign.SegmentsHas | tools/circuitlib/router/layerassign.py:211-212 | the committed segments are the consecutive pairs of the committed paths |
| LayerAssign.HitsOverIff | tools/circuitlib/router/layerassign.py:211-219 | the inner loops mark exactly the ends of committed segments meeting the new segment |
| LayerAssign.Hits | tools/circuitlib/router/layerassign.py:205-219 | the marked set holds the marks of every shaped segment of the new path |
| LayerAssign.Purged | tools/circuitlib/router/layerassign.py:221-226 | purging keeps a part of the cache with the same weights, and drops only entries with a marked end |
| LayerAssign.HitsIff | tools/circuitlib/router/layerassign.py:205-219 | a node is marked exactly when it ends a committed segment that meets a segment of the new path, both with shapes |
| LayerAssign.Marked | tools/circuitlib/router/layerassign.py:205-219 | the marking loops of `_invalidate_cache_for_path` give exactly those nodes |
| LayerAssign.MarkedBy | tools/circuitlib/router/layerassign.py:211-219 | the two inner loops give the ends of committed segments meeting one new segment |
| LayerAssign.Purge | tools/circuitlib/router/layerassign.py:221-228 | the deletion loop drops every entry with a marked end and returns how many it dropped |
| LayerAssign.CostAgree | tools/circuitlib/router/layerassign.py:240-241 | a path weighs the same under weights that agree on every edge |
| LayerAssign.PathsCostAgree | tools/circuitlib/router/layerassign.py:239-241 | paths weigh the same under weights that agree on every edge |
| LayerAssign.LinkedAny | tools/circuitlib/router/layerassign.py:127-131 | whether a sequence is a walk does not depend on a weight defined everywhere |
| LayerAssign.LayeredIsClosed | tools/circuitlib/router/layerassign.py:161-194 | a layer graph holds its source and every successor of its nodes, so the search never raises KeyError |
| LayerAssign.DedupFacts | tools/circuitlib/router/layerassign.py:248 | `set(two_nets)` keeps every two-net once and nothing else |
| LayerAssign.Detour | tools/circuitlib/router/layerassign.py:71-97 | the detour loop over the committed paths gives the detour |
| LayerAssign.Uncached | tools/circuitlib/router/layerassign.py:52-102 | the cache-miss branch gives distance plus detour, weighted by 1 - ALPHA, plus ALPHA per via |
| LayerAssign.SplitMove | tools/circuitlib/router/layerassign.py:263-264 | removing the chosen two-net from the free ones and committing it keeps every two-net either free or committed |
| LayerAssign.WeighTotal | tools/circuitlib/router/layerassign.py:49-105 | every edge has a weight, whatever the cache holds |
| LayerAssign.Configuration.constructor | tools/circuitlib/router/layerassign.py:21-38 | a new configuration has a layer graph for exactly its two-nets and nothing committed or cached |
| LayerAssign.Configuration.Clone | tools/circuitlib/router/layerassign.py:27-34 | the copy constructor copies graphs, paths, cache, order and cost, and leaves `two_nets` unset |
| LayerAssign.Configuration.Copy | tools/circuitlib/router/layerassign.py:40-41 | `copy` is a new configuration with the same state |
| LayerAssign.Configuration.Clear | tools/circuitlib/router/layerassign.py:43-47 | `clear` leaves nothing committed, nothing cached and the total unknown |
| LayerAssign.Configuration.EdgeWeight | tools/circuitlib/router/layerassign.py:49-105 | `edge_weight` gives the cached weight or a fresh one that is then cached, and caching never changes any weight |
| LayerAssign.Configuration.Dijkstra | tools/circuitlib/router/layerassign.py:107-145 | `dijkstra` under this configuration's weights gives a least walk within the cutoff and its weight, or (None, None) when none exists; the cache afterwards also holds the fresh weight of every edge out of a fixed node other than the target, and no weight a search sees changes |
| LayerAssign.Configuration.InvalidateCacheForPath | tools/circuitlib/router/layerassign.py:196-228 | `_invalidate_cache_for_path` drops exactly the cached weights touching a marked node and returns how many |
| LayerAssign.Configuration.AddPath | tools/circuitlib/router/layerassign.py:230-234 | `add_path` commits the path for the two-net, invalidates the cache for it and makes the total unknown |
| LayerAssign.Configuration.PathWeight | tools/circuitlib/router/layerassign.py:240-241 | the inner loop of `compute_cost` gives the weight of one path, filling the cache without changing any weight |
| LayerAssign.Configuration.ComputeCost | tools/circuitlib/router/layerassign.py:236-243 | `compute_cost` gives the memoised total, or the weight of every committed path, which is then memoised |
| LayerAssign.Configuration.Pick | tools/circuitlib/router/layerassign.py:251-261 | the loop over free two-nets picks a route of least weight, searching each with the best cost so far as cutoff, the first of equally cheap ones winning; the cache grows by the edges every search weighed |
| LayerAssign.Configuration.BeatsStep | tools/circuitlib/router/layerassign.py:252-261 | searching the next free two-net with the best cost so far as cutoff keeps the best pick the cheapest so far |
| LayerAssign.Configuration.BeatsAgree | tools/circuitlib/router/layerassign.py:251-261 | whether a pick beats every route so far depends only on the weight of each edge, so it survives the cache filling |
| LayerAssign.Configuration.Stuck | tools/circuitlib/router/layerassign.py:256-263 | when no free two-net has a route, each has a terminal on no layer |
| LayerAssign.Configuration.Commit | tools/circuitlib/router/layerassign.py:263-267 | the end of a round commits the chosen route and brings the total up to date |
| LayerAssign.Configuration.InitialAssignment | tools/circuitlib/router/layerassign.py:245-269 | `initial_assignment` commits every two-net once, each round the cheapest free one; it raises TypeError exactly when a free two-net has a terminal on no layer, and AttributeError on a copy |
| LayerAssign.Configuration.Reroute | tools/circuitlib/router/layerassign.py:278-286 | the re-routing pass is one turn per two-net in assignment order, each turn taking the paths and cache the previous one left and doing what `RerouteOne` states; it keeps every two-net routed and makes the total unknown |
| LayerAssign.TraceExtend | tools/circuitlib/router/layerassign.py:278-284 | the record of the turns so far, extended by one more turn, records every turn up to it |
| LayerAssign.Configuration.RerouteOne | tools/circuitlib/router/layerassign.py:279-284 | re-routing two-net i drops the cached weights its old path touches, searches with that path removed, and puts in a route least under the weights searched with; every other path is unchanged, the cache ends as the purged cache filled by the search and purged again for the new path, and every two-net stays routed |
| LayerAssign.Configuration.TakeOut | tools/circuitlib/router/layerassign.py:279-280 | taking a path out invalidates the cache for it and empties it, changing nothing else |
| LayerAssign.Configuration.PutBack | tools/circuitlib/router/layerassign.py:283-284 | putting a path in sets it and invalidates the cache for it, changing nothing else |
| LayerAssign.RerouteIntro | tools/circuitlib/router/layerassign.py:279-284 | the three steps of a turn together are one re-routing step |
| LayerAssign.RoutesKept | tools/circuitlib/router/layerassign.py:279-284 | replacing one path by a route of its two-net keeps every two-net routed |
| LayerAssign.Configuration.Research | tools/circuitlib/router/layerassign.py:282 | the search for a two-net that has a route finds a least route, and the cache grows by the edges it weighed |
| LayerAssign.Configuration.Attempt | tools/circuitlib/router/layerassign.py:276-287 | one round of `improve` re-routes a copy and compares its cost with the receiver's |
| LayerAssign.Configuration.Rounds | tools/circuitlib/router/layerassign.py:271-295 | the loop of `improve` keeps going while the copy is strictly cheaper; the last copy and the best configuration are what `Outcome` of the round costs gives |
| LayerAssign.Configuration.Improve | tools/circuitlib/router/layerassign.py:271-296 | `improve` as written returns the last copy, which is the rejected copy whenever the loop ends by not improving |
| LayerAssign.Configuration.ImproveBest | tools/circuitlib/router/layerassign.py:271-295 | returning `best_cfg` is never dearer than the configuration improved |
| LayerAssign.OutcomeBest | tools/circuitlib/router/layerassign.py:286-291 | the best configuration is never dearer than the start, nor than the last copy |
| LayerAssign.ImproveCanWorsen | tools/circuitlib/router/layerassign.py:286-296 | a first copy dearer than the start ends `improve`, which then returns that copy: dearer than the configuration improved |

## Left out

- I/O is not modelled: file reading and writing, `glob`, `json.load`, `subprocess`, saving SVG, and `print`. Where a tool reads a file, the model takes the file's lines or its parsed value as a parameter.
- OpenScad.Script.Save: returns the text of the `WriteFileIfChanged` buffer instead of writing a file. `close` writes that buffer even when a render raises (tools/filesystem.py:26-46). The comparison with the existing file and the write itself are not modelled.
- Floating-point rounding is not modelled. In the search, the layer assigner, the KLE layout reader, the spatial map and `bounds_of`, Python floats are exact `real`s. Steiner-tree coordinates are integers.
- OpenScad.PyStrRepr: characters above U+007E are copied as they are. Python also escapes the ones its Unicode tables call non-printable (for example U+0080 to U+00A0, and U+00AD), and the model has no such table.
- OpenScad.Repr: a value has no float case, so `scad_repr` of a Python float is not modelled. Coordinates (`CoordVal`, `RenderPolygon`) and the amounts of `Translate`, `Up`, `Down`, `Left`, `Right`, `Forward` and `Back` are integers, although shapely hands the polygon renderer float coordinates.
- Shapely, scipy and numpy geometry is not computed. The KD-tree of the spatial map is modelled as its list of points. Intersection and crossing tests, centroids, distances, gaps and detours are parameters.
- The polygon, centroid, pin1, pin2 and rotated helpers of kle.py (tools/kle.py:94-129) and `Key.__str__` are floating-point geometry and printing, so they are not modelled.
- `find_arduino_exe`, the install-path probing in `Arduino.__init__`, `clear_prefs` and `get` depend on the filesystem and a module-level cache, so they are not modelled.
- In matrix.py, `render`, `positions`, `key`, `walk`, `min_matrix` and `compute_matrix` are not modelled. They are printing, thin generators over the modelled `keys`, or layout search over shapely geometry.
- Matrix coordinates are `nat`, so the negative indices Python lists would accept are not modelled.
- `Target._normalize_srcs` resolves paths on the filesystem, so it is not modelled.
- The one-line Action combinators of openscad.py have no lemmas of their own: `disable`, `showOnly`, `debug`, `transparent`, `union`, `intersection`, `difference`, `linearExtrude` and the operator overloads. They are plain definitions that build `Modifier` and `Operator` values. `__radd__` is `Union` with the left operand as a possibly non-action child.
- Via-point interpolation along a straight segment in `build_layer_graph` is not modelled. The via points of a two-net are given.
- The `if False:` branch of `_invalidate_cache_for_path` can never run, so it is not modelled.
- tqdm progress bars and logging calls in layerassign.py are not modelled.
- The iteration order of Python sets and dicts is not modelled. Where the source iterates a set, the model iterates a duplicate-free sequence in a fixed order.
- LayerAssign.Configuration.Rounds: runs at most `fuel` rounds. The source loops until a round fails to improve, and a strictly decreasing cost makes that loop finite, but the model does not prove that bound.
- LayerAssign.Configuration.Improve: bounded by the same `fuel` as `Rounds`.
- LayerAssign.Configuration.ImproveBest: bounded by the same `fuel` as `Rounds`.
- SteinerTree.PointStore.Rsmt: runs at most `fuel` rounds of adding Steiner points. The source loops until a round leaves the set of Steiner points unchanged. The model does not prove a bound on the number of rounds.
- Arduino.ArduinoPrefs.ResolvePref: runs at most `fuel` substitution rounds. The source loops without bound, and `Arduino.MutualReferenceDiverges` shows two preferences naming each other never settle. Running out of fuel is reported as its own error.
- Timers.TimerRegisters.Setup: Timer0's mode bits come from the corrected table `Timer0ModeBits`. The table as written (src/libs/timer/Timer.h:44-51) puts WGM01 into TCCR0B; `Timer0ModeBitsAsWritten` keeps it, and the Findings show what it does.
- Timers.TimerRegisters.SetupCompare: uses the corrected Timer0 table, as `Setup` does.
- Timers.TimerRegisters.SetupTimer: uses the corrected Timer0 table, as `Setup` does.
- SpiFriend.AtCommand: a response frame announcing more than 16 bytes adds no bytes to the response, as `ReceivedData` says. The source appends `len` bytes from the 16-byte payload (src/libs/spifriend/SPIFriend.h:256) and reads past it; the Findings show that case.
- SpiFriend.ReceiveResponse: over-long frames add no bytes, as for `AtCommand`.
- SpiFriend.AwaitReply: over-long frames add no bytes, as for `AtCommand`.
- SteinerTree.PointStore.Kruskal: the model proves that the selection spans the points with n - 1 lines, each weighing its ends' Manhattan distance, picked in order of weight. It does not prove that no spanning tree weighs less.
- LayerAssign.Configuration.Dijkstra: when the search raises, the cache is left as it was, whereas the source has by then cached the edges it weighed. Neither error can happen under the non-negative weights of a sound configuration.
- The FreeRTOS task bodies are not modelled: the queues, `vTaskDelay`, task creation and the endless `run` loops of the dispatcher, the scanner and the SPI friend. The model covers the work done in one turn of each loop.
- SPI, GPIO and TWI transfers are not modelled beyond their recorded effect, and neither are the port expander's I/O and the SPI friend's `hwinit` pin setup.
- Logging in the dispatcher (`logMatrixState`, `log` calls) and the `panic` calls of `Result` accessors are not modelled as output. A panic is a failure outcome in the model.
- Compile-time type machinery (`Traits.h`, `IndexSequence.h`, and `ProgMem.h` iterators) is not part of this model. Strings and macro streams stored in flash are plain sequences.

## Findings

| source | as written | input that shows it | evidently intended | confidence | as-written member | corrected member |
|---|---|---|---|---|---|---|
| src/libs/traits/SmallestInteger.h:31-69 | `max()` is `(1 << bits) - 1` computed in `int` | a 16-bit or wider type on the 16-bit AVR `int`, or a 32-bit or wider type on a 32-bit host: the shift overflows | 2^bits - 1 for every width | high, not executed | SmallestInteger.MaxOverflows | SmallestInteger.MaxValues |
| src/libs/timer/Timer.h:44-51 | Timer0 CTC and Fast PWM OR `_BV(WGM01)` into TCCR0B | `setup(ClearOnTimerMatchOutputCompare, Prescale1)` on Timer0: bit 1 of TCCR0B is CS01, so the timer runs in Normal mode at clock/64 | WGM01 set in TCCR0A, giving CTC at clock/1 | high, not executed | Timers.Timer0AsWrittenMisconfigures | Timers.SetupBitsRoundTrip |
| src/libs/spifriend/SPIFriend.h:189-258 | `recv` skips the payload of a frame announcing more than 16 bytes but still accepts the frame | a response frame with length 17: `append(msg.payload, msg.len)` reads 17 bytes from a 16-byte array | an over-long frame contributes no payload bytes | medium, not executed | SpiFriend.OverlongFrameReadsPastPayload | SpiFriend.ReceivedData |
| tools/openscad.py:184 | the module header is the literal `'module %s() {'`, with no name substituted | `Module("a")` and `Module("b")` holding the same actions render identically | `'module %s() {' % self.name` | high, not executed | OpenScad.ModuleNameIgnored | OpenScad.NamedModulesDiffer |
| tools/circuitlib/router/dijkstra.py:48-51 | the returned cost is the sum of `dist` over every node of the path | the unit-weight path 0, 1, 2: the distance is 2, the returned cost is 0 + 1 + 2 = 3 | the distance of the target, `dist[target]` | medium, not executed | ShortestPath.PrefixSumOvercounts | ShortestPath.Distance |
| tools/circuitlib/router/layerassign.py:271-296 | `improve` returns `cfg`, the copy made in the last round | a first round whose copy costs 7 against a start of 5: the loop stops and the dearer copy is returned | return `best_cfg`, never dearer than the start | high, not executed | LayerAssign.ImproveCanWorsen | LayerAssign.Configuration.ImproveBest |
