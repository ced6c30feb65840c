/** AvrGpio.h: pins of the 8-bit AVR ports, and the compile-time mapping
    that packs up to eight pins into one store per port.  Register values
    are `bv8`; a pin list is the eight template arguments T0..T7, with
    NoPin (the NO_PORT placeholder) for the unused ones. */
module AvrGpio {

  /** The ports a pin can name; NoPort is NO_PORT, and TestA/TestB are the
      fake ports of the test build. */
  datatype PortId = NoPort | PortB | PortC | PortD | PortE | PortF | TestA | TestB

  /** Where a port's registers sit in the register file. */
  function Index(p: PortId): (i: nat)
    requires p != NoPort
    ensures i < 7 && PortAt(i) == p
  {
    match p
    case PortB => 0
    case PortC => 1
    case PortD => 2
    case PortE => 3
    case PortF => 4
    case TestA => 5
    case TestB => 6
  }

  lemma IndexOfPortAt(i: nat)
    requires i < 7
    ensures Index(PortAt(i)) == i
  {
  }

  lemma NoMaskBits(d: bv8, r: bv8)
    ensures d & !0 == d && r | 0 == r
  {
  }

  /** The port whose registers sit at position i. */
  function PortAt(i: nat): (p: PortId)
    requires i < 7
    ensures p != NoPort
  {
    if i == 0 then PortB else if i == 1 then PortC else if i == 2 then PortD
    else if i == 3 then PortE else if i == 4 then PortF else if i == 5 then TestA else TestB
  }

  /** A bit position in a port; pins static_assert BIT < 8. */
  type BitIndex = b: bv8 | b < 8

  /** OutputPin<PORT, BIT> or InputPin<PORT, BIT, PULLUP>; output pins
      carry `pullUp` false. */
  datatype Pin = Pin(port: PortId, bit: BitIndex, pullUp: bool)

  /** NoOutputPin and NoInputPin. */
  const NoPin := Pin(NoPort, 0, false)

  /** The template arguments T0..T7 of OutputPins and InputPins, least
      significant first. */
  datatype PinList = PinList(t0: Pin, t1: Pin, t2: Pin, t3: Pin, t4: Pin, t5: Pin, t6: Pin, t7: Pin)
  {
    /** T<i>. */
    function At(i: BitIndex): Pin
    {
      if i == 0 then t0 else if i == 1 then t1 else if i == 2 then t2 else if i == 3 then t3
      else if i == 4 then t4 else if i == 5 then t5 else if i == 6 then t6 else t7
    }
  }

  /** No two listed pins name the same bit of the same port. */
  ghost predicate DistinctPins(pins: PinList)
  {
    forall i: BitIndex, j: BitIndex :: i != j && pins.At(i).port != NoPort ==>
      (pins.At(i).port, pins.At(i).bit) != (pins.At(j).port, pins.At(j).bit)
  }

  /** Bit `k` of `v`. */
  predicate BitSet(v: bv8, k: BitIndex)
  {
    (v >> k) & 1 == 1
  }

  /** shift<N>(x) for N = to - from: x << N truncated to a byte when
      N >= 0, and x >> -N when N < 0. */
  function Shift(to: BitIndex, from: BitIndex, x: bv8): bv8
  {
    if to >= from then x << (to - from) else x >> (from - to)
  }

  /** The pin's `mask`: its bit alone. */
  function PinMask(pin: Pin): bv8
  {
    1 << pin.bit
  }

  /** map_bit_impl<PortType, PIN::port, PIN, BIT>::map_bit: bit BIT of x
      moved to the pin's bit when the pin is on `port`, else 0. */
  function MapBit(port: PortId, pin: Pin, i: BitIndex, x: bv8): bv8
  {
    if pin.port == port then Shift(pin.bit, i, x & (1 << i)) else 0
  }

  /** map_bit_impl<...>::mask. */
  function MapMask(port: PortId, pin: Pin): bv8
  {
    if pin.port == port then PinMask(pin) else 0
  }

  /** What input bit i should contribute to the port: the pin's mask when
      the pin is on the port and bit i of x is set. */
  function Routed(port: PortId, pin: Pin, i: BitIndex, x: bv8): bv8
  {
    if pin.port == port && BitSet(x, i) then PinMask(pin) else 0
  }

  /** map_bit moves at most one bit: the pin's own, and only when the pin is
      on the port and bit i of x is set. */
  lemma MapBitSingle(port: PortId, pin: Pin, i: BitIndex, x: bv8)
    ensures MapBit(port, pin, i, x) == Routed(port, pin, i, x)
  {
  }

  /** map_bits_impl<PortType, T0..T7>::map_bits. */
  function MapBits(port: PortId, pins: PinList, x: bv8): bv8
  {
    MapBit(port, pins.t0, 0, x) | MapBit(port, pins.t1, 1, x) | MapBit(port, pins.t2, 2, x) |
    MapBit(port, pins.t3, 3, x) | MapBit(port, pins.t4, 4, x) | MapBit(port, pins.t5, 5, x) |
    MapBit(port, pins.t6, 6, x) | MapBit(port, pins.t7, 7, x)
  }

  /** map_bits_impl<PortType, T0..T7>::mask. */
  function Mask(port: PortId, pins: PinList): bv8
  {
    MapMask(port, pins.t0) | MapMask(port, pins.t1) | MapMask(port, pins.t2) |
    MapMask(port, pins.t3) | MapMask(port, pins.t4) | MapMask(port, pins.t5) |
    MapMask(port, pins.t6) | MapMask(port, pins.t7)
  }

  /** map_bits as the OR of what each listed pin should contribute. */
  lemma MapBitsExpanded(port: PortId, pins: PinList, x: bv8)
    ensures MapBits(port, pins, x) ==
      Routed(port, pins.t0, 0, x) | Routed(port, pins.t1, 1, x) | Routed(port, pins.t2, 2, x) |
      Routed(port, pins.t3, 3, x) | Routed(port, pins.t4, 4, x) | Routed(port, pins.t5, 5, x) |
      Routed(port, pins.t6, 6, x) | Routed(port, pins.t7, 7, x)
  {
    MapBitSingle(port, pins.t0, 0, x);
    MapBitSingle(port, pins.t1, 1, x);
    MapBitSingle(port, pins.t2, 2, x);
    MapBitSingle(port, pins.t3, 3, x);
    MapBitSingle(port, pins.t4, 4, x);
    MapBitSingle(port, pins.t5, 5, x);
    MapBitSingle(port, pins.t6, 6, x);
    MapBitSingle(port, pins.t7, 7, x);
  }

  /** A bit of an OR of eight bytes is set iff it is set in one of them. */
  lemma BitSetOr8(r0: bv8, r1: bv8, r2: bv8, r3: bv8, r4: bv8, r5: bv8, r6: bv8, r7: bv8, b: BitIndex)
    ensures BitSet(r0 | r1 | r2 | r3 | r4 | r5 | r6 | r7, b) <==>
      BitSet(r0, b) || BitSet(r1, b) || BitSet(r2, b) || BitSet(r3, b) ||
      BitSet(r4, b) || BitSet(r5, b) || BitSet(r6, b) || BitSet(r7, b)
  {
  }

  /** The only bit of a pin's mask is the pin's bit. */
  lemma PinMaskBit(pin: Pin, b: BitIndex)
    ensures BitSet(PinMask(pin), b) <==> pin.bit == b
  {
  }

  lemma RoutedBit(port: PortId, pin: Pin, i: BitIndex, x: bv8, b: BitIndex)
    ensures BitSet(Routed(port, pin, i, x), b) <==> pin.port == port && pin.bit == b && BitSet(x, i)
  {
    PinMaskBit(pin, b);
  }

  lemma MapMaskBit(port: PortId, pin: Pin, b: BitIndex)
    ensures BitSet(MapMask(port, pin), b) <==> pin.port == port && pin.bit == b
  {
    PinMaskBit(pin, b);
  }

  /** Pin T<i> is on the port at bit b. */
  predicate Owns(pins: PinList, i: BitIndex, port: PortId, b: BitIndex)
  {
    pins.At(i).port == port && pins.At(i).bit == b
  }

  lemma MapBitsBitCases(port: PortId, pins: PinList, x: bv8, b: BitIndex)
    ensures BitSet(MapBits(port, pins, x), b) <==>
      ((pins.t0.port == port && pins.t0.bit == b) && BitSet(x, 0)) || ((pins.t1.port == port && pins.t1.bit == b) && BitSet(x, 1)) ||
      ((pins.t2.port == port && pins.t2.bit == b) && BitSet(x, 2)) || ((pins.t3.port == port && pins.t3.bit == b) && BitSet(x, 3)) ||
      ((pins.t4.port == port && pins.t4.bit == b) && BitSet(x, 4)) || ((pins.t5.port == port && pins.t5.bit == b) && BitSet(x, 5)) ||
      ((pins.t6.port == port && pins.t6.bit == b) && BitSet(x, 6)) || ((pins.t7.port == port && pins.t7.bit == b) && BitSet(x, 7))
  {
    MapBitsHalfCases(port, pins.t0, pins.t1, pins.t2, pins.t3, 0, x, b);
    MapBitsHalfCases(port, pins.t4, pins.t5, pins.t6, pins.t7, 4, x, b);
    BitSetOr2(MapBit(port, pins.t0, 0, x) | MapBit(port, pins.t1, 1, x) | MapBit(port, pins.t2, 2, x) | MapBit(port, pins.t3, 3, x),
              MapBit(port, pins.t4, 4, x) | MapBit(port, pins.t5, 5, x) | MapBit(port, pins.t6, 6, x) | MapBit(port, pins.t7, 7, x), b);
  }

  /** Four consecutive terms of map_bits, for T<i>..T<i+3>. */
  lemma MapBitsHalfCases(port: PortId, p0: Pin, p1: Pin, p2: Pin, p3: Pin, i: BitIndex, x: bv8, b: BitIndex)
    requires i <= 4
    ensures BitSet(MapBit(port, p0, i, x) | MapBit(port, p1, i + 1, x) | MapBit(port, p2, i + 2, x) | MapBit(port, p3, i + 3, x), b) <==>
      (p0.port == port && p0.bit == b && BitSet(x, i)) || (p1.port == port && p1.bit == b && BitSet(x, i + 1)) ||
      (p2.port == port && p2.bit == b && BitSet(x, i + 2)) || (p3.port == port && p3.bit == b && BitSet(x, i + 3))
  {
    MapBitBit(port, p0, i, x, b);
    MapBitBit(port, p1, i + 1, x, b);
    MapBitBit(port, p2, i + 2, x, b);
    MapBitBit(port, p3, i + 3, x, b);
    BitSetOr4(MapBit(port, p0, i, x), MapBit(port, p1, i + 1, x), MapBit(port, p2, i + 2, x), MapBit(port, p3, i + 3, x), b);
  }

  lemma BitSetOr2(r0: bv8, r1: bv8, b: BitIndex)
    ensures BitSet(r0 | r1, b) <==> BitSet(r0, b) || BitSet(r1, b)
  {
  }

  lemma BitSetOr4(r0: bv8, r1: bv8, r2: bv8, r3: bv8, b: BitIndex)
    ensures BitSet(r0 | r1 | r2 | r3, b) <==> BitSet(r0, b) || BitSet(r1, b) || BitSet(r2, b) || BitSet(r3, b)
  {
  }

  /** Bit b of map_bit is set iff the pin is on the port at bit b and bit i
      of x is set. */
  lemma MapBitBit(port: PortId, pin: Pin, i: BitIndex, x: bv8, b: BitIndex)
    ensures BitSet(MapBit(port, pin, i, x), b) <==> pin.port == port && pin.bit == b && BitSet(x, i)
  {
    MapBitSingle(port, pin, i, x);
    RoutedBit(port, pin, i, x, b);
  }

  /** A bit of map_bits(x) is set iff some listed pin on the port owns it
      and the corresponding bit of x is set. */
  lemma MapBitsBit(port: PortId, pins: PinList, x: bv8, b: BitIndex)
    ensures BitSet(MapBits(port, pins, x), b) <==> exists i: BitIndex :: Owns(pins, i, port, b) && BitSet(x, i)
  {
    MapBitsBitCases(port, pins, x, b);
    if !BitSet(MapBits(port, pins, x), b) {
      forall i: BitIndex
        ensures !(Owns(pins, i, port, b) && BitSet(x, i))
      {
        OneOfEight(i);
      }
    }
  }

  /** Every bit index is one of 0..7. */
  lemma OneOfEight(i: BitIndex)
    ensures i == 0 || i == 1 || i == 2 || i == 3 || i == 4 || i == 5 || i == 6 || i == 7
  {
  }

  /** With distinct pins, the bit of every listed pin on the port is the
      corresponding bit of x. */
  lemma MapBitsRoutes(port: PortId, pins: PinList, x: bv8, k: BitIndex)
    requires DistinctPins(pins) && pins.At(k).port == port && port != NoPort
    ensures BitSet(MapBits(port, pins, x), pins.At(k).bit) <==> BitSet(x, k)
  {
    MapBitsBit(port, pins, x, pins.At(k).bit);
  }

  lemma MaskBitCases(port: PortId, pins: PinList, b: BitIndex)
    ensures BitSet(Mask(port, pins), b) <==>
      Owns(pins, 0, port, b) || Owns(pins, 1, port, b) || Owns(pins, 2, port, b) || Owns(pins, 3, port, b) ||
      Owns(pins, 4, port, b) || Owns(pins, 5, port, b) || Owns(pins, 6, port, b) || Owns(pins, 7, port, b)
  {
    MapMaskBit(port, pins.t0, b);
    MapMaskBit(port, pins.t1, b);
    MapMaskBit(port, pins.t2, b);
    MapMaskBit(port, pins.t3, b);
    MapMaskBit(port, pins.t4, b);
    MapMaskBit(port, pins.t5, b);
    MapMaskBit(port, pins.t6, b);
    MapMaskBit(port, pins.t7, b);
    OrBitCases(MapMask(port, pins.t0), MapMask(port, pins.t1), MapMask(port, pins.t2), MapMask(port, pins.t3),
               MapMask(port, pins.t4), MapMask(port, pins.t5), MapMask(port, pins.t6), MapMask(port, pins.t7), b,
               Owns(pins, 0, port, b), Owns(pins, 1, port, b), Owns(pins, 2, port, b), Owns(pins, 3, port, b),
               Owns(pins, 4, port, b), Owns(pins, 5, port, b), Owns(pins, 6, port, b), Owns(pins, 7, port, b));
  }

  /** A bit of an OR of eight bytes is set iff one of the conditions for
      the bytes holds, when each condition says that byte has the bit. */
  lemma OrBitCases(m0: bv8, m1: bv8, m2: bv8, m3: bv8, m4: bv8, m5: bv8, m6: bv8, m7: bv8, b: BitIndex,
                   c0: bool, c1: bool, c2: bool, c3: bool, c4: bool, c5: bool, c6: bool, c7: bool)
    requires (BitSet(m0, b) <==> c0) && (BitSet(m1, b) <==> c1) && (BitSet(m2, b) <==> c2) && (BitSet(m3, b) <==> c3)
    requires (BitSet(m4, b) <==> c4) && (BitSet(m5, b) <==> c5) && (BitSet(m6, b) <==> c6) && (BitSet(m7, b) <==> c7)
    ensures BitSet(m0 | m1 | m2 | m3 | m4 | m5 | m6 | m7, b) <==> c0 || c1 || c2 || c3 || c4 || c5 || c6 || c7
  {
    BitSetOr8(m0, m1, m2, m3, m4, m5, m6, m7, b);
  }

  /** A bit is in the port's mask iff some listed pin on the port owns it. */
  lemma MaskBits(port: PortId, pins: PinList, b: BitIndex)
    ensures BitSet(Mask(port, pins), b) <==> exists i: BitIndex :: Owns(pins, i, port, b)
  {
    MaskBitCases(port, pins, b);
    if !BitSet(Mask(port, pins), b) {
      forall i: BitIndex
        ensures !Owns(pins, i, port, b)
      {
        OneOfEight(i);
      }
    }
  }

  /** The mask is 0 exactly when no listed pin is on the port. */
  lemma MaskZeroIffNoPin(port: PortId, pins: PinList)
    ensures Mask(port, pins) == 0 <==> forall i: BitIndex :: pins.At(i).port != port
  {
    if Mask(port, pins) == 0 {
      forall i: BitIndex
        ensures pins.At(i).port != port
      {
        MaskBits(port, pins, pins.At(i).bit);
      }
    } else {
      assert pins.At(0) == pins.t0 && pins.At(1) == pins.t1 && pins.At(2) == pins.t2 && pins.At(3) == pins.t3;
      assert pins.At(4) == pins.t4 && pins.At(5) == pins.t5 && pins.At(6) == pins.t6 && pins.At(7) == pins.t7;
    }
  }

  /** map_bits never sets a bit outside the port's mask. */
  lemma MapBitsWithinMask(port: PortId, pins: PinList, x: bv8)
    ensures MapBits(port, pins, x) & !Mask(port, pins) == 0
  {
    forall b: BitIndex | BitSet(MapBits(port, pins, x), b)
      ensures BitSet(Mask(port, pins), b)
    {
      MapBitsBit(port, pins, x, b);
      MaskBits(port, pins, b);
    }
    WithinByBits(MapBits(port, pins, x), Mask(port, pins));
  }

  /** A byte whose set bits are all set in m has nothing outside m. */
  lemma WithinByBits(a: bv8, m: bv8)
    requires forall b: BitIndex :: BitSet(a, b) ==> BitSet(m, b)
    ensures a & !m == 0
  {
    assert BitSet(a, 0) ==> BitSet(m, 0);
    assert BitSet(a, 1) ==> BitSet(m, 1);
    assert BitSet(a, 2) ==> BitSet(m, 2);
    assert BitSet(a, 3) ==> BitSet(m, 3);
    assert BitSet(a, 4) ==> BitSet(m, 4);
    assert BitSet(a, 5) ==> BitSet(m, 5);
    assert BitSet(a, 6) ==> BitSet(m, 6);
    assert BitSet(a, 7) ==> BitSet(m, 7);
  }

  /** write_bits_impl<PortType, T0..T7, MASK>::write_bits: the new register
      value, map_bits(x) | (reg & ~MASK); the MASK 0 specialisation leaves
      the register alone. */
  function WriteBits(reg: bv8, port: PortId, pins: PinList, x: bv8): bv8
  {
    var mask := Mask(port, pins);
    if mask == 0 then reg else MapBits(port, pins, x) | (reg & !mask)
  }

  lemma MergeKeepsUnowned(m: bv8, r: bv8, mask: bv8)
    requires m & !mask == 0
    ensures (if mask == 0 then r else m | (r & !mask)) & !mask == r & !mask
  {
  }

  /** Bits that no listed pin owns keep their value. */
  lemma WriteBitsKeepsUnowned(reg: bv8, port: PortId, pins: PinList, x: bv8)
    ensures WriteBits(reg, port, pins, x) & !Mask(port, pins) == reg & !Mask(port, pins)
  {
    MapBitsWithinMask(port, pins, x);
    MergeKeepsUnowned(MapBits(port, pins, x), reg, Mask(port, pins));
  }

  /** A bit inside the mask of m | (r & ~mask) comes from m. */
  lemma OwnedBitOfMerge(m: bv8, r: bv8, mask: bv8, b: BitIndex)
    requires BitSet(mask, b)
    ensures BitSet(if mask == 0 then r else m | (r & !mask), b) <==> BitSet(m, b)
  {
  }

  /** Every listed pin on the port takes the corresponding bit of x. */
  lemma WriteBitsRoutes(reg: bv8, port: PortId, pins: PinList, x: bv8, k: BitIndex)
    requires DistinctPins(pins) && pins.At(k).port == port && port != NoPort
    ensures BitSet(WriteBits(reg, port, pins, x), pins.At(k).bit) <==> BitSet(x, k)
  {
    var b := pins.At(k).bit;
    MaskBits(port, pins, b);
    assert Owns(pins, k, port, b);
    MapBitsRoutes(port, pins, x, k);
    WriteBitsOwnedBit(reg, port, pins, x, b);
  }

  /** A bit the mask owns takes its value from map_bits. */
  lemma WriteBitsOwnedBit(reg: bv8, port: PortId, pins: PinList, x: bv8, b: BitIndex)
    requires BitSet(Mask(port, pins), b)
    ensures BitSet(WriteBits(reg, port, pins, x), b) <==> BitSet(MapBits(port, pins, x), b)
  {
    OwnedBitOfMerge(MapBits(port, pins, x), reg, Mask(port, pins), b);
  }

  lemma RoutedAllOnes(port: PortId, pin: Pin, i: BitIndex)
    ensures Routed(port, pin, i, 0xFF) == MapMask(port, pin)
  {
  }

  /** map_bits of all ones is the mask. */
  lemma MapBitsAllOnes(port: PortId, pins: PinList)
    ensures MapBits(port, pins, 0xFF) == Mask(port, pins)
  {
    MapBitsExpanded(port, pins, 0xFF);
    RoutedAllOnes(port, pins.t0, 0);
    RoutedAllOnes(port, pins.t1, 1);
    RoutedAllOnes(port, pins.t2, 2);
    RoutedAllOnes(port, pins.t3, 3);
    RoutedAllOnes(port, pins.t4, 4);
    RoutedAllOnes(port, pins.t5, 5);
    RoutedAllOnes(port, pins.t6, 6);
    RoutedAllOnes(port, pins.t7, 7);
  }

  lemma MergeAllOnes(m: bv8, r: bv8, mask: bv8)
    requires m == mask
    ensures (if mask == 0 then r else m | (r & !mask)) == r | mask
  {
  }

  /** Writing all ones, as OutputPins::setup does to the DDR, sets exactly
      the listed pins' bits. */
  lemma WriteAllOnes(reg: bv8, port: PortId, pins: PinList)
    ensures WriteBits(reg, port, pins, 0xFF) == reg | Mask(port, pins)
  {
    MapBitsAllOnes(port, pins);
    MergeAllOnes(MapBits(port, pins, 0xFF), reg, Mask(port, pins));
  }

  /** The pins of the "A only" test: A0..A7 in order. */
  const APins := PinList(Pin(TestA, 0, false), Pin(TestA, 1, false), Pin(TestA, 2, false), Pin(TestA, 3, false),
                         Pin(TestA, 4, false), Pin(TestA, 5, false), Pin(TestA, 6, false), Pin(TestA, 7, false))

  /** The pins of the "A and B" test: A3, A2, A1, A0, B7, B6, B5, B4. */
  const ABPins := PinList(Pin(TestA, 3, false), Pin(TestA, 2, false), Pin(TestA, 1, false), Pin(TestA, 0, false),
                          Pin(TestB, 7, false), Pin(TestB, 6, false), Pin(TestB, 5, false), Pin(TestB, 4, false))

  /** With A0..A7 in order, setup makes PortA all outputs and every byte
      written lands unchanged in PortA's register. */
  lemma AOnlyTest(ddr: bv8, reg: bv8, x: bv8)
    ensures WriteBits(ddr, TestA, APins, 0xFF) == 0xFF
    ensures WriteBits(reg, TestA, APins, x) == x
  {
    MapBitsExpanded(TestA, APins, x);
    MapBitsExpanded(TestA, APins, 0xFF);
  }

  /** The expectations of the "A and B" test, from zeroed registers. */
  lemma AAndBTest()
    ensures WriteBits(0, TestA, ABPins, 0xFF) == 0x0F && WriteBits(0, TestB, ABPins, 0xFF) == 0xF0
    ensures WriteBits(0, TestA, ABPins, 0) == 0 && WriteBits(0, TestB, ABPins, 0) == 0
    ensures WriteBits(0, TestA, ABPins, 1) == 0x08 && WriteBits(0, TestB, ABPins, 1) == 0
    ensures WriteBits(0, TestA, ABPins, 2) == 0x04 && WriteBits(0, TestB, ABPins, 2) == 0
    ensures WriteBits(0, TestA, ABPins, 4) == 0x02 && WriteBits(0, TestB, ABPins, 4) == 0
    ensures WriteBits(0, TestA, ABPins, 8) == 0x01 && WriteBits(0, TestB, ABPins, 8) == 0
    ensures WriteBits(0, TestA, ABPins, 16) == 0 && WriteBits(0, TestB, ABPins, 16) == 0x80
    ensures WriteBits(0, TestA, ABPins, 32) == 0 && WriteBits(0, TestB, ABPins, 32) == 0x40
    ensures WriteBits(0, TestA, ABPins, 64) == 0 && WriteBits(0, TestB, ABPins, 64) == 0x20
    ensures WriteBits(0, TestA, ABPins, 128) == 0 && WriteBits(0, TestB, ABPins, 128) == 0x10
    ensures WriteBits(0, TestA, ABPins, 0x3C) == 0x03 && WriteBits(0, TestB, ABPins, 0x3C) == 0xC0
  {
  }

  /** OutputPin set/clear/toggle on a register value: only the pin's bit
      changes, to 1, to 0 or to its complement. */
  lemma PinUpdateBits(v: bv8, pin: Pin, b: BitIndex)
    ensures BitSet(v | PinMask(pin), b) <==> b == pin.bit || BitSet(v, b)
    ensures BitSet(v & !PinMask(pin), b) <==> b != pin.bit && BitSet(v, b)
    ensures BitSet(v ^ PinMask(pin), b) <==> if b == pin.bit then !BitSet(v, b) else BitSet(v, b)
  {
  }

  /** OutputPin::set, clear and toggle on the PORT register value. */
  function SetBit(v: bv8, pin: Pin): bv8
  {
    v | PinMask(pin)
  }

  function ClearBit(v: bv8, pin: Pin): bv8
  {
    v & !PinMask(pin)
  }

  function ToggleBit(v: bv8, pin: Pin): bv8
  {
    v ^ PinMask(pin)
  }

  /** setupPin<Pin> on the DDR registers: the pin's bit is cleared to make
      it an input; NoInputPin changes nothing. */
  function InputDdrs(d: seq<bv8>, p: Pin): (r: seq<bv8>)
    requires |d| == 7 && (p.port != NoPort || p == NoPin)
    ensures |r| == 7
  {
    if p == NoPin then d else d[Index(p.port) := ClearBit(d[Index(p.port)], p)]
  }

  /** setupPin<Pin> on the PORT registers: a pull-up pin's bit is set. */
  function PullUpRegs(r: seq<bv8>, p: Pin): (r': seq<bv8>)
    requires |r| == 7 && (p.port != NoPort || p == NoPin)
    ensures |r'| == 7
  {
    if p == NoPin || !p.pullUp then r else r[Index(p.port) := SetBit(r[Index(p.port)], p)]
  }

  /** Per port, setupPin clears the pin's mask from DDR and ors the
      pull-up's mask into PORT. */
  lemma InputDdrsAt(d: seq<bv8>, p: Pin, i: nat)
    requires |d| == 7 && (p.port != NoPort || p == NoPin) && i < 7
    ensures InputDdrs(d, p)[i] == d[i] & !MapMask(PortAt(i), p)
  {
    IndexOfPortAt(i);
    if p != NoPin && i == Index(p.port) {
      PinBitsAsMasks(d[i], d[i], p);
    } else {
      NoMaskBits(d[i], d[i]);
    }
  }

  lemma PullUpRegsAt(r: seq<bv8>, p: Pin, i: nat)
    requires |r| == 7 && (p.port != NoPort || p == NoPin) && i < 7
    ensures PullUpRegs(r, p)[i] == r[i] | MapMask(PortAt(i), PullUp(p))
  {
    IndexOfPortAt(i);
    if p == NoPin || !p.pullUp {
      assert PullUpRegs(r, p) == r && PullUp(p) == NoPin;
      NoMaskBits(r[i], r[i]);
    } else if i == Index(p.port) {
      assert PullUp(p) == p && PortAt(i) == p.port;
      PinBitsAsMasks(r[i], r[i], p);
    } else {
      assert PullUpRegs(r, p)[i] == r[i] && MapMask(PortAt(i), p) == 0;
      NoMaskBits(r[i], r[i]);
    }
  }

  /** InputPins::setup on the register files: setupPin for T0..T7 in turn. */
  function InputsDdrs(d: seq<bv8>, pins: PinList): (r: seq<bv8>)
    requires |d| == 7 && InputList(pins)
    ensures |r| == 7
  {
    assert pins.At(0) == pins.t0 && pins.At(1) == pins.t1 && pins.At(2) == pins.t2 && pins.At(3) == pins.t3;
    assert pins.At(4) == pins.t4 && pins.At(5) == pins.t5 && pins.At(6) == pins.t6 && pins.At(7) == pins.t7;
    InputDdrs(InputDdrs(InputDdrs(InputDdrs(InputDdrs(InputDdrs(InputDdrs(InputDdrs(d,
      pins.t0), pins.t1), pins.t2), pins.t3), pins.t4), pins.t5), pins.t6), pins.t7)
  }

  function InputsPullUps(r: seq<bv8>, pins: PinList): (r': seq<bv8>)
    requires |r| == 7 && InputList(pins)
    ensures |r'| == 7
  {
    assert pins.At(0) == pins.t0 && pins.At(1) == pins.t1 && pins.At(2) == pins.t2 && pins.At(3) == pins.t3;
    assert pins.At(4) == pins.t4 && pins.At(5) == pins.t5 && pins.At(6) == pins.t6 && pins.At(7) == pins.t7;
    PullUpRegs(PullUpRegs(PullUpRegs(PullUpRegs(PullUpRegs(PullUpRegs(PullUpRegs(PullUpRegs(r,
      pins.t0), pins.t1), pins.t2), pins.t3), pins.t4), pins.t5), pins.t6), pins.t7)
  }

  /** After InputPins::setup every listed pin's DDR bit is clear and nothing
      else in DDR changes. */
  lemma InputsDdrsAt(d: seq<bv8>, pins: PinList, i: nat)
    requires |d| == 7 && InputList(pins) && i < 7
    ensures InputsDdrs(d, pins)[i] == d[i] & !Mask(PortAt(i), pins)
  {
    assert pins.At(0) == pins.t0 && pins.At(1) == pins.t1 && pins.At(2) == pins.t2 && pins.At(3) == pins.t3;
    assert pins.At(4) == pins.t4 && pins.At(5) == pins.t5 && pins.At(6) == pins.t6 && pins.At(7) == pins.t7;
    var d1 := InputDdrs(d, pins.t0);
    var d2 := InputDdrs(d1, pins.t1);
    var d3 := InputDdrs(d2, pins.t2);
    var d4 := InputDdrs(d3, pins.t3);
    var d5 := InputDdrs(d4, pins.t4);
    var d6 := InputDdrs(d5, pins.t5);
    var d7 := InputDdrs(d6, pins.t6);
    InputDdrsAt(d, pins.t0, i);
    InputDdrsAt(d1, pins.t1, i);
    InputDdrsAt(d2, pins.t2, i);
    InputDdrsAt(d3, pins.t3, i);
    InputDdrsAt(d4, pins.t4, i);
    InputDdrsAt(d5, pins.t5, i);
    InputDdrsAt(d6, pins.t6, i);
    InputDdrsAt(d7, pins.t7, i);
    var q := PortAt(i);
    AndNot8(d[i], MapMask(q, pins.t0), MapMask(q, pins.t1), MapMask(q, pins.t2), MapMask(q, pins.t3),
            MapMask(q, pins.t4), MapMask(q, pins.t5), MapMask(q, pins.t6), MapMask(q, pins.t7));
  }

  /** After InputPins::setup the PORT bits of the pull-up pins are set and
      nothing else in PORT changes. */
  lemma InputsPullUpsAt(r: seq<bv8>, pins: PinList, i: nat)
    requires |r| == 7 && InputList(pins) && i < 7
    ensures InputsPullUps(r, pins)[i] == r[i] | Mask(PortAt(i), PullUps(pins))
  {
    assert pins.At(0) == pins.t0 && pins.At(1) == pins.t1 && pins.At(2) == pins.t2 && pins.At(3) == pins.t3;
    assert pins.At(4) == pins.t4 && pins.At(5) == pins.t5 && pins.At(6) == pins.t6 && pins.At(7) == pins.t7;
    var r1 := PullUpRegs(r, pins.t0);
    var r2 := PullUpRegs(r1, pins.t1);
    var r3 := PullUpRegs(r2, pins.t2);
    var r4 := PullUpRegs(r3, pins.t3);
    var r5 := PullUpRegs(r4, pins.t4);
    var r6 := PullUpRegs(r5, pins.t5);
    var r7 := PullUpRegs(r6, pins.t6);
    PullUpRegsAt(r, pins.t0, i);
    PullUpRegsAt(r1, pins.t1, i);
    PullUpRegsAt(r2, pins.t2, i);
    PullUpRegsAt(r3, pins.t3, i);
    PullUpRegsAt(r4, pins.t4, i);
    PullUpRegsAt(r5, pins.t5, i);
    PullUpRegsAt(r6, pins.t6, i);
    PullUpRegsAt(r7, pins.t7, i);
    var q := PortAt(i);
    OrInto8(r[i], MapMask(q, PullUp(pins.t0)), MapMask(q, PullUp(pins.t1)), MapMask(q, PullUp(pins.t2)),
            MapMask(q, PullUp(pins.t3)), MapMask(q, PullUp(pins.t4)), MapMask(q, PullUp(pins.t5)),
            MapMask(q, PullUp(pins.t6)), MapMask(q, PullUp(pins.t7)));
  }

  /** Clearing or setting the pin's bit is masking with MapMask. */
  lemma PinBitsAsMasks(d: bv8, r: bv8, p: Pin)
    ensures ClearBit(d, p) == d & !MapMask(p.port, p)
    ensures SetBit(r, p) == r | MapMask(p.port, p)
  {
  }

  /** OutputPin::read on the PORT register value: `(reg & mask) == mask`. */
  predicate Level(v: bv8, pin: Pin)
  {
    v & PinMask(pin) == PinMask(pin)
  }

  /** Set drives the pin high, clear drives it low and toggle inverts it. */
  lemma OutputBitOps(v: bv8, pin: Pin)
    ensures Level(SetBit(v, pin), pin)
    ensures !Level(ClearBit(v, pin), pin)
    ensures Level(ToggleBit(v, pin), pin) == !Level(v, pin)
  {
  }

  /** OutputPin::read and InputPin::read test the pin's bit. */
  lemma PinReadBit(v: bv8, pin: Pin)
    ensures (v & PinMask(pin)) == PinMask(pin) <==> BitSet(v, pin.bit)
    ensures (v & PinMask(pin)) != 0 <==> BitSet(v, pin.bit)
  {
  }

  /** The pin itself if it enables the pull-up, otherwise no pin. */
  function PullUp(pin: Pin): Pin
  {
    if pin.pullUp then pin else NoPin
  }

  /** The pins of the list that enable their pull-up. */
  function PullUps(pins: PinList): PinList
  {
    PinList(PullUp(pins.t0), PullUp(pins.t1), PullUp(pins.t2), PullUp(pins.t3),
            PullUp(pins.t4), PullUp(pins.t5), PullUp(pins.t6), PullUp(pins.t7))
  }

  /** Every slot of an InputPins list is a pin of a real port or
      NoInputPin, whose setup and read are specialised away. */
  ghost predicate InputList(pins: PinList)
  {
    forall i: BitIndex :: pins.At(i).port != NoPort || pins.At(i) == NoPin
  }

  /** d & ~m0 & ... & ~m7 is d & ~(m0 | ... | m7). */
  lemma AndNot8(d: bv8, m0: bv8, m1: bv8, m2: bv8, m3: bv8, m4: bv8, m5: bv8, m6: bv8, m7: bv8)
    ensures d & !m0 & !m1 & !m2 & !m3 & !m4 & !m5 & !m6 & !m7 == d & !(m0 | m1 | m2 | m3 | m4 | m5 | m6 | m7)
  {
  }

  /** d | m0 | ... | m7 is d | (m0 | ... | m7). */
  lemma OrInto8(d: bv8, m0: bv8, m1: bv8, m2: bv8, m3: bv8, m4: bv8, m5: bv8, m6: bv8, m7: bv8)
    ensures d | m0 | m1 | m2 | m3 | m4 | m5 | m6 | m7 == d | (m0 | m1 | m2 | m3 | m4 | m5 | m6 | m7)
  {
  }

  /** do_write_pins<Port> on a register file: one store to the port's
      register, through write_bits_impl. */
  function PortWrite(r: seq<bv8>, port: PortId, pins: PinList, x: bv8): (r': seq<bv8>)
    requires |r| == 7 && port != NoPort
    ensures |r'| == 7
  {
    r[Index(port) := WriteBits(r[Index(port)], port, pins, x)]
  }

  /** OutputPins::setup and OutputPins::write on a register file: each port
      in turn, B to F and then the two test ports. */
  function AllPortsWrite(r: seq<bv8>, pins: PinList, x: bv8): (r': seq<bv8>)
    requires |r| == 7
    ensures |r'| == 7
  {
    PortWrite(PortWrite(PortWrite(PortWrite(PortWrite(PortWrite(PortWrite(r,
      PortB, pins, x), PortC, pins, x), PortD, pins, x), PortE, pins, x), PortF, pins, x), TestA, pins, x), TestB, pins, x)
  }

  /** Each port's register receives write_bits for that port, from its own
      old value: the per-port stores do not interfere. */
  lemma AllPortsWriteAt(r: seq<bv8>, pins: PinList, x: bv8, i: nat)
    requires |r| == 7 && i < 7
    ensures AllPortsWrite(r, pins, x)[i] == WriteBits(r[i], PortAt(i), pins, x)
  {
    if i == 0 {
      assert AllPortsWrite(r, pins, x)[0] == WriteBits(r[0], PortB, pins, x);
    } else if i == 1 {
      assert AllPortsWrite(r, pins, x)[1] == WriteBits(r[1], PortC, pins, x);
    } else if i == 2 {
      assert AllPortsWrite(r, pins, x)[2] == WriteBits(r[2], PortD, pins, x);
    } else if i == 3 {
      assert AllPortsWrite(r, pins, x)[3] == WriteBits(r[3], PortE, pins, x);
    } else if i == 4 {
      assert AllPortsWrite(r, pins, x)[4] == WriteBits(r[4], PortF, pins, x);
    } else if i == 5 {
      assert AllPortsWrite(r, pins, x)[5] == WriteBits(r[5], TestA, pins, x);
    } else {
      assert AllPortsWrite(r, pins, x)[6] == WriteBits(r[6], TestB, pins, x);
    }
  }

  /** The DDR, PORT and PIN registers of every port.  PIN is driven from
      outside (in the test build through input_reg()). */
  class Ports {
    /** Each register file is indexed by Index(port). */
    var ddr: seq<bv8>
    var reg: seq<bv8>
    var pin: seq<bv8>

    ghost predicate Valid()
      reads this
    {
      |ddr| == 7 && |reg| == 7 && |pin| == 7
    }

    /** Registers out of reset, with the given input levels. */
    constructor(input: seq<bv8>)
      requires |input| == 7
      ensures Valid() && pin == input
      ensures forall i :: 0 <= i < 7 ==> ddr[i] == 0 && reg[i] == 0
    {
      ddr := [0, 0, 0, 0, 0, 0, 0];
      reg := [0, 0, 0, 0, 0, 0, 0];
      pin := input;
    }

    /** OutputPin::setup: `ddr |= mask`. */
    method SetupOutput(p: Pin)
      requires Valid() && p.port != NoPort
      modifies this
      ensures Valid() && reg == old(reg) && pin == old(pin)
      ensures ddr == old(ddr)[Index(p.port) := old(ddr)[Index(p.port)] | PinMask(p)]
    {
      ddr := ddr[Index(p.port) := ddr[Index(p.port)] | PinMask(p)];
    }

    /** OutputPin::set: `reg |= mask`. */
    method Set(p: Pin)
      requires Valid() && p.port != NoPort
      modifies this
      ensures Valid() && ddr == old(ddr) && pin == old(pin)
      ensures reg == old(reg)[Index(p.port) := SetBit(old(reg)[Index(p.port)], p)]
      ensures ReadOutput(p)
    {
      OutputBitOps(reg[Index(p.port)], p);
      reg := reg[Index(p.port) := SetBit(reg[Index(p.port)], p)];
    }

    /** OutputPin::clear: `reg &= ~mask`. */
    method Clear(p: Pin)
      requires Valid() && p.port != NoPort
      modifies this
      ensures Valid() && ddr == old(ddr) && pin == old(pin)
      ensures reg == old(reg)[Index(p.port) := ClearBit(old(reg)[Index(p.port)], p)]
      ensures !ReadOutput(p)
    {
      OutputBitOps(reg[Index(p.port)], p);
      reg := reg[Index(p.port) := ClearBit(reg[Index(p.port)], p)];
    }

    /** OutputPin::write: set or clear. */
    method Write(p: Pin, x: bool)
      requires Valid() && p.port != NoPort
      modifies this
      ensures Valid() && ddr == old(ddr) && pin == old(pin)
      ensures reg == old(reg)[Index(p.port) := if x then SetBit(old(reg)[Index(p.port)], p) else ClearBit(old(reg)[Index(p.port)], p)]
      ensures ReadOutput(p) == x
    {
      if x {
        Set(p);
      } else {
        Clear(p);
      }
    }

    /** OutputPin::toggle: `reg ^= mask`. */
    method Toggle(p: Pin)
      requires Valid() && p.port != NoPort
      modifies this
      ensures Valid() && ddr == old(ddr) && pin == old(pin)
      ensures reg == old(reg)[Index(p.port) := ToggleBit(old(reg)[Index(p.port)], p)]
      ensures ReadOutput(p) == !old(ReadOutput(p))
    {
      OutputBitOps(reg[Index(p.port)], p);
      reg := reg[Index(p.port) := ToggleBit(reg[Index(p.port)], p)];
    }

    /** OutputPin::read: the level the pin is driven to. */
    function ReadOutput(p: Pin): bool
      reads this
      requires Valid() && p.port != NoPort
    {
      Level(reg[Index(p.port)], p)
    }

    /** InputPin::setup: `ddr &= ~mask`, and `reg |= mask` for a pull-up. */
    method SetupInput(p: Pin)
      requires Valid() && p.port != NoPort
      modifies this
      ensures Valid() && pin == old(pin)
      ensures ddr == old(ddr)[Index(p.port) := ClearBit(old(ddr)[Index(p.port)], p)]
      ensures reg == if p.pullUp then old(reg)[Index(p.port) := SetBit(old(reg)[Index(p.port)], p)] else old(reg)
    {
      ddr := ddr[Index(p.port) := ClearBit(ddr[Index(p.port)], p)];
      if p.pullUp {
        reg := reg[Index(p.port) := SetBit(reg[Index(p.port)], p)];
      }
    }

    /** InputPin::read: `(pin & mask) != 0`. */
    function ReadInput(p: Pin): bool
      reads this
      requires Valid() && p.port != NoPort
    {
      (pin[Index(p.port)] & PinMask(p)) != 0
    }

    /** setupPin<Pin>: nothing for NoInputPin.  Stated per port: every
        register bit the pin does not own keeps its value. */
    method SetupPin(p: Pin)
      requires Valid() && (p.port != NoPort || p == NoPin)
      modifies this
      ensures Valid() && pin == old(pin)
      ensures ddr == InputDdrs(old(ddr), p) && reg == PullUpRegs(old(reg), p)
    {
      if p != NoPin {
        SetupInput(p);
      }
    }

    /** InputPins::setup: setupPin for T0..T7 in turn.  The DDR bits of the
        listed pins become inputs, the pull-up pins' PORT bits are set, and
        nothing else changes. */
    method SetupInputs(pins: PinList)
      requires Valid() && InputList(pins)
      modifies this
      ensures Valid() && pin == old(pin)
      ensures ddr == InputsDdrs(old(ddr), pins) && reg == InputsPullUps(old(reg), pins)
    {
      assert pins.At(0) == pins.t0 && pins.At(1) == pins.t1 && pins.At(2) == pins.t2 && pins.At(3) == pins.t3;
      assert pins.At(4) == pins.t4 && pins.At(5) == pins.t5 && pins.At(6) == pins.t6 && pins.At(7) == pins.t7;
      SetupPin(pins.t0);
      SetupPin(pins.t1);
      SetupPin(pins.t2);
      SetupPin(pins.t3);
      SetupPin(pins.t4);
      SetupPin(pins.t5);
      SetupPin(pins.t6);
      SetupPin(pins.t7);
    }

    /** readPin<Pin>(value): value if the pin reads high, 0 for NoInputPin. */
    function ReadPin(p: Pin, value: bv8): bv8
      reads this
      requires Valid() && (p.port != NoPort || p == NoPin)
    {
      if p == NoPin then 0 else if ReadInput(p) then value else 0
    }

    /** InputPins::read. */
    function ReadInputs(pins: PinList): bv8
      reads this
      requires Valid() && InputList(pins)
    {
      assert pins.At(0) == pins.t0 && pins.At(1) == pins.t1 && pins.At(2) == pins.t2 && pins.At(3) == pins.t3;
      assert pins.At(4) == pins.t4 && pins.At(5) == pins.t5 && pins.At(6) == pins.t6 && pins.At(7) == pins.t7;
      ReadPin(pins.t0, 1 << 0) | ReadPin(pins.t1, 1 << 1) | ReadPin(pins.t2, 1 << 2) | ReadPin(pins.t3, 1 << 3) |
      ReadPin(pins.t4, 1 << 4) | ReadPin(pins.t5, 1 << 5) | ReadPin(pins.t6, 1 << 6) | ReadPin(pins.t7, 1 << 7)
    }

    /** Bit k of InputPins::read is set iff T<k> is a real pin reading high. */
    lemma ReadInputsBit(pins: PinList, k: BitIndex)
      requires Valid() && InputList(pins)
      ensures BitSet(ReadInputs(pins), k) <==> pins.At(k) != NoPin && ReadInput(pins.At(k))
    {
      assert pins.At(0) == pins.t0 && pins.At(1) == pins.t1 && pins.At(2) == pins.t2 && pins.At(3) == pins.t3;
      assert pins.At(4) == pins.t4 && pins.At(5) == pins.t5 && pins.At(6) == pins.t6 && pins.At(7) == pins.t7;
      var v := ReadPin(pins.t0, 1 << 0) | ReadPin(pins.t1, 1 << 1) | ReadPin(pins.t2, 1 << 2) | ReadPin(pins.t3, 1 << 3);
      var w := ReadPin(pins.t4, 1 << 4) | ReadPin(pins.t5, 1 << 5) | ReadPin(pins.t6, 1 << 6) | ReadPin(pins.t7, 1 << 7);
      assert ReadInputs(pins) == v | w;
      BitSetOr2(v, w, k);
      BitSetOr4(ReadPin(pins.t0, 1 << 0), ReadPin(pins.t1, 1 << 1), ReadPin(pins.t2, 1 << 2), ReadPin(pins.t3, 1 << 3), k);
      BitSetOr4(ReadPin(pins.t4, 1 << 4), ReadPin(pins.t5, 1 << 5), ReadPin(pins.t6, 1 << 6), ReadPin(pins.t7, 1 << 7), k);
      ReadPinBit(pins.t0, 0, k);
      ReadPinBit(pins.t1, 1, k);
      ReadPinBit(pins.t2, 2, k);
      ReadPinBit(pins.t3, 3, k);
      ReadPinBit(pins.t4, 4, k);
      ReadPinBit(pins.t5, 5, k);
      ReadPinBit(pins.t6, 6, k);
      ReadPinBit(pins.t7, 7, k);
      OneOfEight(k);
    }

    lemma ReadPinBit(p: Pin, i: BitIndex, k: BitIndex)
      requires Valid() && (p.port != NoPort || p == NoPin)
      ensures BitSet(ReadPin(p, 1 << i), k) <==> i == k && p != NoPin && ReadInput(p)
    {
      PinMaskBit(Pin(p.port, i, false), k);
    }

    /** OutputPins<T0..T7>::setup for one port: do_setup_pins on its DDR. */
    method SetupPortPins(port: PortId, pins: PinList)
      requires Valid() && port != NoPort
      modifies this
      ensures Valid() && reg == old(reg) && pin == old(pin)
      ensures ddr == PortWrite(old(ddr), port, pins, 0xFF)
    {
      ddr := ddr[Index(port) := WriteBits(ddr[Index(port)], port, pins, 0xFF)];
    }

    /** OutputPins<T0..T7>::write for one port: do_write_pins on its PORT
        register. */
    method WritePortPins(port: PortId, pins: PinList, x: bv8)
      requires Valid() && port != NoPort
      modifies this
      ensures Valid() && ddr == old(ddr) && pin == old(pin)
      ensures reg == PortWrite(old(reg), port, pins, x)
    {
      reg := reg[Index(port) := WriteBits(reg[Index(port)], port, pins, x)];
    }

    /** OutputPins<T0..T7>::setup: every port in turn. */
    method SetupOutputs(pins: PinList)
      requires Valid()
      modifies this
      ensures Valid() && reg == old(reg) && pin == old(pin)
      ensures ddr == AllPortsWrite(old(ddr), pins, 0xFF)
    {
      SetupPortPins(PortB, pins);
      SetupPortPins(PortC, pins);
      SetupPortPins(PortD, pins);
      SetupPortPins(PortE, pins);
      SetupPortPins(PortF, pins);
      SetupPortPins(TestA, pins);
      SetupPortPins(TestB, pins);
    }

    /** OutputPins<T0..T7>::write(x): every port in turn. */
    method WriteOutputs(pins: PinList, x: bv8)
      requires Valid()
      modifies this
      ensures Valid() && ddr == old(ddr) && pin == old(pin)
      ensures reg == AllPortsWrite(old(reg), pins, x)
    {
      WritePortPins(PortB, pins, x);
      WritePortPins(PortC, pins, x);
      WritePortPins(PortD, pins, x);
      WritePortPins(PortE, pins, x);
      WritePortPins(PortF, pins, x);
      WritePortPins(TestA, pins, x);
      WritePortPins(TestB, pins, x);
    }
  }
}
