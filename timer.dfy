/** Timer.h: prescaler and compare-value selection for a timer interrupt
    rate, and the TCCRnA/TCCRnB encoding of a waveform mode and clock
    source.  Register bit positions are those of the ATmega32U4 data sheet
    (WGM00/WGM10 and WGM01/WGM11 in TCCRnA; WGM02/WGM12 at bit 3, WGM13 at
    bit 4 and CSn2..CSn0 at bits 2..0 of TCCRnB; OCIEnA at bit 1 of
    TIMSKn). */
module Timers {
  import opened Bytes
  import SmallestInteger

  datatype ClockSource =
    | None | Prescale1 | Prescale8 | Prescale64 | Prescale256 | Prescale1024
    | ExternalFalling | ExternalRising

  /** The enumerator's value. */
  function Ordinal(c: ClockSource): nat
  {
    match c
    case None => 0
    case Prescale1 => 1
    case Prescale8 => 2
    case Prescale64 => 3
    case Prescale256 => 4
    case Prescale1024 => 5
    case ExternalFalling => 6
    case ExternalRising => 7
  }

  datatype WaveformGenerationMode =
    | Normal | PwmPhaseCorrect | ClearOnTimerMatchOutputCompare | FastPwm
    | PwmPhaseCorrectOutputCompare | FastPwmOutputCompare

  datatype TimerKind = Timer0 | Timer1

  /** resolution_t: uint8_t for Timer0, uint16_t for Timer1. */
  function ResolutionBits(t: TimerKind): nat
  {
    if t == Timer0 then 8 else 16
  }

  /** The counter maximum, numeric_traits<resolution_t>'s max(). */
  function CounterLimit(t: TimerKind): (r: nat)
    ensures r == if t == Timer0 then 0xFF else 0xFFFF
  {
    SmallestInteger.MaxValues();
    SmallestInteger.Max(ResolutionBits(t))
  }

  // ---------------------------------------------------------------------
  // computeTimerConfig

  datatype TimerConfiguration = TimerConfiguration(source: ClockSource, compare: uint32)

  /** uint32_t subtraction, wrapping modulo 2^32. */
  function Sub32(a: uint32, b: uint32): (r: uint32)
    ensures a >= b ==> r == a - b
    ensures a < b ==> r == a - b + 0x1_0000_0000
  {
    (a - b) % 0x1_0000_0000
  }

  /** The compare value for one prescaler, (F_CPU / frequency) / prescale
      - 1 in unsigned 32-bit arithmetic, from the quotient
      ratio = F_CPU / frequency. */
  function Candidate(ratio: uint32, prescale: nat): uint32
    requires prescale > 0
  {
    Sub32(ratio / prescale, 1)
  }

  const Prescales: seq<nat> := [1, 8, 64, 256, 1024]
  const PrescaleSources: seq<ClockSource> := [Prescale1, Prescale8, Prescale64, Prescale256, Prescale1024]

  /** computeTimerConfig: the cascade of ifs over the prescalers. */
  function ComputeTimerConfig(t: TimerKind, fCpu: uint32, frequency: uint32): TimerConfiguration
    requires frequency > 0
  {
    ConfigForRatio(t, Quotient(fCpu, frequency))
  }

  /** F_CPU / frequency in uint32_t. */
  function Quotient(fCpu: uint32, frequency: uint32): (r: uint32)
    requires frequency > 0
    ensures r as int == fCpu / frequency
  {
    fCpu / frequency
  }

  /** The cascade for the quotient F_CPU / frequency. */
  function ConfigForRatio(t: TimerKind, ratio: uint32): TimerConfiguration
  {
    var limit := CounterLimit(t);
    var compare := Sub32(ratio, 1);
    if compare <= limit then TimerConfiguration(Prescale1, compare)
    else
      var compare := Sub32(ratio / 8, 1);
      if compare <= limit then TimerConfiguration(Prescale8, compare)
      else
        var compare := Sub32(ratio / 64, 1);
        if compare <= limit then TimerConfiguration(Prescale64, compare)
        else
          var compare := Sub32(ratio / 256, 1);
          if compare <= limit then TimerConfiguration(Prescale256, compare)
          else TimerConfiguration(Prescale1024, Sub32(ratio / 1024, 1))
  }

  /** The prescale index of a prescaled clock source. */
  function PrescaleIndex(c: ClockSource): nat
  {
    match c
    case Prescale1 => 0
    case Prescale8 => 1
    case Prescale64 => 2
    case Prescale256 => 3
    case _ => 4
  }

  /** The chosen prescaler is the first of 1, 8, 64, 256, 1024 whose compare
      value fits the counter; when none fits, 1024 is returned with its
      over-range compare value. */
  lemma ComputeTimerConfigFirstFit(t: TimerKind, fCpu: uint32, frequency: uint32)
    requires frequency > 0
    ensures var c, ratio := ComputeTimerConfig(t, fCpu, frequency), Quotient(fCpu, frequency);
      var k := PrescaleIndex(c.source);
      k < 5 && c.source == PrescaleSources[k] &&
      c.compare == Candidate(ratio, Prescales[k]) &&
      (forall j :: 0 <= j < k ==> Candidate(ratio, Prescales[j]) > CounterLimit(t)) &&
      (k < 4 ==> c.compare <= CounterLimit(t))
  {
    RatioFirstFit(t, Quotient(fCpu, frequency));
  }

  lemma RatioFirstFit(t: TimerKind, x: uint32)
    ensures var c := ConfigForRatio(t, x);
      var k := PrescaleIndex(c.source);
      k < 5 && c.source == PrescaleSources[k] &&
      c.compare == Candidate(x, Prescales[k]) &&
      (forall j :: 0 <= j < k ==> Candidate(x, Prescales[j]) > CounterLimit(t)) &&
      (k < 4 ==> c.compare <= CounterLimit(t))
  {
    assert x / 1 == x;
  }

  /** Integer division facts for the quotient F_CPU / frequency. */
  lemma QuotientBounds(a: nat, b: nat)
    requires b > 0
    ensures a < b ==> a / b == 0
    ensures b <= a ==> a / b >= 1
  {
    var q, r := a / b, a % b;
    assert a == b * q + r && 0 <= r < b;
    if q >= 1 {
      assert b * q >= b;
    } else {
      assert q == 0;
    }
  }

  /** With frequency <= F_CPU the subtraction at the chosen prescaler never
      wraps: the result is exactly (F_CPU / frequency) / prescale - 1. */
  lemma ComputeTimerConfigNoUnderflow(t: TimerKind, fCpu: uint32, frequency: uint32)
    requires 0 < frequency <= fCpu
    ensures var c := ComputeTimerConfig(t, fCpu, frequency);
      c.compare == fCpu / frequency / Prescales[PrescaleIndex(c.source)] - 1
  {
    QuotientBounds(fCpu, frequency);
    var x := fCpu / frequency;
    assert x / 1 == x;
    RatioNoUnderflow(t, x);
  }

  lemma RatioNoUnderflow(t: TimerKind, x: uint32)
    requires x >= 1
    ensures var c := ConfigForRatio(t, x);
      c.compare == x / Prescales[PrescaleIndex(c.source)] - 1
  {
  }

  /** Above F_CPU the quotient is 0 and every stage wraps to 2^32 - 1, so
      Prescale1024 is chosen with that compare value. */
  lemma ComputeTimerConfigAboveClock(t: TimerKind, fCpu: uint32, frequency: uint32)
    requires frequency > fCpu
    ensures ComputeTimerConfig(t, fCpu, frequency) == TimerConfiguration(Prescale1024, 0xFFFF_FFFF)
  {
    QuotientBounds(fCpu, frequency);
  }

  // ---------------------------------------------------------------------
  // Register encoding

  /** The CS bits of TCCRnB for a clock source (the same for both timers). */
  function ClockBits(source: ClockSource): (b: bv8)
    ensures b as int == Ordinal(source)
  {
    match source
    case None => 0
    case Prescale1 => 0x01
    case Prescale8 => 0x02
    case Prescale64 => 0x03
    case Prescale256 => 0x04
    case Prescale1024 => 0x05
    case ExternalFalling => 0x06
    case ExternalRising => 0x07
  }

  /** Timer0's mode bits (TCCR0A, TCCR0B) as written: WGM01 (bit 1) is put
      into TCCR0B, where bit 1 is CS01. */
  function Timer0ModeBitsAsWritten(mode: WaveformGenerationMode): (r: (bv8, bv8))
    ensures r.0 as int == WgmNumber(Timer0, mode) % 2
    ensures r.1 as int == WgmNumber(Timer0, mode) / 4 * 0x08 + WgmNumber(Timer0, mode) / 2 % 2 * 0x02
  {
    match mode
    case Normal => (0, 0)
    case PwmPhaseCorrect => (0x01, 0)
    case ClearOnTimerMatchOutputCompare => (0, 0x02)
    case FastPwm => (0x01, 0x02)
    case PwmPhaseCorrectOutputCompare => (0x01, 0x08)
    case FastPwmOutputCompare => (0x01, 0x08 | 0x02)
  }

  /** Timer0's mode bits with WGM01 in TCCR0A, where the data sheet puts
      it. */
  function Timer0ModeBits(mode: WaveformGenerationMode): (r: (bv8, bv8))
    ensures r.0 as int == WgmNumber(Timer0, mode) % 4
    ensures r.1 as int == WgmNumber(Timer0, mode) / 4 * 0x08
  {
    match mode
    case Normal => (0, 0)
    case PwmPhaseCorrect => (0x01, 0)
    case ClearOnTimerMatchOutputCompare => (0x02, 0)
    case FastPwm => (0x01 | 0x02, 0)
    case PwmPhaseCorrectOutputCompare => (0x01, 0x08)
    case FastPwmOutputCompare => (0x01 | 0x02, 0x08)
  }

  /** Timer1's mode bits (TCCR1A, TCCR1B). */
  function Timer1ModeBits(mode: WaveformGenerationMode): (bv8, bv8)
  {
    match mode
    case Normal => (0, 0)
    case PwmPhaseCorrect => (0x01, 0)
    case ClearOnTimerMatchOutputCompare => (0, 0x08)
    case FastPwm => (0x01, 0x08)
    case PwmPhaseCorrectOutputCompare => (0x02 | 0x01, 0x10)
    case FastPwmOutputCompare => (0x02 | 0x01, 0x08 | 0x10)
  }

  /** WGMn1:0 go to bits 1:0 of TCCRnA, WGMn3:2 to bits 4:3 of TCCRnB. */
  function ModeBits(t: TimerKind, mode: WaveformGenerationMode): (r: (bv8, bv8))
    ensures r.0 as int == WgmNumber(t, mode) % 4
    ensures r.1 as int == WgmNumber(t, mode) / 4 * 0x08
  {
    if t == Timer0 then Timer0ModeBits(mode) else Timer1ModeBits(mode)
  }

  /** The data sheet's WGM mode number for each mode: Timer0 modes 0, 1, 2,
      3, 5, 7 and Timer1 modes 0, 1, 4, 5, 11, 15. */
  function WgmNumber(t: TimerKind, mode: WaveformGenerationMode): nat
  {
    match mode
    case Normal => 0
    case PwmPhaseCorrect => 1
    case ClearOnTimerMatchOutputCompare => if t == Timer0 then 2 else 4
    case FastPwm => if t == Timer0 then 3 else 5
    case PwmPhaseCorrectOutputCompare => if t == Timer0 then 5 else 11
    case FastPwmOutputCompare => if t == Timer0 then 7 else 15
  }

  function Bit(x: bv8, n: nat): nat
    requires n < 8
  {
    if (x >> n) & 1 == 1 then 1 else 0
  }

  /** The mode the hardware reads back from TCCRnA and TCCRnB. */
  function DecodeWgm(t: TimerKind, a: bv8, b: bv8): nat
  {
    if t == Timer0 then 4 * Bit(b, 3) + 2 * Bit(a, 1) + Bit(a, 0)
    else 8 * Bit(b, 4) + 4 * Bit(b, 3) + 2 * Bit(a, 1) + Bit(a, 0)
  }

  /** The clock the hardware reads back from the CS bits of TCCRnB. */
  function DecodeClock(b: bv8): nat
  {
    (b & 0x07) as nat
  }

  /** For both timers, the register pair setup writes selects exactly the
      requested mode and clock source. */
  lemma SetupBitsRoundTrip(t: TimerKind, mode: WaveformGenerationMode, source: ClockSource)
    ensures var (a, b) := ModeBits(t, mode);
      DecodeWgm(t, a, b | ClockBits(source)) == WgmNumber(t, mode) &&
      DecodeClock(b | ClockBits(source)) == Ordinal(source)
  {
  }

  /** As written, Timer0 in CTC mode with Prescale1 runs in Normal mode with
      the clock divided by 64, because WGM01 lands on CS01. */
  lemma Timer0AsWrittenMisconfigures()
    ensures var (a, b) := Timer0ModeBitsAsWritten(ClearOnTimerMatchOutputCompare);
      var b' := b | ClockBits(Prescale1);
      DecodeWgm(Timer0, a, b') == WgmNumber(Timer0, Normal) &&
      DecodeClock(b') == Ordinal(Prescale64)
  {
  }

  // ---------------------------------------------------------------------
  // The timer registers

  class TimerRegisters {
    const kind: TimerKind
    /** TCCRnA and TCCRnB. */
    var tccrA: bv8
    var tccrB: bv8
    /** TCNTn */
    var counter: nat
    /** OCRnA */
    var outputCompare: nat
    /** TIMSKn */
    var timsk: bv8

    ghost predicate Valid()
      reads this
    {
      counter <= CounterLimit(kind) && outputCompare <= CounterLimit(kind)
    }

    constructor (kind: TimerKind)
      ensures Valid() && this.kind == kind
      ensures tccrA == 0 && tccrB == 0 && counter == 0 && outputCompare == 0 && timsk == 0
    {
      this.kind := kind;
      tccrA, tccrB, counter, outputCompare, timsk := 0, 0, 0, 0, 0;
    }

    /** setup(mode, source): the tabulated mode bits ORed with the clock
        bits, then the counter reset to 0. */
    method Setup(mode: WaveformGenerationMode, source: ClockSource)
      requires Valid()
      modifies this
      ensures Valid()
      ensures tccrA == ModeBits(kind, mode).0 && tccrB == ModeBits(kind, mode).1 | ClockBits(source)
      ensures counter == 0 && outputCompare == old(outputCompare) && timsk == old(timsk)
    {
      var (a, b) := ModeBits(kind, mode);
      b := b | ClockBits(source);
      tccrA := a;
      tccrB := b;
      counter := 0;
    }

    /** setup(mode, source, compare): also stores the compare value and
        enables the compare-match interrupt (OCIEnA). */
    method SetupCompare(mode: WaveformGenerationMode, source: ClockSource, compare: nat)
      requires Valid() && compare <= CounterLimit(kind)
      modifies this
      ensures Valid()
      ensures tccrA == ModeBits(kind, mode).0 && tccrB == ModeBits(kind, mode).1 | ClockBits(source)
      ensures counter == 0 && outputCompare == compare && timsk == old(timsk) | 0x02
    {
      Setup(mode, source);
      outputCompare := compare;
      timsk := timsk | 0x02;
    }

    /** setupTimer<Timer>(frequency): the computed configuration in CTC
        mode, the compare value truncated to resolution_t. */
    method SetupTimer(fCpu: uint32, frequency: uint32)
      requires Valid() && frequency > 0
      modifies this
      ensures Valid()
      ensures var c := ComputeTimerConfig(kind, fCpu, frequency);
        tccrA == ModeBits(kind, ClearOnTimerMatchOutputCompare).0 &&
        tccrB == ModeBits(kind, ClearOnTimerMatchOutputCompare).1 | ClockBits(c.source) &&
        counter == 0 && outputCompare == c.compare % (CounterLimit(kind) + 1) && timsk == old(timsk) | 0x02
    {
      var config := ComputeTimerConfig(kind, fCpu, frequency);
      SetupCompare(ClearOnTimerMatchOutputCompare, config.source, config.compare % (CounterLimit(kind) + 1));
    }
  }
}
