/** SPIFriend.h: the driver for an Adafruit Bluefruit LE "SPI Friend", which
    speaks the Simple Data Exchange Protocol (SDEP) over SPI and is used to
    send AT commands.  The SPI bus, the IRQ pin and the FreeRTOS tick counter
    are outside the model: what the module answers, the pin levels and the
    counter readings are scripts (an `Env`), and what the firmware does on the
    bus is recorded as a trace of `BusEvent`s. */
module SpiFriend {
  import opened Bytes
  import opened Seqs
  import FS = FixedStrings
  import Reports

  // ble_cmd
  const BleInitialize: uint16 := 0xBEEF
  const BleAtWrapper: uint16 := 0x0A00
  const BleUartTx: uint16 := 0x0A01
  const BleUartRx: uint16 := 0x0A02

  // sdep_type
  const SdepCommand: uint8 := 0x10
  const SdepResponse: uint8 := 0x20
  const SdepAlert: uint8 := 0x40
  const SdepError: uint8 := 0x80
  const SdepSlaveNotReady: uint8 := 0xFE
  const SdepSlaveOverflow: uint8 := 0xFF

  const SdepMaxPayload: nat := 16
  /** sizeof(SdepMsg), which the constructors assert. */
  const FrameSize: nat := 20

  // ---------------------------------------------------------------------
  // SdepMsg

  /** The packed frame: the type byte, the command split into two bytes,
      the 7-bit `len` and 1-bit `more` fields sharing the fourth byte, and
      a 16-byte payload. */
  datatype SdepMsg = SdepMsg(msgType: uint8, cmdLow: uint8, cmdHigh: uint8, len: nat, more: bool, payload: seq<uint8>)

  predicate Valid(m: SdepMsg)
  {
    m.len < 0x80 && |m.payload| == SdepMaxPayload
  }

  /** The byte holding the bit-fields; avr-gcc allocates them from the
      least significant bit, so `len` is bits 0-6 and `more` bit 7. */
  function LenMoreByte(len: nat, more: bool): uint8
    requires len < 0x80
  {
    len + if more then 0x80 else 0
  }

  /** The 20 bytes of the frame in memory order. */
  function Frame(m: SdepMsg): (f: seq<uint8>)
    requires Valid(m)
    ensures |f| == FrameSize
  {
    [m.msgType, m.cmdLow, m.cmdHigh, LenMoreByte(m.len, m.more)] + m.payload
  }

  /** The frame that 20 bytes of memory hold. */
  function FromFrame(f: seq<uint8>): (m: SdepMsg)
    requires |f| == FrameSize
    ensures Valid(m)
  {
    SdepMsg(f[0], f[1], f[2], f[3] % 0x80, f[3] >= 0x80, f[4..])
  }

  /** The packing is a bijection between frames and 20-byte blocks. */
  lemma FrameRoundTrip(m: SdepMsg, f: seq<uint8>)
    requires Valid(m) && |f| == FrameSize
    ensures FromFrame(Frame(m)) == m
    ensures Frame(FromFrame(f)) == f
  {
    assert Frame(FromFrame(f)) == f[..4] + f[4..];
  }

  /** The command a frame carries, from its two command bytes. */
  function CommandCode(m: SdepMsg): uint16
  {
    m.cmdHigh * 0x100 + m.cmdLow
  }

  /** SdepMsg(command): a command frame without payload.  The constructor
      leaves the payload indeterminate; the model fills it with zeros,
      which are never sent because `len` is 0. */
  function CommandMsg(command: uint16): (m: SdepMsg)
    ensures Valid(m) && m.msgType == SdepCommand && CommandCode(m) == command
    ensures m.len == 0 && !m.more
  {
    SdepMsg(SdepCommand, command % 0x100, command / 0x100, 0, false, seq(SdepMaxPayload, _ => 0))
  }

  /** SdepMsg(command, start, datalen, moredata): `data` is the `datalen`
      bytes from `start`.  copy_n writes them into the 16-byte payload, so
      at most 16 fit; `more` is kept only for a full payload. */
  function DataMsg(command: uint16, data: seq<uint8>, moredata: bool): (m: SdepMsg)
    requires |data| <= SdepMaxPayload
    ensures Valid(m) && m.msgType == SdepCommand && CommandCode(m) == command
    ensures m.len == |data| && m.payload[..m.len] == data
    ensures m.more <==> moredata && |data| == SdepMaxPayload
  {
    var m := SdepMsg(SdepCommand, command % 0x100, command / 0x100, |data|,
                     moredata && |data| == SdepMaxPayload, data + seq(SdepMaxPayload - |data|, _ => 0));
    assert m.payload[..m.len] == data;
    m
  }

  /** The bytes `send` writes after the type byte: `sizeof(*msg) - (1 +
      sizeof(payload)) + len` bytes from cmd_low, the three header bytes
      and the first `len` payload bytes. */
  function FrameTail(m: SdepMsg): (t: seq<uint8>)
    requires Valid(m) && m.len <= SdepMaxPayload
    ensures |t| == 3 + m.len
  {
    Frame(m)[1..4 + m.len]
  }

  /** What one send puts on the wire: the type byte and the tail are the
      first 4 + len bytes of the frame, and the tail decodes back to the
      command, the length, the more flag and the payload bytes. */
  lemma FrameTailContents(m: SdepMsg)
    requires Valid(m) && m.len <= SdepMaxPayload
    ensures [m.msgType] + FrameTail(m) == Frame(m)[..4 + m.len]
    ensures (FrameTail(m)[1] as int) * 0x100 + FrameTail(m)[0] as int == CommandCode(m)
    ensures FrameTail(m)[2] % 0x80 == m.len && (FrameTail(m)[2] >= 0x80 <==> m.more)
    ensures FrameTail(m)[3..] == m.payload[..m.len]
  {
    assert Frame(m)[..4 + m.len] == [Frame(m)[0]] + Frame(m)[1..4 + m.len];
  }

  // ---------------------------------------------------------------------
  // The bus and its scripts

  /** What the firmware does on the bus, in order. */
  datatype BusEvent =
    | Select                   // ChipSelect constructed: CS low
    | Release                  // ChipSelect destroyed: CS high
    | BackOff                  // cs.backOff(): CS high for 25us, then low
    | Exchange(sent: uint8)    // transferByte: one byte out, the reply in
    | Write(bytes: seq<uint8>) // sendBytes
    | Read(count: nat)         // readByte (count 1) and recvBytes
    | PowerOn                  // PowerPin::set()
    | ResetLine(high: bool)    // ResetPin::set() and ResetPin::clear()
    | DelayMs(ms: nat)         // _delay_ms and delayMilliseconds

  /** What the environment supplies: the bytes the module returns to the
      reads, in order; the IRQ pin level at each poll; the tick counter at
      each reading. */
  datatype Env = Env(miso: seq<uint8>, irq: seq<bool>, ticks: seq<uint16>)

  /** The byte the module returns at read `k`.  Past the script it returns
      SdepSlaveOverflow, the protocol's answer to reading more than is
      available. */
  function ByteAt(s: seq<uint8>, k: nat): uint8
  {
    if k < |s| then s[k] else SdepSlaveOverflow
  }

  /** Bytes `k` .. `k + n - 1` of the module's answers. */
  function BytesAt(s: seq<uint8>, k: nat, n: nat): (r: seq<uint8>)
    ensures |r| == n && forall i :: 0 <= i < n ==> r[i] == ByteAt(s, k + i)
    decreases n
  {
    if n == 0 then [] else [ByteAt(s, k)] + BytesAt(s, k + 1, n - 1)
  }

  /** A script after `n` of its entries have been used. */
  function Drop<T>(s: seq<T>, n: nat): (r: seq<T>)
    ensures |r| == if n <= |s| then |s| - n else 0
  {
    if n <= |s| then s[n..] else []
  }

  lemma DropDrop<T>(s: seq<T>, a: nat, b: nat)
    ensures Drop(Drop(s, a), b) == Drop(s, a + b)
  {
  }

  lemma ByteAtDrop(s: seq<uint8>, a: nat, k: nat)
    ensures ByteAt(Drop(s, a), k) == ByteAt(s, a + k)
  {
  }

  /** xTaskGetTickCount() at the start of a timed loop.  An exhausted
      clock script reads 0: every later check then finds the time up. */
  function StartOf(ticks: seq<uint16>): uint16
  {
    if ticks == [] then 0 else ticks[0]
  }

  /** The first of the loop-condition readings `checks` at which
      `now - start < timeout` (16-bit TickType_t, wrapping) is false, or
      the end of the script, which counts as the time being up. */
  function Expiry(checks: seq<uint16>, start: uint16, timeout: uint16): (j: nat)
    ensures j <= |checks|
    ensures forall k :: 0 <= k < j ==> Sub16(checks[k], start) < timeout
    ensures j < |checks| ==> Sub16(checks[j], start) >= timeout
  {
    if checks == [] || Sub16(checks[0], start) >= timeout then 0
    else 1 + Expiry(checks[1..], start, timeout)
  }

  /** The first reply to the type byte that is not SdepSlaveNotReady;
      past the script every reply is ready. */
  function FirstReady(replies: seq<uint8>): (i: nat)
    ensures i <= |replies| && ByteAt(replies, i) != SdepSlaveNotReady
    ensures forall k :: 0 <= k < i ==> replies[k] == SdepSlaveNotReady
  {
    if replies == [] || replies[0] != SdepSlaveNotReady then 0
    else 1 + FirstReady(replies[1..])
  }

  /** A type byte recv accepts: neither SdepSlaveNotReady nor
      SdepSlaveOverflow. */
  predicate Accepted(b: uint8)
  {
    b != SdepSlaveNotReady && b != SdepSlaveOverflow
  }

  /** The first type byte recv accepts, or the end of the script, past
      which none is. */
  function FirstAccepted(s: seq<uint8>): (i: nat)
    ensures i <= |s| && (i < |s| <==> Accepted(ByteAt(s, i)))
    ensures forall k :: 0 <= k < i ==> !Accepted(s[k])
  {
    if s == [] || Accepted(s[0]) then 0
    else 1 + FirstAccepted(s[1..])
  }

  /** The first poll at which the IRQ pin reads high, or the end of the
      script, past which it reads low. */
  function FirstHigh(irq: seq<bool>): (i: nat)
    ensures i <= |irq| && (i < |irq| ==> irq[i])
    ensures forall k :: 0 <= k < i ==> !irq[k]
  {
    if irq == [] || irq[0] then 0
    else 1 + FirstHigh(irq[1..])
  }

  /** `n` attempts that each clocked out `b` and backed off. */
  function Retries(b: uint8, n: nat): (t: seq<BusEvent>)
    ensures |t| == 2 * n
  {
    if n == 0 then [] else Retries(b, n - 1) + [Exchange(b), BackOff]
  }

  /** `n` type-byte reads that each backed off. */
  function ReadRetries(n: nat): (t: seq<BusEvent>)
    ensures |t| == 2 * n
  {
    if n == 0 then [] else ReadRetries(n - 1) + [Read(1), BackOff]
  }

  // ---------------------------------------------------------------------
  // send

  /** The result of a bus operation: whether it succeeded, what is left of
      the scripts, and what happened on the bus. */
  datatype Outcome = Outcome(ok: bool, env: Env, trace: seq<BusEvent>)

  /** send, in closed form.  Attempt k clocks out the type byte; a reply
      other than SdepSlaveNotReady lets the rest of the frame follow and
      succeeds, otherwise the chip select backs off and the clock is read.
      The send succeeds iff the first ready reply comes no later than the
      first reading at which the timeout has passed. */
  function SendOutcome(m: SdepMsg, timeout: uint16, e: Env): (o: Outcome)
    requires Valid(m) && m.len <= SdepMaxPayload
    ensures var checks := Drop(e.ticks, 1);
      o.ok <==> FirstReady(e.miso) <= Expiry(checks, StartOf(e.ticks), timeout)
    ensures o.env.irq == e.irq
  {
    var start, checks := StartOf(e.ticks), Drop(e.ticks, 1);
    var r, d := FirstReady(e.miso), Expiry(checks, start, timeout);
    if r <= d then
      Outcome(true, e.(miso := Drop(e.miso, r + 1), ticks := Drop(checks, r)),
              [Select] + Retries(m.msgType, r) + [Exchange(m.msgType), Write(FrameTail(m)), Release])
    else
      Outcome(false, e.(miso := Drop(e.miso, d + 1), ticks := Drop(checks, d + 1)),
              [Select] + Retries(m.msgType, d + 1) + [Release])
  }

  /** The outcome of a send that finds the module ready at attempt `i`. */
  lemma SendReadyAt(m: SdepMsg, timeout: uint16, e: Env, i: nat)
    requires Valid(m) && m.len <= SdepMaxPayload
    requires i <= FirstReady(e.miso) && i <= Expiry(Drop(e.ticks, 1), StartOf(e.ticks), timeout)
    requires ByteAt(e.miso, i) != SdepSlaveNotReady
    ensures SendOutcome(m, timeout, e) ==
      Outcome(true, e.(miso := Drop(e.miso, i + 1), ticks := Drop(Drop(e.ticks, 1), i)),
              [Select] + Retries(m.msgType, i) + [Exchange(m.msgType), Write(FrameTail(m)), Release])
  {
    assert i == FirstReady(e.miso);
  }

  /** The outcome of a send whose attempt `i` is refused and whose clock
      check after it finds the time up. */
  lemma SendExpiresAt(m: SdepMsg, timeout: uint16, e: Env, i: nat)
    requires Valid(m) && m.len <= SdepMaxPayload
    requires i <= FirstReady(e.miso) && i <= Expiry(Drop(e.ticks, 1), StartOf(e.ticks), timeout)
    requires ByteAt(e.miso, i) == SdepSlaveNotReady
    requires var rest := Drop(Drop(e.ticks, 1), i); rest == [] || Sub16(rest[0], StartOf(e.ticks)) >= timeout
    ensures SendOutcome(m, timeout, e) ==
      Outcome(false, e.(miso := Drop(e.miso, i + 1), ticks := Drop(Drop(e.ticks, 1), i + 1)),
              [Select] + Retries(m.msgType, i + 1) + [Release])
  {
    var checks := Drop(e.ticks, 1);
    assert i == Expiry(checks, StartOf(e.ticks), timeout);
    assert i < FirstReady(e.miso);
    DropDrop(checks, i, 1);
  }

  /** send(msg, timeout): the do-while retry loop. */
  method Send(m: SdepMsg, timeout: uint16, e: Env) returns (o: Outcome)
    requires Valid(m) && m.len <= SdepMaxPayload
    ensures o == SendOutcome(m, timeout, e)
  {
    var start := StartOf(e.ticks);
    ghost var checks := Drop(e.ticks, 1);
    var ticks := Drop(e.ticks, 1);
    var miso := e.miso;
    var trace := [Select];
    ghost var i := 0;
    while true
      invariant i <= FirstReady(e.miso) && i <= Expiry(checks, start, timeout)
      invariant miso == Drop(e.miso, i) && ticks == Drop(checks, i)
      invariant trace == [Select] + Retries(m.msgType, i)
      decreases |ticks|
    {
      var reply := ByteAt(miso, 0);
      ByteAtDrop(e.miso, i, 0);
      DropDrop(e.miso, i, 1);
      miso := Drop(miso, 1);
      if reply != SdepSlaveNotReady {
        SendReadyAt(m, timeout, e, i);
        ConcatAssoc([Select], Retries(m.msgType, i), [Exchange(m.msgType), Write(FrameTail(m)), Release]);
        trace := trace + [Exchange(m.msgType), Write(FrameTail(m)), Release];
        return Outcome(true, e.(miso := miso, ticks := ticks), trace);
      }
      ConcatAssoc([Select], Retries(m.msgType, i), [Exchange(m.msgType), BackOff]);
      trace := trace + [Exchange(m.msgType), BackOff];
      DropDrop(checks, i, 1);
      if ticks == [] || Sub16(ticks[0], start) >= timeout {
        SendExpiresAt(m, timeout, e, i);
        return Outcome(false, e.(miso := miso, ticks := Drop(ticks, 1)), trace + [Release]);
      }
      ticks := ticks[1..];
      i := i + 1;
    }
  }

  // ---------------------------------------------------------------------
  // waitForSpiData and recv

  /** The IRQ pin level at poll `k`; past the script it reads low. */
  function IrqAt(irq: seq<bool>, k: nat): bool
  {
    k < |irq| && irq[k]
  }

  /** waitForSpiData, in closed form: it succeeds iff the pin reads high
      at some poll no later than the first clock reading at which the
      timeout has passed. */
  function WaitOutcome(timeout: uint16, e: Env): (o: Outcome)
    ensures o.ok <==> FirstHigh(e.irq) < |e.irq| &&
                      FirstHigh(e.irq) <= Expiry(Drop(e.ticks, 1), StartOf(e.ticks), timeout)
    ensures o.env.miso == e.miso && o.trace == []
  {
    var start, checks := StartOf(e.ticks), Drop(e.ticks, 1);
    var q, d := FirstHigh(e.irq), Expiry(checks, start, timeout);
    if q < |e.irq| && q <= d then
      Outcome(true, e.(irq := Drop(e.irq, q + 1), ticks := Drop(checks, q)), [])
    else
      Outcome(false, e.(irq := Drop(e.irq, d + 1), ticks := Drop(checks, d + 1)), [])
  }

  lemma WaitHighAt(timeout: uint16, e: Env, i: nat)
    requires forall k :: 0 <= k < i ==> !IrqAt(e.irq, k)
    requires i <= Expiry(Drop(e.ticks, 1), StartOf(e.ticks), timeout) && IrqAt(e.irq, i)
    ensures WaitOutcome(timeout, e) ==
      Outcome(true, e.(irq := Drop(e.irq, i + 1), ticks := Drop(Drop(e.ticks, 1), i)), [])
  {
    var q := FirstHigh(e.irq);
    if q < i {
      assert IrqAt(e.irq, q);
    }
  }

  lemma WaitExpiresAt(timeout: uint16, e: Env, i: nat)
    requires forall k :: 0 <= k <= i ==> !IrqAt(e.irq, k)
    requires i <= Expiry(Drop(e.ticks, 1), StartOf(e.ticks), timeout)
    requires var rest := Drop(Drop(e.ticks, 1), i); rest == [] || Sub16(rest[0], StartOf(e.ticks)) >= timeout
    ensures WaitOutcome(timeout, e) ==
      Outcome(false, e.(irq := Drop(e.irq, i + 1), ticks := Drop(Drop(e.ticks, 1), i + 1)), [])
  {
    var checks := Drop(e.ticks, 1);
    assert i == Expiry(checks, StartOf(e.ticks), timeout);
    var q := FirstHigh(e.irq);
    if q < |e.irq| {
      assert IrqAt(e.irq, q);
    }
    DropDrop(checks, i, 1);
  }

  /** waitForSpiData(timeout): poll the IRQ pin, 1us apart, until it reads
      high or the time is up. */
  method WaitForSpiData(timeout: uint16, e: Env) returns (o: Outcome)
    ensures o == WaitOutcome(timeout, e)
  {
    var start := StartOf(e.ticks);
    ghost var checks := Drop(e.ticks, 1);
    var ticks := Drop(e.ticks, 1);
    var irq := e.irq;
    ghost var i := 0;
    while true
      invariant forall k :: 0 <= k < i ==> !IrqAt(e.irq, k)
      invariant i <= Expiry(checks, start, timeout)
      invariant irq == Drop(e.irq, i) && ticks == Drop(checks, i)
      decreases |ticks|
    {
      var level := irq != [] && irq[0];
      assert level == IrqAt(e.irq, i);
      DropDrop(e.irq, i, 1);
      irq := Drop(irq, 1);
      if level {
        WaitHighAt(timeout, e, i);
        return Outcome(true, e.(irq := irq, ticks := ticks), []);
      }
      DropDrop(checks, i, 1);
      if ticks == [] || Sub16(ticks[0], start) >= timeout {
        WaitExpiresAt(timeout, e, i);
        return Outcome(false, e.(irq := irq, ticks := Drop(ticks, 1)), []);
      }
      ticks := ticks[1..];
      i := i + 1;
    }
  }

  /** The result of recv: success, the message buffer afterwards, the rest
      of the scripts and the bus trace. */
  datatype Received = Received(ok: bool, msg: SdepMsg, env: Env, trace: seq<BusEvent>)

  /** The message buffer after reading an accepted frame whose type byte is
      read at `v`: the type, the three header bytes, and the payload only
      when `len` is at most 16; an over-long frame leaves the old payload. */
  function ReadFrame(msg: SdepMsg, miso: seq<uint8>, v: nat): (m: SdepMsg)
    requires Valid(msg)
    ensures Valid(m)
  {
    var h := BytesAt(miso, v + 1, 3);
    var len := h[2] % 0x80;
    SdepMsg(ByteAt(miso, v), h[0], h[1], len, h[2] >= 0x80,
            if len <= SdepMaxPayload then BytesAt(miso, v + 4, len) + msg.payload[len..] else msg.payload)
  }

  /** How many bytes reading an accepted frame at `v` consumes. */
  function FrameReadLength(miso: seq<uint8>, v: nat): nat
  {
    var len := ByteAt(miso, v + 3) % 0x80;
    4 + if len <= SdepMaxPayload then len else 0
  }

  /** The reads of an accepted frame: type, header, and the payload of a
      frame of at most 16 bytes. */
  function FrameReads(miso: seq<uint8>, v: nat): seq<BusEvent>
  {
    var len := ByteAt(miso, v + 3) % 0x80;
    [Read(1), Read(3)] + if len <= SdepMaxPayload then [Read(len)] else []
  }

  /** The SPI part of recv, in closed form: type bytes are read until one
      is accepted, backing off after each refusal and giving up once the
      timeout has passed. */
  function ReadOutcome(msg: SdepMsg, timeout: uint16, e: Env): (r: Received)
    requires Valid(msg)
    ensures Valid(r.msg) && r.env.irq == e.irq
    ensures r.ok <==> FirstAccepted(e.miso) < |e.miso| &&
                      FirstAccepted(e.miso) <= Expiry(Drop(e.ticks, 1), StartOf(e.ticks), timeout)
    ensures r.ok ==> |r.env.miso| < |e.miso| && Accepted(r.msg.msgType)
  {
    var start, checks := StartOf(e.ticks), Drop(e.ticks, 1);
    var v, d := FirstAccepted(e.miso), Expiry(checks, start, timeout);
    if v < |e.miso| && v <= d then
      Received(true, ReadFrame(msg, e.miso, v),
               e.(miso := Drop(e.miso, v + FrameReadLength(e.miso, v)), ticks := Drop(checks, v)),
               [Select] + ReadRetries(v) + FrameReads(e.miso, v) + [Release])
    else
      Received(false, msg.(msgType := ByteAt(e.miso, d)),
               e.(miso := Drop(e.miso, d + 1), ticks := Drop(checks, d + 1)),
               [Select] + ReadRetries(d + 1) + [Release])
  }

  /** recv, in closed form: waitForSpiData, then the SPI reads. */
  function RecvOutcome(msg: SdepMsg, timeout: uint16, e: Env): (r: Received)
    requires Valid(msg)
    ensures Valid(r.msg)
    ensures r.ok ==> |r.env.miso| < |e.miso| && Accepted(r.msg.msgType)
  {
    var w := WaitOutcome(timeout, e);
    if !w.ok then Received(false, msg, w.env, [])
    else ReadOutcome(msg, timeout, w.env)
  }

  lemma ReadAcceptedAt(msg: SdepMsg, timeout: uint16, e: Env, i: nat)
    requires Valid(msg)
    requires forall k :: 0 <= k < i ==> !Accepted(ByteAt(e.miso, k))
    requires i <= Expiry(Drop(e.ticks, 1), StartOf(e.ticks), timeout) && Accepted(ByteAt(e.miso, i))
    ensures ReadOutcome(msg, timeout, e) ==
      Received(true, ReadFrame(msg, e.miso, i),
               e.(miso := Drop(e.miso, i + FrameReadLength(e.miso, i)), ticks := Drop(Drop(e.ticks, 1), i)),
               [Select] + ReadRetries(i) + FrameReads(e.miso, i) + [Release])
  {
    FirstAcceptedIs(e.miso, i);
  }

  /** The first accepted type byte is the one after the refused ones. */
  lemma FirstAcceptedIs(s: seq<uint8>, i: nat)
    requires forall k :: 0 <= k < i ==> !Accepted(ByteAt(s, k))
    requires Accepted(ByteAt(s, i))
    ensures FirstAccepted(s) == i < |s|
  {
    var v := FirstAccepted(s);
    if v < i {
      assert false;
    } else if v > i {
      assert false;
    }
  }

  lemma ReadExpiresAt(msg: SdepMsg, timeout: uint16, e: Env, i: nat)
    requires Valid(msg)
    requires forall k :: 0 <= k <= i ==> !Accepted(ByteAt(e.miso, k))
    requires i <= Expiry(Drop(e.ticks, 1), StartOf(e.ticks), timeout)
    requires var rest := Drop(Drop(e.ticks, 1), i); rest == [] || Sub16(rest[0], StartOf(e.ticks)) >= timeout
    ensures ReadOutcome(msg, timeout, e) ==
      Received(false, msg.(msgType := ByteAt(e.miso, i)),
               e.(miso := Drop(e.miso, i + 1), ticks := Drop(Drop(e.ticks, 1), i + 1)),
               [Select] + ReadRetries(i + 1) + [Release])
  {
    var checks := Drop(e.ticks, 1);
    var d := Expiry(checks, StartOf(e.ticks), timeout);
    if d != i {
      assert false;
    }
    var v := FirstAccepted(e.miso);
    if v < |e.miso| && v <= i {
      assert false;
    }
    DropDrop(checks, i, 1);
  }

  /** ReadAcceptedAt, seen from the script left after `i` refused type
      bytes. */
  lemma ReadAcceptedAfter(msg: SdepMsg, timeout: uint16, e: Env, i: nat)
    requires Valid(msg)
    requires forall k :: 0 <= k < i ==> !Accepted(ByteAt(e.miso, k))
    requires i <= Expiry(Drop(e.ticks, 1), StartOf(e.ticks), timeout) && Accepted(ByteAt(e.miso, i))
    ensures var miso := Drop(e.miso, i);
      ReadOutcome(msg, timeout, e) ==
      Received(true, ReadFrame(msg, miso, 0),
               e.(miso := Drop(miso, FrameReadLength(miso, 0)), ticks := Drop(Drop(e.ticks, 1), i)),
               [Select] + ReadRetries(i) + FrameReads(miso, 0) + [Release])
  {
    ReadAtOffset(msg, e.miso, i);
    ReadAcceptedAt(msg, timeout, e, i);
    DropDrop(e.miso, i, FrameReadLength(e.miso, i));
  }

  /** The SPI part of recv(msg, timeout): read type bytes until one is
      accepted, then the header and, when it fits, the payload. */
  method ReadMsg(msg: SdepMsg, timeout: uint16, e: Env) returns (r: Received)
    requires Valid(msg)
    ensures r == ReadOutcome(msg, timeout, e)
  {
    var start := StartOf(e.ticks);
    ghost var checks := Drop(e.ticks, 1);
    var ticks := Drop(e.ticks, 1);
    var miso := e.miso;
    var trace := [Select];
    ghost var i := 0;
    while true
      invariant forall k :: 0 <= k < i ==> !Accepted(ByteAt(e.miso, k))
      invariant i <= Expiry(checks, start, timeout)
      invariant miso == Drop(e.miso, i) && ticks == Drop(checks, i)
      invariant trace == [Select] + ReadRetries(i)
      decreases |ticks|
    {
      var t := ByteAt(miso, 0);
      ByteAtDrop(e.miso, i, 0);
      if Accepted(t) {
        ReadAcceptedAfter(msg, timeout, e, i);
        return Received(true, ReadFrame(msg, miso, 0), e.(miso := Drop(miso, FrameReadLength(miso, 0)), ticks := ticks),
                        trace + FrameReads(miso, 0) + [Release]);
      }
      DropDrop(e.miso, i, 1);
      miso := Drop(miso, 1);
      ConcatAssoc([Select], ReadRetries(i), [Read(1), BackOff]);
      trace := trace + [Read(1), BackOff];
      DropDrop(checks, i, 1);
      if ticks == [] || Sub16(ticks[0], start) >= timeout {
        ReadExpiresAt(msg, timeout, e, i);
        return Received(false, msg.(msgType := t), e.(miso := miso, ticks := Drop(ticks, 1)), trace + [Release]);
      }
      ticks := ticks[1..];
      i := i + 1;
    }
  }

  /** recv(msg, timeout): wait for the IRQ, then read the message. */
  method Recv(msg: SdepMsg, timeout: uint16, e: Env) returns (r: Received)
    requires Valid(msg)
    ensures r == RecvOutcome(msg, timeout, e)
  {
    var w := WaitForSpiData(timeout, e);
    if !w.ok {
      return Received(false, msg, w.env, []);
    }
    r := ReadMsg(msg, timeout, w.env);
  }

  /** Reading a frame after `i` bytes of the script sees what reading the
      script at offset `i` sees. */
  lemma ReadAtOffset(msg: SdepMsg, miso: seq<uint8>, i: nat)
    requires Valid(msg)
    ensures ReadFrame(msg, Drop(miso, i), 0) == ReadFrame(msg, miso, i)
    ensures FrameReads(Drop(miso, i), 0) == FrameReads(miso, i)
    ensures FrameReadLength(Drop(miso, i), 0) == FrameReadLength(miso, i)
  {
    ByteAtDrop(miso, i, 0);
    ByteAtDrop(miso, i, 3);
    assert BytesAt(Drop(miso, i), 1, 3) == BytesAt(miso, i + 1, 3);
    var len := ByteAt(miso, i + 3) % 0x80;
    assert BytesAt(Drop(miso, i), 4, len) == BytesAt(miso, i + 4, len);
  }

  // ---------------------------------------------------------------------
  // atCommand: fragmentation

  /** The frames atCommand sends for `cmd`: while more than 16 bytes are
      left, a full frame with `more` set; then the rest, with `more`
      clear. */
  function Fragments(cmd: seq<uint8>): (fs: seq<SdepMsg>)
    ensures |fs| >= 1
    ensures forall k :: 0 <= k < |fs| ==>
      Valid(fs[k]) && fs[k].len <= SdepMaxPayload && fs[k].msgType == SdepCommand && CommandCode(fs[k]) == BleAtWrapper
    decreases |cmd|
  {
    if |cmd| > SdepMaxPayload then [DataMsg(BleAtWrapper, cmd[..SdepMaxPayload], true)] + Fragments(cmd[SdepMaxPayload..])
    else [DataMsg(BleAtWrapper, cmd, false)]
  }

  /** The bytes a sequence of frames carries: each frame's first `len`
      payload bytes, in order. */
  function Payloads(fs: seq<SdepMsg>): seq<uint8>
    requires forall k :: 0 <= k < |fs| ==> Valid(fs[k]) && fs[k].len <= SdepMaxPayload
  {
    if fs == [] then [] else
      assert Valid(fs[0]) && fs[0].len <= SdepMaxPayload;
      fs[0].payload[..fs[0].len] + Payloads(fs[1..])
  }

  /** An n-byte command takes max(1, ceil(n / 16)) frames. */
  lemma {:induction false} FragmentCount(cmd: seq<uint8>)
    ensures |Fragments(cmd)| == if |cmd| == 0 then 1 else (|cmd| + SdepMaxPayload - 1) / SdepMaxPayload
    decreases |cmd|
  {
    if |cmd| > SdepMaxPayload {
      FragmentCount(cmd[SdepMaxPayload..]);
    }
  }

  /** Every frame but the last is full and has `more` set; the last holds
      the remaining bytes and has `more` clear. */
  lemma {:induction false} FragmentFlags(cmd: seq<uint8>)
    ensures var fs := Fragments(cmd);
      (forall k :: 0 <= k < |fs| - 1 ==> fs[k].len == SdepMaxPayload && fs[k].more) &&
      !fs[|fs| - 1].more && fs[|fs| - 1].len == |cmd| - SdepMaxPayload * (|fs| - 1)
    decreases |cmd|
  {
    if |cmd| > SdepMaxPayload {
      FragmentFlags(cmd[SdepMaxPayload..]);
      var fs, rest := Fragments(cmd), Fragments(cmd[SdepMaxPayload..]);
      assert fs[1..] == rest;
      forall k | 0 <= k < |fs| - 1
        ensures fs[k].len == SdepMaxPayload && fs[k].more
      {
        if k > 0 {
          assert fs[k] == rest[k - 1];
        }
      }
    }
  }

  /** The payloads of the frames concatenate to the command. */
  lemma {:induction false} FragmentsReassemble(cmd: seq<uint8>)
    ensures Payloads(Fragments(cmd)) == cmd
    decreases |cmd|
  {
    var fs := Fragments(cmd);
    if |cmd| > SdepMaxPayload {
      FragmentsReassemble(cmd[SdepMaxPayload..]);
      assert fs[1..] == Fragments(cmd[SdepMaxPayload..]);
      assert cmd == cmd[..SdepMaxPayload] + cmd[SdepMaxPayload..];
    } else {
      assert fs[1..] == [];
    }
  }

  // ---------------------------------------------------------------------
  // atCommand: sending the frames

  /** The sends of `fs` in order, stopping at the first that fails. */
  function SendFrames(fs: seq<SdepMsg>, timeout: uint16, e: Env): (o: Outcome)
    requires forall k :: 0 <= k < |fs| ==> Valid(fs[k]) && fs[k].len <= SdepMaxPayload
  {
    if fs == [] then Outcome(true, e, [])
    else
      var first := SendOutcome(fs[0], timeout, e);
      if !first.ok then first
      else
        var rest := SendFrames(fs[1..], timeout, first.env);
        Outcome(rest.ok, rest.env, first.trace + rest.trace)
  }

  /** The data written by sendBytes, in order. */
  function Written(t: seq<BusEvent>): seq<seq<uint8>>
  {
    if t == [] then [] else (if t[0].Write? then [t[0].bytes] else []) + Written(t[1..])
  }

  lemma {:induction false} WrittenConcat(a: seq<BusEvent>, b: seq<BusEvent>)
    ensures Written(a + b) == Written(a) + Written(b)
    decreases |a|
  {
    if a != [] {
      WrittenConcat(a[1..], b);
      assert (a + b)[1..] == a[1..] + b;
    } else {
      assert a + b == b;
    }
  }

  lemma {:induction false} RetriesWriteNothing(b: uint8, n: nat)
    ensures Written(Retries(b, n)) == []
  {
    if n > 0 {
      RetriesWriteNothing(b, n - 1);
      WrittenConcat(Retries(b, n - 1), [Exchange(b), BackOff]);
      assert [Exchange(b), BackOff][1..] == [BackOff];
      assert Written([BackOff]) == [] by {
        assert [BackOff][1..] == [];
      }
      assert Written([Exchange(b), BackOff]) == [];
    }
  }

  /** A send writes the frame tail once if it succeeds and nothing
      otherwise. */
  lemma SendWrites(m: SdepMsg, timeout: uint16, e: Env)
    requires Valid(m) && m.len <= SdepMaxPayload
    ensures var o := SendOutcome(m, timeout, e);
      Written(o.trace) == if o.ok then [FrameTail(m)] else []
  {
    var o := SendOutcome(m, timeout, e);
    var start, checks := StartOf(e.ticks), Drop(e.ticks, 1);
    var r, d := FirstReady(e.miso), Expiry(checks, start, timeout);
    var n := if o.ok then r else d + 1;
    RetriesWriteNothing(m.msgType, n);
    WrittenConcat([Select], Retries(m.msgType, n));
    if o.ok {
      WrittenConcat([Select] + Retries(m.msgType, n), [Exchange(m.msgType), Write(FrameTail(m)), Release]);
      assert Written([Exchange(m.msgType), Write(FrameTail(m)), Release]) == [FrameTail(m)] by {
        assert [Exchange(m.msgType), Write(FrameTail(m)), Release][1..] == [Write(FrameTail(m)), Release];
        assert [Write(FrameTail(m)), Release][1..] == [Release];
      }
    } else {
      WrittenConcat([Select] + Retries(m.msgType, n), [Release]);
    }
  }

  /** The frame tails of `fs`. */
  function Tails(fs: seq<SdepMsg>): seq<seq<uint8>>
    requires forall k :: 0 <= k < |fs| ==> Valid(fs[k]) && fs[k].len <= SdepMaxPayload
  {
    if fs == [] then [] else [FrameTail(fs[0])] + Tails(fs[1..])
  }

  /** When every send succeeds, exactly the frame tails are written, in
      order. */
  lemma {:induction false} SendFramesWrites(fs: seq<SdepMsg>, timeout: uint16, e: Env)
    requires forall k :: 0 <= k < |fs| ==> Valid(fs[k]) && fs[k].len <= SdepMaxPayload
    ensures var o := SendFrames(fs, timeout, e); o.ok ==> Written(o.trace) == Tails(fs)
    decreases |fs|
  {
    if fs != [] {
      var first := SendOutcome(fs[0], timeout, e);
      SendWrites(fs[0], timeout, e);
      if first.ok {
        SendFramesWrites(fs[1..], timeout, first.env);
        WrittenConcat(first.trace, SendFrames(fs[1..], timeout, first.env).trace);
      }
    }
  }

  /** The data bytes of written frame tails: each tail after its three
      header bytes. */
  function TailData(ts: seq<seq<uint8>>): seq<uint8>
  {
    if ts == [] then [] else (if |ts[0]| >= 3 then ts[0][3..] else []) + TailData(ts[1..])
  }

  /** Tails carry the payloads. */
  lemma {:induction false} TailDataPayloads(fs: seq<SdepMsg>)
    requires forall k :: 0 <= k < |fs| ==> Valid(fs[k]) && fs[k].len <= SdepMaxPayload
    ensures TailData(Tails(fs)) == Payloads(fs)
    decreases |fs|
  {
    if fs != [] {
      TailDataPayloads(fs[1..]);
      FrameTailContents(fs[0]);
      assert Tails(fs)[1..] == Tails(fs[1..]);
    }
  }

  /** What reaches the module: when all the frames of a command are sent,
      the data of the frames written concatenates back to the command. */
  lemma CommandOnTheWire(cmd: seq<uint8>, timeout: uint16, e: Env)
    ensures var o := SendFrames(Fragments(cmd), timeout, e);
      o.ok ==> TailData(Written(o.trace)) == cmd
  {
    SendFramesWrites(Fragments(cmd), timeout, e);
    TailDataPayloads(Fragments(cmd));
    FragmentsReassemble(cmd);
  }

  // ---------------------------------------------------------------------
  // atCommand: reassembling the response

  /** What atCommand appends to the response for a received frame: the
      payload bytes that recv read, so nothing for a frame announcing more
      than 16 bytes, whose payload recv skips. */
  function ReceivedData(m: SdepMsg): (d: seq<uint8>)
    requires Valid(m)
    ensures |d| <= SdepMaxPayload
    ensures m.len <= SdepMaxPayload ==> d == m.payload[..m.len]
    ensures m.len > SdepMaxPayload ==> d == []
  {
    if m.len <= SdepMaxPayload then m.payload[..m.len] else []
  }

  /** `result.append(msg.payload, msg.len)` as written: the number of
      bytes it copies from the 16-byte payload array. */
  function AppendLengthAsWritten(m: SdepMsg): nat
  {
    m.len
  }

  /** A response frame whose header announces 17 bytes is accepted by
      recv, which leaves the payload unread, and the append as written
      then reads one byte beyond the payload array. */
  lemma OverlongFrameReadsPastPayload(msg: SdepMsg)
    requires Valid(msg)
    ensures var r := RecvOutcome(msg, 62, Env([SdepResponse, 0x00, 0x0A, 0x11], [true], [0, 0, 0]));
      r.ok && AppendLengthAsWritten(r.msg) == 17 && |r.msg.payload| == 16 && ReceivedData(r.msg) == []
  {
    var miso: seq<uint8> := [SdepResponse, 0x00, 0x0A, 0x11];
    var e := Env(miso, [true], [0, 0, 0]);
    WaitHighAt(62, e, 0);
    var e2 := e.(irq := Drop(e.irq, 1), ticks := Drop(Drop(e.ticks, 1), 0));
    assert WaitOutcome(62, e).env == e2;
    ReadAcceptedAt(msg, 62, e2, 0);
    var m := ReadFrame(msg, miso, 0);
    assert BytesAt(miso, 1, 3)[2] == 0x11;
    assert m.len == 17;
  }

  /** The result of receiving a response: whether every recv succeeded, the
      response text, the frames received, the rest of the scripts and the
      bus trace. */
  datatype Response = Response(ok: bool, text: seq<uint8>, frames: seq<SdepMsg>, env: Env, trace: seq<BusEvent>)

  /** The data of received frames, concatenated. */
  function FramesData(fs: seq<SdepMsg>): seq<uint8>
    requires forall k :: 0 <= k < |fs| ==> Valid(fs[k])
  {
    if fs == [] then [] else ReceivedData(fs[0]) + FramesData(fs[1..])
  }

  /** What one recv does to a message buffer and the scripts. */
  type Receiver = (SdepMsg, Env) -> Received

  /** A receiver that keeps the message buffer a valid frame and consumes
      input whenever it succeeds. */
  ghost predicate Progressive(recv: Receiver)
  {
    forall m: SdepMsg, e: Env :: Valid(m) ==>
      Valid(recv(m, e).msg) && (recv(m, e).ok ==> |recv(m, e).env.miso| < |e.miso|)
  }

  /** recv(msg, timeout) as a receiver. */
  function RecvWith(timeout: uint16): Receiver
  {
    (m: SdepMsg, e: Env) => if Valid(m) then RecvOutcome(m, timeout, e) else Received(false, m, e, [])
  }

  lemma RecvWithProgressive(timeout: uint16)
    ensures Progressive(RecvWith(timeout))
  {
    forall m: SdepMsg, e: Env | Valid(m)
      ensures Valid(RecvWith(timeout)(m, e).msg)
      ensures RecvWith(timeout)(m, e).ok ==> |RecvWith(timeout)(m, e).env.miso| < |e.miso|
    {
      var r := RecvOutcome(m, timeout, e);
      assert RecvWith(timeout)(m, e) == r;
    }
  }

  /** The receive loop of atCommand, from a response holding `text` and
      the message buffer `msg`: recv, append, and stop after a frame whose
      `more` is clear or at the first recv that fails.  The loop is stated
      for any receiver; atCommand's is RecvWith(timeout). */
  function ReceiveAll(text: seq<uint8>, capacity: nat, msg: SdepMsg, recv: Receiver, e: Env): (r: Response)
    requires |text| <= capacity && Valid(msg) && Progressive(recv)
    ensures |r.text| <= capacity
    ensures forall k :: 0 <= k < |r.frames| ==> Valid(r.frames[k])
    decreases |e.miso|
  {
    var got := recv(msg, e);
    if !got.ok then Response(false, text, [], got.env, got.trace)
    else
      FS.AppendedBounds(text, capacity, ReceivedData(got.msg));
      var text' := FS.Appended(text, capacity, ReceivedData(got.msg));
      if !got.msg.more then Response(true, text', [got.msg], got.env, got.trace)
      else
        var rest := ReceiveAll(text', capacity, got.msg, recv, got.env);
        Response(rest.ok, rest.text, [got.msg] + rest.frames, rest.env, got.trace + rest.trace)
  }

  /** The response atCommand reads after sending its last frame `last`. */
  function ResponseOf(capacity: nat, last: SdepMsg, timeout: uint16, e: Env): (r: Response)
    requires Valid(last)
    ensures |r.text| <= capacity
  {
    RecvWithProgressive(timeout);
    ReceiveAll([], capacity, last, RecvWith(timeout), e)
  }

  /** Reassembly: the response is the text it started from with the data
      of every frame received appended, truncated to the capacity; a
      complete response ends with the first frame whose `more` is clear. */
  lemma {:induction false} ReceiveAllReassembles(text: seq<uint8>, capacity: nat, msg: SdepMsg, recv: Receiver, e: Env)
    requires |text| <= capacity && Valid(msg) && Progressive(recv)
    ensures var r := ReceiveAll(text, capacity, msg, recv, e);
      r.text == FS.Appended(text, capacity, FramesData(r.frames)) &&
      (forall k :: 0 <= k < |r.frames| - 1 ==> r.frames[k].more) &&
      (r.ok ==> |r.frames| >= 1 && !r.frames[|r.frames| - 1].more)
    decreases |e.miso|
  {
    var r := ReceiveAll(text, capacity, msg, recv, e);
    var got := recv(msg, e);
    if !got.ok {
      assert FS.Appended(text, capacity, []) == text;
    } else {
      var d := ReceivedData(got.msg);
      FS.AppendedBounds(text, capacity, d);
      var text' := FS.Appended(text, capacity, d);
      if !got.msg.more {
        assert FramesData([got.msg]) == d by {
          assert [got.msg][1..] == [];
        }
      } else {
        var rest := ReceiveAll(text', capacity, got.msg, recv, got.env);
        ReceiveAllReassembles(text', capacity, got.msg, recv, got.env);
        FS.AppendedTwice(text, capacity, d, FramesData(rest.frames));
        assert r.frames[1..] == rest.frames;
        assert FramesData(r.frames) == d + FramesData(rest.frames);
        forall k | 0 <= k < |r.frames| - 1
          ensures r.frames[k].more
        {
          if k > 0 {
            assert r.frames[k] == rest.frames[k - 1];
          }
        }
      }
    }
  }

  /** "OK", which a successful response ends with. */
  const OK: seq<uint8> := [0x4F, 0x4B]

  /** The result of atCommand: success, the response string afterwards,
      the rest of the scripts and the bus trace. */
  datatype AtResult = AtResult(ok: bool, text: seq<uint8>, env: Env, trace: seq<BusEvent>)

  /** atCommand(cmd, result, timeout), in closed form, for a result string
      of `capacity` characters that held `text0`.  The response string is
      cleared only once every frame of the command is sent; a failed
      receive leaves the partial response; otherwise the response is
      trimmed of trailing CR and LF and succeeds iff it ends with "OK". */
  function AtOutcome(cmd: seq<uint8>, text0: seq<uint8>, capacity: nat, timeout: uint16, e: Env): (r: AtResult)
    requires |text0| <= capacity
    ensures !SendFrames(Fragments(cmd), timeout, e).ok ==> !r.ok && r.text == text0
    ensures r.ok ==> |OK| <= |r.text| && r.text[|r.text| - |OK|..] == OK
  {
    var fs := Fragments(cmd);
    var sent := SendFrames(fs, timeout, e);
    if !sent.ok then AtResult(false, text0, sent.env, sent.trace)
    else
      var reply := ReplyOutcome(capacity, FinalFrame(cmd), timeout, sent.env);
      reply.(trace := sent.trace + reply.trace)
  }

  /** The second half of atCommand, once every frame is sent: the response
      read into a cleared string, then, if every recv succeeded, trimmed
      and checked for "OK" at the end. */
  function ReplyOutcome(capacity: nat, last: SdepMsg, timeout: uint16, e: Env): (r: AtResult)
    requires Valid(last)
  {
    var resp := ResponseOf(capacity, last, timeout, e);
    Reply(resp.ok, resp.text, resp.env, resp.trace)
  }

  /** The end of atCommand for a response `text` read with success
      `received`. */
  function Reply(received: bool, text: seq<uint8>, env: Env, trace: seq<BusEvent>): AtResult
  {
    if !received then AtResult(false, text, env, trace)
    else
      var t := FS.RTrimmed(text);
      AtResult(|OK| <= |t| && t[|t| - |OK|..] == OK, t, env, trace)
  }

  /** A successful AT command delivered the command itself to the module,
      and its response is the data of the frames received, in order,
      trimmed of trailing CR and LF and ending with "OK". */
  lemma AtCommandSucceeds(cmd: seq<uint8>, text0: seq<uint8>, capacity: nat, timeout: uint16, e: Env)
    requires |text0| <= capacity
    ensures var fs := Fragments(cmd);
      var sent := SendFrames(fs, timeout, e);
      var resp := ResponseOf(capacity, FinalFrame(cmd), timeout, sent.env);
      var r := AtOutcome(cmd, text0, capacity, timeout, e);
      r.ok ==> sent.ok && TailData(Written(sent.trace)) == cmd && resp.ok &&
               r.text == FS.RTrimmed(FS.Appended([], capacity, FramesData(resp.frames))) &&
               |r.text| >= 2 && r.text[|r.text| - 2..] == OK
  {
    var fs := Fragments(cmd);
    var sent := SendFrames(fs, timeout, e);
    CommandOnTheWire(cmd, timeout, e);
    if sent.ok {
      RecvWithProgressive(timeout);
      ReceiveAllReassembles([], capacity, FinalFrame(cmd), RecvWith(timeout), sent.env);
    }
  }

  /** A failed send leaves the response string as it was; a failed
      receive leaves the data received so far, untrimmed. */
  lemma AtCommandFails(cmd: seq<uint8>, text0: seq<uint8>, capacity: nat, timeout: uint16, e: Env)
    requires |text0| <= capacity
    ensures var fs := Fragments(cmd);
      var sent := SendFrames(fs, timeout, e);
      var resp := ResponseOf(capacity, FinalFrame(cmd), timeout, sent.env);
      var r := AtOutcome(cmd, text0, capacity, timeout, e);
      (!sent.ok ==> !r.ok && r.text == text0) &&
      (sent.ok && !resp.ok ==> !r.ok && r.text == FS.Appended([], capacity, FramesData(resp.frames)))
  {
    var fs := Fragments(cmd);
    var sent := SendFrames(fs, timeout, e);
    if sent.ok {
      RecvWithProgressive(timeout);
      ReceiveAllReassembles([], capacity, FinalFrame(cmd), RecvWith(timeout), sent.env);
    }
  }

  /** The receive loop's first step: one recv, one append, and either the
      end of the response or the rest of the loop. */
  lemma ReceiveAllStep(text: seq<uint8>, capacity: nat, msg: SdepMsg, recv: Receiver, e: Env)
    requires |text| <= capacity && Valid(msg) && Progressive(recv)
    ensures var got := recv(msg, e);
      var r := ReceiveAll(text, capacity, msg, recv, e);
      (!got.ok ==> !r.ok && r.text == text && r.env == got.env && r.trace == got.trace) &&
      (got.ok ==>
        var text' := FS.Appended(text, capacity, ReceivedData(got.msg));
        |text'| <= capacity &&
        (!got.msg.more ==> r.ok && r.text == text' && r.env == got.env && r.trace == got.trace) &&
        (got.msg.more ==> var rest := ReceiveAll(text', capacity, got.msg, recv, got.env);
           r.ok == rest.ok && r.text == rest.text && r.env == rest.env && r.trace == got.trace + rest.trace))
  {
    var got := recv(msg, e);
    if got.ok {
      FS.AppendedBounds(text, capacity, ReceivedData(got.msg));
    }
  }

  /** An outcome preceded by the events `t`. */
  function Then(t: seq<BusEvent>, o: Outcome): (r: Outcome)
    ensures r.ok == o.ok && r.env == o.env && r.trace == t + o.trace
  {
    o.(trace := t + o.trace)
  }

  lemma ThenThen(a: seq<BusEvent>, b: seq<BusEvent>, o: Outcome)
    ensures Then(a, Then(b, o)) == Then(a + b, o)
  {
    ConcatAssoc(a, b, o.trace);
  }

  /** Sending a frame followed by more frames: the first send, and the
      rest only if it succeeded. */
  lemma SendFramesPrepend(m: SdepMsg, fs: seq<SdepMsg>, timeout: uint16, e: Env)
    requires Valid(m) && m.len <= SdepMaxPayload
    requires forall k :: 0 <= k < |fs| ==> Valid(fs[k]) && fs[k].len <= SdepMaxPayload
    ensures var first := SendOutcome(m, timeout, e);
      SendFrames([m] + fs, timeout, e) == if first.ok then Then(first.trace, SendFrames(fs, timeout, first.env)) else first
  {
    assert ([m] + fs)[1..] == fs;
  }

  /** The last frame of a command's fragments. */
  function FinalFrame(cmd: seq<uint8>): SdepMsg
  {
    var fs := Fragments(cmd);
    fs[|fs| - 1]
  }

  /** A command longer than one frame: a full frame, then the fragments of
      the rest, which end with the same final frame. */
  lemma FragmentsStep(cmd: seq<uint8>)
    requires |cmd| > SdepMaxPayload
    ensures Fragments(cmd) == [DataMsg(BleAtWrapper, cmd[..SdepMaxPayload], true)] + Fragments(cmd[SdepMaxPayload..])
    ensures FinalFrame(cmd) == FinalFrame(cmd[SdepMaxPayload..])
  {
  }

  /** The sending half of atCommand: full frames while more than 16
      bytes are left, then the final frame, stopping at the first send
      that fails.  Returns the message buffer last sent. */
  method SendCommand(cmd: seq<uint8>, timeout: uint16, e: Env) returns (o: Outcome, last: SdepMsg)
    ensures o == SendFrames(Fragments(cmd), timeout, e)
    ensures o.ok ==> last == FinalFrame(cmd)
  {
    var start := 0;
    var env := e;
    var trace := [];
    while |cmd| - start > SdepMaxPayload
      invariant 0 <= start <= |cmd| && FinalFrame(cmd[start..]) == FinalFrame(cmd)
      invariant SendFrames(Fragments(cmd), timeout, e) == Then(trace, SendFrames(Fragments(cmd[start..]), timeout, env))
      decreases |cmd| - start
    {
      var msg := DataMsg(BleAtWrapper, cmd[start..start + SdepMaxPayload], true);
      ghost var here, next := cmd[start..], cmd[start + SdepMaxPayload..];
      assert here[..SdepMaxPayload] == cmd[start..start + SdepMaxPayload];
      assert here[SdepMaxPayload..] == next;
      FragmentsStep(here);
      SendFramesPrepend(msg, Fragments(next), timeout, env);
      var sent := Send(msg, timeout, env);
      if !sent.ok {
        return Then(trace, sent), msg;
      }
      ThenThen(trace, sent.trace, SendFrames(Fragments(next), timeout, sent.env));
      env := sent.env;
      trace := trace + sent.trace;
      start := start + SdepMaxPayload;
    }
    last := DataMsg(BleAtWrapper, cmd[start..], false);
    assert Fragments(cmd[start..]) == [last] + [];
    SendFramesPrepend(last, [], timeout, env);
    var sent := Send(last, timeout, env);
    o := Then(trace, sent);
  }

  /** The receiving half of atCommand: clear `result`, then recv and
      append until a frame with `more` clear or a recv that fails. */
  method ReceiveResponse(result: FS.MutableString, msg: SdepMsg, timeout: uint16, e: Env) returns (r: Response)
    requires result.Valid() && Valid(msg)
    modifies result`size, result.data
    ensures result.Valid()
    ensures var target := ResponseOf(result.capacity, msg, timeout, e);
      r.ok == target.ok && r.text == target.text && result.Contents() == target.text &&
      r.env == target.env && r.trace == target.trace
  {
    result.Clear();
    RecvWithProgressive(timeout);
    ghost var target := ResponseOf(result.capacity, msg, timeout, e);
    var m := msg;
    var env := e;
    var trace: seq<BusEvent> := [];
    while true
      invariant result.Valid() && Valid(m)
      invariant var rest := ReceiveAll(result.Contents(), result.capacity, m, RecvWith(timeout), env);
        target.ok == rest.ok && target.text == rest.text && target.env == rest.env &&
        target.trace == trace + rest.trace
      decreases |env.miso|
    {
      var got := Recv(m, timeout, env);
      ReceiveAllStep(result.Contents(), result.capacity, m, RecvWith(timeout), env);
      if !got.ok {
        return Response(false, result.Contents(), [], got.env, trace + got.trace);
      }
      var data := ReceivedData(got.msg);
      var _ := result.Append(data, |data|);
      assert data[..|data|] == data;
      ghost var rest := ReceiveAll(result.Contents(), result.capacity, got.msg, RecvWith(timeout), got.env);
      ConcatAssoc(trace, got.trace, rest.trace);
      trace := trace + got.trace;
      m := got.msg;
      env := got.env;
      if !m.more {
        return Response(true, result.Contents(), [], env, trace);
      }
    }
  }

  /** The last frame of a command is a valid frame. */
  lemma FinalFrameValid(cmd: seq<uint8>)
    ensures Valid(FinalFrame(cmd))
  {
    var fs := Fragments(cmd);
    assert Valid(fs[|fs| - 1]);
  }

  /** The receiving half of atCommand: read the response into `result`,
      then trim it and look for "OK" at the end. */
  method AwaitReply(result: FS.MutableString, last: SdepMsg, timeout: uint16, e: Env) returns (r: AtResult)
    requires result.Valid() && Valid(last)
    modifies result`size, result.data
    ensures result.Valid() && result.Contents() == r.text
    ensures r == ReplyOutcome(result.capacity, last, timeout, e)
  {
    ghost var target := ReplyOutcome(result.capacity, last, timeout, e);
    var resp := ReceiveResponse(result, last, timeout, e);
    if !resp.ok {
      return AtResult(false, result.Contents(), resp.env, resp.trace);
    }
    result.RTrim();
    var ok := FS.EndsWith(result.Contents(), OK);
    r := AtResult(ok, result.Contents(), resp.env, resp.trace);
  }

  /** atCommand(cmd, result, timeout): send the command in frames, then
      read the response into `result`, trim it and look for "OK" at the
      end.  `cmd` is the command string's contents when the call begins:
      every frame is sent before `result` is cleared, so the driver may
      pass the same string as both. */
  method AtCommand(cmd: seq<uint8>, result: FS.MutableString, timeout: uint16, e: Env)
    returns (r: AtResult)
    requires result.Valid()
    modifies result`size, result.data
    ensures result.Valid() && result.Contents() == r.text
    ensures r == AtOutcome(cmd, old(result.Contents()), result.capacity, timeout, e)
  {
    var sent, last := SendCommand(cmd, timeout, e);
    if !sent.ok {
      return AtResult(false, result.Contents(), sent.env, sent.trace);
    }
    FinalFrameValid(cmd);
    var reply := AwaitReply(result, last, timeout, sent.env);
    r := reply.(trace := sent.trace + reply.trace);
  }

  // ---------------------------------------------------------------------
  // The commands of run()

  /** The characters of an ASCII string literal. */
  function Ascii(s: string): (r: seq<FS.Char>)
    ensures |r| == |s| && forall i :: 0 <= i < |s| ==> r[i] == s[i] as int % 0x100
  {
    seq(|s|, i requires 0 <= i < |s| => (s[i] as int % 0x100) as FS.Char)
  }

  /** 1000 / portTICK_PERIOD_MS: one second of 16 ms ticks. */
  const AtTimeout: uint16 := 1000 / 16
  /** FixedString<48> cmdStr. */
  const CommandCapacity: nat := 48

  const KeyboardCodePrefix: seq<FS.Char> := Ascii("AT+BLEKEYBOARDCODE=")
  const ZeroSeparator: seq<FS.Char> := Ascii("-00-")
  const Dash: seq<FS.Char> := Ascii("-")
  const ControlKeyPrefix: seq<FS.Char> := Ascii("AT+BLEHIDCONTROLKEY=0x")

  /** A byte of the report as a uint8_t. */
  function Byte(b: bv8): uint8
  {
    b as int
  }

  /** The start of a key report's text: the prefix, the modifiers,
      "-00-" and the first key code. */
  function KeyboardCodeHead(mods: bv8, first: bv8): seq<FS.Char>
  {
    KeyboardCodePrefix + FS.HexDigits8(Byte(mods)) + ZeroSeparator + FS.HexDigits8(Byte(first))
  }

  /** Each further key code, after a "-". */
  function KeyField(key: bv8): seq<FS.Char>
  {
    Dash + FS.HexDigits8(Byte(key))
  }

  /** The text of a key report: the prefix, the modifiers, "-00-", and the
      six key codes separated by "-", each as two upper-case hex digits. */
  function KeyboardCodeCommand(r: Reports.ReportValue): seq<FS.Char>
    requires |r.keys| == Reports.KeySlots
  {
    KeyboardCodeHead(r.mods, r.keys[0]) + KeyField(r.keys[1]) + KeyField(r.keys[2]) +
    KeyField(r.keys[3]) + KeyField(r.keys[4]) + KeyField(r.keys[5])
  }

  /** The text of a consumer key: the prefix and four upper-case hex
      digits. */
  function ControlKeyCommand(code: uint16): seq<FS.Char>
  {
    ControlKeyPrefix + FS.HexDigits16(code)
  }

  /** The first 27 characters of a key report's text. */
  lemma KeyboardCodeHeadLayout(mods: bv8, first: bv8)
    ensures var h := KeyboardCodeHead(mods, first);
      |h| == 27 && h[..19] == KeyboardCodePrefix && h[21..25] == ZeroSeparator &&
      h[19..21] == FS.HexDigits8(Byte(mods)) && h[25..27] == FS.HexDigits8(Byte(first))
  {
  }

  /** A slice of `c` within its prefix `p`. */
  lemma SliceOfPrefix(c: seq<FS.Char>, p: seq<FS.Char>, a: nat, b: nat)
    requires |p| <= |c| && c[..|p|] == p && a <= b <= |p|
    ensures c[a..b] == p[a..b]
  {
    forall i | 0 <= i < b - a
      ensures c[a..b][i] == p[a..b][i]
    {
      assert c[a + i] == c[..|p|][a + i];
    }
  }

  /** A prefix of a prefix. */
  lemma PrefixOfPrefix(c: seq<FS.Char>, p: seq<FS.Char>, q: seq<FS.Char>)
    requires |p| <= |c| && c[..|p|] == p && |q| <= |p| && p[..|q|] == q
    ensures c[..|q|] == q
  {
    assert c[..|q|] == c[..|p|][..|q|];
  }

  /** Where the parts of a 27-character head followed by five 3-character
      fields end up. */
  lemma ChainLayout(p0: seq<FS.Char>, f1: seq<FS.Char>, f2: seq<FS.Char>, f3: seq<FS.Char>,
                    f4: seq<FS.Char>, f5: seq<FS.Char>)
    requires |p0| == 27 && |f1| == 3 && |f2| == 3 && |f3| == 3 && |f4| == 3 && |f5| == 3
    ensures var c := p0 + f1 + f2 + f3 + f4 + f5;
      |c| == 42 && c[..27] == p0 && c[28..30] == f1[1..] && c[31..33] == f2[1..] &&
      c[34..36] == f3[1..] && c[37..39] == f4[1..] && c[40..42] == f5[1..]
  {
    var p1 := p0 + f1;
    var p2 := p1 + f2;
    var p3 := p2 + f3;
    var p4 := p3 + f4;
    var c := p4 + f5;
    PrefixOfPrefix(c, p4, p3);
    PrefixOfPrefix(c, p3, p2);
    PrefixOfPrefix(c, p2, p1);
    PrefixOfPrefix(c, p1, p0);
    SliceOfPrefix(c, p1, 28, 30);
    SliceOfPrefix(c, p2, 31, 33);
    SliceOfPrefix(c, p3, 34, 36);
    SliceOfPrefix(c, p4, 37, 39);
  }

  /** The characters of a key report's text: 42 of them, so they fit
      cmdStr; the modifiers' digits at offset 19 and key k's at 25 + 3k. */
  lemma KeyboardCodeLayout(r: Reports.ReportValue)
    requires |r.keys| == Reports.KeySlots
    ensures var c := KeyboardCodeCommand(r);
      |c| == 42 && c[..19] == KeyboardCodePrefix && c[21..25] == ZeroSeparator &&
      c[19..21] == FS.HexDigits8(Byte(r.mods)) &&
      forall k :: 0 <= k < Reports.KeySlots ==> c[25 + 3 * k..27 + 3 * k] == FS.HexDigits8(Byte(r.keys[k]))
  {
    var p0 := KeyboardCodeHead(r.mods, r.keys[0]);
    var c := KeyboardCodeCommand(r);
    KeyboardCodeHeadLayout(r.mods, r.keys[0]);
    ChainLayout(p0, KeyField(r.keys[1]), KeyField(r.keys[2]), KeyField(r.keys[3]), KeyField(r.keys[4]), KeyField(r.keys[5]));
    SliceOfPrefix(c, p0, 0, 19);
    SliceOfPrefix(c, p0, 19, 21);
    SliceOfPrefix(c, p0, 21, 25);
    SliceOfPrefix(c, p0, 25, 27);
    forall k | 0 <= k < Reports.KeySlots
      ensures c[25 + 3 * k..27 + 3 * k] == FS.HexDigits8(Byte(r.keys[k]))
    {
      if k == 0 {
      } else if k == 1 {
      } else if k == 2 {
      } else if k == 3 {
      } else if k == 4 {
      } else {
        assert k == 5;
      }
    }
  }

  /** Every two-digit field of a key report's text parses back to the
      byte it came from. */
  lemma KeyboardCodeParses(r: Reports.ReportValue)
    requires |r.keys| == Reports.KeySlots
    ensures var c := KeyboardCodeCommand(r);
      |c| == 42 && FS.ParseHex(c[19..21]) == r.mods as int &&
      forall k :: 0 <= k < Reports.KeySlots ==> FS.ParseHex(c[25 + 3 * k..27 + 3 * k]) == r.keys[k] as int
  {
    KeyboardCodeLayout(r);
    FS.HexDigits8RoundTrip(Byte(r.mods));
    forall k | 0 <= k < Reports.KeySlots
      ensures FS.ParseHex(KeyboardCodeCommand(r)[25 + 3 * k..27 + 3 * k]) == r.keys[k] as int
    {
      FS.HexDigits8RoundTrip(Byte(r.keys[k]));
    }
  }

  /** A consumer key's command is 26 characters and its last four parse
      back to the code. */
  lemma ControlKeyLayout(code: uint16)
    ensures var c := ControlKeyCommand(code);
      |c| == 26 && c[..22] == ControlKeyPrefix && FS.ParseHex(c[22..]) == code
  {
    FS.HexDigits16RoundTrip(code);
    assert ControlKeyCommand(code)[22..] == FS.HexDigits16(code);
  }

  /** The software reset frame: a command frame for BleInitialize with no
      payload, whose tail on the wire is EF BE 00. */
  lemma InitializeFrame()
    ensures Frame(CommandMsg(BleInitialize))[..4] == [SdepCommand, 0xEF, 0xBE, 0x00]
    ensures FrameTail(CommandMsg(BleInitialize)) == [0xEF, 0xBE, 0x00]
  {
  }

  /** What run() takes from its queue: a key report or a consumer key. */
  datatype Command = KeyReport(report: Reports.ReportValue) | ConsumerKeyReport(consumer: uint16)

  /** The driver state that run() keeps between commands. */
  class Driver {
    const useHardwareReset: bool
    var lastReport: Reports.ReportValue

    /** lastReport_ is not initialized until reset() runs. */
    constructor (useHardwareReset: bool, initial: Reports.ReportValue)
      ensures this.useHardwareReset == useHardwareReset && lastReport == initial
    {
      this.useHardwareReset := useHardwareReset;
      lastReport := initial;
    }

    /** reset(): forget the last report, power up, and reset the module,
        either by pulsing the reset line or by sending BleInitialize; a
        failed send fails the reset. */
    method Reset(e: Env) returns (o: Outcome)
      modifies this`lastReport
      ensures lastReport == Reports.EmptyReport
      ensures useHardwareReset ==>
        o == Outcome(true, e, [PowerOn, ResetLine(true), ResetLine(false), DelayMs(10), ResetLine(true), DelayMs(1000)])
      ensures !useHardwareReset ==> var sent := SendOutcome(CommandMsg(BleInitialize), AtTimeout, e);
        o == Outcome(sent.ok, sent.env, [PowerOn] + sent.trace + if sent.ok then [DelayMs(1000)] else [])
    {
      lastReport := Reports.EmptyReport;
      if useHardwareReset {
        return Outcome(true, e, [PowerOn, ResetLine(true), ResetLine(false), DelayMs(10), ResetLine(true), DelayMs(1000)]);
      }
      var sent := Send(CommandMsg(BleInitialize), AtTimeout, e);
      if !sent.ok {
        return Outcome(false, sent.env, [PowerOn] + sent.trace);
      }
      o := Outcome(true, sent.env, [PowerOn] + sent.trace + [DelayMs(1000)]);
    }

    /** One command taken from the queue by run().  A key report equal to
        the last one sent is dropped; any other key report is formatted
        into cmdStr, sent as an AT command with cmdStr also receiving the
        response, and becomes the last report whatever the outcome.  A
        consumer key is always sent. */
    method Dispatch(cmd: Command, e: Env) returns (issued: bool, r: AtResult)
      requires cmd.KeyReport? ==> |cmd.report.keys| == Reports.KeySlots
      modifies this`lastReport
      ensures cmd.KeyReport? && cmd.report == old(lastReport) ==> !issued && lastReport == old(lastReport)
      ensures cmd.KeyReport? && cmd.report != old(lastReport) ==>
        var c := KeyboardCodeCommand(cmd.report);
        issued && lastReport == cmd.report && r == AtOutcome(c, c, CommandCapacity, AtTimeout, e)
      ensures cmd.ConsumerKeyReport? ==>
        var c := ControlKeyCommand(cmd.consumer);
        issued && lastReport == old(lastReport) && r == AtOutcome(c, c, CommandCapacity, AtTimeout, e)
      ensures !issued ==> r == AtResult(false, [], e, [])
    {
      var cmdStr := new FS.MutableString(CommandCapacity);
      match cmd
      case KeyReport(report) =>
        if report == lastReport {
          return false, AtResult(false, [], e, []);
        }
        FormatKeyReport(cmdStr, report);
        r := AtCommand(cmdStr.Contents(), cmdStr, AtTimeout, e);
        lastReport := report;
        issued := true;
      case ConsumerKeyReport(code) =>
        FormatControlKey(cmdStr, code);
        r := AtCommand(cmdStr.Contents(), cmdStr, AtTimeout, e);
        issued := true;
    }
  }

  /** Appending text that fits appends all of it. */
  method AppendFitting(str: FS.MutableString, text: seq<FS.Char>)
    requires str.Valid() && |str.Contents()| + |text| <= str.capacity
    modifies str`size, str.data
    ensures str.Valid() && str.Contents() == old(str.Contents()) + text
  {
    ghost var s0 := str.Contents();
    var _ := str.AppendString(text);
    FS.AppendedBounds(s0, str.capacity, text);
  }

  /** appendHex of a byte that fits: its two digits. */
  method AppendHexFitting(str: FS.MutableString, b: uint8)
    requires str.Valid() && |str.Contents()| + 2 <= str.capacity
    modifies str`size, str.data
    ensures str.Valid() && str.Contents() == old(str.Contents()) + FS.HexDigits8(b)
  {
    ghost var s0 := str.Contents();
    var _ := str.AppendHex8(b);
    FS.AppendedBounds(s0, str.capacity, FS.HexDigits8(b));
  }

  /** A further key code: "-" and its two digits. */
  method AppendKeyField(cmdStr: FS.MutableString, key: bv8)
    requires cmdStr.Valid() && |cmdStr.Contents()| + 3 <= cmdStr.capacity
    modifies cmdStr`size, cmdStr.data
    ensures cmdStr.Valid() && cmdStr.Contents() == old(cmdStr.Contents()) + KeyField(key)
  {
    AppendFitting(cmdStr, Dash);
    AppendHexFitting(cmdStr, Byte(key));
  }

  /** The start of the key-report case: clear cmdStr and append the
      prefix, the modifiers, "-00-" and the first key code. */
  method FormatKeyReportHead(cmdStr: FS.MutableString, mods: bv8, first: bv8)
    requires cmdStr.Valid() && cmdStr.capacity == CommandCapacity
    modifies cmdStr`size, cmdStr.data
    ensures cmdStr.Valid() && cmdStr.Contents() == KeyboardCodeHead(mods, first)
  {
    cmdStr.Clear();
    AppendFitting(cmdStr, KeyboardCodePrefix);
    AppendHexFitting(cmdStr, Byte(mods));
    AppendFitting(cmdStr, ZeroSeparator);
    AppendHexFitting(cmdStr, Byte(first));
  }

  /** The key-report case of run(): clear cmdStr and append the prefix,
      the modifiers, "-00-" and the six key codes. */
  method FormatKeyReport(cmdStr: FS.MutableString, report: Reports.ReportValue)
    requires cmdStr.Valid() && cmdStr.capacity == CommandCapacity && |report.keys| == Reports.KeySlots
    modifies cmdStr`size, cmdStr.data
    ensures cmdStr.Valid() && cmdStr.Contents() == KeyboardCodeCommand(report)
  {
    FormatKeyReportHead(cmdStr, report.mods, report.keys[0]);
    AppendKeyField(cmdStr, report.keys[1]);
    AppendKeyField(cmdStr, report.keys[2]);
    AppendKeyField(cmdStr, report.keys[3]);
    AppendKeyField(cmdStr, report.keys[4]);
    AppendKeyField(cmdStr, report.keys[5]);
  }

  /** The consumer-key case of run(): clear cmdStr and append the prefix
      and the code's four hex digits. */
  method FormatControlKey(cmdStr: FS.MutableString, code: uint16)
    requires cmdStr.Valid() && cmdStr.capacity == CommandCapacity
    modifies cmdStr`size, cmdStr.data
    ensures cmdStr.Valid() && cmdStr.Contents() == ControlKeyCommand(code)
  {
    cmdStr.Clear();
    AppendFitting(cmdStr, ControlKeyPrefix);
    ghost var s0 := cmdStr.Contents();
    var _ := cmdStr.AppendHex16(code);
    FS.AppendedBounds(s0, cmdStr.capacity, FS.HexDigits16(code));
  }

  /** What the module receives for a report: when all its frames are sent,
      their data is the formatted command. */
  lemma KeyReportOnTheWire(report: Reports.ReportValue, e: Env)
    requires |report.keys| == Reports.KeySlots
    ensures var c := KeyboardCodeCommand(report);
      var sent := SendFrames(Fragments(c), AtTimeout, e);
      sent.ok ==> TailData(Written(sent.trace)) == c && |Fragments(c)| == 3
  {
    var c := KeyboardCodeCommand(report);
    CommandOnTheWire(c, AtTimeout, e);
    KeyboardCodeLayout(report);
    FragmentCount(c);
  }
}
