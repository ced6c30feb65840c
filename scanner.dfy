/** ScannerWithExpander.h: a key matrix scanner that drives one row low at a
    time through a set of row output pins and reads the columns from an I/O
    expander.  The expander is outside the model: its readings are a
    parameter, one 16-bit value per row, and the row-pin writes and expander
    accesses are recorded as a trace. */
module MatrixScanning {
  import opened Bytes
  import AvrGpio
  import SmallestInteger
  import opened Seqs

  /** What the scanner does to the hardware, in order. */
  datatype ScanEvent =
    | RowPinsSetup          // RowPins::setup()
    | ExpanderSetup         // expander.setup()
    | RowWrite(value: bv8)  // RowPins::write(value)
    | ExpanderRead          // expander.read()

  /** `~(1 << row)` passed to RowPins::write: every row high except `row`. */
  function DriveLow(row: AvrGpio.BitIndex): bv8
  {
    !(1 << row)
  }

  /** Bit k of the row write is clear exactly for the scanned row. */
  lemma DriveLowBit(row: AvrGpio.BitIndex, k: AvrGpio.BitIndex)
    ensures AvrGpio.BitSet(DriveLow(row), k) <==> k != row
  {
    AvrGpio.PinUpdateBits(0xFF, AvrGpio.Pin(AvrGpio.NoPort, row, false), k);
  }

  /** `~expander.read()` stored into a row of the column type.  With the
      16-bit int of AVR the uint16_t reading is complemented as an unsigned
      16-bit value and then truncated (or zero-extended) to `width` bits. */
  function Complement(reading: uint16, width: nat): nat
  {
    (0xFFFF - reading) % SmallestInteger.Pow2(width)
  }

  /** A row of 8 or 16 bits and the low bits of its reading add up to all
      ones, so each row bit is set exactly where the reading bit is clear;
      a 32-bit row holds the 16-bit complement with the upper half zero. */
  lemma ComplementMeaning(reading: uint16, width: nat)
    requires width == 8 || width == 16 || width == 32
    ensures width <= 16 ==>
      Complement(reading, width) + reading % SmallestInteger.Pow2(width) == SmallestInteger.Pow2(width) - 1
    ensures width == 32 ==> Complement(reading, width) == 0xFFFF - reading
  {
    SmallestInteger.MaxValues();
    if width == 8 {
      var h, l := reading / 0x100, reading % 0x100;
      assert 0xFFFF - reading == 0x100 * (0xFF - h) + (0xFF - l);
    }
  }

  /** The rows the scan stores for the given readings. */
  function ScannedRows(readings: seq<uint16>, width: nat): (rows: seq<nat>)
    ensures |rows| == |readings|
    ensures forall r :: 0 <= r < |readings| ==> rows[r] == Complement(readings[r], width)
  {
    if |readings| == 0 then []
    else ScannedRows(readings[..|readings| - 1], width) + [Complement(readings[|readings| - 1], width)]
  }

  /** The trace of driving rows 0 .. n-1 low, one expander read each. */
  function RowScans(n: nat): (t: seq<ScanEvent>)
    requires n <= 8
    ensures |t| == 2 * n
  {
    if n == 0 then []
    else RowScans(n - 1) + [RowWrite(DriveLow((n - 1) as bv8)), ExpanderRead]
  }

  /** MatrixScannerWithExpander<Matrix, RowPins, Expander>: the current and
      prior matrices, each `rowCount` rows of the column type. */
  class Scanner {
    const rowCount: nat
    const colCount: nat
    /** Bits of Matrix::ColumnType, smallest_integer_bits<ColCount>. */
    const width: nat
    const matrix: array<nat>
    const prior: array<nat>
    var trace: seq<ScanEvent>

    ghost predicate Valid()
      reads this
    {
      rowCount <= 8 && colCount <= 16 && width == SmallestInteger.SmallestIntegerBits(colCount) &&
      matrix.Length == rowCount && prior.Length == rowCount && matrix != prior
    }

    /** The constructor's static_asserts: at most 8 rows and 16 columns. */
    constructor (rowCount: nat, colCount: nat)
      requires rowCount <= 8 && colCount <= 16
      ensures Valid() && fresh(matrix) && fresh(prior)
      ensures this.rowCount == rowCount && this.colCount == colCount && trace == []
    {
      this.rowCount := rowCount;
      this.colCount := colCount;
      this.width := SmallestInteger.SmallestIntegerBits(colCount);
      matrix := new nat[rowCount](_ => 0);
      prior := new nat[rowCount](_ => 0);
      trace := [];
    }

    /** setup: zero the current matrix, set up the row pins and the
        expander, and drive every row low. */
    method Setup()
      requires Valid()
      modifies this, matrix
      ensures Valid() && prior[..] == old(prior[..])
      ensures forall r :: 0 <= r < rowCount ==> matrix[r] == 0
      ensures trace == old(trace) + [RowPinsSetup, ExpanderSetup, RowWrite(0)]
    {
      forall r | 0 <= r < matrix.Length {
        matrix[r] := 0;
      }
      trace := trace + [RowPinsSetup, ExpanderSetup, RowWrite(0)];
    }

    /** scanMatrix: save the current matrix as the prior one, then for each
        row drive only that row low and store the complemented expander
        reading; finally drive every row low again.  Returns whether any
        row differs from the prior scan. */
    method ScanMatrix(readings: seq<uint16>) returns (changed: bool)
      requires Valid() && |readings| == rowCount
      modifies this, matrix, prior
      ensures Valid()
      ensures prior[..] == old(matrix[..])
      ensures matrix[..] == ScannedRows(readings, width)
      ensures changed <==> prior[..] != matrix[..]
      ensures trace == old(trace) + RowScans(rowCount) + [RowWrite(0)]
    {
      forall r | 0 <= r < prior.Length {
        prior[r] := matrix[r];
      }
      forall r | 0 <= r < matrix.Length {
        matrix[r] := 0;
      }
      changed := false;
      ghost var t0 := trace;
      var row := 0;
      while row < rowCount
        invariant 0 <= row <= rowCount
        invariant prior[..] == old(matrix[..])
        invariant forall r :: 0 <= r < row ==> matrix[r] == Complement(readings[r], width)
        invariant changed <==> prior[..row] != matrix[..row]
        invariant trace == t0 + RowScans(row)
      {
        trace := trace + [RowWrite(DriveLow(row as bv8)), ExpanderRead];
        ConcatAssoc(t0, RowScans(row), [RowWrite(DriveLow(row as bv8)), ExpanderRead]);
        ghost var m := matrix[..];
        matrix[row] := Complement(readings[row], width);
        assert matrix[..row] == m[..row];
        PrefixDiffers(prior[..], matrix[..], row);
        if prior[row] != matrix[row] {
          changed := true;
        }
        row := row + 1;
      }
      trace := trace + [RowWrite(0)];
      assert matrix[..] == ScannedRows(readings, width);
      assert prior[..row] == prior[..] && matrix[..row] == matrix[..];
    }
  }

  /** Extending two prefixes by one position: they differ iff they differed
      before or the new position differs. */
  lemma PrefixDiffers<T>(a: seq<T>, b: seq<T>, n: nat)
    requires n < |a| && n < |b|
    ensures a[..n + 1] != b[..n + 1] <==> a[..n] != b[..n] || a[n] != b[n]
  {
    assert a[..n + 1] == a[..n] + [a[n]] && b[..n + 1] == b[..n] + [b[n]];
    if a[..n + 1] == b[..n + 1] {
      assert a[..n] == a[..n + 1][..n];
    }
  }

  /** A scan reports a change exactly when some row's stored value differs
      from the one in the previous scan. */
  lemma ChangedIffSomeRowDiffers(before: seq<nat>, readings: seq<uint16>, width: nat)
    requires |before| == |readings|
    ensures before != ScannedRows(readings, width) <==>
      exists r :: 0 <= r < |readings| && before[r] != Complement(readings[r], width)
  {
    var rows := ScannedRows(readings, width);
    if before != rows {
      var r :| 0 <= r < |readings| && before[r] != rows[r];
    }
  }

  /** While row r is read, only row r is driven low. */
  lemma {:induction false} OnlyScannedRowLow(n: nat, r: nat, k: AvrGpio.BitIndex)
    requires n <= 8 && r < n
    ensures RowScans(n)[2 * r] == RowWrite(DriveLow(r as bv8))
    ensures RowScans(n)[2 * r + 1] == ExpanderRead
    ensures AvrGpio.BitSet(RowScans(n)[2 * r].value, k) <==> k != r as bv8
  {
    if r < n - 1 {
      OnlyScannedRowLow(n - 1, r, k);
    } else {
      DriveLowBit(r as bv8, k);
    }
  }
}
