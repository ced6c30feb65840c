/** The logical key matrix: keys are dropped into (row, column) cells of a
    grid of sparse lists, collisions are moved to the nearest free cell,
    blank rows and columns are squeezed out and the survivors get
    identifiers. */
module Matrix {
  import opened Wrappers
  import Kle
  import Seqs

  // ---------------------------------------------------------------------
  // SparseList

  /** `SparseList.__getitem__`: reading past the end yields None. */
  function SparseGet<T>(s: seq<Option<T>>, i: nat): (r: Option<T>)
    ensures i >= |s| ==> r.None?
    ensures i < |s| ==> r == s[i]
  {
    if i < |s| then s[i] else None
  }

  /** `SparseList.__setitem__`: assignment past the end pads with None. */
  function SparseSet<T>(s: seq<Option<T>>, i: nat, v: Option<T>): (r: seq<Option<T>>)
    ensures |r| == if i < |s| then |s| else i + 1
    ensures r[i] == v
    ensures forall j :: 0 <= j < |s| && j != i ==> r[j] == s[j]
    ensures forall j :: |s| <= j < |r| && j != i ==> r[j].None?
  {
    if i < |s| then s[i := v] else s + seq(i - |s|, _ => None) + [v]
  }

  /** Reading back a sparse assignment: the assigned index holds the new
      value, every other index reads as before. */
  lemma SparseGetSet<T>(s: seq<Option<T>>, i: nat, v: Option<T>, j: nat)
    ensures SparseGet(SparseSet(s, i, v), j) == if j == i then v else SparseGet(s, j)
  {
  }

  // ---------------------------------------------------------------------
  // Cells

  type Key = Kle.LaidKey
  type Row = seq<Option<Key>>
  type Rows = seq<Option<Row>>

  /** `rows[y][x]`, with a missing row reading as an empty cell. */
  function CellAt(rows: Rows, x: nat, y: nat): Option<Key>
  {
    match SparseGet(rows, y)
    case None => None
    case Some(row) => SparseGet(row, x)
  }

  /** Stores `k` at (x, y), creating the row first if it is missing. */
  function Put(rows: Rows, x: nat, y: nat, k: Key): Rows
  {
    var row := match SparseGet(rows, y) case None => [] case Some(r) => r;
    SparseSet(rows, y, Some(SparseSet(row, x, Some(k))))
  }

  /** Storing a key changes exactly one cell. */
  lemma PutCell(rows: Rows, x: nat, y: nat, k: Key, x2: nat, y2: nat)
    ensures CellAt(Put(rows, x, y, k), x2, y2) == if x2 == x && y2 == y then Some(k) else CellAt(rows, x2, y2)
  {
    var row := match SparseGet(rows, y) case None => [] case Some(r) => r;
    SparseGetSet(rows, y, Some(SparseSet(row, x, Some(k))), y2);
    SparseGetSet(row, x, Some(k), x2);
  }

  /** Every key of a row sits at a column no greater than `maxCols`. */
  predicate RowBounded(r: Option<Row>, maxCols: nat)
  {
    r.None? || forall x :: 0 <= x < |r.value| && r.value[x].Some? ==> x <= maxCols
  }

  /** Every key sits at a column no greater than `maxCols`. */
  predicate ColsBounded(rows: Rows, maxCols: nat)
  {
    forall i :: 0 <= i < |rows| ==> RowBounded(rows[i], maxCols)
  }

  lemma PutBounded(rows: Rows, x: nat, y: nat, k: Key, maxCols: nat)
    requires ColsBounded(rows, maxCols) && x <= maxCols
    ensures ColsBounded(Put(rows, x, y, k), maxCols)
  {
    var row := match SparseGet(rows, y) case None => [] case Some(r) => r;
    assert RowBounded(Some(row), maxCols);
    var nr := Put(rows, x, y, k);
    forall i | 0 <= i < |nr|
      ensures RowBounded(nr[i], maxCols)
    {
      if i != y && i < |rows| {
        assert nr[i] == rows[i];
      }
    }
  }

  function Max(a: int, b: int): int { if a >= b then a else b }

  // ---------------------------------------------------------------------
  // Collision placement

  /** The cost `placeCollision` gives the free cell (x2, y2) for a key that
      wanted (x, y): the squared distance, where opening a new row or a new
      column adds 10 to that axis' offset. */
  function Cost(x: nat, y: nat, x2: nat, y2: nat, limitX: nat, limitY: nat): int
  {
    var dy := (y2 - y) + (if y2 == limitY then 10 else 0);
    var dx := (x2 - x) + (if x2 == limitX then 10 else 0);
    dx * dx + dy * dy
  }

  /** (x2, y2) comes before (x3, y3) in the column-major scan. */
  predicate Before(x2: nat, y2: nat, x3: nat, y3: nat)
  {
    x2 < x3 || (x2 == x3 && y2 < y3)
  }

  /** (cx, cy) is the cell `placeCollision` picks: free, inside
      [0..limitX] x [0..limitY], no dearer than any free cell there and
      strictly cheaper than every free cell scanned before it. */
  ghost predicate BestCell(rows: Rows, x: nat, y: nat, limitX: nat, limitY: nat, cx: nat, cy: nat)
  {
    cx <= limitX && cy <= limitY && CellAt(rows, cx, cy).None? &&
    (forall x2: nat, y2: nat :: x2 <= limitX && y2 <= limitY && CellAt(rows, x2, y2).None? ==>
      Cost(x, y, cx, cy, limitX, limitY) <= Cost(x, y, x2, y2, limitX, limitY)) &&
    (forall x2: nat, y2: nat :: x2 <= limitX && y2 <= limitY && CellAt(rows, x2, y2).None? && Before(x2, y2, cx, cy) ==>
      Cost(x, y, cx, cy, limitX, limitY) < Cost(x, y, x2, y2, limitX, limitY))
  }

  /** The cell is determined: two cells that both satisfy BestCell are the
      same cell. */
  lemma BestCellUnique(rows: Rows, x: nat, y: nat, limitX: nat, limitY: nat, b1: (nat, nat), b2: (nat, nat))
    requires BestCell(rows, x, y, limitX, limitY, b1.0, b1.1)
    requires BestCell(rows, x, y, limitX, limitY, b2.0, b2.1)
    ensures b1 == b2
  {
  }

  /** The rows and column bound after storing collision i of `cs` at cell
      i of `cells`, in turn, as `placeCollision` does for each. */
  function PlaceAll(rows: Rows, maxCols: nat, cs: seq<(nat, nat, Key)>, cells: seq<(nat, nat)>): (Rows, nat)
    requires |cells| == |cs|
    decreases |cs|
  {
    if |cs| == 0 then (rows, maxCols)
    else
      var st := PlaceAll(rows, maxCols, cs[..|cs| - 1], cells[..|cs| - 1]);
      var c := cells[|cs| - 1];
      (Put(st.0, c.0, c.1, cs[|cs| - 1].2), Max(c.0, st.1))
  }

  /** Cell j is the one `placeCollision` picks for collision j, given the
      cells placed before it. */
  ghost predicate ChosenAt(rows: Rows, maxCols: nat, cs: seq<(nat, nat, Key)>, cells: seq<(nat, nat)>, j: nat)
    requires j < |cells| <= |cs|
  {
    var st := PlaceAll(rows, maxCols, cs[..j], cells[..j]);
    BestCell(st.0, cs[j].0, cs[j].1, st.1, |st.0|, cells[j].0, cells[j].1)
  }

  /** Placing collisions changes only the cells they go to. */
  lemma {:induction false} PlaceAllKeeps(rows: Rows, maxCols: nat, cs: seq<(nat, nat, Key)>, cells: seq<(nat, nat)>, x: nat, y: nat)
    requires |cells| == |cs| && (x, y) !in cells
    ensures CellAt(PlaceAll(rows, maxCols, cs, cells).0, x, y) == CellAt(rows, x, y)
  {
    if |cs| > 0 {
      var n := |cs| - 1;
      assert (x, y) !in cells[..n];
      PlaceAllKeeps(rows, maxCols, cs[..n], cells[..n], x, y);
      PutCell(PlaceAll(rows, maxCols, cs[..n], cells[..n]).0, cells[n].0, cells[n].1, cs[n].2, x, y);
    }
  }

  /** The column bound after placing collisions is the largest of the old
      bound and their columns. */
  lemma {:induction false} PlaceAllCols(rows: Rows, maxCols: nat, cs: seq<(nat, nat, Key)>, cells: seq<(nat, nat)>)
    requires |cells| == |cs|
    ensures maxCols <= PlaceAll(rows, maxCols, cs, cells).1
    ensures forall i :: 0 <= i < |cells| ==> cells[i].0 <= PlaceAll(rows, maxCols, cs, cells).1
    ensures PlaceAll(rows, maxCols, cs, cells).1 == maxCols ||
      exists i :: 0 <= i < |cells| && cells[i].0 == PlaceAll(rows, maxCols, cs, cells).1
  {
    if |cs| > 0 {
      var n := |cs| - 1;
      var cols := PlaceAll(rows, maxCols, cs[..n], cells[..n]).1;
      PlaceAllCols(rows, maxCols, cs[..n], cells[..n]);
      assert PlaceAll(rows, maxCols, cs, cells).1 == Max(cells[n].0, cols);
      forall i | 0 <= i < n
        ensures cells[i].0 <= cols
      {
        assert cells[..n][i] == cells[i];
      }
      if cols != maxCols && cells[n].0 < cols {
        var i :| 0 <= i < n && cells[..n][i].0 == cols;
        assert cells[i].0 == cols;
      }
    }
  }

  /** What `resolveCollisions` has done after its first i turns, starting
      from the rows `o` and column bound `m`. */
  ghost predicate Resolving(o: Rows, m: nat, cs: seq<(nat, nat, Key)>, i: nat, cells: seq<(nat, nat)>, rows: Rows, cols: nat)
  {
    i <= |cs| && |cells| == i &&
    (rows, cols) == PlaceAll(o, m, cs[..i], cells) &&
    (forall j :: 0 <= j < i ==> ChosenAt(o, m, cs, cells, j)) &&
    (forall j :: 0 <= j < i ==> CellAt(rows, cells[j].0, cells[j].1) == Some(cs[j].2)) &&
    (forall x: nat, y: nat :: CellAt(o, x, y).Some? ==> CellAt(rows, x, y) == CellAt(o, x, y))
  }

  lemma ChosenKept(o: Rows, m: nat, cs: seq<(nat, nat, Key)>, cells: seq<(nat, nat)>, c: (nat, nat), j: nat)
    requires j < |cells| < |cs| && ChosenAt(o, m, cs, cells, j)
    ensures ChosenAt(o, m, cs, cells + [c], j)
  {
    assert (cells + [c])[..j] == cells[..j];
    assert (cells + [c])[j] == cells[j];
  }

  lemma ChosenLast(o: Rows, m: nat, cs: seq<(nat, nat, Key)>, cells: seq<(nat, nat)>, c: (nat, nat))
    requires |cells| < |cs|
    requires var st := PlaceAll(o, m, cs[..|cells|], cells);
      BestCell(st.0, cs[|cells|].0, cs[|cells|].1, st.1, |st.0|, c.0, c.1)
    ensures ChosenAt(o, m, cs, cells + [c], |cells|)
  {
    assert (cells + [c])[..|cells|] == cells;
  }

  /** One turn of `resolveCollisions`: the key goes to the cell
      `placeCollision` picks, which is free, so no earlier key moves. */
  lemma ResolveStep(o: Rows, m: nat, cs: seq<(nat, nat, Key)>, i: nat, cells: seq<(nat, nat)>, rows: Rows, cols: nat, cx: nat, cy: nat)
    requires Resolving(o, m, cs, i, cells, rows, cols) && i < |cs|
    requires BestCell(rows, cs[i].0, cs[i].1, cols, |rows|, cx, cy)
    ensures Resolving(o, m, cs, i + 1, cells + [(cx, cy)], Put(rows, cx, cy, cs[i].2), Max(cx, cols))
  {
    var cells' := cells + [(cx, cy)];
    var rows' := Put(rows, cx, cy, cs[i].2);
    assert cs[..i + 1][..i] == cs[..i];
    assert cells'[..i] == cells;
    assert (rows', Max(cx, cols)) == PlaceAll(o, m, cs[..i + 1], cells');
    forall j | 0 <= j < i
      ensures ChosenAt(o, m, cs, cells', j)
    {
      ChosenKept(o, m, cs, cells, (cx, cy), j);
    }
    ChosenLast(o, m, cs, cells, (cx, cy));
    assert CellAt(rows, cx, cy).None?;
    forall j | 0 <= j < i + 1
      ensures CellAt(rows', cells'[j].0, cells'[j].1) == Some(cs[j].2)
    {
      PutCell(rows, cx, cy, cs[i].2, cells'[j].0, cells'[j].1);
    }
    forall x: nat, y: nat | CellAt(o, x, y).Some?
      ensures CellAt(rows', x, y) == CellAt(o, x, y)
    {
      PutCell(rows, cx, cy, cs[i].2, x, y);
    }
  }

  // ---------------------------------------------------------------------
  // Hexadecimal identifiers

  function HexDigit(d: nat): (c: char)
    requires d < 16
    ensures c != '_'
  {
    "0123456789abcdef"[d]
  }

  /** `'%x' % n`. */
  function Hex(n: nat): (r: string)
    ensures |r| >= 1 && '_' !in r
    ensures (|r| == 1) == (n < 16)
  {
    if n < 16 then [HexDigit(n)] else Hex(n / 16) + [HexDigit(n % 16)]
  }

  lemma HexDigitInjective(a: nat, b: nat)
    requires a < 16 && b < 16 && HexDigit(a) == HexDigit(b)
    ensures a == b
  {
    var digits := "0123456789abcdef";
    assert forall i, j :: 0 <= i < j < 16 ==> digits[i] != digits[j];
  }

  /** Different numbers have different hexadecimal spellings. */
  lemma {:induction false} HexInjective(a: nat, b: nat)
    requires Hex(a) == Hex(b)
    ensures a == b
  {
    var ha, hb := Hex(a), Hex(b);
    if a < 16 && b < 16 {
      HexDigitInjective(a, b);
    } else if a >= 16 && b >= 16 {
      assert ha[..|ha| - 1] == Hex(a / 16) && hb[..|hb| - 1] == Hex(b / 16);
      HexInjective(a / 16, b / 16);
      assert ha[|ha| - 1] == HexDigit(a % 16) && hb[|hb| - 1] == HexDigit(b % 16);
      HexDigitInjective(a % 16, b % 16);
    }
  }

  /** The two formats of `assignIdentifiers`. */
  function Identifier(wide: bool, y: nat, x: nat): string
  {
    if wide then "k" + Hex(y) + "_" + Hex(x) else "k" + Hex(y) + Hex(x)
  }

  /** Two strings joined by '_' can be taken apart again when neither
      contains '_'. */
  lemma SplitAtUnderscore(a: string, b: string, c: string, d: string)
    requires '_' !in a && '_' !in c && a + "_" + b == c + "_" + d
    ensures a == c && b == d
  {
    var l, r := a + "_" + b, c + "_" + d;
    FirstUnderscore(a, b);
    FirstUnderscore(c, d);
    assert a == l[..|a|] && c == r[..|c|];
    assert b == l[|a| + 1..] && d == r[|c| + 1..];
  }

  /** The first '_' of `a + "_" + b` is the separator when `a` has none. */
  lemma FirstUnderscore(a: string, b: string)
    requires '_' !in a
    ensures Seqs.IndexOf(a + "_" + b, '_') == Some(|a|)
  {
    var s := a + "_" + b;
    var p := Seqs.IndexOf(s, '_');
    assert s[|a|] == '_';
    assert forall j :: 0 <= j < |a| ==> s[j] == a[j];
  }

  /** With the underscore format, identifiers of different cells differ. */
  lemma WideIdentifiersDistinct(y1: nat, x1: nat, y2: nat, x2: nat)
    requires Identifier(true, y1, x1) == Identifier(true, y2, x2)
    ensures y1 == y2 && x1 == x2
  {
    var i1, i2 := Identifier(true, y1, x1), Identifier(true, y2, x2);
    assert i1[1..] == Hex(y1) + "_" + Hex(x1) && i2[1..] == Hex(y2) + "_" + Hex(x2);
    SplitAtUnderscore(Hex(y1), Hex(x1), Hex(y2), Hex(x2));
    HexInjective(y1, y2);
    HexInjective(x1, x2);
  }

  /** With the compact format, identifiers of cells in the first 16 rows
      and columns differ. */
  lemma CompactIdentifiersDistinct(y1: nat, x1: nat, y2: nat, x2: nat)
    requires y1 < 16 && x1 < 16 && y2 < 16 && x2 < 16
    requires Identifier(false, y1, x1) == Identifier(false, y2, x2)
    ensures y1 == y2 && x1 == x2
  {
    var i1, i2 := Identifier(false, y1, x1), Identifier(false, y2, x2);
    assert i1[1] == HexDigit(y1) && i2[1] == HexDigit(y2);
    assert i1[2] == HexDigit(x1) && i2[2] == HexDigit(x2);
    HexDigitInjective(y1, y2);
    HexDigitInjective(x1, x2);
  }

  /** Past 15 rows or columns the compact format is ambiguous: row 1,
      column 0x11 and row 0x11, column 1 are both "k111". */
  lemma CompactIdentifiersCollide()
    ensures Identifier(false, 1, 17) == Identifier(false, 17, 1) == "k111"
  {
    assert Hex(17) == Hex(1) + [HexDigit(1)];
  }

  // ---------------------------------------------------------------------
  // Blank rows and columns

  /** The keys of a row, left to right. */
  function RowKeys(row: Row): (r: seq<Key>)
    ensures |r| == 0 <==> forall i :: 0 <= i < |row| ==> row[i].None?
  {
    if |row| == 0 then []
    else (if row[0].Some? then [row[0].value] else []) + RowKeys(row[1..])
  }

  lemma {:induction false} RowKeysConcat(a: Row, b: Row)
    ensures RowKeys(a + b) == RowKeys(a) + RowKeys(b)
  {
    if |a| > 0 {
      assert (a + b)[1..] == a[1..] + b;
      RowKeysConcat(a[1..], b);
    } else {
      assert a + b == b;
    }
  }

  /** A row that holds no key: missing, or all cells empty. */
  predicate Blank(r: Option<Row>)
  {
    r.None? || |RowKeys(r.value)| == 0
  }

  /** All keys in row-major order. */
  function KeySeq(rows: Rows): seq<Key>
  {
    if |rows| == 0 then []
    else (if rows[0].Some? then RowKeys(rows[0].value) else []) + KeySeq(rows[1..])
  }

  /** The first pass of `removeBlankRowsAndCols`: the non-blank rows, in
      order. */
  function KeepRows(rows: Rows): (r: Rows)
    ensures forall i :: 0 <= i < |r| ==> !Blank(r[i])
    ensures |r| <= |rows|
  {
    if |rows| == 0 then []
    else (if Blank(rows[0]) then [] else [rows[0]]) + KeepRows(rows[1..])
  }

  /** One step of the backward scan: row y is deleted exactly when it is
      blank, and the rows from y on are then the kept ones. */
  lemma DropRowAt(o: Rows, y: nat, rows: Rows)
    requires y < |o| && rows == o[..y + 1] + KeepRows(o[y + 1..])
    ensures y < |rows| && rows[y] == o[y]
    ensures Blank(o[y]) ==> rows[..y] + rows[y + 1..] == o[..y] + KeepRows(o[y..])
    ensures !Blank(o[y]) ==> rows == o[..y] + KeepRows(o[y..])
  {
    assert o[y..][1..] == o[y + 1..];
    assert o[..y + 1] == o[..y] + [o[y]];
    assert rows[..y] == o[..y];
    assert rows[y + 1..] == KeepRows(o[y + 1..]);
  }

  /** The scan of one row of `removeBlankRowsAndCols`: blank exactly when it
      is missing or every cell is None. */
  method IsBlankRow(r: Option<Row>) returns (empty: bool)
    ensures empty <==> Blank(r)
  {
    empty := true;
    if r.Some? {
      var row := r.value;
      for c := 0 to |row|
        invariant empty <==> forall j :: 0 <= j < c ==> row[j].None?
      {
        if row[c].Some? {
          empty := false;
          break;
        }
      }
    }
  }

  /** Dropping blank rows keeps every key, in order. */
  lemma {:induction false} KeepRowsKeys(rows: Rows)
    ensures KeySeq(KeepRows(rows)) == KeySeq(rows)
  {
    if |rows| > 0 {
      KeepRowsKeys(rows[1..]);
      var rest := KeepRows(rows[1..]);
      if !Blank(rows[0]) {
        var l := [rows[0]] + rest;
        assert l[0] == rows[0] && l[1..] == rest;
        assert KeySeq(l) == RowKeys(rows[0].value) + KeySeq(rest);
      } else {
        assert KeepRows(rows) == rest;
        assert rows[0].Some? ==> RowKeys(rows[0].value) == [];
        assert KeySeq(rows) == KeySeq(rows[1..]);
      }
    }
  }

  /** Column `col` holds no key in any row. */
  predicate ColBlank(rows: Rows, col: nat)
  {
    forall i :: 0 <= i < |rows| && rows[i].Some? ==> SparseGet(rows[i].value, col).None?
  }

  /** `del row[col]` for every row; a row too short raises IndexError. */
  function DelCol(rows: Rows, col: nat): (r: Result<Rows, string>)
    ensures r.Success? ==> |r.value| == |rows|
  {
    if |rows| == 0 then Success([])
    else if rows[0].None? then Failure("TypeError: 'NoneType' object doesn't support item deletion")
    else if col >= |rows[0].value| then Failure("IndexError: list assignment index out of range")
    else
      var rest := DelCol(rows[1..], col);
      if rest.Failure? then rest
      else Success([Some(rows[0].value[..col] + rows[0].value[col + 1..])] + rest.value)
  }

  /** Deleting a column fails exactly when some row does not reach it. */
  lemma {:induction false} DelColFails(rows: Rows, col: nat)
    requires forall i :: 0 <= i < |rows| ==> rows[i].Some?
    ensures DelCol(rows, col).Failure? <==> exists i :: 0 <= i < |rows| && |rows[i].value| <= col
  {
    if |rows| > 0 {
      DelColFails(rows[1..], col);
      if exists i :: 1 <= i < |rows| && |rows[i].value| <= col {
        var i :| 1 <= i < |rows| && |rows[i].value| <= col;
        assert rows[1..][i - 1] == rows[i];
      }
    }
  }

  /** Deleting an empty cell keeps the row's keys. */
  lemma DelCellKeys(row: Row, col: nat)
    requires col < |row| && row[col].None?
    ensures RowKeys(row[..col] + row[col + 1..]) == RowKeys(row)
  {
    var a, b, c := row[..col], row[col + 1..], row[col..];
    Seqs.SplitAt(row, col);
    RowKeysConcat(a, c);
    RowKeysConcat(a, b);
  }

  lemma ColBlankTail(rows: Rows, col: nat)
    requires |rows| > 0 && ColBlank(rows, col)
    ensures ColBlank(rows[1..], col)
  {
    forall i | 0 <= i < |rows[1..]| && rows[1..][i].Some?
      ensures SparseGet(rows[1..][i].value, col).None?
    {
      assert rows[1..][i] == rows[i + 1];
    }
  }

  /** Deleting a blank column keeps every row's keys, hence every key in
      order, and so no row becomes blank. */
  lemma {:induction false} DelColKeys(rows: Rows, col: nat)
    requires ColBlank(rows, col) && DelCol(rows, col).Success?
    ensures forall i :: 0 <= i < |rows| ==>
      (DelCol(rows, col).value[i].Some? && rows[i].Some? &&
       RowKeys(DelCol(rows, col).value[i].value) == RowKeys(rows[i].value))
  {
    if |rows| > 0 {
      ColBlankTail(rows, col);
      DelColKeys(rows[1..], col);
      DelCellKeys(rows[0].value, col);
      var r := DelCol(rows, col).value;
      assert r[1..] == DelCol(rows[1..], col).value;
      forall i | 1 <= i < |rows|
        ensures r[i].Some? && rows[i].Some? && RowKeys(r[i].value) == RowKeys(rows[i].value)
      {
        assert r[i] == r[1..][i - 1] && rows[i] == rows[1..][i - 1];
      }
    }
  }

  /** Rows with the same keys, row by row, have the same keys in order. */
  lemma {:induction false} SameRowKeys(a: Rows, b: Rows)
    requires |a| == |b|
    requires forall i :: 0 <= i < |a| ==> a[i].Some? && b[i].Some? && RowKeys(a[i].value) == RowKeys(b[i].value)
    ensures KeySeq(a) == KeySeq(b)
  {
    if |a| > 0 {
      SameRowKeys(a[1..], b[1..]);
    }
  }

  /** The second pass: columns `col`, `col - 1`, ..., 0 are deleted when
      blank. */
  function DropCols(rows: Rows, col: int): Result<Rows, string>
    decreases col + 1
  {
    if col < 0 then Success(rows)
    else if ColBlank(rows, col) then
      var d := DelCol(rows, col);
      if d.Failure? then d else DropCols(d.value, col - 1)
    else DropCols(rows, col - 1)
  }

  lemma {:induction false} DropColsKeys(rows: Rows, col: int)
    requires forall i :: 0 <= i < |rows| ==> !Blank(rows[i])
    requires DropCols(rows, col).Success?
    ensures KeySeq(DropCols(rows, col).value) == KeySeq(rows)
    ensures forall i :: 0 <= i < |DropCols(rows, col).value| ==> !Blank(DropCols(rows, col).value[i])
    decreases col + 1
  {
    if col >= 0 {
      if ColBlank(rows, col) {
        DelColKeys(rows, col);
        var d := DelCol(rows, col).value;
        SameRowKeys(d, rows);
        DropColsKeys(d, col - 1);
      } else {
        DropColsKeys(rows, col - 1);
      }
    }
  }

  /** `removeBlankRowsAndCols` on the rows, scanning columns from
      `maxCols` down. */
  function RemoveBlank(rows: Rows, maxCols: nat): Result<Rows, string>
  {
    DropCols(KeepRows(rows), maxCols)
  }

  /** Squeezing out blank rows and columns keeps every key in row-major
      order and leaves no blank row. */
  lemma RemoveBlankKeys(rows: Rows, maxCols: nat)
    requires RemoveBlank(rows, maxCols).Success?
    ensures KeySeq(RemoveBlank(rows, maxCols).value) == KeySeq(rows)
    ensures forall i :: 0 <= i < |RemoveBlank(rows, maxCols).value| ==> !Blank(RemoveBlank(rows, maxCols).value[i])
  {
    KeepRowsKeys(rows);
    DropColsKeys(KeepRows(rows), maxCols);
  }

  /** A blank column beyond the end of a shorter row makes the pass raise:
      rows [k] and [k, None] (maxCols 1) leave column 1 blank, and the
      first row has no column 1 to delete. */
  lemma RemoveBlankRaises(k: Key)
    ensures RemoveBlank([Some([Some(k)]), Some([Some(k), None])], 1).Failure?
  {
    var rows := [Some([Some(k)]), Some([Some(k), None])];
    assert !Blank(rows[0]) && !Blank(rows[1]);
    assert KeepRows(rows) == rows by {
      assert KeepRows(rows[1..]) == [rows[1]] by {
        assert rows[1..][1..] == [];
      }
    }
    assert ColBlank(rows, 1);
  }

  // ---------------------------------------------------------------------
  // Keys in row-major order

  /** Every row is present; `dimensions` fails on a missing row. */
  predicate AllRows(rows: Rows)
  {
    forall i :: 0 <= i < |rows| ==> rows[i].Some?
  }

  /** The longest row. */
  function MaxLen(rows: Rows): (r: nat)
    requires AllRows(rows)
    ensures forall i :: 0 <= i < |rows| ==> |rows[i].value| <= r
  {
    if |rows| == 0 then 0 else Max(MaxLen(rows[..|rows| - 1]), |rows[|rows| - 1].value|)
  }

  /** `dimensions`: (longest row, number of rows). */
  function Dimensions(rows: Rows): Result<(nat, nat), string>
  {
    if AllRows(rows) then
      var dims: (nat, nat) := (MaxLen(rows), |rows|);
      Success(dims)
    else Failure("TypeError: object of type 'NoneType' has no len()")
  }

  /** The occupied cells among the first `m` of row `y`. */
  function RowCells(y: nat, row: Row, m: nat): (r: seq<(nat, nat, Key)>)
    requires m <= |row|
    ensures forall p :: 0 <= p < |r| ==> r[p].0 == y && r[p].1 < m
  {
    if m == 0 then []
    else RowCells(y, row, m - 1) + (if row[m - 1].Some? then [(y, m - 1, row[m - 1].value)] else [])
  }

  /** The occupied cells of the first `n` rows, row by row. */
  function Cells(rows: Rows, n: nat): (r: seq<(nat, nat, Key)>)
    requires n <= |rows| && AllRows(rows)
    ensures forall p :: 0 <= p < |r| ==> r[p].0 < n
  {
    if n == 0 then [] else Cells(rows, n - 1) + RowCells(n - 1, rows[n - 1].value, |rows[n - 1].value|)
  }

  /** What `keys()` yields. */
  function KeysOf(rows: Rows): Result<seq<(nat, nat, Key)>, string>
  {
    if AllRows(rows) then Success(Cells(rows, |rows|)) else Failure(Dimensions(rows).error)
  }

  lemma {:induction false} RowCellsComplete(y: nat, row: Row, m: nat, y2: nat, x: nat, k: Key)
    requires m <= |row|
    ensures (y2, x, k) in RowCells(y, row, m) <==> y2 == y && x < m && row[x] == Some(k)
  {
    if m > 0 {
      RowCellsComplete(y, row, m - 1, y2, x, k);
    }
  }

  /** `keys()` yields exactly the occupied cells. */
  lemma {:induction false} CellsComplete(rows: Rows, n: nat, y: nat, x: nat, k: Key)
    requires n <= |rows| && AllRows(rows)
    ensures (y, x, k) in Cells(rows, n) <==> y < n && CellAt(rows, x, y) == Some(k)
  {
    if n > 0 {
      CellsComplete(rows, n - 1, y, x, k);
      RowCellsComplete(n - 1, rows[n - 1].value, |rows[n - 1].value|, y, x, k);
    }
  }

  /** (y1, x1) strictly precedes (y2, x2) in row-major order. */
  predicate RowMajor(a: (nat, nat, Key), b: (nat, nat, Key))
  {
    a.0 < b.0 || (a.0 == b.0 && a.1 < b.1)
  }

  lemma {:induction false} RowCellsOrdered(y: nat, row: Row, m: nat)
    requires m <= |row|
    ensures forall p, q :: 0 <= p < q < |RowCells(y, row, m)| ==> RowMajor(RowCells(y, row, m)[p], RowCells(y, row, m)[q])
  {
    if m > 0 {
      RowCellsOrdered(y, row, m - 1);
    }
  }

  /** `keys()` yields the cells in strictly increasing row-major order. */
  lemma {:induction false} CellsOrdered(rows: Rows, n: nat)
    requires n <= |rows| && AllRows(rows)
    ensures forall p, q :: 0 <= p < q < |Cells(rows, n)| ==> RowMajor(Cells(rows, n)[p], Cells(rows, n)[q])
  {
    if n > 0 {
      CellsOrdered(rows, n - 1);
      RowCellsOrdered(n - 1, rows[n - 1].value, |rows[n - 1].value|);
    }
  }

  /** The keys of a list of cells. */
  function KeysIn(cells: seq<(nat, nat, Key)>): (r: seq<Key>)
    ensures |r| == |cells|
  {
    if |cells| == 0 then [] else KeysIn(cells[..|cells| - 1]) + [cells[|cells| - 1].2]
  }

  lemma {:induction false} KeysInConcat(a: seq<(nat, nat, Key)>, b: seq<(nat, nat, Key)>)
    ensures KeysIn(a + b) == KeysIn(a) + KeysIn(b)
  {
    if |b| > 0 {
      assert (a + b)[..|a + b| - 1] == a + b[..|b| - 1];
      KeysInConcat(a, b[..|b| - 1]);
    } else {
      assert a + b == a;
    }
  }

  lemma RowKeysSingle(c: Option<Key>)
    ensures RowKeys([c]) == if c.Some? then [c.value] else []
  {
    assert [c][1..] == [];
  }

  lemma {:induction false} RowCellsKeys(y: nat, row: Row, m: nat)
    requires m <= |row|
    ensures KeysIn(RowCells(y, row, m)) == RowKeys(row[..m])
  {
    if m > 0 {
      RowCellsKeys(y, row, m - 1);
      var c := row[m - 1];
      var tail := if c.Some? then [(y, m - 1, c.value)] else [];
      var prev := RowCells(y, row, m - 1);
      assert RowCells(y, row, m) == prev + tail;
      KeysInConcat(prev, tail);
      assert KeysIn(tail) == if c.Some? then [c.value] else [];
      Seqs.TakeSnoc(row, m);
      RowKeysConcat(row[..m - 1], [c]);
      RowKeysSingle(c);
    }
  }

  lemma {:induction false} KeySeqSnoc(rows: Rows, r: Option<Row>)
    ensures KeySeq(rows + [r]) == KeySeq(rows) + (if r.Some? then RowKeys(r.value) else [])
  {
    if |rows| > 0 {
      assert (rows + [r])[1..] == rows[1..] + [r];
      KeySeqSnoc(rows[1..], r);
    } else {
      assert [r][1..] == [];
    }
  }

  /** The keys `keys()` yields are the keys in row-major order, the order
      that squeezing out blank rows and columns preserves. */
  lemma {:induction false} CellsKeys(rows: Rows, n: nat)
    requires n <= |rows| && AllRows(rows)
    ensures KeysIn(Cells(rows, n)) == KeySeq(rows[..n])
  {
    if n > 0 {
      CellsKeys(rows, n - 1);
      var row := rows[n - 1].value;
      var prev, last := Cells(rows, n - 1), RowCells(n - 1, row, |row|);
      assert Cells(rows, n) == prev + last;
      KeysInConcat(prev, last);
      RowCellsKeys(n - 1, row, |row|);
      assert row[..|row|] == row;
      Seqs.TakeSnoc(rows, n);
      KeySeqSnoc(rows[..n - 1], rows[n - 1]);
    }
  }

  // ---------------------------------------------------------------------
  // Zig-zag walk

  const NW := 0
  const NE := 1
  const SW := 2
  const SE := 3

  /** The column of the `i`-th step of the walk. */
  function ColX(lx: nat, ascending: bool, i: nat): nat
    requires i < lx
  {
    if ascending then i else lx - 1 - i
  }

  /** One column, top to bottom or bottom to top. */
  function Column(x: nat, ly: nat, down: bool): (r: seq<(nat, nat)>)
    ensures |r| == ly
    ensures forall j :: 0 <= j < ly ==> r[j] == (x, if down then j else ly - 1 - j)
  {
    seq(ly, j requires 0 <= j < ly => (x, if down then j else ly - 1 - j))
  }

  /** The first `n` columns of the walk; the vertical direction flips after
      every column. */
  function Zig(lx: nat, ly: nat, ascending: bool, downFirst: bool, n: nat): seq<(nat, nat)>
    requires n <= lx
  {
    if n == 0 then []
    else Zig(lx, ly, ascending, downFirst, n - 1) + Column(ColX(lx, ascending, n - 1), ly, ((n - 1) % 2 == 0) == downFirst)
  }

  /** What `zigzagpositions(start, limit_x, limit_y)` yields; a zero limit
      means the default, one past the matrix dimensions. */
  function ZigzagOf(rows: Rows, start: int, limitX: nat, limitY: nat): Result<seq<(nat, nat)>, string>
  {
    var d := Dimensions(rows);
    if d.Failure? then Failure(d.error)
    else
      var lx := if limitX != 0 then limitX else d.value.0 + 1;
      var ly := if limitY != 0 then limitY else d.value.1 + 1;
      Success(Zig(lx, ly, start == NW || start == SW, start == NW || start == NE, lx))
  }

  /** The first `n` columns have `n * ly` cells, all inside those columns. */
  lemma {:induction false} ZigBounds(lx: nat, ly: nat, asc: bool, df: bool, n: nat)
    requires n <= lx
    ensures var z := Zig(lx, ly, asc, df, n);
      |z| == n * ly &&
      forall p :: 0 <= p < |z| ==> z[p].1 < ly && (if asc then z[p].0 < n else lx - n <= z[p].0 < lx)
  {
    if n > 0 {
      ZigBounds(lx, ly, asc, df, n - 1);
      assert (n - 1) * ly + ly == n * ly;
    }
  }

  /** The first `n` columns never visit a cell twice. */
  lemma {:induction false} ZigDistinct(lx: nat, ly: nat, asc: bool, df: bool, n: nat)
    requires n <= lx
    ensures var z := Zig(lx, ly, asc, df, n);
      forall p, q :: 0 <= p < q < |z| ==> z[p] != z[q]
  {
    if n > 0 {
      ZigDistinct(lx, ly, asc, df, n - 1);
      ZigBounds(lx, ly, asc, df, n - 1);
      var prev := Zig(lx, ly, asc, df, n - 1);
      var col := Column(ColX(lx, asc, n - 1), ly, ((n - 1) % 2 == 0) == df);
      var z := prev + col;
      forall p, q | 0 <= p < q < |z|
        ensures z[p] != z[q]
      {
        if q >= |prev| && p >= |prev| {
          assert col[p - |prev|].1 != col[q - |prev|].1;
        }
      }
    }
  }

  /** The first `n` columns visit every cell of those columns. */
  lemma {:induction false} ZigCovers(lx: nat, ly: nat, asc: bool, df: bool, n: nat)
    requires n <= lx
    ensures var z := Zig(lx, ly, asc, df, n);
      forall x: nat, y: nat :: y < ly && (if asc then x < n else lx - n <= x < lx) ==> (x, y) in z
  {
    if n > 0 {
      ZigCovers(lx, ly, asc, df, n - 1);
      var prev := Zig(lx, ly, asc, df, n - 1);
      var cx := ColX(lx, asc, n - 1);
      var down := ((n - 1) % 2 == 0) == df;
      var col := Column(cx, ly, down);
      var z := prev + col;
      forall x: nat, y: nat | y < ly && (if asc then x < n else lx - n <= x < lx)
        ensures (x, y) in z
      {
        if x == cx {
          var j := if down then y else ly - 1 - y;
          assert z[|prev| + j] == col[j] == (x, y);
        } else {
          assert (x, y) in prev;
        }
      }
    }
  }

  /** A walk over lx columns of height ly yields every cell of the box
      exactly once. */
  lemma ZigzagVisitsBoxOnce(lx: nat, ly: nat, asc: bool, df: bool)
    ensures var z := Zig(lx, ly, asc, df, lx);
      |z| == lx * ly &&
      (forall p :: 0 <= p < |z| ==> z[p].0 < lx && z[p].1 < ly) &&
      (forall p, q :: 0 <= p < q < |z| ==> z[p] != z[q]) &&
      (forall x: nat, y: nat :: x < lx && y < ly ==> (x, y) in z)
  {
    ZigBounds(lx, ly, asc, df, lx);
    ZigDistinct(lx, ly, asc, df, lx);
    ZigCovers(lx, ly, asc, df, lx);
  }

  /** The identifiers `assignIdentifiers` gives the cells `keys()` yields
      are pairwise different: the compact format is only used while every
      row and column index is a single hexadecimal digit. */
  lemma IdentifiersDistinct(rows: Rows, maxCols: nat)
    requires AllRows(rows) && ColsBounded(rows, maxCols)
    ensures var cells := Cells(rows, |rows|);
      var wide := maxCols > 15 || |rows| > 15;
      forall p, q :: 0 <= p < q < |cells| ==>
        Identifier(wide, cells[p].0, cells[p].1) != Identifier(wide, cells[q].0, cells[q].1)
  {
    var cells := Cells(rows, |rows|);
    var wide := maxCols > 15 || |rows| > 15;
    CellsOrdered(rows, |rows|);
    forall p, q | 0 <= p < q < |cells|
      ensures Identifier(wide, cells[p].0, cells[p].1) != Identifier(wide, cells[q].0, cells[q].1)
    {
      assert RowMajor(cells[p], cells[q]);
      if Identifier(wide, cells[p].0, cells[p].1) == Identifier(wide, cells[q].0, cells[q].1) {
        if wide {
          WideIdentifiersDistinct(cells[p].0, cells[p].1, cells[q].0, cells[q].1);
        } else {
          CellBounded(rows, maxCols, cells[p]);
          CellBounded(rows, maxCols, cells[q]);
          CompactIdentifiersDistinct(cells[p].0, cells[p].1, cells[q].0, cells[q].1);
        }
      }
    }
  }

  lemma CellBounded(rows: Rows, maxCols: nat, c: (nat, nat, Key))
    requires AllRows(rows) && ColsBounded(rows, maxCols) && c in Cells(rows, |rows|)
    ensures c.0 < |rows| && c.1 <= maxCols
  {
    CellsComplete(rows, |rows|, c.0, c.1, c.2);
    assert RowBounded(rows[c.0], maxCols);
  }

  lemma {:induction false} KeepRowsBounded(rows: Rows, maxCols: nat)
    requires ColsBounded(rows, maxCols)
    ensures ColsBounded(KeepRows(rows), maxCols) && AllRows(KeepRows(rows))
  {
    if |rows| > 0 {
      assert ColsBounded(rows[1..], maxCols) by {
        forall i | 0 <= i < |rows[1..]|
          ensures RowBounded(rows[1..][i], maxCols)
        {
          assert rows[1..][i] == rows[i + 1];
        }
      }
      KeepRowsBounded(rows[1..], maxCols);
      var rest := KeepRows(rows[1..]);
      var head := if Blank(rows[0]) then [] else [rows[0]];
      assert KeepRows(rows) == head + rest;
      assert RowBounded(rows[0], maxCols);
    }
  }

  /** Deleting a column moves keys left, never right. */
  lemma {:induction false} DelColBounded(rows: Rows, col: nat, maxCols: nat)
    requires ColsBounded(rows, maxCols) && DelCol(rows, col).Success?
    ensures ColsBounded(DelCol(rows, col).value, maxCols) && AllRows(DelCol(rows, col).value)
  {
    if |rows| > 0 {
      assert ColsBounded(rows[1..], maxCols) by {
        forall i | 0 <= i < |rows[1..]|
          ensures RowBounded(rows[1..][i], maxCols)
        {
          assert rows[1..][i] == rows[i + 1];
        }
      }
      DelColBounded(rows[1..], col, maxCols);
      var row := rows[0].value;
      var nrow := row[..col] + row[col + 1..];
      assert RowBounded(rows[0], maxCols);
      assert RowBounded(Some(nrow), maxCols) by {
        forall x | 0 <= x < |nrow| && nrow[x].Some?
          ensures x <= maxCols
        {
          if x >= col {
            assert nrow[x] == row[x + 1];
          } else {
            assert nrow[x] == row[x];
          }
        }
      }
      var r := DelCol(rows, col).value;
      assert r == [Some(nrow)] + DelCol(rows[1..], col).value;
    }
  }

  lemma {:induction false} DropColsBounded(rows: Rows, col: int, maxCols: nat)
    requires ColsBounded(rows, maxCols) && AllRows(rows) && DropCols(rows, col).Success?
    ensures ColsBounded(DropCols(rows, col).value, maxCols) && AllRows(DropCols(rows, col).value)
    decreases col + 1
  {
    if col >= 0 {
      if ColBlank(rows, col) {
        DelColBounded(rows, col, maxCols);
        DropColsBounded(DelCol(rows, col).value, col - 1, maxCols);
      } else {
        DropColsBounded(rows, col - 1, maxCols);
      }
    }
  }

  // ---------------------------------------------------------------------
  // The matrix object

  class KeyboardMatrix {
    var maxKeyCapLen: nat
    var maxCols: nat
    var rows: Rows
    var collisions: seq<(nat, nat, Key)>

    /** Every key sits within the first maxCols + 1 columns. */
    predicate Valid()
      reads this
    {
      ColsBounded(rows, maxCols)
    }

    constructor()
      ensures Valid() && rows == [] && collisions == [] && maxCols == 0 && maxKeyCapLen == 0
    {
      maxKeyCapLen := 0;
      maxCols := 0;
      rows := [];
      collisions := [];
    }

    /** `addKey`: the key goes to (x, y) when that cell is empty, and is
        recorded as a collision otherwise; an occupied cell is never
        overwritten.  Growing is always allowed, so there is no bounds
        check. */
    method AddKey(x: nat, y: nat, k: Key)
      requires Valid()
      modifies this
      ensures Valid()
      ensures maxKeyCapLen == Max(old(maxKeyCapLen), |Kle.ShortLabel(k.labels)|)
      ensures CellAt(old(rows), x, y).None? ==>
        rows == Put(old(rows), x, y, k) && maxCols == Max(x, old(maxCols)) && collisions == old(collisions)
      ensures CellAt(old(rows), x, y).Some? ==>
        rows == old(rows) && maxCols == old(maxCols) && collisions == old(collisions) + [(x, y, k)]
    {
      maxKeyCapLen := Max(maxKeyCapLen, |Kle.ShortLabel(k.labels)|);
      var row := SparseGet(rows, y);
      if row.None? {
        rows := SparseSet(rows, y, Some([]));
      }
      var r := SparseGet(rows, y).value;
      if SparseGet(r, x).None? {
        PutBounded(old(rows), x, y, k, Max(x, maxCols));
        assert ColsBounded(old(rows), Max(x, maxCols)) by {
          forall i | 0 <= i < |old(rows)|
            ensures RowBounded(old(rows)[i], Max(x, maxCols))
          {
            assert RowBounded(old(rows)[i], maxCols);
          }
        }
        rows := SparseSet(rows, y, Some(SparseSet(r, x, Some(k))));
        assert rows == Put(old(rows), x, y, k);
        maxCols := Max(x, maxCols);
        return;
      }
      collisions := collisions + [(x, y, k)];
    }

    /** `placeCollision`: scans the free cells of [0..maxCols] x
        [0..len(rows)] column by column and puts the key into the first
        cheapest one. */
    method PlaceCollision(x: nat, y: nat, k: Key) returns (cx: nat, cy: nat)
      requires Valid()
      modifies this
      ensures Valid()
      ensures BestCell(old(rows), x, y, old(maxCols), |old(rows)|, cx, cy)
      ensures rows == Put(old(rows), cx, cy, k) && maxCols == Max(cx, old(maxCols))
      ensures collisions == old(collisions) && maxKeyCapLen == old(maxKeyCapLen)
    {
      var limitX, limitY := maxCols, |rows|;
      var best: Option<int> := None;
      cx, cy := 0, 0;
      for x2 := 0 to limitX + 1
        invariant x2 > 0 ==> best.Some?
        invariant best.None? ==> forall x3: nat, y3: nat :: ScannedPos(x3, y3, x2, 0) ==> CellAt(rows, x3, y3).Some?
        invariant best.Some? ==> Scanned(rows, x, y, limitX, limitY, x2, 0, cx, cy, best.value)
      {
        for y2 := 0 to limitY + 1
          invariant x2 > 0 ==> best.Some?
          invariant best.None? ==> forall x3: nat, y3: nat :: ScannedPos(x3, y3, x2, y2) ==> CellAt(rows, x3, y3).Some?
          invariant best.Some? ==> Scanned(rows, x, y, limitX, limitY, x2, y2, cx, cy, best.value)
        {
          var row := SparseGet(rows, y2);
          if row.None? || SparseGet(row.value, x2).None? {
            var distance := Cost(x, y, x2, y2, limitX, limitY);
            if best.None? || distance < best.value {
              best := Some(distance);
              cx, cy := x2, y2;
            }
          }
        }
        assert CellAt(rows, x2, limitY).None?;
      }
      var row := SparseGet(rows, cy);
      var r := if row.None? then [] else row.value;
      PutBounded(rows, cx, cy, k, Max(cx, maxCols));
      rows := SparseSet(rows, cy, Some(SparseSet(r, cx, Some(k))));
      maxCols := Max(cx, maxCols);
    }

    /** `resolveCollisions`: places every recorded collision in turn, each
        in the cell `placeCollision` picks given those placed before it.
        Keys already in the matrix stay where they are, and no cell but the
        placed ones changes. */
    method ResolveCollisions() returns (placed: seq<(nat, nat)>)
      requires Valid()
      modifies this
      ensures Valid() && collisions == old(collisions) && |placed| == |collisions|
      ensures (rows, maxCols) == PlaceAll(old(rows), old(maxCols), collisions, placed)
      ensures forall j :: 0 <= j < |placed| ==> ChosenAt(old(rows), old(maxCols), collisions, placed, j)
      ensures maxKeyCapLen == old(maxKeyCapLen)
      ensures forall i :: 0 <= i < |placed| ==> CellAt(rows, placed[i].0, placed[i].1) == Some(collisions[i].2)
      ensures forall x: nat, y: nat :: CellAt(old(rows), x, y).Some? ==> CellAt(rows, x, y) == CellAt(old(rows), x, y)
      ensures forall x: nat, y: nat :: (x, y) !in placed ==> CellAt(rows, x, y) == CellAt(old(rows), x, y)
    {
      placed := [];
      for i := 0 to |collisions|
        invariant Valid() && collisions == old(collisions) && maxKeyCapLen == old(maxKeyCapLen)
        invariant Resolving(old(rows), old(maxCols), collisions, i, placed, rows, maxCols)
      {
        var c := collisions[i];
        ghost var before, beforeCols, beforePlaced := rows, maxCols, placed;
        var cx, cy := PlaceCollision(c.0, c.1, c.2);
        ResolveStep(old(rows), old(maxCols), collisions, i, beforePlaced, before, beforeCols, cx, cy);
        placed := placed + [(cx, cy)];
      }
      assert collisions[..|collisions|] == collisions;
      forall x: nat, y: nat | (x, y) !in placed
        ensures CellAt(rows, x, y) == CellAt(old(rows), x, y)
      {
        PlaceAllKeeps(old(rows), old(maxCols), collisions, placed, x, y);
      }
    }

    /** `removeBlankRowsAndCols`: deletes every blank row, then scans the
        columns from maxCols down to 0 deleting each blank one.  maxCols is
        not updated. */
    method RemoveBlankRowsAndCols() returns (r: Result<(), string>)
      requires Valid()
      modifies this
      ensures r.Success? <==> RemoveBlank(old(rows), old(maxCols)).Success?
      ensures r.Success? ==> rows == RemoveBlank(old(rows), old(maxCols)).value && Valid()
      ensures r.Failure? ==> r.error == RemoveBlank(old(rows), old(maxCols)).error
      ensures maxCols == old(maxCols) && collisions == old(collisions) && maxKeyCapLen == old(maxKeyCapLen)
    {
      DropBlankRows();
      KeepRowsBounded(old(rows), maxCols);
      var col: int := maxCols;
      while col >= 0
        invariant -1 <= col <= maxCols
        invariant DropCols(rows, col) == RemoveBlank(old(rows), maxCols)
        invariant AllRows(rows) && ColsBounded(rows, maxCols)
        invariant maxCols == old(maxCols) && collisions == old(collisions) && maxKeyCapLen == old(maxKeyCapLen)
        decreases col + 1
      {
        var empty := IsBlankColumn(rows, col);
        if empty {
          var d := DeleteColumn(rows, col);
          if d.Failure? {
            return Failure(d.error);
          }
          DelColBounded(rows, col, maxCols);
          rows := d.value;
        }
        col := col - 1;
      }
      return Success(());
    }

    /** The first pass: the rows are scanned from the last to the first and
        each blank one is deleted. */
    method DropBlankRows()
      modifies this
      ensures rows == KeepRows(old(rows))
      ensures maxCols == old(maxCols) && collisions == old(collisions) && maxKeyCapLen == old(maxKeyCapLen)
    {
      var y := |rows|;
      while y > 0
        invariant 0 <= y <= |old(rows)|
        invariant rows == old(rows)[..y] + KeepRows(old(rows)[y..])
        invariant maxCols == old(maxCols) && collisions == old(collisions) && maxKeyCapLen == old(maxKeyCapLen)
      {
        y := y - 1;
        ghost var before := rows;
        DropRowAt(old(rows), y, before);
        var empty := IsBlankRow(rows[y]);
        if empty {
          rows := rows[..y] + rows[y + 1..];
        }
      }
    }

    /** `dimensions`. */
    method Dims() returns (r: Result<(nat, nat), string>)
      ensures r == Dimensions(rows)
    {
      var nCols: nat := 0;
      for i := 0 to |rows|
        invariant AllRows(rows[..i]) && nCols == MaxLen(rows[..i])
      {
        if rows[i].None? {
          return Failure("TypeError: object of type 'NoneType' has no len()");
        }
        assert rows[..i + 1][..i] == rows[..i];
        nCols := Max(nCols, |rows[i].value|);
      }
      assert rows[..|rows|] == rows;
      return Success((nCols, |rows|));
    }

    /** `keys()`: the occupied cells in row-major order. */
    method Keys() returns (r: Result<seq<(nat, nat, Key)>, string>)
      ensures r == KeysOf(rows)
    {
      var d := Dims();
      if d.Failure? {
        return Failure(d.error);
      }
      var limitX := d.value.0;
      var out := [];
      for y := 0 to |rows|
        invariant out == Cells(rows, y)
      {
        var row := rows[y].value;
        for x := 0 to limitX + 1
          invariant out == Cells(rows, y) + RowCells(y, row, Min(x, |row|))
        {
          var k := SparseGet(row, x);
          if k.Some? {
            out := out + [(y, x, k.value)];
          }
        }
        assert Min(limitX + 1, |row|) == |row|;
      }
      return Success(out);
    }

    /** `assignIdentifiers`: each key's identifier, in `keys()` order. */
    method AssignIdentifiers() returns (r: Result<seq<(Key, string)>, string>)
      ensures KeysOf(rows).Failure? <==> r.Failure?
      ensures r.Success? ==> (|r.value| == |KeysOf(rows).value| &&
        forall i :: 0 <= i < |r.value| ==>
          var c := KeysOf(rows).value[i];
          r.value[i] == (c.2, Identifier(maxCols > 15 || |rows| > 15, c.0, c.1)))
    {
      var wide := maxCols > 15 || |rows| > 15;
      var ks := Keys();
      if ks.Failure? {
        return Failure(ks.error);
      }
      var out := [];
      for i := 0 to |ks.value|
        invariant |out| == i
        invariant forall j :: 0 <= j < i ==> out[j] == (ks.value[j].2, Identifier(wide, ks.value[j].0, ks.value[j].1))
      {
        var c := ks.value[i];
        out := out + [(c.2, Identifier(wide, c.0, c.1))];
      }
      return Success(out);
    }

    /** `zigzagpositions`. */
    method Zigzag(start: int, limitX: nat, limitY: nat) returns (r: Result<seq<(nat, nat)>, string>)
      ensures r == ZigzagOf(rows, start, limitX, limitY)
    {
      var d := Dims();
      if d.Failure? {
        return Failure(d.error);
      }
      var lx := if limitX != 0 then limitX else d.value.0 + 1;
      var ly := if limitY != 0 then limitY else d.value.1 + 1;
      var ascending := start == NW || start == SW;
      var down := start == NW || start == NE;
      var out := [];
      for i := 0 to lx
        invariant out == Zig(lx, ly, ascending, start == NW || start == NE, i)
        invariant down == ((i % 2 == 0) == (start == NW || start == NE))
      {
        var x := if ascending then i else lx - 1 - i;
        for j := 0 to ly
          invariant out == Zig(lx, ly, ascending, start == NW || start == NE, i) + Column(x, ly, down)[..j]
        {
          assert Column(x, ly, down)[..j + 1] == Column(x, ly, down)[..j] + [(x, if down then j else ly - 1 - j)];
          out := out + [(x, if down then j else ly - 1 - j)];
        }
        assert Column(x, ly, down)[..ly] == Column(x, ly, down);
        down := !down;
      }
      return Success(out);
    }
  }

  function Min(a: int, b: int): int { if a <= b then a else b }

  /** `removeBlankRowsAndCols`' test of one column. */
  method IsBlankColumn(rows: Rows, col: nat) returns (empty: bool)
    requires AllRows(rows)
    ensures empty == ColBlank(rows, col)
  {
    empty := true;
    for i := 0 to |rows|
      invariant empty <==> forall j :: 0 <= j < i ==> SparseGet(rows[j].value, col).None?
    {
      if SparseGet(rows[i].value, col).Some? {
        return false;
      }
    }
  }

  /** `for row in rows: del row[col]`. */
  method DeleteColumn(rows: Rows, col: nat) returns (r: Result<Rows, string>)
    requires AllRows(rows)
    ensures r == DelCol(rows, col)
  {
    var out := [];
    for i := 0 to |rows|
      invariant |out| == i
      invariant forall j :: 0 <= j < i ==> col < |rows[j].value|
      invariant forall j :: 0 <= j < i ==> out[j] == Some(rows[j].value[..col] + rows[j].value[col + 1..])
    {
      if col >= |rows[i].value| {
        DelColFails(rows, col);
        DelColError(rows, col);
        return Failure("IndexError: list assignment index out of range");
      }
      out := out + [Some(rows[i].value[..col] + rows[i].value[col + 1..])];
    }
    DelColFails(rows, col);
    assert DelCol(rows, col).Success?;
    DelColShape(rows, col);
    assert out == DelCol(rows, col).value;
    return Success(out);
  }

  lemma {:induction false} DelColShape(rows: Rows, col: nat)
    requires AllRows(rows) && DelCol(rows, col).Success?
    ensures forall j :: 0 <= j < |rows| ==>
      col < |rows[j].value| && DelCol(rows, col).value[j] == Some(rows[j].value[..col] + rows[j].value[col + 1..])
  {
    if |rows| > 0 {
      assert AllRows(rows[1..]) by {
        forall j | 0 <= j < |rows[1..]|
          ensures rows[1..][j].Some?
        {
          assert rows[1..][j] == rows[j + 1];
        }
      }
      DelColShape(rows[1..], col);
      forall j | 1 <= j < |rows|
        ensures col < |rows[j].value| && DelCol(rows, col).value[j] == Some(rows[j].value[..col] + rows[j].value[col + 1..])
      {
        assert rows[1..][j - 1] == rows[j];
      }
    }
  }

  lemma {:induction false} DelColError(rows: Rows, col: nat)
    requires AllRows(rows) && DelCol(rows, col).Failure?
    ensures DelCol(rows, col).error == "IndexError: list assignment index out of range"
  {
    if |rows| > 0 && col < |rows[0].value| {
      assert AllRows(rows[1..]) by {
        forall j | 0 <= j < |rows[1..]|
          ensures rows[1..][j].Some?
        {
          assert rows[1..][j] == rows[j + 1];
        }
      }
      DelColError(rows[1..], col);
    }
  }

  /** (x3, y3) has been looked at when the scan is at (n, m). */
  predicate ScannedPos(x3: nat, y3: nat, n: nat, m: nat)
  {
    x3 < n || (x3 == n && y3 < m)
  }

  /** The scan state of `placeCollision` at (n, m): (cx, cy) with cost
      `cost` is the first cheapest free cell looked at so far. */
  ghost predicate Scanned(rows: Rows, x: nat, y: nat, limitX: nat, limitY: nat, n: nat, m: nat, cx: nat, cy: nat, cost: int)
  {
    cx <= limitX && cy <= limitY && CellAt(rows, cx, cy).None? && cost == Cost(x, y, cx, cy, limitX, limitY) &&
    ScannedPos(cx, cy, n, m) &&
    forall x3: nat, y3: nat :: x3 <= limitX && y3 <= limitY && ScannedPos(x3, y3, n, m) && CellAt(rows, x3, y3).None? ==>
      cost <= Cost(x, y, x3, y3, limitX, limitY) && (Before(x3, y3, cx, cy) ==> cost < Cost(x, y, x3, y3, limitX, limitY))
  }
}
