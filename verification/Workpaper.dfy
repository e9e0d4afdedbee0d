/** A worksheet written cell by cell, and the bronze rows it is ingested as:
    one `col_NN` map of printed cell values per non-empty row. */
module Workpaper {
  import opened Text
  import opened Decimals

  /** `Float` carries what `str()` prints for it; no check reads such a cell. */
  datatype Cell = Str(s: string) | Int(i: int) | Float(printed: string)

  function CellText(c: Cell): string {
    match c case Str(s) => s case Int(i) => IntText(i) case Float(p) => p
  }

  type Cells = map<(nat, nat), Cell>

  function CellAt(cells: Cells, row: nat, col: nat): Option<Cell> {
    if (row, col) in cells then Some(cells[(row, col)]) else None
  }

  /** A row given from column 1 on. */
  function InRow(values: seq<Cell>, col: nat): Option<Cell> {
    if 1 <= col <= |values| then Some(values[col - 1]) else None
  }

  /** Rows 1 to n-1 hold exactly the given values, and nothing else is written. */
  ghost predicate Holds(cells: Cells, layout: nat -> seq<Cell>, n: nat) {
    && forall r: nat, c: nat :: CellAt(cells, r, c) == if 1 <= r < n then InRow(layout(r), c) else None
  }

  class Worksheet {
    const title: string
    var cells: Cells

    constructor (title: string)
      ensures this.title == title && cells == map[]
    {
      this.title := title;
      cells := map[];
    }

    method SetCell(row: nat, column: nat, value: Cell)
      modifies this`cells
      ensures cells == old(cells)[(row, column) := value]
      ensures forall r: nat, c: nat ::
                CellAt(cells, r, c) == if (r, c) == (row, column) then Some(value) else CellAt(old(cells), r, c)
    {
      cells := cells[(row, column) := value];
    }

    /** Write one row from column 1 on. */
    method SetRow(row: nat, values: seq<Cell>)
      requires forall c: nat :: CellAt(cells, row, c) == None
      modifies this`cells
      ensures forall r: nat, c: nat ::
                CellAt(cells, r, c) == if r == row then InRow(values, c) else CellAt(old(cells), r, c)
    {
      for k := 0 to |values|
        invariant forall r: nat, c: nat ::
                    CellAt(cells, r, c)
                    == if r == row && 1 <= c <= k then Some(values[c - 1]) else CellAt(old(cells), r, c)
      {
        ghost var before := cells;
        SetCell(row, k + 1, values[k]);
        assert forall r: nat, c: nat {:trigger CellAt(cells, r, c)} ::
            CellAt(cells, r, c) == if r == row && c == k + 1 then Some(values[k]) else CellAt(before, r, c);
      }
    }

    /** Write the next row of a layout; the rows skipped since `from` are empty in it. */
    method AppendRow(row: nat, values: seq<Cell>, ghost layout: nat -> seq<Cell>, ghost from: nat)
      requires 1 <= from <= row && Holds(cells, layout, from) && values == layout(row)
      requires forall r | from <= r < row :: layout(r) == []
      modifies this`cells
      ensures Holds(cells, layout, row + 1)
    {
      SetRow(row, values);
    }
  }

  // ---- saving and loading -------------------------------------------------

  /** What a reader sees: a cell holding the empty string may or may not survive the file. */
  function Loaded(cells: Cells, row: nat, col: nat, keepBlank: bool): Option<Cell> {
    var c := CellAt(cells, row, col);
    if c == Some(Str("")) && !keepBlank then None else c
  }

  /** The printed value of a column, 0-based as in the `col_NN` keys. */
  function Shown(cells: Cells, row: nat, index: nat, keepBlank: bool): Option<string> {
    match Loaded(cells, row, index + 1, keepBlank)
    case None => None
    case Some(c) => Some(CellText(c))
  }

  // ---- bronze rows --------------------------------------------------------

  /** `f"col_{i:02d}"`. */
  function ColumnKey(i: nat): string { "col_" + if i < 100 then Padded(i, 2) else NatText(i) }

  lemma ColumnKeyInjective(i: nat, j: nat)
    ensures ColumnKey(i) == ColumnKey(j) <==> i == j
  {
    ColumnKeyNumber(i);
    ColumnKeyNumber(j);
  }

  lemma ColumnKeyNumber(i: nat)
    ensures var t := ColumnKey(i)[4..]; AllDigits(t) && ParseNat(t) == i
  {
    if i < 100 {
      assert Shr(i, 2) == Shr(i / 10, 1) == Shr(i / 10 / 10, 0);
      PaddedRoundTrip(i, 2);
      assert ColumnKey(i)[4..] == Padded(i, 2);
    } else {
      NatRoundTrip(i);
      assert ColumnKey(i)[4..] == NatText(i);
    }
  }

  /** The keys have two digits up to column 99 and as many as they need from there on. */
  lemma ColumnKeyText(i: nat, j: nat)
    requires i < 10 && j < 10
    ensures ColumnKey(10 * i + j) == "col_" + [DigitChar(i), DigitChar(j)]
    ensures i > 0 ==> ColumnKey(100 * i + j) == "col_" + [DigitChar(i), '0', DigitChar(j)]
  {
    hide ColumnKey;
    ShortKey(10 * i + j);
    TwoDigits(i, j);
    if i > 0 {
      LongKey(100 * i + j);
      ThreeDigits(i, j);
    }
  }

  lemma ShortKey(i: nat)
    requires i < 100
    ensures ColumnKey(i) == "col_" + Padded(i, 2)
  {
  }

  lemma LongKey(i: nat)
    requires i >= 100
    ensures ColumnKey(i) == "col_" + NatText(i)
  {
  }

  lemma TwoDigits(i: nat, j: nat)
    requires i < 10 && j < 10
    ensures Padded(10 * i + j, 2) == [DigitChar(i), DigitChar(j)]
  {
    hide Padded;
    assert (10 * i + j) / 10 == i && (10 * i + j) % 10 == j;
    PaddedUnfolds(10 * i + j, 2);
    PaddedUnfolds(i, 1);
  }

  lemma PaddedUnfolds(n: nat, k: nat)
    requires k > 0
    ensures Padded(n, k) == Padded(n / 10, k - 1) + [DigitChar(n % 10)]
  {
  }

  lemma NatTextUnfolds(n: nat)
    ensures NatText(n) == if n < 10 then [DigitChar(n)] else NatText(n / 10) + [DigitChar(n % 10)]
  {
  }

  lemma ThreeDigits(i: nat, j: nat)
    requires 0 < i < 10 && j < 10
    ensures NatText(100 * i + j) == [DigitChar(i), '0', DigitChar(j)]
  {
    hide NatText;
    var n := 100 * i + j;
    assert n / 10 == 10 * i && n % 10 == j && 10 * i / 10 == i && 10 * i % 10 == 0;
    NatTextUnfolds(n);
    NatTextUnfolds(10 * i);
    NatTextUnfolds(i);
  }

  /** The keys of the columns the checks read. */
  lemma ColumnKeys()
    ensures ColumnKey(0) == "col_00" && ColumnKey(1) == "col_01" && ColumnKey(2) == "col_02"
    ensures ColumnKey(5) == "col_05" && ColumnKey(6) == "col_06" && ColumnKey(7) == "col_07"
  {
    hide ColumnKey;
    ColumnKeyText(0, 0);
    ColumnKeyText(0, 1);
    ColumnKeyText(0, 2);
    ColumnKeyText(0, 5);
    ColumnKeyText(0, 6);
    ColumnKeyText(0, 7);
  }

  type RawData = map<string, string>

  function Get(raw: RawData, key: string): Option<string> { if key in raw then Some(raw[key]) else None }

  /** The map of a row's first n columns. */
  function RawPrefix(cells: Cells, row: nat, n: nat, keepBlank: bool): RawData {
    if n == 0 then map[]
    else
      match Shown(cells, row, n - 1, keepBlank)
      case None => RawPrefix(cells, row, n - 1, keepBlank)
      case Some(s) => RawPrefix(cells, row, n - 1, keepBlank)[ColumnKey(n - 1) := s]
  }

  /** `_row_to_raw_data`: empty cells are omitted. */
  method RowToRawData(cells: Cells, row: nat, width: nat, keepBlank: bool) returns (out: RawData)
    ensures out == RawPrefix(cells, row, width, keepBlank)
  {
    hide ColumnKey;
    out := map[];
    for i := 0 to width
      invariant out == RawPrefix(cells, row, i, keepBlank)
    {
      var value := Loaded(cells, row, i + 1, keepBlank);
      if value == None { continue; }
      out := out[ColumnKey(i) := CellText(value.value)];
    }
  }

  lemma {:induction false} RawLookup(cells: Cells, row: nat, n: nat, keepBlank: bool, i: nat)
    ensures Get(RawPrefix(cells, row, n, keepBlank), ColumnKey(i))
         == if i < n then Shown(cells, row, i, keepBlank) else None
  {
    hide ColumnKey;
    hide Shown;
    if n > 0 {
      RawLookup(cells, row, n - 1, keepBlank, i);
      ColumnKeyInjective(i, n - 1);
    }
  }

  datatype BronzeRow = BronzeRow(sheet: string, rowIndex: nat, raw: RawData)

  /** The rows 1 to n of a sheet, skipping those without a value. */
  function BronzeRows(sheet: string, cells: Cells, n: nat, width: nat, keepBlank: bool): seq<BronzeRow> {
    if n == 0 then []
    else
      var raw := RawPrefix(cells, n, width, keepBlank);
      BronzeRows(sheet, cells, n - 1, width, keepBlank) + if raw == map[] then [] else [BronzeRow(sheet, n, raw)]
  }

  /** `extract_workpaper_rows` of one sheet. */
  method ExtractRows(sheet: string, cells: Cells, maxRow: nat, width: nat, keepBlank: bool)
    returns (rows: seq<BronzeRow>)
    ensures rows == BronzeRows(sheet, cells, maxRow, width, keepBlank)
  {
    hide RawPrefix;
    rows := [];
    for r := 0 to maxRow
      invariant rows == BronzeRows(sheet, cells, r, width, keepBlank)
    {
      var raw := RowToRawData(cells, r + 1, width, keepBlank);
      if raw == map[] { continue; }
      rows := rows + [BronzeRow(sheet, r + 1, raw)];
    }
  }

  // ---- reading a cell back ------------------------------------------------

  /** `_find_row`: the first row of that sheet and index. */
  function FindRow(rows: seq<BronzeRow>, sheet: string, index: nat): Option<BronzeRow> {
    if rows == [] then None
    else if rows[0].sheet == sheet && rows[0].rowIndex == index then Some(rows[0])
    else FindRow(rows[1..], sheet, index)
  }

  function OrEmpty(s: Option<string>): string { match s case None => "" case Some(t) => t }

  /** `_cell`. */
  function CellOf(row: Option<BronzeRow>, key: string): Option<string> {
    match row case None => None case Some(r) => Get(r.raw, key)
  }

  function ReadCell(rows: seq<BronzeRow>, sheet: string, index: nat, column: nat): Option<string> {
    CellOf(FindRow(rows, sheet, index), ColumnKey(column))
  }

  lemma {:induction false} FindInAppend(a: seq<BronzeRow>, b: seq<BronzeRow>, sheet: string, index: nat)
    ensures FindRow(a + b, sheet, index)
         == if FindRow(a, sheet, index).Some? then FindRow(a, sheet, index) else FindRow(b, sheet, index)
  {
    if a == [] {
      assert a + b == b;
    } else {
      assert (a + b)[1..] == a[1..] + b;
      FindInAppend(a[1..], b, sheet, index);
    }
  }

  lemma {:induction false} FindBronze(sheet: string, cells: Cells, n: nat, width: nat, keepBlank: bool, r: nat)
    requires r >= 1
    ensures FindRow(BronzeRows(sheet, cells, n, width, keepBlank), sheet, r)
         == var raw := RawPrefix(cells, r, width, keepBlank);
            if r <= n && raw != map[] then Some(BronzeRow(sheet, r, raw)) else None
  {
    hide RawPrefix;
    if n > 0 {
      FindBronze(sheet, cells, n - 1, width, keepBlank, r);
      var raw := RawPrefix(cells, n, width, keepBlank);
      var last := if raw == map[] then [] else [BronzeRow(sheet, n, raw)];
      FindInAppend(BronzeRows(sheet, cells, n - 1, width, keepBlank), last, sheet, r);
    }
  }

  /** Ingest loses nothing the checks read: each cell comes back as its printed value. */
  lemma ReadBack(sheet: string, cells: Cells, n: nat, width: nat, keepBlank: bool, r: nat, column: nat)
    requires 1 <= r <= n && column < width
    ensures ReadCell(BronzeRows(sheet, cells, n, width, keepBlank), sheet, r, column)
         == Shown(cells, r, column, keepBlank)
  {
    hide RawPrefix;
    hide ColumnKey;
    FindBronze(sheet, cells, n, width, keepBlank, r);
    RawLookup(cells, r, width, keepBlank, column);
  }

  /** Every row fits in that many columns. */
  ghost predicate Covers(width: nat, layout: nat -> seq<Cell>, last: nat) {
    forall r: nat | r <= last :: |layout(r)| <= width
  }

  /** The rows Layer 1 gets from a sheet: any size that covers it, blank cells kept or lost. */
  ghost predicate IngestedFrom(rows: seq<BronzeRow>, sheet: string, cells: Cells, layout: nat -> seq<Cell>, last: nat) {
    exists maxRow: nat, width: nat, keepBlank: bool ::
      && maxRow >= last && Covers(width, layout, last) && Holds(cells, layout, last + 1)
      && rows == BronzeRows(sheet, cells, maxRow, width, keepBlank)
  }

  /** A non-blank cell is read back as written; a blank one as nothing or as the empty string. */
  lemma ReadsBack(rows: seq<BronzeRow>, sheet: string, cells: Cells, layout: nat -> seq<Cell>, last: nat,
                  r: nat, column: nat)
    requires IngestedFrom(rows, sheet, cells, layout, last) && 1 <= r <= last && column < |layout(r)|
    ensures var c := layout(r)[column];
            && (c != Str("") ==> ReadCell(rows, sheet, r, column) == Some(CellText(c)))
            && OrEmpty(ReadCell(rows, sheet, r, column)) == CellText(c)
  {
    hide BronzeRows;
    hide ReadCell;
    var maxRow: nat, width: nat, keepBlank: bool :|
      && maxRow >= last && Covers(width, layout, last) && Holds(cells, layout, last + 1)
      && rows == BronzeRows(sheet, cells, maxRow, width, keepBlank);
    ReadBack(sheet, cells, maxRow, width, keepBlank, r, column);
    assert CellAt(cells, r, column + 1) == InRow(layout(r), column + 1);
  }

  lemma FoundIfRead(rows: seq<BronzeRow>, sheet: string, r: nat, column: nat)
    requires ReadCell(rows, sheet, r, column).Some?
    ensures FindRow(rows, sheet, r).Some?
  {
  }

  lemma Trimmed(s: string)
    requires s != "" && !IsSpace(s[0]) && !IsSpace(s[|s| - 1])
    ensures Strip(s) == s && s != ""
  {
    StripTrimmed(s);
  }

  lemma EmptySheet(layout: nat -> seq<Cell>)
    ensures Holds(map[], layout, 1)
  {
  }
}
