/** When each Layer-1 check passes and when it fails, for all bronze rows and for a
    written workpaper in which one cell was overwritten. */
module CheckVerdicts {
  import opened Text
  import opened Decimals
  import opened Evidence
  import opened Corpus
  import opened Workpaper
  import opened AttributeChecks
  import Dc2
  import Dc9

  /** x and y are at most one apart. */
  predicate WithinOne(x: real, y: real) { y - 1.0 <= x <= y + 1.0 }

  // ---- for all rows -------------------------------------------------------

  /** A sign-off passes if and only if its cell is there and has an em dash. */
  lemma SignoffIff(rows: seq<BronzeRow>, sheet: string, index: nat)
    ensures var cell, s := ReadCell(rows, sheet, index, 1), CheckSignoff(rows, sheet, index).status;
            && (s == Passed <==> cell.Some? && '—' in cell.value)
            && (s == Failed <==> cell.None? || '—' !in cell.value)
  {
    hide ReadCell;
    var cell := ReadCell(rows, sheet, index, 1);
    if cell.Some? { DashContained(cell.value); }
  }

  lemma DashContained(s: string)
    ensures Contains(s, "—") <==> '—' in s
  {
    if '—' in s {
      var i :| 0 <= i < |s| && s[i] == '—';
      assert s[i..i + 1] == "—";
      assert OccursAt("—", s, i);
    }
    if Contains(s, "—") {
      var i :| 0 <= i <= |s| && OccursAt("—", s, i);
      assert s[i..i + 1][0] == s[i];
    }
  }

  /** Which check an attribute is: A and B of DC-9 read the sign-offs of rows 4 and 5, D of DC-2 that of row 17. */
  lemma DispatchTable(rows: seq<BronzeRow>)
    ensures CheckAttribute(DC2, A, rows) == Some(CheckDc2A(rows))
    ensures CheckAttribute(DC2, B, rows) == Some(CheckDc2B(rows))
    ensures CheckAttribute(DC2, C, rows) == Some(CheckDc2C(rows))
    ensures CheckAttribute(DC2, D, rows) == Some(CheckSignoff(rows, "DC-2 Variance", 17))
    ensures CheckAttribute(DC9, A, rows) == Some(CheckSignoff(rows, "DC-9 Billing", 4))
    ensures CheckAttribute(DC9, B, rows) == Some(CheckSignoff(rows, "DC-9 Billing", 5))
    ensures CheckAttribute(DC9, C, rows) == Some(CheckDc9C(rows))
    ensures CheckAttribute(DC9, D, rows) == Some(CheckDc9D(rows))
    ensures CheckAttribute(DC9, E, rows) == Some(CheckDc9E(rows))
    ensures CheckAttribute(DC9, F, rows) == Some(CheckDc9F(rows))
  {
    hide CheckDc2A, CheckDc2B, CheckDc2C, CheckSignoff, CheckDc9C, CheckDc9D, CheckDc9E, CheckDc9F;
  }

  /** DC-2.A passes if and only if both totals parse, they are at most one apart and the tie flag says Yes. */
  lemma TieOutIff(rows: seq<BronzeRow>)
    ensures var feed := ParseCurrency(ReadCell(rows, DC2_SHEET, 6, 1));
            var book := ParseCurrency(ReadCell(rows, DC2_SHEET, 7, 1));
            var flag := OrEmpty(ReadCell(rows, DC2_SHEET, 7, 2));
            var ok := feed.Some? && book.Some? && WithinOne(feed.value, book.value) && IsSlice("Yes", flag);
            CheckDc2A(rows).status == if ok then Passed else Failed
  {
    hide ReadCell, ParseCurrency, IsSlice, Contains;
    ContainsIsSlice(OrEmpty(ReadCell(rows, DC2_SHEET, 7, 2)), "Yes");
  }

  /** DC-9.C passes if and only if asset, rate and fee parse and the fee is at most one away from asset times rate. */
  lemma BillingIff(rows: seq<BronzeRow>)
    ensures var asset := ParseCurrency(ReadCell(rows, DC9_SHEET, 8, 1));
            var rate := ParsePercent(ReadCell(rows, DC9_SHEET, 9, 1));
            var fee := ParseCurrency(ReadCell(rows, DC9_SHEET, 10, 1));
            var ok := asset.Some? && rate.Some? && fee.Some? && WithinOne(fee.value, asset.value * rate.value);
            CheckDc9C(rows).status == if ok then Passed else Failed
  {
    hide ReadCell, ParseCurrency, ParsePercent;
  }

  /** DC-9.E passes if and only if the four balances parse and the closing one is at most one away from opening plus
      additions less retirements. */
  lemma RollForwardIff(rows: seq<BronzeRow>)
    ensures var opening := ParseCurrency(ReadCell(rows, DC9_SHEET, 19, 1));
            var additions := ParseCurrency(ReadCell(rows, DC9_SHEET, 20, 1));
            var retirements := ParseCurrency(ReadCell(rows, DC9_SHEET, 21, 1));
            var closing := ParseCurrency(ReadCell(rows, DC9_SHEET, 22, 1));
            var ok := opening.Some? && additions.Some? && retirements.Some? && closing.Some?
                      && WithinOne(closing.value, opening.value + additions.value - retirements.value);
            CheckDc9E(rows).status == if ok then Passed else Failed
  {
    hide ReadCell, ParseCurrency;
  }

  /** DC-2.B and C, cell by cell: every row from 10 to 14 marked Yes must be explained, and every explained one of them
      must be tied. */
  lemma VarianceIff(rows: seq<BronzeRow>)
    ensures CheckDc2B(rows).status
         == if forall i | 10 <= i < 15 :: Says(rows, i, 5, "Yes") ==> !Says(rows, i, 6, "") then Passed else Failed
    ensures CheckDc2C(rows).status
         == if forall i | 10 <= i < 15 :: Says(rows, i, 5, "Yes") && !Says(rows, i, 6, "") ==> Says(rows, i, 7, "Yes")
            then Passed else Failed
  {
    hide AboveAt, ExplainedAt, TiedAt, Says, AboveRows, Unexplained, Untied;
    VarianceChecks(rows);
    forall i: nat | 10 <= i < 15
      ensures AboveAt(rows, i) <==> Says(rows, i, 5, "Yes")
      ensures ExplainedAt(rows, i) <==> !Says(rows, i, 6, "")
      ensures TiedAt(rows, i) <==> Says(rows, i, 7, "Yes")
    {
      RowSays(rows, i);
    }
  }

  lemma RowSays(rows: seq<BronzeRow>, i: nat)
    ensures AboveAt(rows, i) <==> Says(rows, i, 5, "Yes")
    ensures ExplainedAt(rows, i) <==> !Says(rows, i, 6, "")
    ensures TiedAt(rows, i) <==> Says(rows, i, 7, "Yes")
  {
    assert Strip("") == "";
    hide Strip, FindRow, ColumnKey;
  }

  /** The cell of the DC-2 sheet, without surrounding spaces and with nothing for a missing one, is t. */
  predicate Says(rows: seq<BronzeRow>, row: nat, column: nat, t: string) {
    var cell := ReadCell(rows, "DC-2 Variance", row, column);
    Strip(if cell.Some? then cell.value else "") == t
  }

  /** DC-9.D is not applicable if and only if the prior cell says so; otherwise it passes if and only if both rates
      parse and either differ by less than 1e-9 or come with a reference that is not empty, does not begin with N/A
      and does not say that no amendment was filed. */
  lemma RateChangeIff(rows: seq<BronzeRow>)
    ensures var cell := ReadCell(rows, DC9_SHEET, 13, 1);
            var before := if cell.Some? then cell.value else "";
            var text := ReadCell(rows, DC9_SHEET, 16, 1);
            var reference := Strip(if text.Some? then text.value else "");
            var prior, current := ParsePercent(Some(before)), ParsePercent(ReadCell(rows, DC9_SHEET, 14, 1));
            var same := prior.Some? && current.Some? && -0.000000001 < prior.value - current.value < 0.000000001;
            var backed := && reference != "" && !IsSlice("NO AMENDMENT FILED", Upper(reference))
                          && !("N/A" <= reference);
            CheckDc9D(rows).status
            == if IsSlice("N/A", before) || IsSlice("no prior", Lower(before)) then NotApplicable
               else if prior.Some? && current.Some? && (same || backed) then Passed else Failed
  {
    hide ReadCell, PercentDec, IsSlice, Contains, Strip;
    var cell := ReadCell(rows, DC9_SHEET, 13, 1);
    var before := if cell.Some? then cell.value else "";
    var text := ReadCell(rows, DC9_SHEET, 16, 1);
    ContainsIsSlice(before, "N/A");
    ContainsIsSlice(Lower(before), "no prior");
    ContainsIsSlice(Upper(Strip(if text.Some? then text.value else "")), "NO AMENDMENT FILED");
  }

  // ---- what the parsers read ----------------------------------------------

  lemma {:induction false} DropMarksConcat(a: string, b: string)
    ensures DropMarks(a + b) == DropMarks(a) + DropMarks(b)
  {
    if a == "" {
      assert a + b == b;
    } else {
      assert (a + b)[1..] == a[1..] + b;
      DropMarksConcat(a[1..], b);
    }
  }

  /** Commas, dollar signs and spaces do not matter, wherever they stand: "$18,665,242" reads like "18665242". */
  lemma CurrencyIgnoresMarks(a: string, mark: char, b: string)
    requires mark == ',' || mark == '$' || mark == ' '
    ensures ParseCurrency(Some(a + [mark] + b)) == ParseCurrency(Some(a + b))
  {
    hide ParseFloat, Strip;
    DropOneMark(mark);
    hide DropMarks;
    DropMarksConcat(a, [mark] + b);
    DropMarksConcat([mark], b);
    DropMarksConcat(a, b);
    assert a + [mark] + b == a + ([mark] + b);
    assert DropMarks(a) + ("" + DropMarks(b)) == DropMarks(a) + DropMarks(b);
  }

  lemma DropOneMark(mark: char)
    requires mark == ',' || mark == '$' || mark == ' '
    ensures DropMarks([mark]) == ""
  {
    assert [mark][1..] == "" && DropMarks([mark]) == "" + DropMarks("");
  }

  /** Other characters do, and a missing cell has no amount. */
  lemma CurrencyOfPlain(s: string)
    requires ',' !in s && '$' !in s && ' ' !in s
    ensures ParseCurrency(Some(s)) == ParseFloat(Strip(s)) && ParseCurrency(None) == None
  {
    NothingToDrop(s);
  }

  /** A percentage is a number in front of a trailing percent sign, without N/A, divided by a hundred. */
  lemma PercentIff(v: string)
    ensures ParsePercent(None) == None
    ensures var s := Strip(v);
            var number := if s != "" then ParseFloat(Strip(s[..|s| - 1])) else None;
            var ok := s != "" && s[|s| - 1] == '%' && !IsSlice("N/A", s) && !IsSlice("n/a", s) && number.Some?;
            ParsePercent(Some(v)) == if ok then Some(number.value / 100.0) else None
  {
    hide Strip, IsSlice, Contains, ParseDec;
    var s := Strip(v);
    ContainsIsSlice(s, "N/A");
    ContainsIsSlice(s, "n/a");
    if s != "" && ParseSigned(Strip(s[..|s| - 1])).Some? {
      HundredVals(ParseSigned(Strip(s[..|s| - 1])).value.magnitude);
    }
  }

  /** Every check that does not pass says why, and one that passes has nothing to say. */
  lemma NotesIff(c: Control, a: Attribute, rows: seq<BronzeRow>)
    requires a in AttributesOf(c)
    ensures var check := CheckAttribute(c, a, rows);
            check.Some? && NotedIffNotPassed(check.value)
  {
    hide CheckDc2A, CheckDc2B, CheckDc2C, CheckSignoff, CheckDc9C, CheckDc9D, CheckDc9E, CheckDc9F, CheckAttribute;
    DispatchTable(rows);
    NotesOfTotals(rows);
    NotesOfRows(rows);
    NotesOfRateChange(rows);
    NotesOfSignoff(rows, DC2_SHEET, 17);
    NotesOfSignoff(rows, DC9_SHEET, 4);
    NotesOfSignoff(rows, DC9_SHEET, 5);
  }

  predicate NotedIffNotPassed(check: Check) { check.notes.Some? <==> check.status != Passed }

  lemma NotesOfTotals(rows: seq<BronzeRow>)
    ensures NotedIffNotPassed(CheckDc2A(rows)) && NotedIffNotPassed(CheckDc9C(rows))
    ensures NotedIffNotPassed(CheckDc9E(rows))
  {
    hide ReadCell, ParseCurrency, ParsePercent, Contains, Abs;
  }

  lemma NotesOfRows(rows: seq<BronzeRow>)
    ensures NotedIffNotPassed(CheckDc2B(rows)) && NotedIffNotPassed(CheckDc2C(rows))
    ensures NotedIffNotPassed(CheckDc9F(rows))
  {
    hide AboveRows, Unexplained, Untied, SumPcts, LpRows, Abs;
  }

  lemma NotesOfRateChange(rows: seq<BronzeRow>)
    ensures NotedIffNotPassed(CheckDc9D(rows))
  {
    hide ReadCell, PercentDec, Contains, NoAmendment, Strip, Abs;
  }

  lemma NotesOfSignoff(rows: seq<BronzeRow>, sheet: string, index: nat)
    ensures NotedIffNotPassed(CheckSignoff(rows, sheet, index))
  {
    hide ReadCell, Contains;
  }

  // ---- ownership ----------------------------------------------------------

  function Sum(xs: seq<real>): real { if xs == [] then 0.0 else xs[0] + Sum(xs[1..]) }

  lemma {:induction false} SumSnoc(xs: seq<real>, x: real)
    ensures Sum(xs + [x]) == Sum(xs) + x
  {
    if xs == [] {
      assert [] + [x] == [x];
      assert Sum([x]) == x + Sum([]);
    } else {
      SumSnoc(xs[1..], x);
      assert (xs + [x])[1..] == xs[1..] + [x];
    }
  }

  lemma {:induction false} SumPctsIs(lps: seq<BronzeRow>, n: nat, xs: seq<real>)
    requires n <= |lps| == |xs| && forall k | 0 <= k < |lps| :: EffectivePct(lps[k]) == Some(xs[k])
    ensures SumPcts(lps, n) == Some(Sum(xs[..n]))
  {
    hide EffectivePct;
    if n > 0 {
      SumPctsIs(lps, n - 1, xs);
      SumSnoc(xs[..n - 1], xs[n - 1]);
      assert xs[..n] == xs[..n - 1] + [xs[n - 1]];
    }
  }

  lemma {:induction false} UnparseableShare(lps: seq<BronzeRow>, n: nat, k: nat)
    requires k < n <= |lps| && EffectivePct(lps[k]).None?
    ensures SumPcts(lps, n) == None
  {
    hide EffectivePct;
    if k < n - 1 { UnparseableShare(lps, n - 1, k); }
  }

  /** The partner rows are the rows of the sheet from 26 on that have a name, in order. */
  lemma {:induction false} LpRowsAre(rows: seq<BronzeRow>, r: BronzeRow)
    ensures r in LpRows(rows) <==>
              && r in rows && r.sheet == "DC-9 Billing" && r.rowIndex >= 26
              && Strip(OrEmpty(Get(r.raw, "col_00"))) != ""
  {
    ColumnKeys();
    hide Strip, ColumnKey;
    if rows != [] {
      LpRowsAre(rows[..|rows| - 1], r);
      assert rows == rows[..|rows| - 1] + [rows[|rows| - 1]];
    }
  }

  /** The share of a partner row. */
  function Share(r: BronzeRow): Option<real> { ParseCurrency(Get(r.raw, "col_02")) }

  /** DC-9.F passes if and only if every partner row has a share that parses and the shares sum to 100 up to 0.01. */
  lemma OwnershipIff(rows: seq<BronzeRow>, xs: seq<real>)
    requires |xs| == |LpRows(rows)|
    requires forall k | 0 <= k < |xs| && Share(LpRows(rows)[k]).Some? ::
               Share(LpRows(rows)[k]).value == xs[k]
    ensures var ok := && (forall k | 0 <= k < |xs| :: Share(LpRows(rows)[k]).Some?)
                      && 99.99 <= Sum(xs) <= 100.01;
            CheckDc9F(rows).status == if ok then Passed else Failed
  {
    ColumnKeys();
    assert forall r: BronzeRow :: EffectivePct(r) == Share(r);
    hide EffectivePct, LpRows, Share;
    var lps := LpRows(rows);
    if k :| 0 <= k < |lps| && EffectivePct(lps[k]).None? {
      UnparseableShare(lps, |lps|, k);
    } else {
      SumPctsIs(lps, |lps|, xs);
      assert xs[..|lps|] == xs;
    }
  }

  // ---- a cell that was overwritten ----------------------------------------

  /** The layout with one cell replaced. */
  function Overwrite(layout: nat -> seq<Cell>, row: nat, index: nat, c: Cell): (f: nat -> seq<Cell>)
    ensures forall r: nat ::
              f(r) == if r == row && index < |layout(r)| then layout(r)[index := c] else layout(r)
  {
    (r: nat) => if r == row && index < |layout(r)| then layout(r)[index := c] else layout(r)
  }

  /** Setting one cell of a finished sheet leaves the layout with that cell replaced. */
  lemma SetCellOverwrites(cells: Cells, layout: nat -> seq<Cell>, n: nat, row: nat, index: nat, c: Cell)
    requires Holds(cells, layout, n) && 1 <= row < n && index < |layout(row)|
    ensures Holds(cells[(row, index + 1) := c], Overwrite(layout, row, index, c), n)
  {
    var after := cells[(row, index + 1) := c];
    var f := Overwrite(layout, row, index, c);
    forall r: nat, k: nat ensures CellAt(after, r, k) == if 1 <= r < n then InRow(f(r), k) else None {
      assert CellAt(cells, r, k) == if 1 <= r < n then InRow(layout(r), k) else None;
    }
  }

  /** C fails on an overwritten fee if and only if it is more than one away from asset times rate, on either side. */
  lemma OverwrittenFee(d: Dc9.Spec, g: int, rows: seq<BronzeRow>, cells: Cells)
    requires Dc9.Admissible(d) && IngestedFrom(rows, DC9_SHEET, cells, Overwrite(Dc9.Sheet(d), 10, 1, Int(g)), 28)
    ensures var due := d.asset as real * RateValue(d.quarter);
            && (CheckDc9C(rows).status == Failed <==> g as real < due - 1.0 || g as real > due + 1.0)
            && (CheckDc9C(rows).status == Passed <==> due - 1.0 <= g as real <= due + 1.0)
  {
    hide IngestedFrom, ReadCell, ParseCurrency, ParsePercent, IntText, RateValue, CheckDc9C;
    var f := Overwrite(Dc9.Sheet(d), 10, 1, Int(g));
    ReadsBack(rows, DC9_SHEET, cells, f, 28, 8, 1);
    ReadsBack(rows, DC9_SHEET, cells, f, 28, 9, 1);
    ReadsBack(rows, DC9_SHEET, cells, f, 28, 10, 1);
    CurrencyOfInt(d.asset);
    CurrencyOfInt(g);
    Dc9.RateReads(d.quarter);
    BillingIff(rows);
  }

  /** E fails on an overwritten closing balance if and only if it is more than one away from the asset value. */
  lemma OverwrittenClosing(d: Dc9.Spec, g: int, rows: seq<BronzeRow>, cells: Cells)
    requires Dc9.Admissible(d) && IngestedFrom(rows, DC9_SHEET, cells, Overwrite(Dc9.Sheet(d), 22, 1, Int(g)), 28)
    ensures CheckDc9E(rows).status == Failed <==> g < d.asset - 1 || g > d.asset + 1
    ensures CheckDc9E(rows).status == Passed <==> d.asset - 1 <= g <= d.asset + 1
  {
    hide IngestedFrom, ReadCell, ParseCurrency, IntText, CheckDc9E;
    var f := Overwrite(Dc9.Sheet(d), 22, 1, Int(g));
    ReadsBack(rows, DC9_SHEET, cells, f, 28, 19, 1);
    ReadsBack(rows, DC9_SHEET, cells, f, 28, 20, 1);
    ReadsBack(rows, DC9_SHEET, cells, f, 28, 21, 1);
    ReadsBack(rows, DC9_SHEET, cells, f, 28, 22, 1);
    CurrencyOfInt(d.opening);
    CurrencyOfInt(d.additions);
    CurrencyOfInt(Dc9.Retirements(d));
    CurrencyOfInt(g);
    RollForwardIff(rows);
  }

  /** F fails on an overwritten share if and only if it is not the share that was there. */
  lemma OverwrittenShare(d: Dc9.Spec, k: nat, g: int, rows: seq<BronzeRow>, cells: Cells)
    requires Dc9.Admissible(d) && k < 3
    requires IngestedFrom(rows, DC9_SHEET, cells, Overwrite(Dc9.Sheet(d), 26 + k, 2, Int(g)), 28)
    ensures CheckDc9F(rows).status == if g == [40, 30, 30][k] then Passed else Failed
  {
    hide IngestedFrom, CheckDc9F;
    Dc9.OwnershipOf(Overwrite(Dc9.Sheet(d), 26 + k, 2, Int(g)), [40, 30, 30][k := g], rows, cells);
  }

  /** A and B fail on an overwritten sign-off if and only if the new text has no em dash. */
  lemma OverwrittenSignoff(d: Dc9.Spec, row: nat, t: string, rows: seq<BronzeRow>, cells: Cells)
    requires Dc9.Admissible(d) && row in {4, 5}
    requires IngestedFrom(rows, DC9_SHEET, cells, Overwrite(Dc9.Sheet(d), row, 1, Str(t)), 28)
    ensures CheckSignoff(rows, DC9_SHEET, row).status == if '—' in t then Passed else Failed
  {
    hide IngestedFrom, ReadCell, CheckSignoff;
    ReadsBack(rows, DC9_SHEET, cells, Overwrite(Dc9.Sheet(d), row, 1, Str(t)), 28, row, 1);
    SignoffIff(rows, DC9_SHEET, row);
  }

  /** The reviewer cell of a DC-2 sheet likewise. */
  lemma OverwrittenReviewer(d: Dc2.Spec, t: string, rows: seq<BronzeRow>, cells: Cells)
    requires Dc2.Admissible(d)
    requires IngestedFrom(rows, DC2_SHEET, cells, Overwrite(Dc2.Sheet(d), 17, 1, Str(t)), 19)
    ensures CheckSignoff(rows, DC2_SHEET, 17).status == if '—' in t then Passed else Failed
  {
    hide IngestedFrom, ReadCell, CheckSignoff;
    ReadsBack(rows, DC2_SHEET, cells, Overwrite(Dc2.Sheet(d), 17, 1, Str(t)), 19, 17, 1);
    SignoffIff(rows, DC2_SHEET, 17);
  }

  /** Unless the boundary defect is planted, DC-2.A fails on an overwritten feed total if and only if it is more than
      one away from the workbook total, on either side. */
  lemma OverwrittenFeed(d: Dc2.Spec, g: int, rows: seq<BronzeRow>, cells: Cells)
    requires Dc2.Admissible(d) && IngestedFrom(rows, DC2_SHEET, cells, Overwrite(Dc2.Sheet(d), 6, 1, Int(g)), 19)
    ensures var book := Dc2.Total(d.streams, 5);
            CheckDc2A(rows).status
            == if d.defect != VarianceBoundary && book - 1 <= g <= book + 1 then Passed else Failed
  {
    hide IngestedFrom, ReadCell, ParseCurrency, IntText, CheckDc2A, Dc2.Total, IsSlice;
    var f := Overwrite(Dc2.Sheet(d), 6, 1, Int(g));
    ReadsBack(rows, DC2_SHEET, cells, f, 19, 6, 1);
    ReadsBack(rows, DC2_SHEET, cells, f, 19, 7, 1);
    ReadsBack(rows, DC2_SHEET, cells, f, 19, 7, 2);
    CurrencyOfInt(g);
    CurrencyOfInt(Dc2.Total(d.streams, 5));
    FlagSays();
    assert "Ties to feed: " + "Yes" == "Ties to feed: Yes" && "Ties to feed: " + "No" == "Ties to feed: No";
    TieOutIff(rows);
  }

  lemma FlagSays()
    ensures IsSlice("Yes", "Ties to feed: Yes") && !IsSlice("Yes", "Ties to feed: No")
  {
    assert "Ties to feed: Yes"[14..17] == "Yes";
    FirstCharAbsent("Ties to feed: No", "Yes");
    ContainsIsSlice("Ties to feed: No", "Yes");
  }
}
