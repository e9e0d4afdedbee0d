/** The DC-2 workpaper writer and its agreement with the Layer-1 checks and the gold answer. */
module Dc2 {
  import opened Text
  import opened Decimals
  import opened Evidence
  import opened Corpus
  import opened Workpaper
  import opened AttributeChecks
  import opened Signoffs
  import GoldAnswers

  const STREAM_NAMES := ["Management Fees", "Performance Fees", "Interest Income", "Dividend Income", "Other Income"]
  const THRESHOLD_PCT := 5.0

  /** One stream's draws: the prior amount and the relative drift. */
  datatype StreamDraw = StreamDraw(prior: int, drift: real)

  /** Everything random or given: any stream draws at all, the feed divergence, and the reviewer.
      `pctText` is what the file prints for the rounded percentage, a cell no check reads. */
  datatype Spec = Spec(entity: string, year: int, quarter: Quarter, defect: Defect, streams: seq<StreamDraw>,
                       divergence: int, reviewer: string, reviewDay: nat, pctText: seq<string>)

  predicate Admissible(d: Spec) {
    && |d.streams| == 5 && |d.pctText| == 5 && 1000 <= d.divergence <= 10000
    && d.reviewer in INITIALS_POOL && d.reviewDay <= SpanDays(d.quarter)
  }

  // ---- the computed table -------------------------------------------------

  function Current(s: StreamDraw): int { Truncate(s.prior as real * (1.0 + s.drift)) }

  function Variance(s: StreamDraw): int { Current(s) - s.prior }

  function PctVariance(s: StreamDraw): real {
    if s.prior != 0 then Variance(s) as real / s.prior as real * 100.0 else 0.0
  }

  predicate Above(s: StreamDraw) { Abs(PctVariance(s)) > THRESHOLD_PCT }

  function Total(streams: seq<StreamDraw>, n: nat): int
    requires n <= |streams|
  {
    if n == 0 then 0 else Total(streams, n - 1) + Current(streams[n - 1])
  }

  predicate AnyAbove(streams: seq<StreamDraw>, n: nat)
    requires n <= |streams|
  {
    exists k | 0 <= k < n :: Above(streams[k])
  }

  function UpstreamTotal(d: Spec): int {
    Total(d.streams, |d.streams|) + if d.defect == VarianceBoundary then d.divergence else 0
  }

  function ExplanationCells(d: Spec, k: nat, name: string): seq<Cell>
    requires k < |d.streams|
  {
    if !Above(d.streams[k]) then [Str("N/A — below threshold"), Str("N/A")]
    else if d.defect == VarianceNoExplanation && !AnyAbove(d.streams, k) then
      [Str(""), Str("No — no explanation provided")]
    else if d.defect == VarianceExplanationInadequate then
      [Str(name + (" movement driven by Q" + QuarterDigit(d.quarter) + " market fluctuation")), Str("No")]
    else
      [Str(name + (" movement reconciled to GL feed — "
                   + (if Variance(d.streams[k]) > 0 then "inflow" else "outflow") + " matches subledger")),
       Str("Yes")]
  }

  function StreamRow(d: Spec, k: nat): seq<Cell>
    requires Admissible(d) && k < 5
  {
    [Str(STREAM_NAMES[k]), Int(d.streams[k].prior), Int(Current(d.streams[k])), Int(Variance(d.streams[k])),
     Float(d.pctText[k]), Str(if Above(d.streams[k]) then "Yes" else "No")]
    + ExplanationCells(d, k, STREAM_NAMES[k])
  }

  function ReviewerText(d: Spec): string
    requires Admissible(d)
  {
    SignoffText(d.reviewer, DateInQuarter(d.quarter, d.reviewDay))
  }

  /** The finished sheet, row by row. */
  function Layout(d: Spec, r: nat): seq<Cell>
    requires Admissible(d)
  {
    if r == 1 then [Str("Entity"), Str(d.entity)]
    else if r == 2 then [Str("Quarter"), Str(QuarterText(d.quarter) + " " + IntText(d.year))]
    else if r == 3 then [Str("Variance threshold (%)"), Float("5.0")]
    else if r == 5 then [Str("Current-period data load (Attribute A)")]
    else if r == 6 then [Str("Upstream feed total (USD)"), Int(UpstreamTotal(d))]
    else if r == 7 then
      [Str("Workbook total (USD)"), Int(Total(d.streams, 5)),
       Str("Ties to feed: " + if d.defect == VarianceBoundary then "No" else "Yes")]
    else if r == 9 then
      [Str("Revenue stream"), Str("Prior (USD)"), Str("Current (USD)"), Str("Variance (USD)"), Str("% variance"),
       Str("Above threshold?"), Str("Explanation"), Str("Source tie?")]
    else if 10 <= r < 15 then StreamRow(d, r - 10)
    else if r == 17 then [Str("Reviewer (Attribute D)"), Str(ReviewerText(d))]
    else if r == 19 then [Str("As-of date"), Str(DateText(QuarterEnd(d.quarter)))]
    else []
  }

  function Sheet(d: Spec): (f: nat -> seq<Cell>)
    requires Admissible(d)
    ensures forall r: nat :: f(r) == Layout(d, r)
  {
    (r: nat) => Layout(d, r)
  }

  // ---- the writer ---------------------------------------------------------

  method Render(d: Spec) returns (ws: Worksheet)
    requires Admissible(d)
    ensures fresh(ws) && ws.title == DC2_SHEET
    ensures Holds(ws.cells, Sheet(d), 20)
  {
    hide Holds;
    hide Layout;
    hide Above;
    hide DateInQuarter;
    EmptySheet(Sheet(d));
    ws := new Worksheet(DC2_SHEET);
    WriteHeader(ws, d);
    var total := 0;
    for k := 0 to 5
      invariant total == Total(d.streams, k) && Holds(ws.cells, Sheet(d), 4)
    {
      total := total + Current(d.streams[k]);
    }
    WriteTieOut(ws, d, total);
    WriteStreams(ws, d);
    WriteReviewer(ws, d);
  }

  method WriteHeader(ws: Worksheet, d: Spec)
    requires Admissible(d) && Holds(ws.cells, Sheet(d), 1)
    modifies ws`cells
    ensures Holds(ws.cells, Sheet(d), 4)
  {
    hide CellAt;
    ws.AppendRow(1, [Str("Entity"), Str(d.entity)], Sheet(d), 1);
    ws.AppendRow(2, [Str("Quarter"), Str(QuarterText(d.quarter) + " " + IntText(d.year))], Sheet(d), 2);
    ws.AppendRow(3, [Str("Variance threshold (%)"), Float("5.0")], Sheet(d), 3);
  }

  method WriteTieOut(ws: Worksheet, d: Spec, total: int)
    requires Admissible(d) && Holds(ws.cells, Sheet(d), 4) && total == Total(d.streams, 5)
    modifies ws`cells
    ensures Holds(ws.cells, Sheet(d), 10)
  {
    hide CellAt;
    hide Total;
    ws.AppendRow(5, [Str("Current-period data load (Attribute A)")], Sheet(d), 4);
    var upstream, tieFlag := total, "Yes";
    if d.defect == VarianceBoundary {
      upstream, tieFlag := total + d.divergence, "No";
    }
    ws.AppendRow(6, [Str("Upstream feed total (USD)"), Int(upstream)], Sheet(d), 6);
    ws.AppendRow(7, [Str("Workbook total (USD)"), Int(total), Str("Ties to feed: " + tieFlag)], Sheet(d), 7);
    ws.AppendRow(9, [Str("Revenue stream"), Str("Prior (USD)"), Str("Current (USD)"), Str("Variance (USD)"),
                     Str("% variance"), Str("Above threshold?"), Str("Explanation"), Str("Source tie?")], Sheet(d), 8);
  }

  method WriteReviewer(ws: Worksheet, d: Spec)
    requires Admissible(d) && Holds(ws.cells, Sheet(d), 15)
    modifies ws`cells
    ensures Holds(ws.cells, Sheet(d), 20)
  {
    hide CellAt;
    hide DateInQuarter;
    ws.AppendRow(17, [Str("Reviewer (Attribute D)"), Str(ReviewerText(d))], Sheet(d), 15);
    ws.AppendRow(19, [Str("As-of date"), Str(DateText(QuarterEnd(d.quarter)))], Sheet(d), 18);
  }

  /** Rows 10 to 14; the flag makes only the first above-threshold row lose its explanation. */
  method WriteStreams(ws: Worksheet, d: Spec)
    requires Admissible(d) && Holds(ws.cells, Sheet(d), 10)
    modifies ws`cells
    ensures Holds(ws.cells, Sheet(d), 15)
  {
    hide CellAt;
    hide Above;
    var noExplanationApplied := false;
    for k := 0 to 5
      invariant Holds(ws.cells, Sheet(d), 10 + k)
      invariant noExplanationApplied <==> d.defect == VarianceNoExplanation && AnyAbove(d.streams, k)
    {
      var s, name := d.streams[k], STREAM_NAMES[k];
      var above := Above(s);
      var last: seq<Cell>;
      if !above {
        last := [Str("N/A — below threshold"), Str("N/A")];
      } else if d.defect == VarianceNoExplanation && !noExplanationApplied {
        last := [Str(""), Str("No — no explanation provided")];
        noExplanationApplied := true;
      } else if d.defect == VarianceExplanationInadequate {
        last := [Str(name + (" movement driven by Q" + QuarterDigit(d.quarter) + " market fluctuation")), Str("No")];
      } else {
        last := [Str(name + (" movement reconciled to GL feed — "
                             + (if Variance(s) > 0 then "inflow" else "outflow") + " matches subledger")),
                 Str("Yes")];
      }
      assert last == ExplanationCells(d, k, name);
      ws.AppendRow(10 + k, [Str(name), Int(s.prior), Int(Current(s)), Int(Variance(s)), Float(d.pctText[k]),
                            Str(if above then "Yes" else "No")] + last, Sheet(d), 10 + k);
    }
  }

  // ---- what the checks see ------------------------------------------------

  lemma ExplanationsAreTrimmed(d: Spec, k: nat)
    requires Admissible(d) && k < 5 && Above(d.streams[k])
    ensures var last := ExplanationCells(d, k, STREAM_NAMES[k]);
            var blank := d.defect == VarianceNoExplanation && !AnyAbove(d.streams, k);
            && |last| == 2
            && (blank ==> CellText(last[0]) == "")
            && (!blank ==> Strip(CellText(last[0])) != "")
            && (!blank ==> (Strip(CellText(last[1])) == "Yes" <==> d.defect != VarianceExplanationInadequate))
  {
    hide Above;
    hide AnyAbove;
    var last := ExplanationCells(d, k, STREAM_NAMES[k]);
    Trimmed("Yes");
    Trimmed("No");
    if !(d.defect == VarianceNoExplanation && !AnyAbove(d.streams, k)) {
      var e := CellText(last[0]);
      assert e[0] == STREAM_NAMES[k][0];
      assert e[|e| - 1] == if d.defect == VarianceExplanationInadequate then 'n' else 'r';
      Trimmed(e);
    }
  }

  /** How the checks read variance row 10+k. */
  lemma StreamRowReads(d: Spec, rows: seq<BronzeRow>, cells: Cells, k: nat)
    requires Admissible(d) && k < 5 && IngestedFrom(rows, DC2_SHEET, cells, Sheet(d), 19)
    ensures AboveAt(rows, 10 + k) <==> Above(d.streams[k])
    ensures var blank := d.defect == VarianceNoExplanation && !AnyAbove(d.streams, k);
            Above(d.streams[k]) ==>
              && (ExplainedAt(rows, 10 + k) <==> !blank)
              && (!blank ==> (TiedAt(rows, 10 + k) <==> d.defect != VarianceExplanationInadequate))
  {
    hide IngestedFrom;
    hide ReadCell;
    hide Above;
    hide AnyAbove;
    hide ExplanationCells;
    var layout := Sheet(d);
    var values := layout(10 + k);
    assert values == StreamRow(d, k);
    assert |ExplanationCells(d, k, STREAM_NAMES[k])| == 2 by { ExplanationLength(d, k); }
    assert values[6..] == ExplanationCells(d, k, STREAM_NAMES[k]);
    assert values[6] == values[6..][0] && values[7] == values[6..][1];
    ReadsBack(rows, DC2_SHEET, cells, layout, 19, 10 + k, 5);
    ReadsBack(rows, DC2_SHEET, cells, layout, 19, 10 + k, 6);
    ReadsBack(rows, DC2_SHEET, cells, layout, 19, 10 + k, 7);
    FoundIfRead(rows, DC2_SHEET, 10 + k, 5);
    Trimmed("Yes");
    Trimmed("No");
    if Above(d.streams[k]) { ExplanationsAreTrimmed(d, k); }
  }

  /** The amount in a cell, 0 for a text. */
  function AmountIn(c: Cell): int { match c case Int(i) => i case _ => 0 }

  /** On the written sheet the workbook total is the sum of the five current amounts, each variance is the current
      amount less the prior one, and the feed total differs by the divergence exactly for the boundary defect. */
  lemma TotalsTie(d: Spec)
    requires Admissible(d)
    ensures && AmountIn(Layout(d, 7)[1]) == AmountIn(Layout(d, 10)[2]) + AmountIn(Layout(d, 11)[2])
                 + AmountIn(Layout(d, 12)[2]) + AmountIn(Layout(d, 13)[2]) + AmountIn(Layout(d, 14)[2])
            && (forall r | 10 <= r < 15 ::
                  |Layout(d, r)| == 8
                  && AmountIn(Layout(d, r)[3]) == AmountIn(Layout(d, r)[2]) - AmountIn(Layout(d, r)[1]))
            && AmountIn(Layout(d, 6)[1]) - AmountIn(Layout(d, 7)[1])
               == if d.defect == VarianceBoundary then d.divergence else 0
  {
    hide Current, Above, ExplanationCells;
    assert Total(d.streams, 1) == Current(d.streams[0]);
    assert Total(d.streams, 2) == Total(d.streams, 1) + Current(d.streams[1]);
    assert Total(d.streams, 3) == Total(d.streams, 2) + Current(d.streams[2]);
    assert Total(d.streams, 4) == Total(d.streams, 3) + Current(d.streams[3]);
    forall r | 10 <= r < 15 ensures |Layout(d, r)| == 8 { ExplanationLength(d, r - 10); }
  }

  lemma ExplanationLength(d: Spec, k: nat)
    requires k < |d.streams|
    ensures |ExplanationCells(d, k, STREAM_NAMES[k % 5])| == 2
    ensures k < 5 ==> |ExplanationCells(d, k, STREAM_NAMES[k])| == 2
  {
  }

  lemma CheckAVerdict(d: Spec, rows: seq<BronzeRow>, cells: Cells)
    requires Admissible(d) && IngestedFrom(rows, DC2_SHEET, cells, Sheet(d), 19)
    ensures CheckDc2A(rows).status == if d.defect == VarianceBoundary then Failed else Passed
  {
    hide IngestedFrom;
    hide ReadCell;
    hide ParseCurrency;
    hide Total;
    hide IntText;
    var layout := Sheet(d);
    ReadsBack(rows, DC2_SHEET, cells, layout, 19, 6, 1);
    ReadsBack(rows, DC2_SHEET, cells, layout, 19, 7, 1);
    ReadsBack(rows, DC2_SHEET, cells, layout, 19, 7, 2);
    CurrencyOfInt(UpstreamTotal(d));
    CurrencyOfInt(Total(d.streams, 5));
    if d.defect != VarianceBoundary {
      assert OccursAt("Yes", "Ties to feed: " + "Yes", 14);
    }
  }

  lemma CheckDVerdict(d: Spec, rows: seq<BronzeRow>, cells: Cells)
    requires Admissible(d) && IngestedFrom(rows, DC2_SHEET, cells, Sheet(d), 19)
    ensures CheckSignoff(rows, DC2_SHEET, 17).status == Passed
    ensures ReadCell(rows, DC2_SHEET, 17, 1) == Some(ReviewerText(d))
  {
    hide IngestedFrom;
    hide ReadCell;
    hide DateText;
    ReadsBack(rows, DC2_SHEET, cells, Sheet(d), 19, 17, 1);
    SignoffHasDash(d.reviewer, DateInQuarter(d.quarter, d.reviewDay));
  }

  /** For every draw: A fails exactly for the boundary defect; B and C fail exactly for their own defect when
      some row is above threshold; D passes; and the sign-off parser recovers the reviewer and the date. */
  lemma WrittenWorkpaperChecks(d: Spec, rows: seq<BronzeRow>, cells: Cells)
    requires Admissible(d) && IngestedFrom(rows, DC2_SHEET, cells, Sheet(d), 19)
    ensures CheckDc2A(rows).status == Failed <==> d.defect == VarianceBoundary
    ensures CheckDc2B(rows).status == Failed <==> d.defect == VarianceNoExplanation && AnyAbove(d.streams, 5)
    ensures CheckDc2C(rows).status == Failed <==> d.defect == VarianceExplanationInadequate && AnyAbove(d.streams, 5)
    ensures CheckSignoff(rows, DC2_SHEET, 17).status == Passed
    ensures ReadCell(rows, DC2_SHEET, 17, 1).Some?
         && ParseSignoff(ReadCell(rows, DC2_SHEET, 17, 1).value)
         == Some(Signoff(d.reviewer, DateInQuarter(d.quarter, d.reviewDay)))
  {
    hide IngestedFrom;
    hide ReadCell;
    hide AboveAt;
    hide ExplainedAt;
    hide TiedAt;
    hide Above;
    hide CheckDc2A;
    hide CheckDc2B;
    hide CheckDc2C;
    hide CheckSignoff;
    hide ParseSignoff;
    CheckAVerdict(d, rows, cells);
    CheckDVerdict(d, rows, cells);
    VarianceChecks(rows);
    forall k: nat | k < 5
      ensures AboveAt(rows, 10 + k) <==> Above(d.streams[k])
      ensures Above(d.streams[k]) ==>
                && (ExplainedAt(rows, 10 + k) <==> !(d.defect == VarianceNoExplanation && !AnyAbove(d.streams, k)))
                && (ExplainedAt(rows, 10 + k) ==> (TiedAt(rows, 10 + k) <==> d.defect != VarianceExplanationInadequate))
    {
      StreamRowReads(d, rows, cells, k);
    }
    FailingRows(d, rows);
    PoolInitials(d.reviewer);
    SignoffRoundTrip(d.reviewer, DateInQuarter(d.quarter, d.reviewDay));
  }

  lemma FirstAbove(streams: seq<StreamDraw>, n: nat) returns (k: nat)
    requires n <= |streams| && AnyAbove(streams, n)
    ensures k < n && Above(streams[k]) && !AnyAbove(streams, k)
  {
    hide Above;
    k :| 0 <= k < n && Above(streams[k]);
    if AnyAbove(streams, k) { k := FirstAbove(streams, k); }
  }

  /** From rows to verdicts: which variance rows make B and C fail. */
  lemma FailingRows(d: Spec, rows: seq<BronzeRow>)
    requires Admissible(d)
    requires forall k: nat | k < 5 :: AboveAt(rows, 10 + k) <==> Above(d.streams[k])
    requires forall k: nat | k < 5 && Above(d.streams[k]) ::
               && (ExplainedAt(rows, 10 + k) <==> !(d.defect == VarianceNoExplanation && !AnyAbove(d.streams, k)))
               && (ExplainedAt(rows, 10 + k) ==> (TiedAt(rows, 10 + k) <==> d.defect != VarianceExplanationInadequate))
    ensures (exists i | 10 <= i < 15 :: AboveAt(rows, i) && !ExplainedAt(rows, i))
        <==> d.defect == VarianceNoExplanation && AnyAbove(d.streams, 5)
    ensures (exists i | 10 <= i < 15 :: AboveAt(rows, i) && ExplainedAt(rows, i) && !TiedAt(rows, i))
        <==> d.defect == VarianceExplanationInadequate && AnyAbove(d.streams, 5)
  {
    hide AboveAt;
    hide ExplainedAt;
    hide TiedAt;
    hide Above;
    if i :| 10 <= i < 15 && AboveAt(rows, i) && !ExplainedAt(rows, i) {
      assert Above(d.streams[i - 10]) by { assert AboveAt(rows, 10 + (i - 10)); }
    }
    if i :| 10 <= i < 15 && AboveAt(rows, i) && ExplainedAt(rows, i) && !TiedAt(rows, i) {
      assert Above(d.streams[i - 10]) by { assert AboveAt(rows, 10 + (i - 10)); }
      assert !TiedAt(rows, 10 + (i - 10));
    }
    if AnyAbove(d.streams, 5) {
      var k := FirstAbove(d.streams, 5);
      assert AboveAt(rows, 10 + k);
    }
  }

  function CheckStatusOf(rows: seq<BronzeRow>, a: Attribute): CheckStatus
    requires a in AttributesOf(DC2)
  {
    DispatchIsTotal(DC2, a, rows);
    CheckAttribute(DC2, a, rows).value.status
  }

  /** Layer 1 agrees with the gold answer on every attribute exactly when the defect does not need an
      above-threshold row, or some row is above threshold. */
  lemma AgreesWithGoldIff(d: Spec, rows: seq<BronzeRow>, cells: Cells)
    requires Admissible(d) && DefectMatches(d.defect, DC2)
    requires IngestedFrom(rows, DC2_SHEET, cells, Sheet(d), 19)
    ensures (forall a | a in AttributesOf(DC2) :: CheckStatusOf(rows, a) == GoldAnswers.GoldResult(d.defect, a))
        <==> d.defect in {NoDefect, VarianceBoundary} || AnyAbove(d.streams, 5)
  {
    hide IngestedFrom;
    hide ReadCell;
    hide AnyAbove;
    hide CheckDc2A;
    hide CheckDc2B;
    hide CheckDc2C;
    hide CheckSignoff;
    WrittenWorkpaperChecks(d, rows, cells);
    StatusesAreBinary(rows);
    assert forall a | a in AttributesOf(DC2) :: a == A || a == B || a == C || a == D;
    assert A in AttributesOf(DC2) && B in AttributesOf(DC2) && C in AttributesOf(DC2) && D in AttributesOf(DC2);
  }

  lemma StatusesAreBinary(rows: seq<BronzeRow>)
    ensures CheckDc2A(rows).status != NotApplicable && CheckDc2B(rows).status != NotApplicable
    ensures CheckDc2C(rows).status != NotApplicable
  {
  }

  // ---- which draws give such a row ----------------------------------------

  /** The draws of the writer and more: a positive prior amount and a drift that leaves the amount non-negative. */
  predicate Drawn(s: StreamDraw) { s.prior > 0 && s.drift >= -1.0 }

  /** The drift times the prior amount, rounded down. */
  function Change(s: StreamDraw): int { (s.prior as real * s.drift).Floor }

  /** The change exceeds a twentieth of the prior amount, up or down. */
  predicate MovesOverFivePercent(s: StreamDraw) { 20 * Change(s) > s.prior || 20 * Change(s) < -s.prior }

  lemma FloorOfSum(n: int, x: real)
    ensures (n as real + x).Floor == n + x.Floor
  {
  }

  lemma VarianceOfDraw(s: StreamDraw)
    requires Drawn(s)
    ensures Variance(s) == Change(s)
  {
    var x := s.prior as real * s.drift;
    assert s.prior as real * (1.0 + s.drift) == s.prior as real + x;
    assert x >= -(s.prior as real) by { ProductBound(s.prior as real, s.drift); }
    FloorOfSum(s.prior, x);
  }

  lemma ProductBound(p: real, d: real)
    requires p > 0.0 && d >= -1.0
    ensures p * d >= -p
  {
    assert p * (d + 1.0) >= 0.0;
  }

  lemma ScalesUp(a: real, b: real, p: real)
    requires p > 0.0 && a > b
    ensures a * p > b * p
  {
  }

  lemma QuotientOver(v: real, p: real, c: real)
    requires p > 0.0
    ensures v / p > c <==> v > c * p
    ensures v / p < c <==> v < c * p
  {
    var q := v / p;
    assert q * p == v;
    if q > c { ScalesUp(q, c, p); } else if c > q { ScalesUp(c, q, p); }
  }

  lemma PercentOver(v: int, p: int)
    requires p > 0
    ensures v as real / p as real * 100.0 > 5.0 <==> 20 * v > p
    ensures v as real / p as real * 100.0 < -5.0 <==> 20 * v < -p
  {
    QuotientOver(v as real, p as real, 0.05);
    QuotientOver(v as real, p as real, -0.05);
  }

  lemma AbsOver(x: real, c: real)
    requires c >= 0.0
    ensures Abs(x) > c <==> x > c || x < -c
  {
  }

  lemma AboveByVariance(s: StreamDraw, v: int)
    requires s.prior > 0 && Variance(s) == v
    ensures Above(s) <==> 20 * v > s.prior || 20 * v < -s.prior
  {
    hide Variance;
    PercentOver(v, s.prior);
    var pct := v as real / s.prior as real * 100.0;
    assert PctVariance(s) == pct;
    hide PctVariance;
    AbsOver(pct, 5.0);
  }

  /** Exactly which draws are above the threshold. */
  lemma AboveIff(s: StreamDraw)
    requires Drawn(s)
    ensures Above(s) <==> MovesOverFivePercent(s)
  {
    hide Above, Variance, Change;
    VarianceOfDraw(s);
    AboveByVariance(s, Variance(s));
  }

  lemma AnyAboveIff(streams: seq<StreamDraw>, n: nat)
    requires n <= |streams| && forall k | 0 <= k < n :: Drawn(streams[k])
    ensures AnyAbove(streams, n) <==> exists k | 0 <= k < n :: MovesOverFivePercent(streams[k])
  {
    hide Above, MovesOverFivePercent;
    forall k | 0 <= k < n ensures Above(streams[k]) <==> MovesOverFivePercent(streams[k]) {
      AboveIff(streams[k]);
    }
  }

  /** Agreement with the gold answer, in terms of the draws: the defect needs no above-threshold row, or some stream
      moves by more than five percent once rounded down. */
  lemma AgreesWithGoldOnDraws(d: Spec, rows: seq<BronzeRow>, cells: Cells)
    requires Admissible(d) && DefectMatches(d.defect, DC2) && forall k | 0 <= k < 5 :: Drawn(d.streams[k])
    requires IngestedFrom(rows, DC2_SHEET, cells, Sheet(d), 19)
    ensures (forall a | a in AttributesOf(DC2) :: CheckStatusOf(rows, a) == GoldAnswers.GoldResult(d.defect, a))
        <==> d.defect in {NoDefect, VarianceBoundary} || exists k | 0 <= k < 5 :: MovesOverFivePercent(d.streams[k])
  {
    hide IngestedFrom, CheckStatusOf, AnyAbove, MovesOverFivePercent;
    AgreesWithGoldIff(d, rows, cells);
    AnyAboveIff(d.streams, 5);
  }

  /** The writer does not guarantee such a row: with no drift nothing is above threshold. */
  lemma QuietStreams(streams: seq<StreamDraw>, n: nat)
    requires n <= |streams| && forall k | 0 <= k < |streams| :: streams[k].drift == 0.0
    ensures !AnyAbove(streams, n)
  {
    forall k | 0 <= k < n ensures !Above(streams[k]) {
      assert Current(streams[k]) == streams[k].prior;
    }
  }
}
