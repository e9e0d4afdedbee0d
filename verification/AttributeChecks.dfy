/** The Layer-1 checks: what each one reads from the bronze rows of one workpaper. */
module AttributeChecks {
  import opened Text
  import opened Decimals
  import opened Evidence
  import opened Workpaper

  const DC2_SHEET := "DC-2 Variance"
  const DC9_SHEET := "DC-9 Billing"

  // ---- cell parsers -------------------------------------------------------

  predicate IsCurrencyMark(c: char) { c == ',' || c == '$' || c == ' ' }

  function DropMarks(s: string): string {
    if s == "" then "" else (if IsCurrencyMark(s[0]) then "" else s[..1]) + DropMarks(s[1..])
  }

  /** `_parse_currency`. */
  function ParseCurrency(value: Option<string>): Option<real> {
    match value case None => None case Some(s) => ParseFloat(Strip(DropMarks(s)))
  }

  /** The decimal fraction that a percentage denotes. */
  function PercentDec(value: Option<string>): Option<Signed> {
    match value
    case None => None
    case Some(v) =>
      var s := Strip(v);
      if Contains(s, "N/A") || Contains(s, "n/a") || s == "" || s[|s| - 1] != '%' then None
      else
        match ParseSigned(Strip(s[..|s| - 1]))
        case None => None
        case Some(x) => Some(x.(magnitude := Hundredth(x.magnitude)))
  }

  /** `_parse_percent`. */
  function ParsePercent(value: Option<string>): Option<real> {
    match PercentDec(value) case None => None case Some(x) => Some(SignedVal(x))
  }

  lemma {:induction false} NothingToDrop(s: string)
    requires forall i | 0 <= i < |s| :: !IsCurrencyMark(s[i])
    ensures DropMarks(s) == s
  {
    if s != "" { NothingToDrop(s[1..]); }
  }

  lemma IntTextChars(i: int)
    ensures IntText(i) != "" && forall k | 0 <= k < |IntText(i)| :: IsDigit(IntText(i)[k]) || IntText(i)[k] == '-'
  {
  }

  /** An integer cell is read back exactly. */
  lemma CurrencyOfInt(i: int)
    ensures ParseCurrency(Some(IntText(i))) == Some(i as real)
  {
    hide IntText;
    hide ParseFloat;
    IntTextChars(i);
    NothingToDrop(IntText(i));
    StripTrimmed(IntText(i));
    IntRoundTrip(i);
  }

  /** A printed rate is read back as the fraction it denotes. */
  lemma PercentOfNumber(number: string, x: real)
    requires ParseFloat(number) == Some(x) && number != "" && 'N' !in number && 'n' !in number
    requires !IsSpace(number[0]) && !IsSpace(number[|number| - 1])
    ensures ParsePercent(Some(number + "%")) == Some(x / 100.0)
  {
    hide ParseSigned;
    HundredVals(ParseSigned(number).value.magnitude);
    var s := number + "%";
    StripTrimmed(s);
    StripTrimmed(number);
    assert 'N' !in s && 'n' !in s;
    FirstCharAbsent(s, "N/A");
    FirstCharAbsent(s, "n/a");
    assert s[..|s| - 1] == number;
  }

  // ---- results ------------------------------------------------------------

  /** The parts of `extracted_value` later layers look into. */
  datatype Extracted =
    | Nothing
    | Rates(prior: Signed, current: Signed)
    | RatesAndAmendment(priorRate: Signed, currentRate: Signed, amendment: string)
    | Other

  datatype Check = Check(status: CheckStatus, value: Extracted := Nothing, notes: Option<string> := None)

  function Abs(x: real): real { if x < 0.0 then -x else x }

  // ---- DC-2 ---------------------------------------------------------------

  function CheckDc2A(rows: seq<BronzeRow>): Check {
    var feed := ParseCurrency(ReadCell(rows, DC2_SHEET, 6, 1));
    var book := ParseCurrency(ReadCell(rows, DC2_SHEET, 7, 1));
    var tieFlag := OrEmpty(ReadCell(rows, DC2_SHEET, 7, 2));
    if feed.None? || book.None? then Check(Failed, Nothing, Some("missing upstream feed total or workbook total"))
    else if Abs(feed.value - book.value) > 1.0 then
      Check(Failed, Other, Some("workbook total does not tie to upstream feed"))
    else if !Contains(tieFlag, "Yes") then Check(Failed, Nothing, Some("tie flag does not affirm match"))
    else Check(Passed, Other)
  }

  predicate AboveAt(rows: seq<BronzeRow>, i: nat) {
    FindRow(rows, DC2_SHEET, i).Some? && Strip(OrEmpty(ReadCell(rows, DC2_SHEET, i, 5))) == "Yes"
  }

  predicate ExplainedAt(rows: seq<BronzeRow>, i: nat) { Strip(OrEmpty(ReadCell(rows, DC2_SHEET, i, 6))) != "" }

  predicate TiedAt(rows: seq<BronzeRow>, i: nat) { Strip(OrEmpty(ReadCell(rows, DC2_SHEET, i, 7))) == "Yes" }

  /** The indices among the first n variance rows, 10 to 9+n, that are above threshold. */
  function AboveRows(rows: seq<BronzeRow>, n: nat): seq<nat> {
    if n == 0 then [] else AboveRows(rows, n - 1) + if AboveAt(rows, 9 + n) then [9 + n] else []
  }

  method AboveThresholdRows(rows: seq<BronzeRow>) returns (out: seq<nat>)
    ensures out == AboveRows(rows, 5)
  {
    hide FindRow;
    hide Strip;
    out := [];
    for i := 10 to 15
      invariant out == AboveRows(rows, i - 10)
    {
      var r := FindRow(rows, DC2_SHEET, i);
      if r.Some? && Strip(OrEmpty(CellOf(r, ColumnKey(5)))) == "Yes" {
        out := out + [i];
      }
    }
  }

  function Unexplained(rows: seq<BronzeRow>, above: seq<nat>): seq<nat> {
    if above == [] then []
    else (if ExplainedAt(rows, above[0]) then [] else [above[0]]) + Unexplained(rows, above[1..])
  }

  function Untied(rows: seq<BronzeRow>, above: seq<nat>): seq<nat> {
    if above == [] then []
    else (if ExplainedAt(rows, above[0]) && !TiedAt(rows, above[0]) then [above[0]] else []) + Untied(rows, above[1..])
  }

  function CheckDc2B(rows: seq<BronzeRow>): Check {
    if Unexplained(rows, AboveRows(rows, 5)) != [] then
      Check(Failed, Other, Some("above-threshold row(s) missing Explanation"))
    else Check(Passed, Other)
  }

  function CheckDc2C(rows: seq<BronzeRow>): Check {
    if Untied(rows, AboveRows(rows, 5)) != [] then
      Check(Failed, Other, Some("above-threshold row(s) with Source tie != 'Yes'"))
    else Check(Passed, Other)
  }

  function CheckSignoff(rows: seq<BronzeRow>, sheet: string, index: nat): Check {
    var val := ReadCell(rows, sheet, index, 1);
    if val.None? || !Contains(val.value, "—") then Check(Failed, Nothing, Some("sign-off cell missing or unparseable"))
    else Check(Passed, Other)
  }

  lemma {:induction false} AboveRowsMembers(rows: seq<BronzeRow>, n: nat, i: nat)
    ensures i in AboveRows(rows, n) <==> 10 <= i < 10 + n && AboveAt(rows, i)
  {
    hide AboveAt;
    if n > 0 { AboveRowsMembers(rows, n - 1, i); }
  }

  lemma {:induction false} UnexplainedEmpty(rows: seq<BronzeRow>, above: seq<nat>)
    ensures Unexplained(rows, above) == [] <==> forall i | i in above :: ExplainedAt(rows, i)
  {
    hide ExplainedAt;
    if above != [] {
      UnexplainedEmpty(rows, above[1..]);
      assert above == [above[0]] + above[1..];
    }
  }

  lemma {:induction false} UntiedEmpty(rows: seq<BronzeRow>, above: seq<nat>)
    ensures Untied(rows, above) == [] <==> forall i | i in above :: ExplainedAt(rows, i) ==> TiedAt(rows, i)
  {
    hide ExplainedAt;
    hide TiedAt;
    if above != [] {
      UntiedEmpty(rows, above[1..]);
      assert above == [above[0]] + above[1..];
    }
  }

  /** B fails exactly when some above-threshold row has no explanation; C exactly when some
      above-threshold row has one that does not tie. */
  lemma VarianceChecks(rows: seq<BronzeRow>)
    ensures CheckDc2B(rows).status == Failed <==>
              exists i | 10 <= i < 15 :: AboveAt(rows, i) && !ExplainedAt(rows, i)
    ensures CheckDc2C(rows).status == Failed <==>
              exists i | 10 <= i < 15 :: AboveAt(rows, i) && ExplainedAt(rows, i) && !TiedAt(rows, i)
  {
    hide AboveAt;
    hide ExplainedAt;
    hide TiedAt;
    hide Unexplained;
    hide Untied;
    var above := AboveRows(rows, 5);
    forall i: nat ensures i in above <==> 10 <= i < 15 && AboveAt(rows, i) { AboveRowsMembers(rows, 5, i); }
    UnexplainedEmpty(rows, above);
    UntiedEmpty(rows, above);
  }

  // ---- DC-9 ---------------------------------------------------------------

  function CheckDc9C(rows: seq<BronzeRow>): Check {
    var asset := ParseCurrency(ReadCell(rows, DC9_SHEET, 8, 1));
    var rate := ParsePercent(ReadCell(rows, DC9_SHEET, 9, 1));
    var fee := ParseCurrency(ReadCell(rows, DC9_SHEET, 10, 1));
    if asset.None? || rate.None? || fee.None? then Check(Failed, Nothing, Some("missing or unparseable input"))
    else if Abs(fee.value - asset.value * rate.value) > 1.0 then
      Check(Failed, Other, Some("billing fee does not tie to asset×rate"))
    else Check(Passed, Other)
  }

  const SAME_RATE := 0.000000001

  function CheckDc9D(rows: seq<BronzeRow>): Check {
    var priorRaw := OrEmpty(ReadCell(rows, DC9_SHEET, 13, 1));
    RateChangeCheck(priorRaw, ReadCell(rows, DC9_SHEET, 14, 1), Strip(OrEmpty(ReadCell(rows, DC9_SHEET, 16, 1))))
  }

  predicate NoAmendment(amendment: string) {
    || amendment == ""
    || Contains(Upper(amendment), "NO AMENDMENT FILED")
    || StartsWith(amendment, "N/A")
  }

  /** `_dc9_d` on the prior-rate cell, the current-rate cell and the stripped amendment cell. */
  function RateChangeCheck(priorRaw: string, currentRaw: Option<string>, amendment: string): Check {
    if Contains(priorRaw, "N/A") || Contains(Lower(priorRaw), "no prior") then
      Check(NotApplicable, Nothing, Some("Q1 has no prior period; comparison not applicable"))
    else
      var prior, current := PercentDec(Some(priorRaw)), PercentDec(currentRaw);
      if prior.None? || current.None? then Check(Failed, Nothing, Some("unparseable rates"))
      else if Abs(SignedVal(prior.value) - SignedVal(current.value)) < SAME_RATE then
        Check(Passed, Rates(prior.value, current.value))
      else
        var value := RatesAndAmendment(prior.value, current.value, amendment);
        if NoAmendment(amendment) then Check(Failed, value, Some("rates differ but amendment is missing"))
        else Check(Passed, value)
  }

  function CheckDc9E(rows: seq<BronzeRow>): Check {
    var opening := ParseCurrency(ReadCell(rows, DC9_SHEET, 19, 1));
    var additions := ParseCurrency(ReadCell(rows, DC9_SHEET, 20, 1));
    var retirements := ParseCurrency(ReadCell(rows, DC9_SHEET, 21, 1));
    var closing := ParseCurrency(ReadCell(rows, DC9_SHEET, 22, 1));
    if opening.None? || additions.None? || retirements.None? || closing.None? then
      Check(Failed, Nothing, Some("missing input"))
    else if Abs(closing.value - (opening.value + additions.value - retirements.value)) > 1.0 then
      Check(Failed, Other, Some("closing does not tie"))
    else Check(Passed, Other)
  }

  predicate IsLpRow(r: BronzeRow) {
    r.sheet == DC9_SHEET && r.rowIndex >= 26 && Strip(OrEmpty(Get(r.raw, ColumnKey(0)))) != ""
  }

  function LpRows(rows: seq<BronzeRow>): seq<BronzeRow> {
    if rows == [] then [] else LpRows(rows[..|rows| - 1]) + if IsLpRow(rows[|rows| - 1]) then [rows[|rows| - 1]] else []
  }

  function EffectivePct(r: BronzeRow): Option<real> { ParseCurrency(Get(r.raw, ColumnKey(2))) }

  /** The sum of the first n effective percentages; None at the first unparseable one. */
  function SumPcts(lps: seq<BronzeRow>, n: nat): Option<real>
    requires n <= |lps|
  {
    if n == 0 then Some(0.0)
    else
      match SumPcts(lps, n - 1)
      case None => None
      case Some(t) => match EffectivePct(lps[n - 1]) case None => None case Some(v) => Some(t + v)
  }

  function OwnershipCheck(total: Option<real>): Check {
    if total.None? then Check(Failed, Nothing, Some("unparseable Effective %"))
    else if Abs(total.value - 100.0) > 0.01 then Check(Failed, Other, Some("sum of Effective % is not 100"))
    else Check(Passed, Other)
  }

  function CheckDc9F(rows: seq<BronzeRow>): Check {
    OwnershipCheck(SumPcts(LpRows(rows), |LpRows(rows)|))
  }

  lemma {:induction false} SumStopsAtNone(lps: seq<BronzeRow>, n: nat, m: nat)
    requires n <= m <= |lps| && SumPcts(lps, n) == None
    ensures SumPcts(lps, m) == None
  {
    hide EffectivePct;
    if n < m { SumStopsAtNone(lps, n, m - 1); }
  }

  method OwnershipShares(rows: seq<BronzeRow>) returns (check: Check)
    ensures check == CheckDc9F(rows)
  {
    hide EffectivePct;
    hide LpRows;
    var lps := LpRows(rows);
    var total := 0.0;
    for n := 0 to |lps|
      invariant SumPcts(lps, n) == Some(total)
    {
      var v := EffectivePct(lps[n]);
      if v.None? {
        SumStopsAtNone(lps, n + 1, |lps|);
        return OwnershipCheck(None);
      }
      total := total + v.value;
    }
    return OwnershipCheck(Some(total));
  }

  // ---- dispatch -----------------------------------------------------------

  /** `check_attribute`; None is the KeyError for a pair the control does not define. */
  function CheckAttribute(control: Control, attribute: Attribute, rows: seq<BronzeRow>): Option<Check> {
    match (control, attribute)
    case (DC2, A) => Some(CheckDc2A(rows))
    case (DC2, B) => Some(CheckDc2B(rows))
    case (DC2, C) => Some(CheckDc2C(rows))
    case (DC2, D) => Some(CheckSignoff(rows, DC2_SHEET, 17))
    case (DC2, _) => None
    case (DC9, A) => Some(CheckSignoff(rows, DC9_SHEET, 4))
    case (DC9, B) => Some(CheckSignoff(rows, DC9_SHEET, 5))
    case (DC9, C) => Some(CheckDc9C(rows))
    case (DC9, D) => Some(CheckDc9D(rows))
    case (DC9, E) => Some(CheckDc9E(rows))
    case (DC9, F) => Some(CheckDc9F(rows))
  }

  lemma DispatchIsTotal(control: Control, attribute: Attribute, rows: seq<BronzeRow>)
    ensures CheckAttribute(control, attribute, rows).Some? <==> attribute in AttributesOf(control)
  {
  }
}
