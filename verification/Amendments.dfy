/** What a Layer-1 DC-9.D check says about rates and amendments, in the terms of the
    Layer-3 billing-rate tool. `RateTool` reads the same out of the stored dictionary. */
module Amendments {
  import opened Text
  import opened Decimals
  import opened Evidence
  import opened Corpus
  import opened Workpaper
  import opened AttributeChecks
  import Dc9

  /** The current rate of a check, as `_coerce_rate` will find it. */
  function CoerceRate(v: Extracted): Option<real> {
    match v
    case Rates(_, current) => Some(SignedVal(current))
    case RatesAndAmendment(_, current, _) => Some(SignedVal(current))
    case _ => None
  }

  /** The prior rate the current check carries, as `_embedded_prior_rate` will find it. */
  function EmbeddedPriorRate(v: Extracted): Option<real> {
    match v
    case Rates(prior, _) => Some(SignedVal(prior))
    case RatesAndAmendment(prior, _, _) => Some(SignedVal(prior))
    case _ => None
  }

  predicate IsRealAmendment(text: string) {
    && Strip(text) != ""
    && !Contains(Lower(text), "no amendment filed")
    && !StartsWith(Upper(Strip(text)), "N/A")
  }

  const AMENDMENT_MARKERS := ["amendment", "ima ", "addendum", "side letter"]

  /** `_detect_amendment_in_notes`. */
  function DetectAmendmentInNotes(notes: Option<string>): Option<string> {
    match notes
    case None => None
    case Some(n) =>
      if n != "" && exists k | 0 <= k < |AMENDMENT_MARKERS| :: Contains(Lower(n), AMENDMENT_MARKERS[k]) then Some(n)
      else None
  }

  /** `_resolve_amendment`: the structured field first, the notes only when it is missing. */
  function ResolveAmendment(check: Check): Option<string> {
    match check.value
    case RatesAndAmendment(_, _, amendment) => if IsRealAmendment(amendment) then Some(amendment) else None
    case _ =>
      var scanned := DetectAmendmentInNotes(check.notes);
      if scanned.Some? && IsRealAmendment(scanned.value) then scanned else None
  }

  /** Which texts are reported: from the structured field its own text, without one the notes when they mention an
      amendment in one of four ways; and in both cases only a text that is not blank, does not say that none was filed
      and does not begin with N/A, in any capitalisation. */
  lemma ResolvesIff(check: Check)
    ensures var r := ResolveAmendment(check);
            var text := if check.value.RatesAndAmendment? then Some(check.value.amendment) else check.notes;
            && (r.Some? ==> r == text)
            && (r.Some? <==>
                  && text.Some?
                  && (check.value.RatesAndAmendment?
                      || (var n := Lower(text.value);
                          IsSlice("amendment", n) || IsSlice("ima ", n) || IsSlice("addendum", n)
                          || IsSlice("side letter", n)))
                  && Strip(text.value) != "" && !IsSlice("no amendment filed", Lower(text.value))
                  && !("N/A" <= Upper(Strip(text.value))))
  {
    hide Strip, Contains, IsSlice, Lower, Upper;
    var text := if check.value.RatesAndAmendment? then Some(check.value.amendment) else check.notes;
    if text.Some? {
      var n := Lower(text.value);
      forall pat ensures Contains(n, pat) <==> IsSlice(pat, n) { ContainsIsSlice(n, pat); }
      var ms := AMENDMENT_MARKERS;
      assert ms[0] == "amendment" && ms[1] == "ima " && ms[2] == "addendum" && ms[3] == "side letter";
      BlankHasNoMarker(text.value);
    }
  }

  lemma BlankHasNoMarker(t: string)
    ensures t == "" ==> Strip(t) == ""
  {
  }

  /** The check was built from two parsable rates. */
  predicate HasRates(check: Check) { check.value.Rates? || check.value.RatesAndAmendment? }

  /** Both rates, when they are there, are those of the two cells. */
  lemma RatesOfCheck(priorRaw: string, currentRaw: Option<string>, amendment: string)
    ensures var c := RateChangeCheck(priorRaw, currentRaw, amendment);
            HasRates(c) ==>
              && EmbeddedPriorRate(c.value) == ParsePercent(Some(priorRaw))
              && CoerceRate(c.value) == ParsePercent(currentRaw)
              && (c.value.RatesAndAmendment? <==>
                    Abs(ParsePercent(Some(priorRaw)).value - ParsePercent(currentRaw).value) >= SAME_RATE)
  {
    hide PercentDec;
  }

  /** The amendment begins like "N/A" in some other capitalisation. */
  predicate OddlySpelledNA(amendment: string) { StartsWith(Upper(amendment), "N/A") && !StartsWith(amendment, "N/A") }

  lemma PhraseCase()
    ensures Upper("no amendment filed") == "NO AMENDMENT FILED" && Lower("no amendment filed") == "no amendment filed"
  {
    hide Upper;
    hide Lower;
  }

  /** Layer 1's test in upper case and the tool's in lower case agree, up to the odd spelling. */
  lemma SameJudgement(amendment: string)
    requires Strip(amendment) == amendment
    ensures IsRealAmendment(amendment) <==> !NoAmendment(amendment) && !OddlySpelledNA(amendment)
  {
    hide Strip;
    hide Contains;
    PhraseCase();
    CaseInsensitiveSearch(amendment, "no amendment filed");
    UpperOfPrefix(amendment);
  }

  lemma UpperOfPrefix(amendment: string)
    ensures StartsWith(amendment, "N/A") ==> StartsWith(Upper(amendment), "N/A")
  {
    if StartsWith(amendment, "N/A") {
      assert amendment[0] == "N/A"[0] && amendment[1] == "N/A"[1] && amendment[2] == "N/A"[2];
      assert Upper(amendment)[..3] == "N/A";
    }
  }

  /** On every check Layer 1 builds from two parsable rates, the tool reports an amendment exactly when the
      rates differ, the check passed, and the reference is not an oddly spelled "N/A"; and then it reports the
      cell's own text. */
  lemma ReportsAmendmentIff(priorRaw: string, currentRaw: Option<string>, cell: string)
    ensures var c := RateChangeCheck(priorRaw, currentRaw, Strip(cell));
            HasRates(c) ==>
              && (ResolveAmendment(c).Some? <==>
                    c.value.RatesAndAmendment? && c.status == Passed && !OddlySpelledNA(Strip(cell)))
              && (ResolveAmendment(c).Some? ==> ResolveAmendment(c).value == Strip(cell))
  {
    hide Strip;
    hide PercentDec;
    hide NoAmendment;
    hide OddlySpelledNA;
    hide IsRealAmendment;
    StripTrimmed(cell);
    SameJudgement(Strip(cell));
  }

  /** The exception is real: on "n/a" Layer 1 passes a rate change that the tool reports as unamended. */
  lemma LowerCaseNAIsMissed()
    ensures !NoAmendment("n/a") && !IsRealAmendment("n/a")
  {
    hide Strip;
    StripTrimmed("n/a");
    assert Upper("n/a") == "N/A";
    BigramAbsent(Upper("n/a"), "NO AMENDMENT FILED");
  }

  // ---- end to end ---------------------------------------------------------

  lemma ReferenceIsNotNA(tail: string)
    ensures !OddlySpelledNA(Dc9.AMENDMENT_PREFIX + tail)
  {
    var t := Dc9.AMENDMENT_PREFIX + tail;
    assert Upper(t)[0] == UpperChar(t[0]) == 'A';
  }

  /** The check of a written DC-9 workpaper is that of its three texts. */
  lemma WrittenRateCheck(d: Dc9.Spec, rows: seq<BronzeRow>, cells: Cells)
    requires Dc9.Admissible(d) && IngestedFrom(rows, DC9_SHEET, cells, Dc9.Sheet(d), 28)
    ensures CheckDc9D(rows)
         == RateChangeCheck(Dc9.PriorRateText(d.quarter), Some(BillingRate(d.quarter)), Strip(Dc9.AmendmentText(d)))
  {
    hide IngestedFrom, ReadCell, RateChangeCheck, Strip, Dc9.AmendmentText;
    ReadsBack(rows, DC9_SHEET, cells, Dc9.Sheet(d), 28, 13, 1);
    ReadsBack(rows, DC9_SHEET, cells, Dc9.Sheet(d), 28, 14, 1);
    ReadsBack(rows, DC9_SHEET, cells, Dc9.Sheet(d), 28, 16, 1);
  }

  /** For every written and ingested DC-9 workpaper with a prior period, the check carries the two scheduled rates, and
      the tool reports an amendment exactly when the rate changed and the defect is not the missing amendment. */
  lemma ToolMatchesTheCorpus(d: Dc9.Spec, rows: seq<BronzeRow>, cells: Cells)
    requires Dc9.Admissible(d) && IngestedFrom(rows, DC9_SHEET, cells, Dc9.Sheet(d), 28) && d.quarter != Q1
    ensures var c := CheckDc9D(rows);
            && HasRates(c)
            && CoerceRate(c.value) == Some(RateValue(d.quarter))
            && EmbeddedPriorRate(c.value) == Some(RateValue(PriorQuarter(d.quarter).value))
            && (ResolveAmendment(c).Some? <==> RateChanged(d.quarter) && d.defect != RateChangeWithoutAmendment)
            && (ResolveAmendment(c).Some? ==> ResolveAmendment(c).value == Strip(Dc9.AmendmentText(d)))
  {
    WrittenRateCheck(d, rows, cells);
    ToolOnTheTexts(d);
  }

  lemma ToolOnTheTexts(d: Dc9.Spec)
    requires d.quarter != Q1
    ensures var c := RateChangeCheck(Dc9.PriorRateText(d.quarter), Some(BillingRate(d.quarter)),
                                     Strip(Dc9.AmendmentText(d)));
            && HasRates(c)
            && CoerceRate(c.value) == Some(RateValue(d.quarter))
            && EmbeddedPriorRate(c.value) == Some(RateValue(PriorQuarter(d.quarter).value))
            && (ResolveAmendment(c).Some? <==> RateChanged(d.quarter) && d.defect != RateChangeWithoutAmendment)
            && (ResolveAmendment(c).Some? ==> ResolveAmendment(c).value == Strip(Dc9.AmendmentText(d)))
  {
    hide PercentDec;
    hide Strip;
    hide NoAmendment;
    hide OddlySpelledNA;
    hide ResolveAmendment;
    var p := PriorQuarter(d.quarter).value;
    Dc9.RateHasNoLetters(p);
    Dc9.RateReads(p);
    Dc9.RateReads(d.quarter);
    Dc9.SentinelIsNoAmendment();
    Dc9.ReferenceIsReal(d.year, d.quarter);
    ReferenceIsNotNA(IntText(d.year) + ("-" + QuarterText(d.quarter)));
    Dc9.RateChangedIn(d.quarter);
    RatesOfCheck(Dc9.PriorRateText(d.quarter), Some(BillingRate(d.quarter)), Strip(Dc9.AmendmentText(d)));
    ReportsAmendmentIff(Dc9.PriorRateText(d.quarter), Some(BillingRate(d.quarter)), Dc9.AmendmentText(d));
  }
}
