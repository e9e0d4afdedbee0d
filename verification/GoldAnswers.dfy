/** The gold answer of a (control, quarter) pair: one expected result per attribute. */
module GoldAnswers {
  import opened Decimals
  import opened Evidence

  /** `_DEFECT_TO_ATTRIBUTE`. */
  function FailingAttribute(d: Defect): Option<Attribute> {
    match d
    case NoDefect => None
    case RateChangeWithAmendment => None
    case FigureMismatch => Some(C)
    case RateChangeWithoutAmendment => Some(D)
    case VarianceNoExplanation => Some(B)
    case VarianceExplanationInadequate => Some(C)
    case VarianceBoundary => Some(A)
  }

  function GoldResult(d: Defect, a: Attribute): CheckStatus {
    if FailingAttribute(d) == Some(a) then Failed else Passed
  }

  datatype GoldAnswer = GoldAnswer(results: map<Attribute, CheckStatus>, effective: bool)

  method BuildQuarterGoldAnswer(control: Control, defect: Defect) returns (gold: GoldAnswer)
    requires DefectMatches(defect, control)
    ensures gold.results.Keys == set a | a in AttributesOf(control)
    ensures forall a | a in gold.results :: gold.results[a] == GoldResult(defect, a)
    ensures gold.effective <==> forall a | a in gold.results :: gold.results[a] == Passed
  {
    var letters := AttributesOf(control);
    var failing := FailingAttribute(defect);
    var perAttr: map<Attribute, CheckStatus> := map[];
    for k := 0 to |letters|
      invariant perAttr.Keys == set a | a in letters[..k]
      invariant forall a | a in perAttr :: perAttr[a] == GoldResult(defect, a)
    {
      assert letters[..k + 1] == letters[..k] + [letters[k]];
      perAttr := perAttr[letters[k] := if failing == Some(letters[k]) then Failed else Passed];
    }
    assert letters[..|letters|] == letters;
    gold := GoldAnswer(perAttr, failing == None);
    FailingIsDefined(control, defect);
    assert failing.Some? ==> failing.value in perAttr;
  }

  /** A legal defect fails an attribute its control has. */
  lemma FailingIsDefined(control: Control, defect: Defect)
    requires DefectMatches(defect, control)
    ensures FailingAttribute(defect).Some? ==> FailingAttribute(defect).value in AttributesOf(control)
  {
  }
}
