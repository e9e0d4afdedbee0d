/** Controls, attributes, quarters and planted defects. */
module Evidence {

  datatype Control = DC2 | DC9

  datatype Attribute = A | B | C | D | E | F

  datatype Quarter = Q1 | Q2 | Q3 | Q4

  datatype CheckStatus = Passed | Failed | NotApplicable

  datatype Defect =
    | NoDefect
    | FigureMismatch
    | RateChangeWithAmendment
    | RateChangeWithoutAmendment
    | VarianceNoExplanation
    | VarianceExplanationInadequate
    | VarianceBoundary

  const ALL_ATTRIBUTES := [A, B, C, D, E, F]

  /** `ATTRIBUTES_PER_CONTROL`. */
  function AttributesOf(c: Control): seq<Attribute> {
    match c case DC2 => [A, B, C, D] case DC9 => [A, B, C, D, E, F]
  }

  /** `_DEFECT_TO_CONTROL`: a defect is legal on its own control only. */
  predicate DefectMatches(d: Defect, c: Control) {
    match d
    case NoDefect => true
    case FigureMismatch => c == DC9
    case RateChangeWithAmendment => c == DC9
    case RateChangeWithoutAmendment => c == DC9
    case _ => c == DC2
  }
}
