/** Layer-1 extraction, from bronze rows to one evidence record, and what a
    written workpaper looks like once it has travelled through silver. */
module Orchestrator {
  import opened Text
  import opened Decimals
  import opened Evidence
  import opened Corpus
  import opened Workpaper
  import opened Signoffs
  import opened AttributeChecks
  import opened RateTool
  import opened Amendments
  import S = Silver
  import SR = SilverReader
  import J = Json
  import Dc2
  import Dc9
  import GoldAnswers

  /** The bronze rows of one triple, with the lineage of the first. */
  datatype Bronze = Bronze(rows: seq<BronzeRow>, ingestedAt: S.Timestamp, fileHash: string, sourcePath: string)

  /** The run, and what the model leaves open: midnight UTC of a date, a check's cell references, and the extracted
      dictionaries that no later layer looks into. `runId` is the resolved id: the caller's, or a fresh one when the
      caller gave none or an empty one; it is empty only if the fresh one is. */
  datatype Setting = Setting(runId: string, extractedAt: S.Timestamp, midnight: Date -> S.Timestamp,
                             cellRefs: (Control, Attribute) -> seq<string>, other: (Control, Attribute) -> J.Value)

  /** `_parse_signoff_cell` with the fallback for a missing or unreadable cell. */
  function SignOffAt(b: Bronze, s: Setting, sheet: string, index: nat, role: S.Role): S.SignOff {
    var cell := ReadCell(b.rows, sheet, index, 1);
    var parsed := if cell.None? then None else ParseSignoff(cell.value);
    match parsed
    case None => S.SignOff("??", role, b.ingestedAt)
    case Some(p) => S.SignOff(p.initials, role, s.midnight(p.date))
  }

  /** `_extract_signoffs`: a DC-2 workpaper has no preparer cell, so one is made up. */
  function SignOffs(c: Control, b: Bronze, s: Setting): (S.SignOff, S.SignOff) {
    match c
    case DC9 => (SignOffAt(b, s, DC9_SHEET, 4, S.Preparer), SignOffAt(b, s, DC9_SHEET, 5, S.Reviewer))
    case DC2 => (S.SignOff("AU", S.Preparer, b.ingestedAt), SignOffAt(b, s, DC2_SHEET, 17, S.Reviewer))
  }

  function CheckRecord(c: Control, a: Attribute, b: Bronze, s: Setting): S.AttributeCheck
    requires a in AttributesOf(c)
  {
    DispatchIsTotal(c, a, b.rows);
    var check := CheckAttribute(c, a, b.rows).value;
    S.AttributeCheck(c, a, check.status, s.cellRefs(c, a), Encode(check.value, s.other(c, a)),
                     check.notes)
  }

  function Checks(c: Control, b: Bronze, s: Setting): (cs: seq<S.AttributeCheck>)
    ensures |cs| == |AttributesOf(c)|
    ensures forall i | 0 <= i < |cs| :: cs[i] == CheckRecord(c, AttributesOf(c)[i], b, s)
  {
    seq(|AttributesOf(c)|, i requires 0 <= i < |AttributesOf(c)| => CheckRecord(c, AttributesOf(c)[i], b, s))
  }

  datatype Extraction = Record(record: S.Record) | NoRows | RejectedByModel

  function Assembled(t: S.Triple, b: Bronze, s: Setting): S.Record {
    var (preparer, reviewer) := SignOffs(t.control, b, s);
    S.Record(t, s.runId, s.extractedAt, preparer, reviewer, Checks(t.control, b, s), b.fileHash, b.sourcePath)
  }

  function Extract(t: S.Triple, b: Bronze, s: Setting): Extraction {
    if b.rows == [] then NoRows
    else if S.Valid(Assembled(t, b, s)) then Record(Assembled(t, b, s))
    else RejectedByModel
  }

  /** The record, field by field: the triple, the run, the lineage of the rows, and one check per attribute with the
      status, notes and cell references of its own check. */
  lemma RecordIs(t: S.Triple, b: Bronze, s: Setting, i: nat)
    requires i < |AttributesOf(t.control)|
    ensures var r, a := Assembled(t, b, s), AttributesOf(t.control)[i];
            && r.triple == t && r.runId == s.runId && r.extractedAt == s.extractedAt
            && r.fileHash == b.fileHash && r.sourcePath == b.sourcePath
            && r.preparer.role == S.Preparer && r.reviewer.role == S.Reviewer
            && |r.attributes| == |AttributesOf(t.control)|
            && var c := r.attributes[i];
               && c.control == t.control && c.attribute == a && c.cellRefs == s.cellRefs(t.control, a)
               && CheckAttribute(t.control, a, b.rows).Some?
               && c.status == CheckAttribute(t.control, a, b.rows).value.status
               && c.notes == CheckAttribute(t.control, a, b.rows).value.notes
  {
    DispatchIsTotal(t.control, AttributesOf(t.control)[i], b.rows);
    hide CheckAttribute, Encode, ReadCell, ParseSignoff;
  }

  /** A sign-off cell that is missing or cannot be read is recorded as two question marks at ingest time. */
  lemma UnreadableSignOff(b: Bronze, s: Setting, sheet: string, index: nat, role: S.Role)
    ensures var cell := ReadCell(b.rows, sheet, index, 1);
            && (cell.None? || ParseSignoff(cell.value).None? ==>
                  SignOffAt(b, s, sheet, index, role) == S.SignOff("??", role, b.ingestedAt))
            && (cell.Some? && ParseSignoff(cell.value).Some? ==>
                  var p := ParseSignoff(cell.value).value;
                  SignOffAt(b, s, sheet, index, role) == S.SignOff(p.initials, role, s.midnight(p.date)))
  {
    hide ReadCell, ParseSignoff;
  }

  lemma SignOffIsValid(b: Bronze, s: Setting, sheet: string, index: nat, role: S.Role)
    ensures 2 <= |SignOffAt(b, s, sheet, index, role).initials| <= 4
  {
    hide ParseSignoff;
    var cell := ReadCell(b.rows, sheet, index, 1);
    hide ReadCell;
    if cell.Some? { ParsedSignoffIsValid(cell.value); }
  }

  lemma CoversTheControl(c: Control, b: Bronze, s: Setting)
    ensures S.AttributeIds(Checks(c, b, s)) == AttributesOf(c)
    ensures forall i | 0 <= i < |Checks(c, b, s)| :: Checks(c, b, s)[i].control == c
  {
    hide CheckAttribute;
  }

  /** Whatever the rows hold, readable or not, extraction yields a record its model accepts; it fails exactly
      when there is no row or an identifying string is empty. */
  lemma ExtractsIff(t: S.Triple, b: Bronze, s: Setting)
    ensures Extract(t, b, s).Record? <==> b.rows != [] && t.engagement != "" && b.fileHash != "" && s.runId != ""
    ensures Extract(t, b, s).NoRows? <==> b.rows == []
    ensures Extract(t, b, s).Record? ==> S.Valid(Extract(t, b, s).record)
  {
    hide SignOffAt, Checks, S.AttributeIds, AttributesOf;
    CoversTheControl(t.control, b, s);
    SignOffIsValid(b, s, DC9_SHEET, 4, S.Preparer);
    SignOffIsValid(b, s, DC9_SHEET, 5, S.Reviewer);
    SignOffIsValid(b, s, DC2_SHEET, 17, S.Reviewer);
  }

  // ---- through silver -----------------------------------------------------

  /** The record Layer 2 reads after extraction and one write to a silver table. */
  function ReadBackRecord(table: seq<S.Row>, t: S.Triple, b: Bronze, s: Setting): SR.ReadResult {
    SR.ReadTriple(S.Merge(table, S.Explode(Assembled(t, b, s))), t)
  }

  /** The dictionaries left open are JSON. */
  predicate OthersAreJson(s: Setting) { forall c: Control, a: Attribute :: J.WellFormed(s.other(c, a)) }

  lemma ChecksAreJson(t: S.Triple, b: Bronze, s: Setting)
    requires OthersAreJson(s)
    ensures S.Representable(Assembled(t, b, s))
  {
    hide J.WellFormed, CheckAttribute, SignOffs, Encode;
    var cs := Checks(t.control, b, s);
    assert Assembled(t, b, s).attributes == cs;
    forall i | 0 <= i < |cs| ensures J.WellFormed(cs[i].extracted) {
      var a := AttributesOf(t.control)[i];
      assert cs[i] == CheckRecord(t.control, a, b, s);
      DispatchIsTotal(t.control, a, b.rows);
      EncodedIsWellFormed(CheckAttribute(t.control, a, b.rows).value.value, s.other(t.control, a));
    }
  }

  lemma SortedChecksAreChecks(t: S.Triple, b: Bronze, s: Setting, c: S.AttributeCheck)
    requires c in SR.SortedChecks(Checks(t.control, b, s), ALL_ATTRIBUTES)
    ensures c.attribute in AttributesOf(t.control) && c == CheckRecord(t.control, c.attribute, b, s)
  {
    SR.SortedMembers(Checks(t.control, b, s), ALL_ATTRIBUTES);
    hide SR.SortedChecks, CheckAttribute;
  }

  lemma ReadIsValid(rows: seq<S.Row>, t: S.Triple)
    ensures SR.ReadTriple(rows, t).Read? ==>
              S.Valid(SR.ReadTriple(rows, t).record) && SR.ReadTriple(rows, t).record.triple == t
  {
    hide S.Valid, SR.ParseRows, SR.Select;
  }

  lemma SurvivesSilver(table: seq<S.Row>, t: S.Triple, b: Bronze, s: Setting)
    requires SR.TableOk(table) && OthersAreJson(s) && Extract(t, b, s).Record?
    ensures var r := ReadBackRecord(table, t, b, s);
            && r.Read? && S.Valid(r.record) && r.record.triple == t
            && r.record == SR.SortedRecord(Assembled(t, b, s))
            && forall c | c in r.record.attributes ::
                 c.attribute in AttributesOf(t.control) && c == CheckRecord(t.control, c.attribute, b, s)
  {
    var r := Assembled(t, b, s);
    ChecksAreJson(t, b, s);
    assert r.attributes == Checks(t.control, b, s) && r.triple == t;
    assert S.Valid(r);
    hide S.Merge, S.Explode, SR.ReadTriple, SR.SortedChecks, S.Valid, S.Representable, SR.TableOk;
    hide CheckAttribute, Checks, Assembled, CheckRecord, OthersAreJson;
    SR.ReadAfterWrite(table, r);
    ReadIsValid(S.Merge(table, S.Explode(r)), t);
    forall c | c in SR.SortedRecord(r).attributes
      ensures c.attribute in AttributesOf(t.control) && c == CheckRecord(t.control, c.attribute, b, s)
    {
      SortedChecksAreChecks(t, b, s, c);
    }
  }

  lemma NotEmpty(b: Bronze, sheet: string, r: nat, column: nat)
    requires ReadCell(b.rows, sheet, r, column).Some?
    ensures b.rows != []
  {
  }

  /** A written DC-9 workpaper, ingested, extracted, stored and read back: the record carries the initials and dates
      the writer drew, passes everywhere but D, and D is the verdict its quarter and defect call for. */
  lemma WrittenDc9Arrives(d: Dc9.Spec, cells: Cells, table: seq<S.Row>, t: S.Triple, b: Bronze, s: Setting)
    requires Dc9.Admissible(d) && IngestedFrom(b.rows, DC9_SHEET, cells, Dc9.Sheet(d), 28)
    requires t.control == DC9 && t.quarter == d.quarter && t.engagement != "" && b.fileHash != "" && s.runId != ""
    requires SR.TableOk(table) && OthersAreJson(s)
    ensures var r := ReadBackRecord(table, t, b, s);
            && r.Read? && S.Valid(r.record) && r.record.triple == t
            && r.record.preparer == S.SignOff(d.preparer, S.Preparer, s.midnight(Dc9.PreparedOn(d)))
            && r.record.reviewer == S.SignOff(d.reviewer, S.Reviewer, s.midnight(Dc9.ReviewedOn(d)))
            && forall c | c in r.record.attributes ::
                 c.status == if c.attribute == D then Dc9.ExpectedD(d.quarter, d.defect) else Passed
  {
    Dc9.SignoffVerdicts(d, b.rows, cells);
    NotEmpty(b, DC9_SHEET, 4, 1);
    Dc9.WrittenWorkpaperChecks(d, b.rows, cells);
    hide IngestedFrom, ReadCell, CheckAttribute, ParseSignoff, Dc9.CheckStatusOf;
    ExtractsIff(t, b, s);
    SurvivesSilver(table, t, b, s);
    hide ReadBackRecord, SR.SortedChecks, S.Valid, Checks;
  }

  /** A written DC-2 workpaper likewise: the reviewer comes back as drawn, the preparer is the placeholder, and on
      every attribute the stored status is the gold answer when a row is above threshold or none is needed. */
  lemma WrittenDc2Arrives(d: Dc2.Spec, cells: Cells, table: seq<S.Row>, t: S.Triple, b: Bronze, s: Setting)
    requires Dc2.Admissible(d) && DefectMatches(d.defect, DC2)
    requires IngestedFrom(b.rows, DC2_SHEET, cells, Dc2.Sheet(d), 19)
    requires t.control == DC2 && t.quarter == d.quarter && t.engagement != "" && b.fileHash != "" && s.runId != ""
    requires SR.TableOk(table) && OthersAreJson(s)
    ensures var r := ReadBackRecord(table, t, b, s);
            && r.Read? && S.Valid(r.record) && r.record.triple == t
            && r.record.preparer == S.SignOff("AU", S.Preparer, b.ingestedAt)
            && r.record.reviewer == S.SignOff(d.reviewer, S.Reviewer, s.midnight(DateInQuarter(d.quarter, d.reviewDay)))
            && (d.defect in {NoDefect, VarianceBoundary} || Dc2.AnyAbove(d.streams, 5) ==>
                  forall c | c in r.record.attributes :: c.status == GoldAnswers.GoldResult(d.defect, c.attribute))
  {
    Dc2.WrittenWorkpaperChecks(d, b.rows, cells);
    NotEmpty(b, DC2_SHEET, 17, 1);
    Dc2.AgreesWithGoldIff(d, b.rows, cells);
    hide IngestedFrom, ReadCell, CheckAttribute, ParseSignoff, Dc2.AnyAbove, DateInQuarter;
    ExtractsIff(t, b, s);
    SurvivesSilver(table, t, b, s);
    hide ReadBackRecord, SR.SortedChecks, S.Valid, Checks;
  }

  // ---- the rate tool on what was stored -----------------------------------

  lemma StoredCheckOf(table: seq<S.Row>, t: S.Triple, b: Bronze, s: Setting, a: Attribute)
    requires SR.TableOk(table) && OthersAreJson(s) && Extract(t, b, s).Record? && a in AttributesOf(t.control)
    ensures var r := ReadBackRecord(table, t, b, s);
            r.Read? && SR.CheckFor(r.record.attributes, a) == Some(CheckRecord(t.control, a, b, s))
  {
    SurvivesSilver(table, t, b, s);
    hide ReadBackRecord, Assembled, CheckRecord, SR.SortedChecks;
    var r := ReadBackRecord(table, t, b, s).record;
    SR.ValidCoverage(r, a);
  }

  lemma RateRecord(b: Bronze, s: Setting)
    ensures var c := CheckRecord(DC9, D, b, s);
            c.extracted == Encode(CheckDc9D(b.rows).value, s.other(DC9, D)) && c.notes == CheckDc9D(b.rows).notes
  {
    hide CheckDc9D, Encode;
  }

  /** The stored rate check gives the tool the rates and the amendment that Layer 1 found, whatever the rows hold. */
  lemma StoredRateCheck(table: seq<S.Row>, t: S.Triple, b: Bronze, s: Setting)
    requires SR.TableOk(table) && OthersAreJson(s) && Extract(t, b, s).Record? && t.control == DC9
    ensures var r := ReadBackRecord(table, t, b, s);
            && r.Read? && r.record.triple == t
            && var c := RateCheckOf(Some(r.record));
               && c.Some?
               && CoerceJson(c.value.extracted) == CoerceRate(CheckDc9D(b.rows).value)
               && EmbeddedPriorJson(c.value.extracted) == EmbeddedPriorRate(CheckDc9D(b.rows).value)
               && ResolveStored(c.value) == ResolveAmendment(CheckDc9D(b.rows))
  {
    SurvivesSilver(table, t, b, s);
    StoredCheckOf(table, t, b, s, D);
    hide ReadBackRecord, Extract, OthersAreJson, SR.TableOk, CheckRecord, SR.SortedChecks, S.Valid, Assembled;
    hide CheckDc9D, CheckAttribute, Encode, CoerceJson, EmbeddedPriorJson, ResolveStored;
    hide CoerceRate, EmbeddedPriorRate, ResolveAmendment;
    NeverOther(b.rows);
    RateRecord(b, s);
    StoredCheckReads(CheckDc9D(b.rows), CheckRecord(DC9, D, b, s), s.other(DC9, D));
  }

  lemma NeverOther(rows: seq<BronzeRow>)
    ensures !CheckDc9D(rows).value.Other?
  {
    hide RateChangeCheck, ReadCell;
    var priorRaw := OrEmpty(ReadCell(rows, DC9_SHEET, 13, 1));
    var currentRaw := ReadCell(rows, DC9_SHEET, 14, 1);
    RateCheckIsNotOther(priorRaw, currentRaw, Strip(OrEmpty(ReadCell(rows, DC9_SHEET, 16, 1))));
  }

  /** The record is of quarter q, and its rate check carries no rate or the scheduled one. */
  predicate KnowsRateOf(r: S.Record, q: Quarter) {
    && r.triple.quarter == q
    && var c := RateCheckOf(Some(r));
       c.Some? ==> CoerceJson(c.value.extracted) in {None, Some(RateValue(q))}
  }

  lemma CompareKnown(current: S.Record, prior: Option<S.Record>, q: Quarter, p: Quarter)
    requires p != q && current.triple.quarter == q && (prior.Some? ==> KnowsRateOf(prior.value, p))
    requires var c := RateCheckOf(Some(current));
             && c.Some? && CoerceJson(c.value.extracted) == Some(RateValue(q))
             && EmbeddedPriorJson(c.value.extracted) == Some(RateValue(p))
    ensures var x := CompareStored(Some(current), prior, q, p);
            && x.current == Some(RateValue(q)) && x.prior == Some(RateValue(p))
            && x.delta == Some(RateValue(q) - RateValue(p))
            && x.percentChange == Some((RateValue(q) - RateValue(p)) / RateValue(p))
            && x.amendment == ResolveStored(RateCheckOf(Some(current)).value)
  {
    assert RateValue(p) > 0.0;
    hide RateValue, CoerceJson, EmbeddedPriorJson, ResolveStored, RateCheckOf;
    NoRecordNoCheck();
  }

  /** Whatever the workpaper holds: when its stored check carries two rates and the prior quarter's evidence is missing
      or carries none, the tool compares exactly the two cells that Layer 1 compared, and its difference is within the
      tolerance if and only if Layer 1 found no rate change. */
  lemma FallsBackOnEmbeddedPrior(table: seq<S.Row>, t: S.Triple, b: Bronze, s: Setting, prior: Option<S.Record>,
                                 p: Quarter)
    requires SR.TableOk(table) && OthersAreJson(s) && Extract(t, b, s).Record? && t.control == DC9 && p != t.quarter
    requires HasRates(CheckDc9D(b.rows))
    requires prior.Some? && prior.value.triple.quarter == p ==> CarriesNoRate(prior.value)
    ensures var r := ReadBackRecord(table, t, b, s);
            && r.Read?
            && var x := CompareStored(Some(r.record), prior, t.quarter, p);
               && x.current == ParsePercent(ReadCell(b.rows, DC9_SHEET, 14, 1))
               && x.prior == ParsePercent(Some(OrEmpty(ReadCell(b.rows, DC9_SHEET, 13, 1))))
               && x.current.Some? && x.prior.Some? && x.delta == Some(x.current.value - x.prior.value)
               && (Abs(x.delta.value) < SAME_RATE <==> CheckDc9D(b.rows).value.Rates?)
               && x.amendment == ResolveAmendment(CheckDc9D(b.rows))
  {
    hide ReadBackRecord, Extract, RateCheckOf, CoerceJson, EmbeddedPriorJson, ResolveStored, ResolveAmendment;
    hide ReadCell, Strip, RateChangeCheck, PercentDec, CompareStored, CarriesNoRate;
    StoredRateCheck(table, t, b, s);
    RatesOfCheck(OrEmpty(ReadCell(b.rows, DC9_SHEET, 13, 1)), ReadCell(b.rows, DC9_SHEET, 14, 1),
                 Strip(OrEmpty(ReadCell(b.rows, DC9_SHEET, 16, 1))));
    CompareSilent(ReadBackRecord(table, t, b, s).record, prior, t.quarter, p);
  }

  /** The record's rate check is missing or silent. */
  predicate CarriesNoRate(r: S.Record) {
    var c := RateCheckOf(Some(r));
    c.Some? ==> CoerceJson(c.value.extracted).None?
  }

  lemma CompareSilent(current: S.Record, prior: Option<S.Record>, q: Quarter, p: Quarter)
    requires p != q && current.triple.quarter == q && RateCheckOf(Some(current)).Some?
    requires prior.Some? && prior.value.triple.quarter == p ==> CarriesNoRate(prior.value)
    ensures var x, v := CompareStored(Some(current), prior, q, p), RateCheckOf(Some(current)).value.extracted;
            && x.current == CoerceJson(v) && x.prior == EmbeddedPriorJson(v)
            && x.delta == (if x.current.Some? && x.prior.Some? then Some(x.current.value - x.prior.value) else None)
            && x.amendment == ResolveStored(RateCheckOf(Some(current)).value)
  {
    hide CoerceJson, EmbeddedPriorJson, ResolveStored, RateCheckOf;
    NoRecordNoCheck();
  }

  /** What the tool answers for a written DC-9 workpaper after Q1, on the record read back from silver, next to any
      prior record whose own rate check is silent or carries the scheduled rate: both scheduled rates, their
      difference, and an amendment exactly when the rate changed and the defect is not the missing amendment. */
  lemma ToolOnStoredEvidence(d: Dc9.Spec, cells: Cells, table: seq<S.Row>, t: S.Triple, b: Bronze, s: Setting,
                             prior: Option<S.Record>, p: Quarter)
    requires Dc9.Admissible(d) && IngestedFrom(b.rows, DC9_SHEET, cells, Dc9.Sheet(d), 28)
    requires PriorQuarter(d.quarter) == Some(p)
    requires t.control == DC9 && t.quarter == d.quarter && t.engagement != "" && b.fileHash != "" && s.runId != ""
    requires SR.TableOk(table) && OthersAreJson(s)
    requires prior.Some? ==> KnowsRateOf(prior.value, p)
    ensures var r := ReadBackRecord(table, t, b, s);
            && r.Read?
            && var x := CompareStored(Some(r.record), prior, d.quarter, p);
               && x.current == Some(RateValue(d.quarter)) && x.prior == Some(RateValue(p))
               && x.delta == Some(RateValue(d.quarter) - RateValue(p))
               && x.percentChange == Some((RateValue(d.quarter) - RateValue(p)) / RateValue(p))
               && (x.amendment.Some? <==> RateChanged(d.quarter) && d.defect != RateChangeWithoutAmendment)
               && (x.amendment.Some? ==> x.amendment.value == Strip(Dc9.AmendmentText(d)))
  {
    hide ReadBackRecord, CheckDc9D, ResolveAmendment, ResolveStored, CoerceJson, EmbeddedPriorJson, RateCheckOf;
    hide KnowsRateOf, CoerceRate, EmbeddedPriorRate, RateValue, RateChanged, Strip, Dc9.AmendmentText, HasRates;
    hide SR.TableOk, OthersAreJson;
    hide IngestedFrom, Extract, CompareStored;
    ExtractsWritten(d, cells, t, b, s);
    StoredRateCheck(table, t, b, s);
    ToolMatchesTheCorpus(d, b.rows, cells);
    CompareKnown(ReadBackRecord(table, t, b, s).record, prior, d.quarter, p);
  }

  lemma ExtractsWritten(d: Dc9.Spec, cells: Cells, t: S.Triple, b: Bronze, s: Setting)
    requires Dc9.Admissible(d) && IngestedFrom(b.rows, DC9_SHEET, cells, Dc9.Sheet(d), 28)
    requires t.control == DC9 && t.engagement != "" && b.fileHash != "" && s.runId != ""
    ensures Extract(t, b, s).Record?
  {
    hide IngestedFrom, ParseSignoff, Extract;
    Dc9.SignoffVerdicts(d, b.rows, cells);
    NotEmpty(b, DC9_SHEET, 4, 1);
    ExtractsIff(t, b, s);
  }

  /** Every written DC-9 workpaper is such a prior record once stored: Q1 carries no rate, the others theirs. */
  lemma WrittenPriorKnows(d: Dc9.Spec, cells: Cells, table: seq<S.Row>, t: S.Triple, b: Bronze, s: Setting)
    requires Dc9.Admissible(d) && IngestedFrom(b.rows, DC9_SHEET, cells, Dc9.Sheet(d), 28)
    requires t.control == DC9 && t.quarter == d.quarter && t.engagement != "" && b.fileHash != "" && s.runId != ""
    requires SR.TableOk(table) && OthersAreJson(s)
    ensures ReadBackRecord(table, t, b, s).Read?
    ensures KnowsRateOf(ReadBackRecord(table, t, b, s).record, d.quarter)
  {
    hide IngestedFrom, ReadBackRecord, CheckDc9D, ResolveAmendment, ResolveStored, CoerceJson, RateCheckOf, RateValue;
    hide Extract, Strip, Dc9.AmendmentText, SR.TableOk, OthersAreJson, EmbeddedPriorJson, EmbeddedPriorRate;
    ExtractsWritten(d, cells, t, b, s);
    StoredRateCheck(table, t, b, s);
    if d.quarter == Q1 {
      WrittenRateCheck(d, b.rows, cells);
      hide RateChangeCheck;
      Dc9.FirstPeriodIsNotApplicable(Some(BillingRate(Q1)), Strip(Dc9.AmendmentText(d)));
    } else {
      ToolMatchesTheCorpus(d, b.rows, cells);
    }
  }

  // ---- the whole path -----------------------------------------------------

  /** Render, ingest, extract, write and read one DC-9 workpaper; the sheet range and the fate of blank cells are
      the spreadsheet library's. */
  method RunDc9(d: Dc9.Spec, t: S.Triple, fileHash: string, sourcePath: string, ingestedAt: S.Timestamp, s: Setting,
                maxRow: nat, width: nat, keepBlank: bool, silver: SR.SilverTable) returns (r: SR.ReadResult)
    requires Dc9.Admissible(d) && t.control == DC9 && t.quarter == d.quarter
    requires t.engagement != "" && fileHash != "" && s.runId != ""
    requires maxRow >= 28 && Covers(width, Dc9.Sheet(d), 28)
    requires SR.TableOk(silver.rows) && OthersAreJson(s)
    modifies silver
    ensures SR.TableOk(silver.rows)
    ensures r.Read? && S.Valid(r.record) && r.record.triple == t
    ensures r.record.preparer == S.SignOff(d.preparer, S.Preparer, s.midnight(Dc9.PreparedOn(d)))
    ensures r.record.reviewer == S.SignOff(d.reviewer, S.Reviewer, s.midnight(Dc9.ReviewedOn(d)))
    ensures forall c | c in r.record.attributes ::
              c.status == if c.attribute == D then Dc9.ExpectedD(d.quarter, d.defect) else Passed
  {
    hide Holds, BronzeRows, Dc9.Layout, Assembled, S.Merge, S.Explode, SR.ReadTriple, SR.TableOk, S.Valid, Covers;
    hide Dc9.ExpectedD, Dc9.PreparedOn, Dc9.ReviewedOn;
    var ws := Dc9.Render(d);
    var rows := ExtractRows(ws.title, ws.cells, maxRow, width, keepBlank);
    var b := Bronze(rows, ingestedAt, fileHash, sourcePath);
    assert IngestedFrom(b.rows, DC9_SHEET, ws.cells, Dc9.Sheet(d), 28);
    hide IngestedFrom, OthersAreJson;
    WrittenDc9Arrives(d, ws.cells, silver.rows, t, b, s);
    RecordIsValid(d, ws.cells, t, b, s);
    SR.WriteKeepsTableOk(silver.rows, Assembled(t, b, s));
    silver.WriteEvidence(Assembled(t, b, s));
    r := silver.ReadEvidence(t);
  }

  lemma RecordIsValid(d: Dc9.Spec, cells: Cells, t: S.Triple, b: Bronze, s: Setting)
    requires Dc9.Admissible(d) && IngestedFrom(b.rows, DC9_SHEET, cells, Dc9.Sheet(d), 28)
    requires t.control == DC9 && t.engagement != "" && b.fileHash != "" && s.runId != ""
    ensures S.Valid(Assembled(t, b, s)) && Assembled(t, b, s).triple == t
  {
    hide IngestedFrom, S.Valid;
    ExtractsWritten(d, cells, t, b, s);
  }
}
