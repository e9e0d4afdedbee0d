/** The judge sweep: every narrative is judged against cached silver evidence and
    appended as one outcome row; a row that fails anywhere is skipped and not counted. */
module JudgeSweep {
  import opened Decimals
  import opened Evidence
  import opened Keys
  import opened Silver
  import opened EvidenceCache
  import opened GoldNarratives
  import FC = FailClosed

  /** `ATTRIBUTE_DEFINITIONS_PER_CONTROL`. */
  function Description(c: Control, a: Attribute): string
    requires a in AttributesOf(c)
  {
    match (c, a)
    case (DC2, A) => "Current-period accrual data loaded completely"
    case (DC2, B) => "Variances above threshold have recorded explanation"
    case (DC2, C) => "Explanations are consistent with upstream source"
    case (DC2, D) => "Reviewer signed off on the variance analysis"
    case (DC9, A) => "Preparer signed off on the Checklist"
    case (DC9, B) => "Independent reviewer signed off"
    case (DC9, C) => "Billing formulas tie to underlying supporting schedule"
    case (DC9, D) => "Billing rate change supported by governing-document amendment"
    case (DC9, E) => "Asset additions and retirements on the supporting schedule"
    case (DC9, F) => "Ownership-share percentages match supporting reference file"
  }

  /** None is the KeyError of an attribute the control does not have. */
  function Definition(c: Control, a: Attribute): Option<string> {
    if a !in AttributesOf(c) then None
    else Some(ControlText(c) + "." + AttributeText(a) + " \U{2014} " + Description(c, a))
  }

  datatype Outcome = Outcome(judgeRunId: string, narrativeRunId: string, key: GoldKey, judgement: FC.Judgement,
                             goldVerdict: string, factCheckPassed: bool, deployment: string)

  /** `JudgeOutcomeRow`; `key.promptVersion` is the judge's. */
  predicate ValidOutcome(o: Outcome) {
    && o.judgeRunId != "" && o.narrativeRunId != "" && o.key.triple.engagement != ""
    && 0.0 <= o.judgement.confidence <= 1.0 && o.judgement.reasoning != ""
    && o.goldVerdict != "" && o.key.promptVersion != "" && o.deployment != ""
  }

  /** What surrounds the loop. `judge` and `write` take the row's position, so that any row may fail on its own. */
  datatype Setting = Setting(
    gold: map<(Control, Quarter, Attribute), string>,
    judge: (nat, GoldNarrative, Record, string, string) -> Option<FC.Judgement>,
    write: (nat, Outcome) -> bool,
    judgeRunId: string, promptVersion: string, deployment: string)

  function TripleOf(n: GoldNarrative): Triple { n.key.triple }

  /** `narrative_call_id or generation_run_id`: an empty call id counts as none. */
  function RunIdOf(n: GoldNarrative): string {
    if n.callId.Some? && n.callId.value != "" then n.callId.value else n.generationRunId
  }

  function OutcomeOf(s: Setting, n: GoldNarrative, j: FC.Judgement, goldVerdict: string): Outcome {
    Outcome(s.judgeRunId, RunIdOf(n), n.key.(promptVersion := s.promptVersion), j, goldVerdict, n.passed, s.deployment)
  }

  /** Everything after the evidence is at hand; None when any step raises. */
  function JudgeRow(s: Setting, i: nat, n: GoldNarrative, e: Record): Option<Outcome> {
    var t := n.key.triple;
    match Definition(t.control, n.key.attribute)
    case None => None
    case Some(definition) =>
      if (t.control, t.quarter, n.key.attribute) !in s.gold then None
      else
        var expected := s.gold[(t.control, t.quarter, n.key.attribute)];
        match s.judge(i, n, e, expected, definition)
        case None => None
        case Some(j) =>
          var o := OutcomeOf(s, n, j, expected);
          if ValidOutcome(o) && s.write(i, o) then Some(o) else None
  }

  function Judged(s: Setting, narratives: seq<GoldNarrative>, read: Script): Swept<Outcome> {
    Sweep(narratives, TripleOf, read, (i, n, e) => JudgeRow(s, i, n, e))
  }

  function CountOf(rows: seq<Outcome>, v: FC.Verdict): nat {
    if rows == [] then 0
    else CountOf(rows[..|rows| - 1], v) + if rows[|rows| - 1].judgement.verdict == v then 1 else 0
  }

  function VerdictCounts(rows: seq<Outcome>): map<FC.Verdict, nat> {
    map[FC.Pass := CountOf(rows, FC.Pass), FC.Fail := CountOf(rows, FC.Fail),
        FC.Uncertain := CountOf(rows, FC.Uncertain)]
  }

  lemma NoCounts()
    ensures VerdictCounts([]) == map[FC.Pass := 0, FC.Fail := 0, FC.Uncertain := 0]
  {
  }

  lemma CountOneMore(rows: seq<Outcome>, o: Outcome)
    ensures var v := o.judgement.verdict;
            && v in VerdictCounts(rows)
            && VerdictCounts(rows + [o]) == VerdictCounts(rows)[v := VerdictCounts(rows)[v] + 1]
  {
    assert (rows + [o])[..|rows|] == rows;
    match o.judgement.verdict
    case Pass =>
    case Fail =>
    case Uncertain =>
  }

  class OutcomesTable {
    var rows: seq<Outcome>

    constructor ()
      ensures rows == []
    {
      rows := [];
    }

    /** `write_judge_outcome`, an INSERT; `ok` is whether the statement went through. */
    method WriteOutcome(o: Outcome, ok: bool)
      modifies this
      ensures rows == if ok then old(rows) + [o] else old(rows)
    {
      if ok { rows := rows + [o]; }
    }
  }

  /** One narrative, from its evidence to its row; None when anything raised. */
  method JudgeOne(s: Setting, i: nat, n: GoldNarrative, e: Record, table: OutcomesTable) returns (o: Option<Outcome>)
    modifies table
    ensures o == JudgeRow(s, i, n, e)
    ensures table.rows == if o.Some? then old(table.rows) + [o.value] else old(table.rows)
  {
    var t := n.key.triple;
    var definition := Definition(t.control, n.key.attribute);
    if definition.None? { return None; }
    if (t.control, t.quarter, n.key.attribute) !in s.gold { return None; }
    var expected := s.gold[(t.control, t.quarter, n.key.attribute)];
    var response := s.judge(i, n, e, expected, definition.value);
    if response.None? { return None; }
    var outcome := OutcomeOf(s, n, response.value, expected);
    if !ValidOutcome(outcome) { return None; }
    var ok := s.write(i, outcome);
    table.WriteOutcome(outcome, ok);
    o := if ok then Some(outcome) else None;
  }

  method RunSweep(s: Setting, narratives: seq<GoldNarrative>, reader: Reader, table: OutcomesTable)
    returns (total: nat, counts: map<FC.Verdict, nat>)
    requires reader.calls == []
    modifies reader, table
    ensures var swept := Judged(s, narratives, reader.script);
            && reader.calls == swept.cache.calls
            && table.rows == old(table.rows) + swept.kept
            && total == |swept.kept|
            && counts == VerdictCounts(swept.kept)
  {
    hide JudgeRow, VerdictCounts;
    total := 0;
    counts := map[FC.Pass := 0, FC.Fail := 0, FC.Uncertain := 0];
    var cache: map<Triple, Record> := map[];
    ghost var kept: seq<Outcome> := [];
    NoCounts();
    for i := 0 to |narratives|
      invariant Swept(Cache(cache, reader.calls), kept) == Judged(s, narratives[..i], reader.script)
      invariant table.rows == old(table.rows) + kept
      invariant total == |kept| && counts == VerdictCounts(kept)
    {
      assert narratives[..i + 1][..i] == narratives[..i];
      var e;
      cache, e := Get(reader, cache, TripleOf(narratives[i]));
      if e.Some? {
        var o := JudgeOne(s, i, narratives[i], e.value, table);
        if o.Some? {
          CountOneMore(kept, o.value);
          counts := counts[o.value.judgement.verdict := counts[o.value.judgement.verdict] + 1];
          total := total + 1;
          kept := kept + [o.value];
        }
      }
    }
    assert narratives[..|narratives|] == narratives;
  }

  /** Every appended row has exactly one of the three verdicts, so the counters add up to the rows. */
  lemma {:induction false} CountsAddUp(rows: seq<Outcome>)
    ensures CountOf(rows, FC.Pass) + CountOf(rows, FC.Fail) + CountOf(rows, FC.Uncertain) == |rows|
  {
    if rows != [] { CountsAddUp(rows[..|rows| - 1]); }
  }

  /** With a deterministic reader the sweep appends exactly the rows of reading the evidence afresh for
      every narrative. */
  lemma SameRowsAsFreshReads(s: Setting, narratives: seq<GoldNarrative>, script: Script, read: Triple -> Option<Record>)
    requires forall n, t :: script(n, t) == read(t)
    ensures Judged(s, narratives, script).kept
         == Uncached(narratives, TripleOf, read, (i, n, e) => JudgeRow(s, i, n, e))
  {
    CacheIsTransparent(narratives, TripleOf, script, read, (i, n, e) => JudgeRow(s, i, n, e));
  }

  /** Every row is the outcome of some narrative on evidence the reader returned for its triple; it keeps the
      narrative's scope and fact-check verdict, carries the gold verdict of that scope and the judge's own answer, and
      names the narrative by its call id or, for want of one, by its generation run. */
  lemma RowsComeFromNarratives(s: Setting, narratives: seq<GoldNarrative>, script: Script,
                               read: Triple -> Option<Record>, k: nat) returns (i: nat, e: Record)
    requires forall n, t :: script(n, t) == read(t)
    requires k < |Judged(s, narratives, script).kept|
    ensures i < |narratives|
    ensures read(narratives[i].key.triple) == Some(e)
    ensures IsOutcomeOf(Judged(s, narratives, script).kept[k], s, i, narratives[i], e)
  {
    i, e := RowIsJudged(s, narratives, script, read, k);
    JudgedFields(s, i, narratives[i], e);
  }

  /** o is the row of narrative n, the i-th, on evidence e. */
  predicate IsOutcomeOf(o: Outcome, s: Setting, i: nat, n: GoldNarrative, e: Record) {
    var t := n.key.triple;
    var scope := (t.control, t.quarter, n.key.attribute);
    && scope in s.gold && o.goldVerdict == s.gold[scope]
    && Definition(t.control, n.key.attribute).Some?
    && s.judge(i, n, e, o.goldVerdict, Definition(t.control, n.key.attribute).value) == Some(o.judgement)
    && o.key.triple == t && o.key.attribute == n.key.attribute && o.key.promptVersion == s.promptVersion
    && o.judgeRunId == s.judgeRunId && o.deployment == s.deployment && o.factCheckPassed == n.passed
    && (n.callId in {None, Some("")} ==> o.narrativeRunId == n.generationRunId)
    && (n.callId !in {None, Some("")} ==> Some(o.narrativeRunId) == n.callId)
    && s.write(i, o)
  }

  lemma JudgedFields(s: Setting, i: nat, n: GoldNarrative, e: Record)
    ensures JudgeRow(s, i, n, e).Some? ==> IsOutcomeOf(JudgeRow(s, i, n, e).value, s, i, n, e)
  {
    hide Definition, ValidOutcome;
  }

  /** What the row model refuses of a valid judgement: an empty name, and nothing else. */
  lemma OutcomeAcceptedIff(s: Setting, n: GoldNarrative, j: FC.Judgement, goldVerdict: string)
    requires FC.ValidJudgement(j)
    ensures ValidOutcome(OutcomeOf(s, n, j, goldVerdict)) <==>
              && s.judgeRunId != "" && s.promptVersion != "" && s.deployment != "" && goldVerdict != ""
              && n.key.triple.engagement != ""
              && (n.generationRunId != "" || n.callId !in {None, Some("")})
  {
  }

  /** A definition begins with the pair it defines, and exists for exactly the attributes of the control. */
  lemma DefinitionNamesItsPair(c: Control, a: Attribute)
    ensures Definition(c, a).Some? <==> a in AttributesOf(c)
    ensures Definition(c, a).Some? ==>
              ControlText(c) + "." + AttributeText(a) + " \U{2014} " <= Definition(c, a).value
  {
  }

  lemma {:induction false} RowIsJudged(s: Setting, narratives: seq<GoldNarrative>, script: Script,
                                       read: Triple -> Option<Record>, k: nat) returns (i: nat, e: Record)
    requires forall n, t :: script(n, t) == read(t)
    requires k < |Judged(s, narratives, script).kept|
    ensures i < |narratives|
    ensures read(narratives[i].key.triple) == Some(e)
    ensures JudgeRow(s, i, narratives[i], e) == Some(Judged(s, narratives, script).kept[k])
  {
    hide JudgeRow;
    var n := |narratives| - 1;
    var front := narratives[..n];
    CacheIsTransparent(narratives, TripleOf, script, read, (i, n, e) => JudgeRow(s, i, n, e));
    CacheIsTransparent(front, TripleOf, script, read, (i, n, e) => JudgeRow(s, i, n, e));
    if k < |Judged(s, front, script).kept| {
      i, e := RowIsJudged(s, front, script, read, k);
    } else {
      i, e := n, read(narratives[n].key.triple).value;
    }
  }
}
