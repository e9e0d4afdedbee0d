/** From a finished investigation to its `gold.layer3_decisions` row. */
module DecisionRow {
  import opened Text
  import opened Decimals
  import opened Supervisor
  import NA = NarrativeAgent
  import FC = FailClosed
  import E = Evidence
  import opened NumericScanner
  import opened Regex
  import Fact = FactChecker
  import LLM = Llm

  datatype FinalVerdict = VerdictPass | VerdictFail | VerdictUncertain

  datatype ExceptionType = BillingRateChange | VariancePlausibility

  /** What is investigated. */
  datatype Subject = Subject(control: E.Control, attribute: E.Attribute, quarter: E.Quarter, exception: ExceptionType)

  datatype Scope = Scope(agentRunId: string, investigationRunId: string, engagementId: string, subject: Subject,
                         promptVersion: string, deployment: string)

  datatype Row = Row(scope: Scope, verdict: FinalVerdict, confidence: real, iterations: nat, status: Status,
                     text: string, citations: seq<string>, recommendation: NA.Recommendation,
                     toolTrace: seq<Step>, judgeVerdict: Option<FC.Verdict>, judgeConfidence: Option<real>)

  /** The row, or the ValueError that names what was missing. */
  datatype RowResult = Built(row: Row) | NoNarrative | NotTerminal | RejectedByModel

  const DEGRADED_TEXT :=
    "Automated investigation could not reach sufficient confidence; human review required."

  function DegradedNarrative(): Narrative {
    FewerWordsThanChars(DEGRADED_TEXT);
    NA.Narrative(DEGRADED_TEXT, [], NA.ESCALATE, |Words(DEGRADED_TEXT)|)
  }

  /** The final state dict, which `_ensure_terminal_narrative` updates in place. */
  class FinalState<!E> {
    var state: State<E>

    constructor (s: State<E>)
      ensures state == s
    {
      state := s;
    }

    method EnsureTerminalNarrative()
      modifies this
      ensures state == WithTerminalNarrative(old(state))
    {
      if state.status != EscalatedToHuman { return; }
      if state.narrative.Some? { return; }
      state := state.(narrative := Some(DegradedNarrative()));
    }
  }

  function WithTerminalNarrative<E>(s: State<E>): State<E> {
    if s.status == EscalatedToHuman && s.narrative.None? then s.(narrative := Some(DegradedNarrative())) else s
  }

  /** `_VERDICT_BY_TERMINAL`. */
  function VerdictByTerminal(status: Status, recommendation: NA.Recommendation): FinalVerdict
    requires status != Investigating
  {
    match (status, recommendation)
    case (Concluded, ACCEPT) => VerdictPass
    case (Concluded, ESCALATE) => VerdictFail
    case _ => VerdictUncertain
  }

  /** The field constraints of `Layer3Decision`; "[]" is the shortest tool trace. */
  predicate ModelAccepts(r: Row) {
    && r.scope.agentRunId != "" && r.scope.investigationRunId != "" && r.scope.engagementId != ""
    && r.scope.promptVersion != "" && r.scope.deployment != ""
    && 0.0 <= r.confidence <= 1.0 && r.text != "" && r.status != Investigating
    && (r.judgeConfidence.Some? ==> 0.0 <= r.judgeConfidence.value <= 1.0)
  }

  function BuildRow<E>(s: State<E>, scope: Scope): RowResult {
    if s.narrative.None? then NoNarrative
    else if s.status == Investigating then NotTerminal
    else
      var n := s.narrative.value;
      var row := Row(scope, VerdictByTerminal(s.status, n.recommendation), s.confidence, s.iterations, s.status,
                     n.text, n.citations, n.recommendation, s.log,
                     if s.judgement.Some? then Some(s.judgement.value.verdict) else None,
                     if s.judgement.Some? then Some(s.judgement.value.confidence) else None);
      if ModelAccepts(row) then Built(row) else RejectedByModel
  }

  /** The composite prompt version: "none" stands in for an agent that is not wired. */
  function PromptVersion(extraction: Option<string>, validation: Option<string>, narrative: Option<string>): string {
    "extraction_" + Written(extraction, "none") + "|validation_" + Written(validation, "none")
    + "|narrative_" + Written(narrative, "none")
  }

  /** The composite is never empty, whatever is wired. */
  lemma PromptVersionIsSet(extraction: Option<string>, validation: Option<string>, narrative: Option<string>)
    ensures PromptVersion(extraction, validation, narrative) != ""
  {
  }

  /** The composite names the three versions in the order of the agents, and "none" for an agent that is not wired. */
  lemma PromptVersionNames(x: string, v: string, n: string)
    ensures PromptVersion(Some(x), Some(v), Some(n)) == "extraction_" + x + "|validation_" + v + "|narrative_" + n
  {
  }

  lemma UnwiredIsNone(x: Option<string>, v: Option<string>, n: Option<string>)
    ensures PromptVersion(None, v, n) == PromptVersion(Some("none"), v, n)
    ensures PromptVersion(x, None, n) == PromptVersion(x, Some("none"), n)
    ensures PromptVersion(x, v, None) == PromptVersion(x, v, Some("none"))
  {
  }

  predicate Identified(scope: Scope) {
    && scope.agentRunId != "" && scope.investigationRunId != "" && scope.engagementId != ""
    && scope.promptVersion != "" && scope.deployment != ""
  }

  /** Every run, whatever is wired and whatever the agents return, ends in a row that the model accepts
      exactly when its identifiers are non-empty; the verdict is pass exactly for a concluded run that
      recommends ACCEPT, fail exactly for a concluded run that recommends ESCALATE, uncertain otherwise. */
  lemma EveryRunIsRecorded<E>(cfg: Config<E>, cap: nat, scope: Scope)
    ensures var f := Final(Initial<E>(), cfg, cap);
            var r := BuildRow(WithTerminalNarrative(f), scope);
            && (r.Built? <==> Identified(scope))
            && (r.Built? ==>
                  && (r.row.verdict == VerdictPass <==>
                        f.status == Concluded && f.narrative.value.recommendation == NA.ACCEPT)
                  && (r.row.verdict == VerdictFail <==>
                        f.status == Concluded && f.narrative.value.recommendation == NA.ESCALATE)
                  && r.row.status == f.status && r.row.toolTrace == f.log
                  && (f.narrative.None? ==> r.row.recommendation == NA.ESCALATE && r.row.citations == []))
  {
    hide Run, Words, GetsNarrative, JudgeCalls, Missing;
    Endings(Initial<E>(), cfg, cap);
    hide Final, GateOpen;
  }

  /** The row of a run in which all three agents are wired and the cap lets them run, field by field: the narrative
      agent's text, citations and recommendation, the validation's confidence, three visits, and the judge's verdict
      and confidence or neither. */
  lemma CompleteRow<E>(cfg: Config<E>, cap: nat, scope: Scope)
    requires AgentsWired(cfg) && cap >= 3 && Identified(scope)
    ensures var run := Run(Initial<E>(), cfg, cap);
            var r := BuildRow(WithTerminalNarrative(Final(Initial<E>(), cfg, cap)), scope);
            && r.Built? && |run| == 7
            && var n, v := cfg.narrative.value(run[4]), cfg.validation.value(run[2]);
               && r.row.text == n.text && r.row.citations == n.citations && r.row.recommendation == n.recommendation
               && r.row.confidence == v.confidence && r.row.iterations == 3
               && r.row.scope == scope && r.row.toolTrace == run[6].log
               && (cfg.judge.None? ==> r.row.judgeVerdict == None && r.row.judgeConfidence == None)
               && (cfg.judge.Some? ==>
                     var j := cfg.judge.value(run[5]);
                     r.row.judgeVerdict == Some(j.verdict) && r.row.judgeConfidence == Some(j.confidence))
  {
    hide Run, GetsNarrative, JudgeCalls, GateOpen;
    OutputsComeFromTheAgents(cfg, cap);
    FinalCounts(Initial<E>(), cfg, cap);
    EveryRunIsRecorded(cfg, cap, scope);
    Endings(Initial<E>(), cfg, cap);
    VisitsFromTheStart(cfg, cap);
  }

  /** The row of any other run: the canned escalation, no confidence, as many visits as the cap allows, and no
      judgement. */
  lemma DegradedRow<E>(cfg: Config<E>, cap: nat, scope: Scope)
    requires !(AgentsWired(cfg) && cap >= 3) && Identified(scope)
    ensures var run := Run(Initial<E>(), cfg, cap);
            var r := BuildRow(WithTerminalNarrative(Final(Initial<E>(), cfg, cap)), scope);
            && r.Built?
            && r.row.text
               == "Automated investigation could not reach sufficient confidence; human review required."
            && r.row.citations == [] && r.row.recommendation == NA.ESCALATE
            && r.row.status == EscalatedToHuman && r.row.verdict == VerdictUncertain
            && r.row.confidence == 0.0 && r.row.iterations == cap
            && r.row.scope == scope && r.row.toolTrace == run[|run| - 1].log
            && r.row.judgeVerdict == None && r.row.judgeConfidence == None
  {
    hide Run, JudgeCalls, GateOpen;
    OutputsComeFromTheAgents(cfg, cap);
    FinalCounts(Initial<E>(), cfg, cap);
    EveryRunIsRecorded(cfg, cap, scope);
    Endings(Initial<E>(), cfg, cap);
  }

  /** A recorded pass means all of it: agents and judge wired, the judge passed it, the validation was
      confident, and the narrative recommends acceptance. */
  lemma RecordedPass<E>(cfg: Config<E>, cap: nat, scope: Scope)
    requires var r := BuildRow(WithTerminalNarrative(Final(Initial<E>(), cfg, cap)), scope);
             r.Built? && r.row.verdict == VerdictPass
    ensures AgentsWired(cfg) && cfg.judge.Some? && cap >= 3
    ensures var row := BuildRow(WithTerminalNarrative(Final(Initial<E>(), cfg, cap)), scope).row;
            && row.judgeVerdict == Some(FC.Pass) && row.confidence >= CONFIDENCE_THRESHOLD
            && row.recommendation == NA.ACCEPT
  {
    hide Run, Final, GetsNarrative, JudgeCalls, GateOpen;
    EveryRunIsRecorded(cfg, cap, scope);
    Endings(Initial<E>(), cfg, cap);
    ConcludesIff(cfg, cap);
  }

  /** What the narrative agent is given in a state: its model's replies, the fact-check sources and the diagnostics. */
  datatype NarrativeInput = NarrativeInput(script: nat -> LLM.Reply<NA.Payload>, sources: NA.Sources,
                                           describe: nat -> string)

  /** The fact check of one state's substrate. */
  function Check(i: NarrativeInput, stopwords: set<string>, similar: (string, string) -> bool): string -> bool {
    text => Fact.Passes(text, NA.FactCheckSubstrate(i.sources), stopwords, similar)
  }

  /** The wired narrative agent is `NarrativeAgent.invoke` on the input of its state. */
  ghost predicate IsNarrativeAgent<E(!new)>(agent: State<E> -> Narrative, input: State<E> -> NarrativeInput,
                                            stopwords: set<string>, similar: (string, string) -> bool) {
    forall s ::
      var i := input(s);
      NA.InvokeRun(i.script, 0, Check(i, stopwords, similar), i.describe).outcome == LLM.Done(agent(s))
  }

  /** A recorded pass never ships an ungrounded number: every standalone number of the recorded text lies in one scanned
      token that is grounded in one of the sources the narrative agent was given. */
  lemma RecordedPassIsGrounded<E(!new)>(cfg: Config<E>, cap: nat, scope: Scope, input: State<E> -> NarrativeInput,
                                        stopwords: set<string>, similar: (string, string) -> bool, a: nat, b: nat)
    returns (token: string, part: nat)
    requires var r := BuildRow(WithTerminalNarrative(Final(Initial<E>(), cfg, cap)), scope);
             && r.Built? && r.row.verdict == VerdictPass
             && MaximalRun(r.row.text, a, b) && Standalone(r.row.text, a, b)
    requires cfg.narrative.Some? ==> IsNarrativeAgent(cfg.narrative.value, input, stopwords, similar)
    ensures var text := BuildRow(WithTerminalNarrative(Final(Initial<E>(), cfg, cap)), scope).row.text;
            exists k | 0 <= k < |Numerics(text)| ::
              Reaches(Numerics(text)[k], a, b) && token == Extract(text, Numerics(text)[k])
    ensures |Run(Initial<E>(), cfg, cap)| == 7
    ensures var parts := NA.SubstrateParts(input(Run(Initial<E>(), cfg, cap)[4]).sources);
            part < |parts| && Fact.NumericGrounded(token, parts[part])
  {
    hide Run, Numerics, MaximalRun, Standalone, Reaches;
    hide NA.InvokeRun, NA.SubstrateParts, Fact.NumericGrounded, Fact.Passes;
    RecordedPass(cfg, cap, scope);
    OutputsComeFromTheAgents(cfg, cap);
    var handed := Run(Initial<E>(), cfg, cap)[4];
    var i, n := input(handed), cfg.narrative.value(handed);
    var run := NA.InvokeRun(i.script, 0, Check(i, stopwords, similar), i.describe);
    assert run.outcome == LLM.Done(n);
    NA.InvokeIsSafe(i.script, 0, Check(i, stopwords, similar), i.describe);
    assert !NA.IsFallback(n);
    token, part := NA.PassingTextIsGrounded(n.text, i.sources, stopwords, similar, a, b);
  }

  // ---- the entry point ----------------------------------------------------

  datatype TriggeringCheck = TriggeringCheck(control: E.Control, attribute: E.Attribute, status: E.CheckStatus)

  datatype EvidenceKey = EvidenceKey(engagementId: string, control: E.Control, quarter: E.Quarter)

  /** `is_layer3_eligible`: a failed DC-9.D or DC-2.B. */
  predicate Eligible(c: TriggeringCheck) {
    c.status == E.Failed && c.attribute in Layer3Attributes(c.control)
  }

  function Layer3Attributes(c: E.Control): set<E.Attribute> {
    match c case DC2 => {E.B} case DC9 => {E.D}
  }

  /** `_EXCEPTION_TYPE_BY_SCOPE`, a second table that must agree with the first. */
  const EXCEPTION_TYPE_BY_SCOPE := map[(E.DC9, E.D) := BillingRateChange, (E.DC2, E.B) := VariancePlausibility]

  predicate Admissible(check: TriggeringCheck, current: EvidenceKey, prior: EvidenceKey) {
    && Eligible(check)
    && current.engagementId == prior.engagementId
    && current.control == prior.control == check.control
  }

  /** An eligible check always has an exception type, and only pairs that can be eligible have one. */
  lemma EligibilityTablesAgree(c: TriggeringCheck)
    ensures (c.control, c.attribute) in EXCEPTION_TYPE_BY_SCOPE <==> Eligible(c.(status := E.Failed))
  {
  }

  /** The prompt versions of the agents that are wired. */
  datatype Versions = Versions(extraction: Option<string>, validation: Option<string>, narrative: Option<string>)

  function ScopeOf(check: TriggeringCheck, current: EvidenceKey, v: Versions, agentRunId: string, runId: string,
                   deployment: string): Scope
    requires (check.control, check.attribute) in EXCEPTION_TYPE_BY_SCOPE
  {
    var subject := Subject(check.control, check.attribute, current.quarter,
                           EXCEPTION_TYPE_BY_SCOPE[(check.control, check.attribute)]);
    Scope(agentRunId, runId, current.engagementId, subject,
          PromptVersion(v.extraction, v.validation, v.narrative), deployment)
  }

  /** The identifying columns of an admissible investigation's row, one by one. */
  lemma ScopeNames(check: TriggeringCheck, current: EvidenceKey, prior: EvidenceKey, v: Versions, agentRunId: string,
                   runId: string, deployment: string)
    requires Admissible(check, current, prior)
    ensures (check.control, check.attribute) in EXCEPTION_TYPE_BY_SCOPE
    ensures var s := ScopeOf(check, current, v, agentRunId, runId, deployment);
            && s.agentRunId == agentRunId && s.investigationRunId == runId && s.engagementId == prior.engagementId
            && s.subject.control == current.control == prior.control && s.subject.attribute == check.attribute
            && s.subject.quarter == current.quarter && s.deployment == deployment
            && (s.subject.exception == BillingRateChange <==> current.control == E.DC9)
            && s.promptVersion == PromptVersion(v.extraction, v.validation, v.narrative)
  {
    hide PromptVersion;
  }

  /** `run_investigation` with a decisions writer: refused, or one row appended. */
  class DecisionsTable {
    var rows: seq<Row>

    constructor ()
      ensures rows == []
    {
      rows := [];
    }

    method RunInvestigation<E(!new)>(check: TriggeringCheck, current: EvidenceKey, prior: EvidenceKey,
                                     cfg: Config<E>, versions: Versions, agentRunId: string, runId: string,
                                     deployment: string)
      returns (final: Option<State<E>>)
      modifies this
      ensures final.Some? <==>
                && Admissible(check, current, prior)
                && agentRunId != "" && runId != "" && current.engagementId != "" && deployment != ""
      ensures final.None? ==> rows == old(rows)
      ensures final.Some? ==>
                var scope := ScopeOf(check, current, versions, agentRunId, runId, deployment);
                && final.value == WithTerminalNarrative(Final(Initial<E>(), cfg, CAP))
                && BuildRow(final.value, scope).Built?
                && rows == old(rows) + [BuildRow(final.value, scope).row]
    {
      hide Run;
      final := None;
      if !Eligible(check) { return; }
      if current.engagementId != prior.engagementId { return; }
      if current.control != prior.control { return; }
      if current.control != check.control { return; }
      var scope := ScopeOf(check, current, versions, agentRunId, runId, deployment);
      PromptVersionIsSet(versions.extraction, versions.validation, versions.narrative);
      hide PromptVersion;
      var finished := new FinalState(Supervisor.Final(Initial<E>(), cfg, CAP));
      finished.EnsureTerminalNarrative();
      EveryRunIsRecorded(cfg, CAP, scope);
      var row := BuildRow(finished.state, scope);
      if row.Built? {
        rows := rows + [row.row];
        final := Some(finished.state);
      }
    }
  }
}
