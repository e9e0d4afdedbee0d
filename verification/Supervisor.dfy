/** The Layer-3 supervisor graph: a rule-based router over three sub-agents with
    an iteration cap, a judge gate that fails closed, and an append-only log.

    Agents and judge are arbitrary functions of the state and each may be absent.
    The cap is a parameter; the repository runs with CAP = 3. */
module Supervisor {
  import opened Decimals
  import FC = FailClosed
  import NA = NarrativeAgent

  const CAP: nat := 3
  const RECURSION_LIMIT: nat := 10
  const CONFIDENCE_THRESHOLD := 0.7

  // ---- state --------------------------------------------------------------

  datatype Route = ToExtraction | ToValidation | ToNarrative | Conclude | Escalate

  datatype Status = Investigating | Concluded | EscalatedToHuman | Failed

  datatype Actor = SupervisorActor | ExtractionActor | ValidationActor | NarrativeActor

  datatype Action = RouteTo(route: Route) | NoAgentInjected | EmittedOutput

  datatype Step = Step(iteration: nat, actor: Actor, action: Action)

  type Findings = f: FC.Findings | FC.ValidFindings(f) witness FC.FAST_PATH

  type Judgement = j: FC.Judgement | FC.ValidJudgement(j) witness FC.UncertainFallback("")

  type Narrative = n: NA.Narrative | n.text != "" && n.wordCount <= NA.WORD_LIMIT witness NA.Fallback("")

  type Confidence = c: real | 0.0 <= c <= 1.0

  datatype State<E> = State(
    extraction: Option<E>,
    validation: Option<Findings>,
    narrative: Option<Narrative>,
    judgement: Option<Judgement>,
    confidence: Confidence,
    iterations: nat,
    status: Status,
    log: seq<Step>)

  function Initial<E>(): State<E> {
    State(None, None, None, None, 0.0, 0, Investigating, [])
  }

  datatype Config<!E> = Config(
    extraction: Option<State<E> -> E>,
    validation: Option<State<E> -> Findings>,
    narrative: Option<State<E> -> Narrative>,
    judge: Option<State<E> -> Judgement>)

  /** What a node returns: the channels it writes, and log entries to append. */
  datatype Delta<E> = Delta(
    extraction: Option<E> := None,
    validation: Option<Findings> := None,
    narrative: Option<Narrative> := None,
    judgement: Option<Judgement> := None,
    confidence: Option<Confidence> := None,
    iterations: Option<nat> := None,
    status: Option<Status> := None,
    log: seq<Step> := [])

  function Written<T>(update: Option<T>, old_: T): T {
    match update case Some(v) => v case None => old_
  }

  function WrittenChannel<T>(update: Option<T>, old_: Option<T>): Option<T> {
    if update.Some? then update else old_
  }

  /** The channel reducers: overwrite, except the log, which concatenates. */
  function Merge<E>(s: State<E>, d: Delta<E>): State<E> {
    State(WrittenChannel(d.extraction, s.extraction), WrittenChannel(d.validation, s.validation),
          WrittenChannel(d.narrative, s.narrative), WrittenChannel(d.judgement, s.judgement),
          Written(d.confidence, s.confidence), Written(d.iterations, s.iterations),
          Written(d.status, s.status), s.log + d.log)
  }

  /** A channel that a node writes takes the new value, one it leaves out keeps the old, and the log only grows. */
  lemma MergeOverwrites<E>(s: State<E>, d: Delta<E>)
    ensures var t := Merge(s, d);
            && (d.extraction.Some? ==> t.extraction == d.extraction)
            && (d.extraction.None? ==> t.extraction == s.extraction)
            && (d.validation.Some? ==> t.validation == d.validation)
            && (d.validation.None? ==> t.validation == s.validation)
            && (d.narrative.Some? ==> t.narrative == d.narrative) && (d.narrative.None? ==> t.narrative == s.narrative)
            && (d.judgement.Some? ==> t.judgement == d.judgement) && (d.judgement.None? ==> t.judgement == s.judgement)
            && (d.confidence.Some? ==> Some(t.confidence) == d.confidence)
            && (d.confidence.None? ==> t.confidence == s.confidence)
            && (d.iterations.Some? ==> Some(t.iterations) == d.iterations)
            && (d.iterations.None? ==> t.iterations == s.iterations)
            && (d.status.Some? ==> Some(t.status) == d.status) && (d.status.None? ==> t.status == s.status)
            && t.log == s.log + d.log
  {
  }

  // ---- routing ------------------------------------------------------------

  predicate GateOpen<E>(s: State<E>) {
    s.confidence >= CONFIDENCE_THRESHOLD && s.judgement.Some? && s.judgement.value.verdict == FC.Pass
  }

  function DecideRoute<E>(s: State<E>, cap: nat): Route {
    if s.extraction.Some? && s.validation.Some? && s.narrative.Some? then
      if GateOpen(s) then Conclude else Escalate
    else if s.iterations >= cap then Escalate
    else if s.extraction.None? then ToExtraction
    else if s.validation.None? then ToValidation
    else ToNarrative
  }

  predicate IsTerminal(r: Route) { r == Conclude || r == Escalate }

  function TerminalStatus(r: Route): Option<Status> {
    match r
    case Conclude => Some(Concluded)
    case Escalate => Some(EscalatedToHuman)
    case _ => None
  }

  /** The judge runs only when a narrative has landed and has not been judged. */
  predicate CallsJudge<E>(s: State<E>, cfg: Config<E>) {
    s.narrative.Some? && s.judgement.None? && cfg.judge.Some?
  }

  function SupervisorNode<E>(s: State<E>, cfg: Config<E>, cap: nat): Delta<E> {
    var gate: Delta<E> := Delta(judgement := if CallsJudge(s, cfg) then Some(cfg.judge.value(s)) else None);
    var route := DecideRoute(Merge(s, gate), cap);
    gate.(log := [Step(s.iterations, SupervisorActor, RouteTo(route))], status := TerminalStatus(route))
  }

  // ---- sub-agent nodes ----------------------------------------------------

  function NoAgentUpdates<E>(s: State<E>, actor: Actor): Delta<E> {
    Delta(iterations := Some(s.iterations + 1), log := [Step(s.iterations + 1, actor, NoAgentInjected)])
  }

  function AgentRanUpdates<E>(s: State<E>, actor: Actor, extra: Delta<E>): Delta<E> {
    extra.(iterations := Some(s.iterations + 1), log := [Step(s.iterations + 1, actor, EmittedOutput)])
  }

  function AgentNode<E>(r: Route, s: State<E>, cfg: Config<E>): Delta<E>
    requires !IsTerminal(r)
  {
    match r
    case ToExtraction =>
      if cfg.extraction.None? then NoAgentUpdates(s, ExtractionActor)
      else AgentRanUpdates(s, ExtractionActor, Delta(extraction := Some(cfg.extraction.value(s))))
    case ToValidation =>
      if cfg.validation.None? then NoAgentUpdates(s, ValidationActor)
      else AgentRanUpdates(s, ValidationActor, Delta(validation := Some(cfg.validation.value(s))))
    case ToNarrative =>
      if cfg.narrative.None? then NoAgentUpdates(s, NarrativeActor)
      else AgentRanUpdates(s, NarrativeActor,
                           Delta(narrative := Some(cfg.narrative.value(s)),
                                 confidence :=
                                   if s.validation.Some? then Some(s.validation.value.confidence) else None))
  }

  // ---- runs ---------------------------------------------------------------

  function AfterSupervisor<E>(s: State<E>, cfg: Config<E>, cap: nat): (t: State<E>)
    ensures t.iterations == s.iterations
  {
    Merge(s, SupervisorNode(s, cfg, cap))
  }

  function AfterAgent<E>(s: State<E>, cfg: Config<E>, cap: nat): (t: State<E>)
    requires !IsTerminal(DecideRoute(s, cap))
    ensures t.iterations == s.iterations + 1 <= cap
  {
    Merge(s, AgentNode(DecideRoute(s, cap), s, cfg))
  }

  /** The states after each node of the graph, from a supervisor visit in s to END. */
  function Run<E>(s: State<E>, cfg: Config<E>, cap: nat): (run: seq<State<E>>)
    ensures run != []
    decreases if s.iterations < cap then cap - s.iterations else 0
  {
    var t := AfterSupervisor(s, cfg, cap);
    if IsTerminal(DecideRoute(t, cap)) then [t]
    else
      var u := AfterAgent(t, cfg, cap);
      [t, u] + Run(u, cfg, cap)
  }

  function Final<E>(s: State<E>, cfg: Config<E>, cap: nat): State<E> {
    var run := Run(s, cfg, cap);
    run[|run| - 1]
  }

  predicate AgentsWired<E>(cfg: Config<E>) {
    cfg.extraction.Some? && cfg.validation.Some? && cfg.narrative.Some?
  }

  // ---- how far a run gets -------------------------------------------------

  /** Outputs are filled in order, nothing is judged before the narrative, and the confidence
      is the validation's once the narrative is there. */
  predicate Reachable<E>(s: State<E>, cap: nat) {
    && s.iterations <= cap
    && (s.validation.Some? ==> s.extraction.Some?)
    && (s.narrative.Some? ==> s.validation.Some? && s.confidence == s.validation.value.confidence)
    && (s.judgement.Some? ==> s.narrative.Some?)
    && s.status == Investigating
  }

  function Missing<E>(s: State<E>): nat {
    (if s.extraction.None? then 1 else 0) + (if s.validation.None? then 1 else 0) + (if s.narrative.None? then 1 else 0)
  }

  /** Every agent still to be visited is wired. */
  predicate RestWired<E>(s: State<E>, cfg: Config<E>) {
    && (s.extraction.None? ==> cfg.extraction.Some?)
    && (s.validation.None? ==> cfg.validation.Some?)
    && (s.narrative.None? ==> cfg.narrative.Some?)
  }

  /** Sub-agent visits of the run from s. */
  function Visits<E>(s: State<E>, cfg: Config<E>, cap: nat): nat
    requires s.iterations <= cap
  {
    if RestWired(s, cfg) && s.iterations + Missing(s) <= cap then Missing(s)
    else if Missing(s) == 0 then 0
    else cap - s.iterations
  }

  lemma StepFacts<E>(s: State<E>, cfg: Config<E>, cap: nat)
    requires Reachable(s, cap) && s.judgement.None?
    ensures var t := AfterSupervisor(s, cfg, cap);
            && t.extraction == s.extraction && t.validation == s.validation && t.narrative == s.narrative
            && t.confidence == s.confidence
            && t.judgement == (if CallsJudge(s, cfg) then Some(cfg.judge.value(s)) else None)
            && (!IsTerminal(DecideRoute(t, cap)) ==>
                  var u := AfterAgent(t, cfg, cap);
                  && s.narrative.None? && s.iterations < cap
                  && Reachable(u, cap) && u.judgement.None? && u.iterations == s.iterations + 1
                  && (RestWired(s, cfg) ==> RestWired(u, cfg) && Missing(u) == Missing(s) - 1)
                  && (!RestWired(s, cfg) ==> !RestWired(u, cfg) && Missing(u) <= Missing(s))
                  && (u.narrative.Some? ==> Missing(u) == 0))
  {
  }

  /** The number of graph steps is fixed by the wiring and the cap alone. */
  lemma {:induction false} RunLength<E>(s: State<E>, cfg: Config<E>, cap: nat)
    requires Reachable(s, cap) && s.judgement.None?
    ensures |Run(s, cfg, cap)| == 2 * Visits(s, cfg, cap) + 1
    decreases cap - s.iterations
  {
    StepFacts(s, cfg, cap);
    var t := AfterSupervisor(s, cfg, cap);
    if !IsTerminal(DecideRoute(t, cap)) {
      RunLength(AfterAgent(t, cfg, cap), cfg, cap);
    }
  }

  /** Whatever the agents return, a run makes exactly three sub-agent visits when all three are wired
      and the cap allows it, and exactly `cap` visits otherwise. */
  lemma VisitsFromTheStart<E>(cfg: Config<E>, cap: nat)
    ensures |Run(Initial(), cfg, cap)| == 2 * (if AgentsWired(cfg) && cap >= 3 then 3 else cap) + 1
  {
    RunLength(Initial(), cfg, cap);
  }

  /** With the repository's cap every run takes seven graph steps, under the recursion limit. */
  lemma SevenSteps<E>(cfg: Config<E>)
    ensures |Run(Initial(), cfg, CAP)| == 7 < RECURSION_LIMIT == 10
  {
    VisitsFromTheStart(cfg, CAP);
  }

  // ---- how a run ends -----------------------------------------------------

  /** How many supervisor visits of the run call the judge. */
  function JudgeCalls<E>(s: State<E>, cfg: Config<E>, cap: nat): nat
    decreases if s.iterations < cap then cap - s.iterations else 0
  {
    var t := AfterSupervisor(s, cfg, cap);
    (if CallsJudge(s, cfg) then 1 else 0)
    + if IsTerminal(DecideRoute(t, cap)) then 0 else JudgeCalls(AfterAgent(t, cfg, cap), cfg, cap)
  }

  /** The run from s reaches a narrative. */
  predicate GetsNarrative<E>(s: State<E>, cfg: Config<E>, cap: nat) {
    RestWired(s, cfg) && s.iterations + Missing(s) <= cap
  }

  lemma {:induction false} Endings<E>(s: State<E>, cfg: Config<E>, cap: nat)
    requires Reachable(s, cap) && s.judgement.None?
    ensures var f, complete := Final(s, cfg, cap), GetsNarrative(s, cfg, cap);
            && (complete <==> f.narrative.Some?)
            && (complete ==> f.validation.Some? && f.confidence == f.validation.value.confidence)
            && (complete <==> Missing(f) == 0)
            && (f.judgement.Some? <==> complete && cfg.judge.Some?)
            && JudgeCalls(s, cfg, cap) == (if complete && cfg.judge.Some? then 1 else 0)
            && f.status == (if complete && GateOpen(f) then Concluded else EscalatedToHuman)
    decreases cap - s.iterations
  {
    StepFacts(s, cfg, cap);
    var t := AfterSupervisor(s, cfg, cap);
    if !IsTerminal(DecideRoute(t, cap)) {
      Endings(AfterAgent(t, cfg, cap), cfg, cap);
    }
  }

  /** A run concludes exactly when all three agents and the judge are wired, the cap allows three visits,
      the judge says pass and the validation confidence reaches the threshold; otherwise it escalates. */
  lemma ConcludesIff<E>(cfg: Config<E>, cap: nat)
    ensures var f := Final(Initial(), cfg, cap);
            && (f.status == Concluded <==>
                  && AgentsWired(cfg) && cfg.judge.Some? && cap >= 3
                  && f.judgement.Some? && f.judgement.value.verdict == FC.Pass
                  && f.validation.Some? && f.validation.value.confidence >= 0.7)
            && (f.status != Concluded ==> f.status == EscalatedToHuman)
  {
    Endings(Initial(), cfg, cap);
  }

  /** How many visits the run took and what confidence it ends with: the validation's once a narrative landed, and
      none at all before. */
  lemma {:induction false} FinalCounts<E>(s: State<E>, cfg: Config<E>, cap: nat)
    requires Reachable(s, cap) && s.judgement.None?
    ensures var f := Final(s, cfg, cap);
            && f.iterations == s.iterations + Visits(s, cfg, cap)
            && (!GetsNarrative(s, cfg, cap) ==> f.confidence == s.confidence)
    decreases cap - s.iterations
  {
    StepFacts(s, cfg, cap);
    var t := AfterSupervisor(s, cfg, cap);
    if !IsTerminal(DecideRoute(t, cap)) {
      FinalCounts(AfterAgent(t, cfg, cap), cfg, cap);
    }
  }

  /** The judge is called at most once: exactly once when every agent is wired and the judge is too. */
  lemma JudgedAtMostOnce<E>(cfg: Config<E>, cap: nat)
    ensures JudgeCalls(Initial(), cfg, cap) == if AgentsWired(cfg) && cap >= 3 && cfg.judge.Some? then 1 else 0
  {
    Endings(Initial(), cfg, cap);
  }

  /** Later visits keep an output that is there, and an output whose agent is not wired never appears, nor does any
      output after it. */
  lemma {:induction false} Keeps<E>(s: State<E>, cfg: Config<E>, cap: nat)
    requires Reachable(s, cap) && s.judgement.None?
    ensures var f := Final(s, cfg, cap);
            && (s.extraction.Some? ==> f.extraction == s.extraction)
            && (s.validation.Some? ==> f.validation == s.validation)
            && (s.narrative.Some? ==> f.narrative == s.narrative)
            && (s.extraction.None? && cfg.extraction.None? ==> f.extraction.None? && f.validation.None?)
            && (s.validation.None? && cfg.validation.None? ==> f.validation.None?)
    decreases cap - s.iterations
  {
    StepFacts(s, cfg, cap);
    var t := AfterSupervisor(s, cfg, cap);
    if !IsTerminal(DecideRoute(t, cap)) {
      Keeps(AfterAgent(t, cfg, cap), cfg, cap);
    }
  }

  /** The agent whose output comes next is wired. */
  predicate NextWired<E>(s: State<E>, cfg: Config<E>) {
    if s.extraction.None? then cfg.extraction.Some?
    else if s.validation.None? then cfg.validation.Some?
    else cfg.narrative.Some?
  }

  /** One supervisor visit that dispatches to a wired agent, and that agent's visit. */
  lemma DispatchStep<E>(s: State<E>, cfg: Config<E>, cap: nat) returns (u: State<E>)
    requires Reachable(s, cap) && s.judgement.None? && s.narrative.None? && s.iterations < cap && NextWired(s, cfg)
    ensures var t := AfterSupervisor(s, cfg, cap);
            && Run(s, cfg, cap) == [t, u] + Run(u, cfg, cap)
            && Reachable(u, cap) && u.judgement.None? && u.iterations == s.iterations + 1
            && (s.extraction.None? ==>
                  u == u.(extraction := Some(cfg.extraction.value(t)), validation := None, narrative := None))
            && (s.extraction.Some? && s.validation.None? ==>
                  u == u.(extraction := s.extraction, validation := Some(cfg.validation.value(t)), narrative := None))
            && (s.validation.Some? ==>
                  u == u.(extraction := s.extraction, validation := s.validation,
                          narrative := Some(cfg.narrative.value(t))))
  {
    StepFacts(s, cfg, cap);
    u := AfterAgent(AfterSupervisor(s, cfg, cap), cfg, cap);
  }

  lemma CapReached<E>(s: State<E>, cfg: Config<E>, cap: nat)
    requires Reachable(s, cap) && s.judgement.None? && s.iterations == cap && s.narrative.None?
    ensures Final(s, cfg, cap).extraction == s.extraction && Final(s, cfg, cap).validation == s.validation
  {
    assert Run(s, cfg, cap) == [AfterSupervisor(s, cfg, cap)];
  }

  lemma FinalOfRest<E>(s: State<E>, t: State<E>, u: State<E>, cfg: Config<E>, cap: nat)
    requires Run(s, cfg, cap) == [t, u] + Run(u, cfg, cap)
    ensures Final(s, cfg, cap) == Final(u, cfg, cap)
  {
  }

  /** Whatever is wired and whatever the cap: an output is there exactly when its agent and all agents before it are
      wired and the cap lets it run, and then it is what that agent returned for the state the supervisor had just
      handed it; likewise the judgement, made on the state that carries all three. */
  lemma OutputsComeFromTheAgents<E>(cfg: Config<E>, cap: nat)
    ensures var run, f := Run(Initial<E>(), cfg, cap), Final(Initial<E>(), cfg, cap);
            && (f.extraction.Some? <==> cfg.extraction.Some? && cap >= 1)
            && (f.validation.Some? <==> cfg.extraction.Some? && cfg.validation.Some? && cap >= 2)
            && (f.narrative.Some? <==> AgentsWired(cfg) && cap >= 3)
            && (f.judgement.Some? <==> AgentsWired(cfg) && cap >= 3 && cfg.judge.Some?)
            && (f.extraction.Some? ==> f.extraction == Some(cfg.extraction.value(run[0])))
            && (f.validation.Some? ==> |run| > 2 && f.validation == Some(cfg.validation.value(run[2])))
            && (f.narrative.Some? ==> |run| == 7 && f.narrative == Some(cfg.narrative.value(run[4])))
            && (f.judgement.Some? ==>
                  && f.judgement == Some(cfg.judge.value(run[5]))
                  && run[5].extraction == f.extraction && run[5].validation == f.validation
                  && run[5].narrative == f.narrative)
  {
    hide Run, AfterSupervisor, Final, GateOpen, JudgeCalls;
    var s0 := Initial<E>();
    Endings(s0, cfg, cap);
    Keeps(s0, cfg, cap);
    if cap == 0 { CapReached(s0, cfg, cap); }
    if cfg.extraction.Some? && cap >= 1 {
      var s1 := DispatchStep(s0, cfg, cap);
      var t0 := AfterSupervisor(s0, cfg, cap);
      FinalOfRest(s0, t0, s1, cfg, cap);
      Keeps(s1, cfg, cap);
      if cap == 1 { CapReached(s1, cfg, cap); }
      if cfg.validation.Some? && cap >= 2 {
        var s2 := DispatchStep(s1, cfg, cap);
        var t1 := AfterSupervisor(s1, cfg, cap);
        FinalOfRest(s1, t1, s2, cfg, cap);
        Keeps(s2, cfg, cap);
        if cfg.narrative.Some? && cap >= 3 { LastDispatch(s2, cfg, cap); }
      }
    }
  }

  /** The narrative visit and the verdict on it, from a state that lacks only the narrative. */
  lemma LastDispatch<E>(s: State<E>, cfg: Config<E>, cap: nat)
    requires Reachable(s, cap) && s.validation.Some? && s.narrative.None? && s.judgement.None?
    requires s.iterations < cap && cfg.narrative.Some?
    ensures var run, f := Run(s, cfg, cap), Final(s, cfg, cap);
            && |run| == 3
            && f.narrative == Some(cfg.narrative.value(run[0]))
            && f.judgement == (if cfg.judge.Some? then Some(cfg.judge.value(run[1])) else None)
            && f.extraction == run[1].extraction && f.validation == run[1].validation
            && f.narrative == run[1].narrative
  {
    var u := DispatchStep(s, cfg, cap);
    StepFacts(u, cfg, cap);
    assert Run(u, cfg, cap) == [AfterSupervisor(u, cfg, cap)];
  }

  // ---- the trace ----------------------------------------------------------

  /** After a supervisor visit, the logged route, the edge recomputed from the merged state
      and the status agree. */
  predicate Coherent<E>(t: State<E>, cap: nat) {
    && t.log != [] && t.log[|t.log| - 1].actor == SupervisorActor
    && t.log[|t.log| - 1].action == RouteTo(DecideRoute(t, cap))
    && t.status == Written(TerminalStatus(DecideRoute(t, cap)), Investigating)
  }

  function ActorOf(r: Route): Actor
    requires !IsTerminal(r)
  {
    match r case ToExtraction => ExtractionActor case ToValidation => ValidationActor case ToNarrative => NarrativeActor
  }

  /** The log entry of an agent visit: made by the agent the supervisor chose, saying whether one was wired. */
  predicate FaithfulVisit<E>(before: State<E>, entry: Step, cfg: Config<E>, cap: nat) {
    var r := DecideRoute(before, cap);
    && !IsTerminal(r)
    && entry.actor == ActorOf(r)
    && entry.action == if Wired(r, cfg) then EmittedOutput else NoAgentInjected
  }

  predicate Wired<E>(r: Route, cfg: Config<E>)
    requires !IsTerminal(r)
  {
    match r
    case ToExtraction => cfg.extraction.Some?
    case ToValidation => cfg.validation.Some?
    case ToNarrative => cfg.narrative.Some?
  }

  lemma NodeLogs<E>(s: State<E>, cfg: Config<E>, cap: nat)
    requires s.status == Investigating
    ensures var t := AfterSupervisor(s, cfg, cap);
            && t.log == s.log + [Step(s.iterations, SupervisorActor, RouteTo(DecideRoute(t, cap)))]
            && Coherent(t, cap)
            && (!IsTerminal(DecideRoute(t, cap)) ==>
                  var u := AfterAgent(t, cfg, cap);
                  && u.status == Investigating && |u.log| == |t.log| + 1 && t.log < u.log
                  && u.log[|t.log|].iteration == s.iterations + 1
                  && FaithfulVisit(t, u.log[|t.log|], cfg, cap))
  {
  }

  /** The i-th state of a run that started with `n` log entries and `it` iterations used. */
  predicate FaithfulAt<E>(run: seq<State<E>>, i: nat, n: nat, it: nat, cfg: Config<E>, cap: nat)
    requires i < |run|
  {
    && |run[i].log| == n + i + 1
    && run[i].log[n + i].iteration == it + (i + 1) / 2
    && (i % 2 == 0 ==> run[i].log[n + i].actor == SupervisorActor && Coherent(run[i], cap))
    && (i > 0 ==> run[i - 1].log < run[i].log)
    && (i % 2 == 1 ==> FaithfulVisit(run[i - 1], run[i].log[n + i], cfg, cap))
  }

  /** Putting one supervisor and one agent visit in front of a run shifts every entry by two. */
  lemma ShiftTrace<E>(t: State<E>, u: State<E>, rest: seq<State<E>>, i: nat, n: nat, it: nat, cfg: Config<E>, cap: nat)
    requires 2 <= i < |rest| + 2
    requires FaithfulAt(rest, i - 2, n + 2, it + 1, cfg, cap) && u.log < rest[i - 2].log
    ensures FaithfulAt([t, u] + rest, i, n, it, cfg, cap)
  {
    hide Coherent;
    hide FaithfulVisit;
    var run := [t, u] + rest;
    assert run[i] == rest[i - 2];
    if i > 2 { assert run[i - 1] == rest[i - 3]; }
    assert (i - 2 + 1) / 2 + 1 == (i + 1) / 2;
  }

  lemma {:induction false} TraceFrom<E>(s: State<E>, cfg: Config<E>, cap: nat, i: nat)
    requires s.status == Investigating
    requires i < |Run(s, cfg, cap)|
    ensures FaithfulAt(Run(s, cfg, cap), i, |s.log|, s.iterations, cfg, cap)
    ensures s.log < Run(s, cfg, cap)[i].log
    decreases if s.iterations < cap then cap - s.iterations else 0
  {
    hide DecideRoute;
    hide Coherent;
    hide FaithfulVisit;
    hide AfterSupervisor;
    hide AfterAgent;
    NodeLogs(s, cfg, cap);
    if i > 1 {
      hide FaithfulAt;
      var t := AfterSupervisor(s, cfg, cap);
      var u := AfterAgent(t, cfg, cap);
      TraceFrom(u, cfg, cap, i - 2);
      ShiftTrace(t, u, Run(u, cfg, cap), i, |s.log|, s.iterations, cfg, cap);
    }
  }

  /** In every state of every run: the log has one entry per node so far, each log is a proper prefix of
      the next, supervisor and agent entries alternate with iteration numbers 0,1,1,2,2,…, each agent entry is
      by the agent the supervisor chose, and route, edge and status agree. */
  lemma TraceIsFaithful<E>(cfg: Config<E>, cap: nat, i: nat)
    requires i < |Run(Initial<E>(), cfg, cap)|
    ensures FaithfulAt(Run(Initial<E>(), cfg, cap), i, 0, 0, cfg, cap)
  {
    TraceFrom(Initial<E>(), cfg, cap, i);
  }
}
