/** The two-attempt callers: the Layer-3 validation agent and the Layer-2 judge.
    Both retry once on a failure they handle and then return a fixed negative answer.
    They differ in where they record token counts: the agent inside its handler, the
    judge outside. */
module FailClosed {
  import opened Llm

  /** One call, one retry, then the fallback; `recordsInside` is where token counts are recorded. */
  function TwoAttempts<T>(script: nat -> Reply<T>, n: nat, valid: T -> bool, fallback: T, recordsInside: bool)
    : (r: Run<T>)
    ensures n < r.calls <= n + 2
  {
    match Attempt(script(n), valid, recordsInside)
    case Done(v) => Run(Done(v), n + 1)
    case Crashed => Run(Crashed, n + 1)
    case Rejected =>
      match Attempt(script(n + 1), valid, recordsInside)
      case Done(v) => Run(Done(v), n + 2)
      case Crashed => Run(Crashed, n + 2)
      case Rejected => Run(Done(fallback), n + 2)
  }

  /** A transport failure, empty content, malformed JSON or a payload the model rejects can be retried; JSON that is
      not an object cannot even be passed to the response model, and a missing choice is looked up outside every
      handler. */
  function Attempt<T>(r: Reply<T>, valid: T -> bool, recordsInside: bool): Outcome<T> {
    match r
    case Json(Object(p)) => if valid(p) then Done(p) else Rejected
    case Json(NonObject) => Crashed
    case NoChoice => Crashed
    case RejectedUsage => if recordsInside then Rejected else Crashed
    case _ => Rejected
  }

  method InvokeWithFallback<T>(client: Client<T>, valid: T -> bool, fallback: T, recordsInside: bool)
    returns (o: Outcome<T>)
    modifies client`calls
    ensures Run(o, client.calls) == TwoAttempts(client.script, old(client.calls), valid, fallback, recordsInside)
  {
    var attempt := 1;
    while attempt <= 2
      invariant 1 <= attempt <= 3 && client.calls == old(client.calls) + attempt - 1
      invariant attempt > 1 ==> Attempt(client.script(old(client.calls)), valid, recordsInside).Rejected?
      invariant attempt > 2 ==> Attempt(client.script(old(client.calls) + 1), valid, recordsInside).Rejected?
    {
      var reply := client.Complete();
      match reply
      case Json(Object(p)) =>
        if valid(p) { return Done(p); }
        attempt := attempt + 1;
      case Json(NonObject) => return Crashed;
      case NoChoice => return Crashed;
      case RejectedUsage =>
        if !recordsInside { return Crashed; }
        attempt := attempt + 1;
      case _ => attempt := attempt + 1;
    }
    return Done(fallback);
  }

  /** A reply that escapes every handler: JSON that is not an object, a response without a choice, or refused token
      counts where they are recorded outside. */
  predicate Escapes<T>(r: Reply<T>, recordsInside: bool) {
    r == Json(NonObject) || r.NoChoice? || (r.RejectedUsage? && !recordsInside)
  }

  /** The answer is the payload of the last reply, accepted by its model, or else the fallback after
      exactly two failures; the caller raises exactly when the last reply escapes every handler. */
  lemma NothingIsInvented<T>(script: nat -> Reply<T>, n: nat, valid: T -> bool, fallback: T, recordsInside: bool)
    ensures var r := TwoAttempts(script, n, valid, fallback, recordsInside);
            && (r.outcome.Crashed? <==> Escapes(script(r.calls - 1), recordsInside))
            && (r.outcome.Done? ==>
                  || (valid(r.outcome.value) && script(r.calls - 1) == Json(Object(r.outcome.value)))
                  || (r.outcome.value == fallback && r.calls == n + 2
                      && Attempt(script(n), valid, recordsInside).Rejected?
                      && Attempt(script(n + 1), valid, recordsInside).Rejected?))
            && !r.outcome.Rejected?
  {
  }

  /** So a script without such a reply always gets an answer. */
  lemma AlwaysAnswers<T>(script: nat -> Reply<T>, n: nat, valid: T -> bool, fallback: T, recordsInside: bool)
    requires forall k :: !Escapes(script(k), recordsInside)
    ensures TwoAttempts(script, n, valid, fallback, recordsInside).outcome.Done?
  {
    NothingIsInvented(script, n, valid, fallback, recordsInside);
  }

  /** A reply whose payload the response model accepts. */
  predicate Good<T>(r: Reply<T>, valid: T -> bool) { r.Json? && r.parsed.Object? && valid(r.parsed.payload) }

  /** The whole outcome, read off the two replies: the first that is good or escapes decides, and the fallback is
      returned exactly when both are neither. */
  lemma DecidedByTwoReplies<T>(script: nat -> Reply<T>, n: nat, valid: T -> bool, fallback: T, recordsInside: bool)
    ensures var r := TwoAttempts(script, n, valid, fallback, recordsInside);
            var once := Good(script(n), valid) || Escapes(script(n), recordsInside);
            var last := script(if once then n else n + 1);
            && r.calls == (if once then n + 1 else n + 2)
            && (r.outcome.Crashed? <==> Escapes(last, recordsInside))
            && (Good(last, valid) ==> r.outcome == Done(last.parsed.payload))
            && (!Good(last, valid) && !Escapes(last, recordsInside) ==> r.outcome == Done(fallback))
  {
  }

  // ---- the judge ----------------------------------------------------------

  datatype Verdict = Pass | Fail | Uncertain

  datatype Judgement = Judgement(verdict: Verdict, confidence: real, reasoning: string, cited: seq<string>)

  predicate ValidJudgement(j: Judgement) {
    0.0 <= j.confidence <= 1.0 && j.reasoning != "" && (j.verdict != Uncertain ==> j.cited != [])
  }

  function UncertainFallback(reason: string): Judgement {
    Judgement(Uncertain, 0.0, "judge failure x2; falling back to uncertain (" + reason + ")", [])
  }

  /** Every judgement satisfies its model, and a pass or fail verdict is some reply's own. */
  lemma JudgeFailsClosed(script: nat -> Reply<Judgement>, reason: string)
    ensures var r := TwoAttempts(script, 0, ValidJudgement, UncertainFallback(reason), false);
            r.outcome.Done? ==>
              && ValidJudgement(r.outcome.value)
              && (r.outcome.value.verdict != Uncertain ==>
                    script(r.calls - 1) == Json(Object(r.outcome.value)) && r.outcome.value.cited != [])
  {
    NothingIsInvented(script, 0, ValidJudgement, UncertainFallback(reason), false);
  }

  // ---- the validation agent -----------------------------------------------

  datatype Findings = Findings(authorized: bool, confidence: real, reasoning: string)

  predicate ValidFindings(f: Findings) { 0.0 <= f.confidence <= 1.0 && f.reasoning != "" }

  function UnauthorizedFallback(reason: string): Findings {
    Findings(false, 0.0, "Validation failure x2; falling back to unauthorized (" + reason + ")")
  }

  const FAST_PATH := Findings(false, 0.9, "No supporting document found")

  /** `_invoke_with_raw_response`: no call at all when extraction reports that no document was found. */
  function ValidationRun(noDocument: bool, script: nat -> Reply<Findings>, reason: string): Run<Findings> {
    if noDocument then Run(Done(FAST_PATH), 0)
    else TwoAttempts(script, 0, ValidFindings, UnauthorizedFallback(reason), true)
  }

  method Validate(client: Client<Findings>, noDocument: bool, reason: string) returns (o: Outcome<Findings>)
    requires client.calls == 0
    modifies client`calls
    ensures Run(o, client.calls) == ValidationRun(noDocument, client.script, reason)
  {
    if noDocument { return Done(FAST_PATH); }
    o := InvokeWithFallback(client, ValidFindings, UnauthorizedFallback(reason), true);
  }

  /** An authorisation is never invented: it is the content of the last reply, and extraction had found a document. */
  lemma AuthorisationComesFromAReply(noDocument: bool, script: nat -> Reply<Findings>, reason: string)
    ensures var r := ValidationRun(noDocument, script, reason);
            r.outcome.Done? ==>
              && ValidFindings(r.outcome.value)
              && (r.outcome.value.authorized ==>
                    !noDocument && r.calls > 0 && script(r.calls - 1) == Json(Object(r.outcome.value)))
  {
    NothingIsInvented(script, 0, ValidFindings, UnauthorizedFallback(reason), true);
  }

  /** A model is asked if and only if extraction found a document; without one the answer is the fixed refusal, and with
      one a valid first reply is the answer. */
  lemma DocumentLeadsToACall(noDocument: bool, script: nat -> Reply<Findings>, reason: string)
    ensures var r := ValidationRun(noDocument, script, reason);
            && (r.calls == 0 <==> noDocument)
            && (noDocument ==> r.outcome == Done(Findings(false, 0.9, "No supporting document found")))
            && (!noDocument && Good(script(0), ValidFindings) ==> r.outcome == Done(script(0).parsed.payload))
            && (!noDocument && r.calls == 2 && r.outcome.Done? && !Good(script(1), ValidFindings) ==>
                  && !r.outcome.value.authorized && r.outcome.value.confidence == 0.0
                  && r.outcome.value.reasoning
                     == "Validation failure x2; falling back to unauthorized (" + reason + ")")
  {
    DecidedByTwoReplies(script, 0, ValidFindings, UnauthorizedFallback(reason), true);
  }

  /** A judge that fails twice is uncertain with no confidence and no citation. */
  lemma UncertainAfterTwoFailures(script: nat -> Reply<Judgement>, reason: string)
    ensures var r := TwoAttempts(script, 0, ValidJudgement, UncertainFallback(reason), false);
            && (Good(script(0), ValidJudgement) ==> r.outcome == Done(script(0).parsed.payload))
            && (r.calls == 2 && r.outcome.Done? && !Good(script(1), ValidJudgement) ==>
                  r.outcome.value.verdict == Uncertain && r.outcome.value.confidence == 0.0
                  && r.outcome.value.cited == []
                  && r.outcome.value.reasoning == "judge failure x2; falling back to uncertain (" + reason + ")")
  {
    DecidedByTwoReplies(script, 0, ValidJudgement, UncertainFallback(reason), false);
  }

  /** Both models take every confidence from 0 to 1, ends included, and need a reasoning; a pass or fail verdict also
      needs a citation. */
  lemma AcceptedAnswers(c: real, reasoning: string, cited: seq<string>)
    requires reasoning != ""
    ensures 0.0 <= c <= 1.0 <==> ValidFindings(Findings(true, c, reasoning))
    ensures 0.0 <= c <= 1.0 <==> ValidJudgement(Judgement(Uncertain, c, reasoning, []))
    ensures 0.0 <= c <= 1.0 && cited != [] <==> ValidJudgement(Judgement(Pass, c, reasoning, cited))
    ensures 0.0 <= c <= 1.0 && cited != [] <==> ValidJudgement(Judgement(Fail, c, reasoning, cited))
    ensures !ValidFindings(Findings(true, c, "")) && !ValidJudgement(Judgement(Pass, c, "", cited))
  {
  }
}
