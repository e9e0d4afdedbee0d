/** The Layer-3 narrative agent: JSON retry inside word-limit retry inside
    fact-check retry, ending in a grounded narrative or an ESCALATE fallback. */
module NarrativeAgent {
  import opened Text
  import opened Llm
  import opened Regex
  import opened NumericScanner
  import opened FactChecker
  import opened Substrate

  const WORD_LIMIT: nat := 200

  datatype Recommendation = ACCEPT | ESCALATE

  datatype TextField = Absent | NotText | Text(value: string)

  /** The fields the agent reads. `wellFormed`: citations and recommendation satisfy the response
      model and no field is unknown; a reported word count is overwritten, so it is not kept. */
  datatype Payload = Payload(narrativeText: TextField, citations: seq<string>, recommendation: Recommendation,
                             wellFormed: bool)

  datatype Narrative = Narrative(text: string, citations: seq<string>, recommendation: Recommendation, wordCount: nat)

  // ---- specification ------------------------------------------------------

  /** `_invoke_llm_json` from reply n on: one retry on empty or malformed content. Refused token counts are a
      ValidationError, which only the outermost layer handles. */
  function JsonRun(script: nat -> Reply<Payload>, n: nat): (r: Run<Parsed<Payload>>)
    ensures n < r.calls <= n + 2
  {
    match script(n)
    case TransportFailure => Run(Crashed, n + 1)
    case RejectedUsage => Run(Rejected, n + 1)
    case NoChoice => Run(Crashed, n + 1)
    case Json(p) => Run(Done(p), n + 1)
    case _ =>
      match script(n + 1)
      case TransportFailure => Run(Crashed, n + 2)
      case NoChoice => Run(Crashed, n + 2)
      case Json(p) => Run(Done(p), n + 2)
      case _ => Run(Rejected, n + 2)
  }

  /** `payload.get("narrative_text", "").split()`; a missing key reads as the empty string. */
  function NarrativeWords(p: Payload): seq<string>
    requires !p.narrativeText.NotText?
  {
    if p.narrativeText.Text? then Words(p.narrativeText.value) else []
  }

  /** `ExceptionNarrative(**payload)` with the recomputed word count. */
  function BuildNarrative(p: Payload, count: nat): Outcome<Narrative> {
    if p.wellFormed && p.narrativeText.Text? && p.narrativeText.value != "" && count <= WORD_LIMIT
    then Done(Narrative(p.narrativeText.value, p.citations, p.recommendation, count))
    else Rejected
  }

  function Truncated(p: Payload): Payload
    requires !p.narrativeText.NotText? && |NarrativeWords(p)| >= WORD_LIMIT
  {
    p.(narrativeText := Text(Join(" ", NarrativeWords(p)[..WORD_LIMIT])))
  }

  /** A reply the word counter cannot read raises an exception nobody catches. */
  predicate Readable(p: Parsed<Payload>) { p.Object? && !p.payload.narrativeText.NotText? }

  /** `_invoke_with_word_limit_retry`. */
  function WordLimitRun(script: nat -> Reply<Payload>, n: nat): (r: Run<Narrative>)
    ensures n < r.calls <= n + 4
  {
    var first := JsonRun(script, n);
    match first.outcome
    case Rejected => Run(Rejected, first.calls)
    case Crashed => Run(Crashed, first.calls)
    case Done(p) =>
      if !Readable(p) then Run(Crashed, first.calls)
      else if |NarrativeWords(p.payload)| <= WORD_LIMIT then
        Run(BuildNarrative(p.payload, |NarrativeWords(p.payload)|), first.calls)
      else
        var second := JsonRun(script, first.calls);
        match second.outcome
        case Rejected => Run(Rejected, second.calls)
        case Crashed => Run(Crashed, second.calls)
        case Done(q) =>
          if !Readable(q) then Run(Crashed, second.calls)
          else if |NarrativeWords(q.payload)| <= WORD_LIMIT then
            Run(BuildNarrative(q.payload, |NarrativeWords(q.payload)|), second.calls)
          else Run(BuildNarrative(Truncated(q.payload), WORD_LIMIT), second.calls)
  }

  const FALLBACK_TEXT := "Automated investigation could not produce a grounded narrative; human review required ("

  function Fallback(reason: string): Narrative {
    Narrative(FALLBACK_TEXT + reason + ").", [], ESCALATE, 0)
  }

  ghost predicate IsFallback(n: Narrative) { exists reason :: n == Fallback(reason) }

  /** `_invoke_with_raw_response`; `grounded` is the fact-check against the substrate,
      `describe` the diagnostic the fallback embeds. */
  function InvokeRun(script: nat -> Reply<Payload>, n: nat, grounded: string -> bool, describe: nat -> string)
    : (r: Run<Narrative>)
    ensures n < r.calls <= n + 8
  {
    var first := WordLimitRun(script, n);
    match first.outcome
    case Crashed => first
    case Rejected => Run(Done(Fallback(describe(0))), first.calls)
    case Done(a) =>
      if grounded(a.text) then first
      else
        var second := WordLimitRun(script, first.calls);
        match second.outcome
        case Crashed => second
        case Rejected => Run(Done(Fallback(describe(1))), second.calls)
        case Done(b) => if grounded(b.text) then second else Run(Done(Fallback(describe(2))), second.calls)
  }

  // ---- the retry loops ----------------------------------------------------

  method InvokeJson(client: Client<Payload>) returns (o: Outcome<Parsed<Payload>>)
    modifies client`calls
    ensures Run(o, client.calls) == JsonRun(client.script, old(client.calls))
  {
    o := Rejected;
    var attempt := 1;
    while attempt <= 2
      invariant 1 <= attempt <= 3 && client.calls == old(client.calls) + attempt - 1
      invariant attempt > 1 ==> client.script(old(client.calls)) in {NoContent, MalformedJson}
      invariant attempt > 2 ==> client.script(old(client.calls) + 1) in {NoContent, MalformedJson} && o == Rejected
    {
      var reply := client.Complete();
      match reply
      case TransportFailure => return Crashed;
      case RejectedUsage => return Rejected;
      case NoChoice => return Crashed;
      case Json(p) => return Done(p);
      case _ => attempt := attempt + 1;
    }
  }

  method InvokeWithWordLimit(client: Client<Payload>) returns (o: Outcome<Narrative>)
    modifies client`calls
    ensures Run(o, client.calls) == WordLimitRun(client.script, old(client.calls))
  {
    var first := InvokeJson(client);
    if !first.Done? { return if first.Rejected? then Rejected else Crashed; }
    if !Readable(first.value) { return Crashed; }
    var count := |NarrativeWords(first.value.payload)|;
    if count <= WORD_LIMIT { return BuildNarrative(first.value.payload, count); }

    var second := InvokeJson(client);
    if !second.Done? { return if second.Rejected? then Rejected else Crashed; }
    if !Readable(second.value) { return Crashed; }
    var count2 := |NarrativeWords(second.value.payload)|;
    if count2 <= WORD_LIMIT { return BuildNarrative(second.value.payload, count2); }
    return BuildNarrative(Truncated(second.value.payload), WORD_LIMIT);
  }

  method Invoke(client: Client<Payload>, grounded: string -> bool, describe: nat -> string)
    returns (o: Outcome<Narrative>)
    modifies client`calls
    ensures Run(o, client.calls) == InvokeRun(client.script, old(client.calls), grounded, describe)
  {
    var first := InvokeWithWordLimit(client);
    if first.Crashed? { return Crashed; }
    if first.Rejected? { return Done(Fallback(describe(0))); }
    if grounded(first.value.text) { return first; }
    var second := InvokeWithWordLimit(client);
    if second.Crashed? { return Crashed; }
    if second.Rejected? { return Done(Fallback(describe(1))); }
    if grounded(second.value.text) { return second; }
    return Done(Fallback(describe(2)));
  }

  // ---- what every run guarantees ------------------------------------------

  /** The recorded count is the narrative's own word count and within the limit. */
  predicate HonestCount(n: Narrative) { n.wordCount == |Words(n.text)| <= WORD_LIMIT && n.text != "" }

  lemma TruncationIsHonest(p: Payload)
    requires !p.narrativeText.NotText? && |NarrativeWords(p)| >= WORD_LIMIT
    ensures Words(Truncated(p).narrativeText.value) == NarrativeWords(p)[..WORD_LIMIT]
  {
    SplitOfJoin(NarrativeWords(p)[..WORD_LIMIT]);
  }

  lemma WordLimitHonest(script: nat -> Reply<Payload>, n: nat)
    ensures var r := WordLimitRun(script, n); r.outcome.Done? ==> HonestCount(r.outcome.value)
  {
    var first := JsonRun(script, n);
    if first.outcome.Done? && Readable(first.outcome.value)
       && |NarrativeWords(first.outcome.value.payload)| > WORD_LIMIT {
      var second := JsonRun(script, first.calls);
      if second.outcome.Done? && Readable(second.outcome.value)
         && |NarrativeWords(second.outcome.value.payload)| > WORD_LIMIT {
        TruncationIsHonest(second.outcome.value.payload);
      }
    }
  }

  /** For every sequence of replies: at most eight calls, and whatever is returned is either a
      grounded narrative with an honest count or the ESCALATE fallback. */
  lemma InvokeIsSafe(script: nat -> Reply<Payload>, n: nat, grounded: string -> bool, describe: nat -> string)
    ensures var r := InvokeRun(script, n, grounded, describe);
            && n < r.calls <= n + 8
            && (r.outcome.Done? ==>
                  || (grounded(r.outcome.value.text) && HonestCount(r.outcome.value))
                  || IsFallback(r.outcome.value))
            && !r.outcome.Rejected?
  {
    WordLimitHonest(script, n);
    WordLimitHonest(script, WordLimitRun(script, n).calls);
  }

  /** A reply that escapes every handler: the call itself failed, the response has no choice, the JSON is not an
      object, or its narrative text is not a string. */
  predicate Escapes(r: Reply<Payload>) {
    r.TransportFailure? || r.NoChoice? || (r.Json? && !Readable(r.parsed))
  }

  /** What one JSON call makes of its last reply. */
  lemma JsonLast(script: nat -> Reply<Payload>, n: nat)
    ensures var r := JsonRun(script, n);
            match r.outcome
            case Done(p) => script(r.calls - 1) == Json(p)
            case Crashed => script(r.calls - 1) in {TransportFailure, NoChoice}
            case Rejected => script(r.calls - 1) in {RejectedUsage, NoContent, MalformedJson}
  {
  }

  lemma WordLimitCrash(script: nat -> Reply<Payload>, n: nat)
    ensures var r := WordLimitRun(script, n); r.outcome.Crashed? <==> Escapes(script(r.calls - 1))
  {
    hide JsonRun, NarrativeWords;
    JsonLast(script, n);
    JsonLast(script, JsonRun(script, n).calls);
  }

  /** The agent raises exactly when the last reply it consumed escapes every handler. */
  lemma RaisesIff(script: nat -> Reply<Payload>, n: nat, grounded: string -> bool, describe: nat -> string)
    ensures var r := InvokeRun(script, n, grounded, describe);
            r.outcome.Crashed? <==> Escapes(script(r.calls - 1))
  {
    WordLimitCrash(script, n);
    WordLimitCrash(script, WordLimitRun(script, n).calls);
    hide WordLimitRun, Escapes;
  }

  /** So a script without such a reply never makes the agent raise. */
  lemma NeverRaises(script: nat -> Reply<Payload>, n: nat, grounded: string -> bool, describe: nat -> string)
    requires forall k :: !Escapes(script(k))
    ensures InvokeRun(script, n, grounded, describe).outcome.Done?
  {
    RaisesIff(script, n, grounded, describe);
    InvokeIsSafe(script, n, grounded, describe);
  }

  /** A fallback does not carry the count of its own text, and everything else does. */
  lemma HonestUnlessFallback(script: nat -> Reply<Payload>, n: nat, grounded: string -> bool, describe: nat -> string)
    ensures var r := InvokeRun(script, n, grounded, describe);
            r.outcome.Done? ==> (HonestCount(r.outcome.value) <==> !IsFallback(r.outcome.value))
  {
    var r := InvokeRun(script, n, grounded, describe);
    InvokeIsSafe(script, n, grounded, describe);
    if r.outcome.Done? && IsFallback(r.outcome.value) {
      var reason :| r.outcome.value == Fallback(reason);
      FallbackHasWords(reason);
    }
  }

  lemma FallbackHasWords(reason: string)
    ensures |Words(Fallback(reason).text)| > 0
  {
    NonBlankHasWords(Fallback(reason).text, |Fallback(reason).text| - 1);
  }

  // ---- how many calls -----------------------------------------------------

  /** A reply that `_invoke_llm_json` asks for again. */
  predicate Blank(r: Reply<Payload>) { r.NoContent? || r.MalformedJson? }

  /** A reply whose narrative has more than 200 words. */
  predicate OverLong(r: Reply<Payload>) {
    r.Json? && Readable(r.parsed) && |NarrativeWords(r.parsed.payload)| > WORD_LIMIT
  }

  /** Calls for one JSON object, read off the replies. */
  function JsonCalls(script: nat -> Reply<Payload>, n: nat): nat {
    if Blank(script(n)) then 2 else 1
  }

  /** Calls for one narrative within the limit: a second object when the first is over-long. */
  function WordLimitCalls(script: nat -> Reply<Payload>, n: nat): nat {
    var first := JsonCalls(script, n);
    first + if OverLong(script(n + first - 1)) then JsonCalls(script, n + first) else 0
  }

  /** The first narrative is well formed but not grounded. */
  predicate AsksAgain(script: nat -> Reply<Payload>, n: nat, grounded: string -> bool) {
    var first := WordLimitRun(script, n);
    first.outcome.Done? && !grounded(first.outcome.value.text)
  }

  function InvokeCalls(script: nat -> Reply<Payload>, n: nat, grounded: string -> bool): nat {
    var first := WordLimitCalls(script, n);
    first + if AsksAgain(script, n, grounded) then WordLimitCalls(script, n + first) else 0
  }

  lemma WordLimitCallsAre(script: nat -> Reply<Payload>, n: nat)
    ensures WordLimitRun(script, n).calls == n + WordLimitCalls(script, n)
  {
  }

  /** The number of calls in closed form, and exactly when it stays within the documented four: the first narrative is
      grounded or rejected, or the two narratives together cost no more than two retries. */
  lemma CallsAre(script: nat -> Reply<Payload>, n: nat, grounded: string -> bool, describe: nat -> string)
    ensures InvokeRun(script, n, grounded, describe).calls == n + InvokeCalls(script, n, grounded)
    ensures var first := WordLimitCalls(script, n);
            InvokeRun(script, n, grounded, describe).calls <= n + 4 <==>
              !AsksAgain(script, n, grounded) || first + WordLimitCalls(script, n + first) <= 4
  {
    hide WordLimitRun, WordLimitCalls;
    FourAtMost(script, n);
    WordLimitCallsAre(script, n);
    WordLimitCallsAre(script, n + WordLimitCalls(script, n));
  }

  lemma FourAtMost(script: nat -> Reply<Payload>, n: nat)
    ensures WordLimitCalls(script, n) <= 4
  {
  }

  // ---- which narrative is shipped -----------------------------------------

  /** A reply the response model accepts. */
  predicate Usable(r: Reply<Payload>) {
    && r.Json? && r.parsed.Object? && r.parsed.payload.wellFormed
    && r.parsed.payload.narrativeText.Text? && r.parsed.payload.narrativeText.value != ""
  }

  /** A usable reply's text, cut after 200 words. */
  function ShippedText(r: Reply<Payload>): string
    requires Usable(r)
  {
    var text := r.parsed.payload.narrativeText.value;
    if |Words(text)| <= WORD_LIMIT then text else Join(" ", Words(text)[..WORD_LIMIT])
  }

  /** The last reply that a narrative asked for from reply n on takes. */
  function LastOf(script: nat -> Reply<Payload>, n: nat): Reply<Payload> {
    script(n + WordLimitCalls(script, n) - 1)
  }

  lemma JoinedWords(ws: seq<string>)
    requires AreWords(ws) && ws != []
    ensures Join(" ", ws) != ""
  {
  }

  lemma BuiltFrom(p: Payload, n: Narrative)
    requires !p.narrativeText.NotText?
    requires var count := |NarrativeWords(p)|;
             (if count <= WORD_LIMIT then BuildNarrative(p, count) else BuildNarrative(Truncated(p), WORD_LIMIT))
             == Done(n)
    ensures Usable(Json(Object(p)))
    ensures n.text == ShippedText(Json(Object(p))) && n.wordCount == |Words(n.text)|
    ensures n.citations == p.citations && n.recommendation == p.recommendation
  {
    assert Words("") == [];
    hide Words, Join;
    if |NarrativeWords(p)| > WORD_LIMIT { TruncationIsHonest(p); }
  }

  lemma BuildFails(p: Payload)
    requires !p.narrativeText.NotText?
    requires var count := |NarrativeWords(p)|;
             (if count <= WORD_LIMIT then BuildNarrative(p, count)
              else BuildNarrative(Truncated(p), WORD_LIMIT)).Rejected?
    ensures !Usable(Json(Object(p)))
  {
    hide Words, Join;
    if |NarrativeWords(p)| > WORD_LIMIT {
      assert AreWords(NarrativeWords(p)[..WORD_LIMIT]);
      JoinedWords(NarrativeWords(p)[..WORD_LIMIT]);
    }
  }

  /** One narrative is decided by the last reply it takes: raised when that escapes, the reply's own citations,
      recommendation and text (cut after 200 words) when it is usable, and rejected otherwise. */
  lemma DecidedByLastReply(script: nat -> Reply<Payload>, n: nat)
    ensures var last, o := LastOf(script, n), WordLimitRun(script, n).outcome;
            && (o.Crashed? <==> Escapes(last))
            && (o.Done? <==> Usable(last))
            && (o.Done? ==>
                  && o.value.text == ShippedText(last) && o.value.wordCount == |Words(o.value.text)|
                  && o.value.citations == last.parsed.payload.citations
                  && o.value.recommendation == last.parsed.payload.recommendation)
  {
    hide JsonRun, NarrativeWords, BuildNarrative, Truncated;
    WordLimitCallsAre(script, n);
    WordLimitCrash(script, n);
    var first := JsonRun(script, n);
    JsonLast(script, n);
    JsonLast(script, first.calls);
    if first.outcome.Done? && Readable(first.outcome.value) {
      var p := first.outcome.value.payload;
      var last := LastOf(script, n);
      if last.Json? && Readable(last.parsed) {
        var o := WordLimitRun(script, n).outcome;
        if o.Done? { BuiltFrom(last.parsed.payload, o.value); }
        if o.Rejected? { BuildFails(last.parsed.payload); }
      }
    }
  }

  /** x is the content of a usable reply: its citations, its recommendation, and its text, or the first 200 words of
      it joined by single spaces when it has more. */
  predicate IsContentOf(x: Narrative, r: Reply<Payload>) {
    && Usable(r)
    && x.citations == r.parsed.payload.citations && x.recommendation == r.parsed.payload.recommendation
    && var text := r.parsed.payload.narrativeText.value;
       x.text == if |Words(text)| <= 200 then text else Join(" ", Words(text)[..200])
  }

  /** The escalation: no citation and no claim, only the diagnostic. */
  predicate Escalates(x: Narrative) {
    && x.recommendation == ESCALATE && x.citations == [] && x.wordCount == 0
    && "Automated investigation could not produce a grounded narrative; human review required (" <= x.text
    && |x.text| > 2 && x.text[|x.text| - 2..] == ")."
  }

  /** The first narrative, or the second when the first is usable but not grounded, is the one that decides. */
  function Decisive(script: nat -> Reply<Payload>, n: nat, grounded: string -> bool): Reply<Payload> {
    var first := LastOf(script, n);
    if Usable(first) && !grounded(ShippedText(first)) then LastOf(script, n + WordLimitCalls(script, n)) else first
  }

  /** The whole outcome, read off one reply: a usable grounded reply is shipped with its own content and never thrown
      away, a reply that escapes raises, and anything else escalates. */
  lemma InvokeDecides(script: nat -> Reply<Payload>, n: nat, grounded: string -> bool, describe: nat -> string)
    ensures var r, d := InvokeRun(script, n, grounded, describe), Decisive(script, n, grounded);
            && d == script(r.calls - 1)
            && (Usable(d) && grounded(ShippedText(d)) ==> r.outcome.Done? && IsContentOf(r.outcome.value, d))
            && (r.outcome.Crashed? <==> Escapes(d))
            && (!Escapes(d) && !(Usable(d) && grounded(ShippedText(d))) ==>
                  r.outcome.Done? && Escalates(r.outcome.value) && IsFallback(r.outcome.value))
  {
    hide WordLimitRun, WordLimitCalls, Usable, Escapes, ShippedText;
    var m := n + WordLimitCalls(script, n);
    WordLimitCallsAre(script, n);
    WordLimitCallsAre(script, m);
    DecidedByLastReply(script, n);
    DecidedByLastReply(script, m);
    UsableContent(LastOf(script, n));
    UsableContent(LastOf(script, m));
  }

  lemma UsableContent(r: Reply<Payload>)
    ensures Usable(r) ==> !Escapes(r)
    ensures forall x: Narrative ::
              (&& Usable(r) && x.text == ShippedText(r) && x.citations == r.parsed.payload.citations
               && x.recommendation == r.parsed.payload.recommendation) ==> IsContentOf(x, r)
  {
  }

  /** So what is shipped and is not the fallback is the last reply's own content; and the fallback is returned exactly
      when the decisive reply neither escapes nor is usable and grounded. */
  lemma ShippedIsTheLastReply(script: nat -> Reply<Payload>, n: nat, grounded: string -> bool, describe: nat -> string)
    ensures var r, d := InvokeRun(script, n, grounded, describe), Decisive(script, n, grounded);
            r.outcome.Done? ==>
              && (!IsFallback(r.outcome.value) ==> IsContentOf(r.outcome.value, script(r.calls - 1)))
              && (IsFallback(r.outcome.value) <==> !(Usable(d) && grounded(ShippedText(d))))
  {
    hide Decisive, InvokeRun, Usable, ShippedText, IsContentOf, HonestCount;
    InvokeDecides(script, n, grounded, describe);
    HonestUnlessFallback(script, n, grounded, describe);
    ShippedIsHonest(script, n, grounded, describe);
  }

  lemma ShippedIsHonest(script: nat -> Reply<Payload>, n: nat, grounded: string -> bool, describe: nat -> string)
    ensures var r, d := InvokeRun(script, n, grounded, describe), Decisive(script, n, grounded);
            Usable(d) && grounded(ShippedText(d)) ==> r.outcome.Done? && HonestCount(r.outcome.value)
  {
    hide WordLimitRun, WordLimitCalls, Usable, Escapes, ShippedText, HonestCount;
    var m := n + WordLimitCalls(script, n);
    WordLimitCallsAre(script, n);
    DecidedByLastReply(script, n);
    DecidedByLastReply(script, m);
    WordLimitHonest(script, n);
    WordLimitHonest(script, m);
  }

  /** Eight calls do happen: malformed and over-long replies in turn, never grounded. */
  lemma EightCallsAreReached(describe: nat -> string) returns (script: nat -> Reply<Payload>)
    ensures InvokeRun(script, 0, _ => false, describe).calls == 8
  {
    var ws := seq(WORD_LIMIT + 1, _ => "w");
    var p := Payload(Text(Join(" ", ws)), [], ACCEPT, true);
    SplitOfJoin(ws);
    assert Join(" ", ws) == "w" + " " + Join(" ", ws[1..]);
    assert |NarrativeWords(p)| == WORD_LIMIT + 1;
    script := (k: nat) => if k % 2 == 0 then MalformedJson else Json(Object(p));
    LongRun(script, 0, p);
    LongRun(script, 4, p);
  }

  lemma LongRun(script: nat -> Reply<Payload>, n: nat, p: Payload)
    requires script(n) == MalformedJson && script(n + 1) == Json(Object(p))
    requires script(n + 2) == MalformedJson && script(n + 3) == Json(Object(p))
    requires p.wellFormed && p.narrativeText.Text? && |NarrativeWords(p)| == WORD_LIMIT + 1
    ensures WordLimitRun(script, n).calls == n + 4 && WordLimitRun(script, n).outcome.Done?
  {
    TruncationIsHonest(p);
    assert Words("") == [];
  }

  // ---- with the real fact-check -------------------------------------------

  const ABBREVIATION_GLOSSARY :=
    "Domain abbreviation glossary (substrate-only, not a source of truth):\n"
    + "  IMA = Investment Management Agreement\n  IPS = Investment Policy Statement\n"
    + "  AUM = Assets Under Management\n  ToC = Test of Controls\n  bps = basis points\n"

  const SYSTEM_THRESHOLD_GLOSSARY :=
    "System thresholds (substrate-only):\n  CONFIDENCE_THRESHOLD = 0.7\n  WORD_LIMIT = 200\n  MAX_ITERATIONS = 3\n"

  /** The JSON dumps the substrate is built from. */
  datatype Sources = Sources(current: string, prior: string, extraction: string, validation: string,
                             anchors: seq<string>)

  function SubstrateParts(s: Sources): seq<string> {
    [s.current, s.prior, s.extraction, s.validation] + s.anchors
    + [ABBREVIATION_GLOSSARY, SYSTEM_THRESHOLD_GLOSSARY]
  }

  function FactCheckSubstrate(s: Sources): string { Join("\n", SubstrateParts(s)) }

  /** A one-line numeric is grounded in the substrate exactly when one of the two evidence records, the two findings,
      an anchor or a glossary grounds it: no source is left out and nothing else is let in. */
  lemma GroundedInASource(numeric: string, s: Sources)
    requires OneLine(numeric)
    ensures NumericGrounded(numeric, FactCheckSubstrate(s)) <==>
              || NumericGrounded(numeric, s.current) || NumericGrounded(numeric, s.prior)
              || NumericGrounded(numeric, s.extraction) || NumericGrounded(numeric, s.validation)
              || (exists k | 0 <= k < |s.anchors| :: NumericGrounded(numeric, s.anchors[k]))
              || NumericGrounded(numeric, ABBREVIATION_GLOSSARY)
              || NumericGrounded(numeric, SYSTEM_THRESHOLD_GLOSSARY)
  {
    hide NumericGrounded;
    var parts := SubstrateParts(s);
    var n := |s.anchors|;
    GroundedInJoin(numeric, parts);
    assert parts[0] == s.current && parts[1] == s.prior && parts[2] == s.extraction && parts[3] == s.validation;
    assert forall k | 0 <= k < n :: parts[4 + k] == s.anchors[k];
    assert parts[4 + n] == ABBREVIATION_GLOSSARY && parts[5 + n] == SYSTEM_THRESHOLD_GLOSSARY;
    if k :| 0 <= k < |parts| && NumericGrounded(numeric, parts[k]) {
      assert 4 <= k < 4 + n ==> parts[k] == s.anchors[k - 4];
    }
  }

  /** Every standalone number of a non-fallback narrative lies in one scanned token, and that
      token is grounded in one of the substrate's parts. */
  lemma ShippedNumbersAreGrounded(script: nat -> Reply<Payload>, s: Sources, stopwords: set<string>,
                                  similar: (string, string) -> bool, describe: nat -> string, a: nat, b: nat)
    returns (token: string, part: nat)
    requires var grounded := (t: string) => Passes(t, FactCheckSubstrate(s), stopwords, similar);
             var r := InvokeRun(script, 0, grounded, describe);
             && r.outcome.Done? && !IsFallback(r.outcome.value)
             && MaximalRun(r.outcome.value.text, a, b) && Standalone(r.outcome.value.text, a, b)
    ensures var grounded := (t: string) => Passes(t, FactCheckSubstrate(s), stopwords, similar);
            var text := InvokeRun(script, 0, grounded, describe).outcome.value.text;
            && (exists k | 0 <= k < |Numerics(text)| ::
                  Reaches(Numerics(text)[k], a, b) && token == Extract(text, Numerics(text)[k]))
            && part < |SubstrateParts(s)| && NumericGrounded(token, SubstrateParts(s)[part])
  {
    hide FactCheckSubstrate;
    hide Numerics;
    hide NumericGrounded;
    hide Passes;
    var grounded := (t: string) => Passes(t, FactCheckSubstrate(s), stopwords, similar);
    InvokeIsSafe(script, 0, grounded, describe);
    var text := InvokeRun(script, 0, grounded, describe).outcome.value.text;
    token, part := PassingTextIsGrounded(text, s, stopwords, similar, a, b);
  }

  lemma PassingTextIsGrounded(text: string, s: Sources, stopwords: set<string>,
                              similar: (string, string) -> bool, a: nat, b: nat) returns (token: string, part: nat)
    requires Passes(text, FactCheckSubstrate(s), stopwords, similar)
    requires MaximalRun(text, a, b) && Standalone(text, a, b)
    ensures exists k | 0 <= k < |Numerics(text)| ::
              Reaches(Numerics(text)[k], a, b) && token == Extract(text, Numerics(text)[k])
    ensures part < |SubstrateParts(s)| && NumericGrounded(token, SubstrateParts(s)[part])
  {
    hide Numerics;
    hide NumericGrounded;
    hide Passes;
    hide SubstrateParts;
    var k := PassGroundsEveryNumber(text, FactCheckSubstrate(s), stopwords, similar, a, b);
    token := Extract(text, Numerics(text)[k]);
    TokensAreOneLine(text, k);
    GroundedInJoin(token, SubstrateParts(s));
    part :| 0 <= part < |SubstrateParts(s)| && NumericGrounded(token, SubstrateParts(s)[part]);
  }
}
