/** The Layer-2 narrative generator's word-limit retry. Unlike Layer 3 it trusts
    the word count the model reports, and recounts only what it truncates. */
module Layer2Generator {
  import opened Text
  import opened Llm

  const WORD_LIMIT: nat := 150

  /** A reply's fields; `valid` is the response model's verdict on them. */
  datatype Response = Response(text: string, cited: seq<string>, wordCount: nat)

  datatype Payload = Payload(response: Response, valid: bool)

  predicate Accepted(p: Payload) { p.valid && p.response.text != "" }

  /** `_invoke_llm`: one retry, on malformed JSON only. */
  function LlmRun(script: nat -> Reply<Payload>, n: nat): (r: Run<Response>)
    ensures n < r.calls <= n + 2
  {
    match script(n)
    case MalformedJson => ReadReply(script(n + 1), n + 2)
    case r => ReadReply(r, n + 1)
  }

  /** Refused token counts and schema errors are ValidationErrors, empty and malformed content ValueErrors. */
  function ReadReply(r: Reply<Payload>, calls: nat): Run<Response> {
    match r
    case Json(Object(p)) => Run(if Accepted(p) then Done(p.response) else Rejected, calls)
    case Json(NonObject) => Run(Crashed, calls)
    case TransportFailure => Run(Crashed, calls)
    case NoChoice => Run(Crashed, calls)
    case _ => Run(Rejected, calls)
  }

  function FirstWords(s: string): seq<string> {
    var ws := Words(s);
    if |ws| <= WORD_LIMIT then ws else ws[..WORD_LIMIT]
  }

  /** The truncated response; rejected when no word is left. */
  function Truncate(r: Response): Outcome<Response> {
    var ws := FirstWords(r.text);
    if Join(" ", ws) == "" then Rejected else Done(Response(Join(" ", ws), r.cited, |ws|))
  }

  /** `_call_with_word_limit_retry`. */
  function WordLimitRun(script: nat -> Reply<Payload>, n: nat): Run<Response> {
    var first := LlmRun(script, n);
    if !first.outcome.Done? || first.outcome.value.wordCount <= WORD_LIMIT then first
    else
      var second := LlmRun(script, first.calls);
      if !second.outcome.Done? || second.outcome.value.wordCount <= WORD_LIMIT then second
      else Run(Truncate(second.outcome.value), second.calls)
  }

  method InvokeLlm(client: Client<Payload>) returns (o: Outcome<Response>)
    modifies client`calls
    ensures Run(o, client.calls) == LlmRun(client.script, old(client.calls))
  {
    var attempt := 1;
    while attempt <= 2
      invariant 1 <= attempt <= 2 && client.calls == old(client.calls) + attempt - 1
      invariant attempt == 2 ==> client.script(old(client.calls)) == MalformedJson
      decreases 2 - attempt
    {
      var reply := client.Complete();
      if reply.MalformedJson? && attempt == 1 {
        attempt := attempt + 1;
        continue;
      }
      return ReadReply(reply, client.calls).outcome;
    }
    return Rejected;
  }

  method CallWithWordLimit(client: Client<Payload>) returns (o: Outcome<Response>)
    modifies client`calls
    ensures Run(o, client.calls) == WordLimitRun(client.script, old(client.calls))
  {
    var first := InvokeLlm(client);
    if !first.Done? || first.value.wordCount <= WORD_LIMIT { return first; }
    var second := InvokeLlm(client);
    if !second.Done? || second.value.wordCount <= WORD_LIMIT { return second; }
    return Truncate(second.value);
  }

  /** Splitting, keeping the first words, joining and splitting again gives exactly those words. */
  lemma TruncationIsHonest(r: Response)
    ensures var t := Truncate(r);
            t.Done? ==>
              && Words(t.value.text) == FirstWords(r.text)
              && t.value.wordCount == |Words(t.value.text)| <= WORD_LIMIT
  {
    SplitOfJoin(FirstWords(r.text));
  }

  /** A response comes from the last reply. */
  lemma LlmDone(script: nat -> Reply<Payload>, n: nat)
    ensures var r := LlmRun(script, n);
            r.outcome.Done? ==>
              script(r.calls - 1) == Json(Object(Payload(r.outcome.value, true))) && r.outcome.value.text != ""
  {
  }

  /** At most four calls; the shipped count never exceeds the limit; and it is the narrative's own
      count unless the shipped response is a reply's, unchanged, with the count that reply claimed. */
  lemma ShippedCount(script: nat -> Reply<Payload>, n: nat)
    ensures var r := WordLimitRun(script, n);
            && n < r.calls <= n + 4
            && (r.outcome.Done? ==>
                  && r.outcome.value.wordCount <= WORD_LIMIT
                  && (|| r.outcome.value.wordCount == |Words(r.outcome.value.text)|
                      || script(r.calls - 1) == Json(Object(Payload(r.outcome.value, true)))))
  {
    LlmDone(script, n);
    var first := LlmRun(script, n);
    LlmDone(script, first.calls);
    hide LlmRun, Truncate, Words;
    if first.outcome.Done? {
      var second := LlmRun(script, first.calls);
      if second.outcome.Done? { TruncationIsHonest(second.outcome.value); }
    }
  }

  // ---- how many calls -----------------------------------------------------

  /** A reply that the response model accepts and that claims more than 150 words. */
  predicate ClaimsOver(r: Reply<Payload>) {
    r.Json? && r.parsed.Object? && Accepted(r.parsed.payload) && r.parsed.payload.response.wordCount > WORD_LIMIT
  }

  /** Calls for one response, read off the replies. */
  function LlmCalls(script: nat -> Reply<Payload>, n: nat): nat { if script(n).MalformedJson? then 2 else 1 }

  /** Calls for one narrative: a second response when the first claims too many words. */
  function WordLimitCalls(script: nat -> Reply<Payload>, n: nat): nat {
    var first := LlmCalls(script, n);
    first + if ClaimsOver(script(n + first - 1)) then LlmCalls(script, n + first) else 0
  }

  /** The number of calls in closed form, and exactly when it stays within the documented two: no second response is
      asked for, or neither response needs its JSON retried. */
  lemma CallsAre(script: nat -> Reply<Payload>, n: nat)
    ensures WordLimitRun(script, n).calls == n + WordLimitCalls(script, n)
    ensures WordLimitRun(script, n).calls <= n + 2 <==>
              || !ClaimsOver(script(n + LlmCalls(script, n) - 1))
              || (!script(n).MalformedJson? && !script(n + 1).MalformedJson?)
  {
  }

  /** A text of any length ships with any claimed count up to the limit. */
  lemma ClaimedCountIsTrusted(text: string, cited: seq<string>, claimed: nat)
    requires text != "" && claimed <= WORD_LIMIT
    ensures WordLimitRun(_ => Json(Object(Payload(Response(text, cited, claimed), true))), 0)
         == Run(Done(Response(text, cited, claimed)), 1)
  {
  }

  /** A reply that ships as it is: accepted, and claiming a count within the limit. */
  predicate ClaimsWithin(r: Reply<Payload>) {
    r.Json? && r.parsed.Object? && Accepted(r.parsed.payload) && r.parsed.payload.response.wordCount <= WORD_LIMIT
  }

  /** Exactly when the documented limit is broken: a shipped narrative has more than 150 words if and only if the last
      reply claims at most 150 for a text that has more. */
  lemma OverLimitIff(script: nat -> Reply<Payload>, n: nat)
    ensures var r := WordLimitRun(script, n);
            r.outcome.Done? ==>
              var last := script(r.calls - 1);
              (|Words(r.outcome.value.text)| > WORD_LIMIT <==>
                 ClaimsWithin(last) && |Words(last.parsed.payload.response.text)| > WORD_LIMIT)
  {
    LlmDone(script, n);
    var first := LlmRun(script, n);
    LlmDone(script, first.calls);
    hide LlmRun, Truncate, Words;
    if first.outcome.Done? {
      var second := LlmRun(script, first.calls);
      if second.outcome.Done? { TruncationIsHonest(second.outcome.value); }
    }
  }

  /** So the limit holds on every run whose replies count their words honestly. */
  lemma HonestRepliesStayWithin(script: nat -> Reply<Payload>, n: nat)
    requires forall k :: ClaimsWithin(script(k)) ==> |Words(script(k).parsed.payload.response.text)| <= WORD_LIMIT
    ensures var r := WordLimitRun(script, n); r.outcome.Done? ==> |Words(r.outcome.value.text)| <= WORD_LIMIT
  {
    OverLimitIff(script, n);
  }
}
