/** Token and cost accounting of one Layer-3 investigation: the recorder behind
    the cost row, the spans behind the dashboards, and how the two agree. */
module Telemetry {
  import opened Decimals
  import Corpus

  // ---- usage and prices ---------------------------------------------------

  /** A provider's usage block; either count may be missing. */
  datatype Usage = Usage(prompt: Option<int>, completion: Option<int>)

  datatype CallUsage = CallUsage(prompt: nat, completion: nat)

  /** What the recorder makes of a reply: nothing to add, counts that `CallUsage` rejects, or counts. */
  datatype Counted = Unreported | Invalid | Counts(usage: CallUsage)

  function Count(u: Option<Usage>): Counted {
    if u.None? || u.value.prompt.None? || u.value.completion.None? then Unreported
    else if u.value.prompt.value < 0 || u.value.completion.value < 0 then Invalid
    else Counts(CallUsage(u.value.prompt.value, u.value.completion.value))
  }

  const NO_USAGE := CallUsage(0, 0)

  function Plus(a: CallUsage, b: CallUsage): CallUsage {
    CallUsage(a.prompt + b.prompt, a.completion + b.completion)
  }

  datatype Price = Price(input: real, output: real)

  const PRICING := map["gpt-4o" := Price(0.0025, 0.0100), "gpt-4o-mini" := Price(0.00015, 0.0006)]

  function EstimateCost(deployment: string, input: int, output: int): Option<real> {
    if deployment in PRICING
    then Some(input as real / 1000.0 * PRICING[deployment].input + output as real / 1000.0 * PRICING[deployment].output)
    else None
  }

  /** What a span reports: an unknown deployment costs 0.0. */
  function CostOrZero(deployment: string, input: int, output: int): real {
    var cost := EstimateCost(deployment, input, output);
    if cost.Some? then cost.value else 0.0
  }

  lemma Distributes(a: real, b: real, p: real)
    ensures (a + b) / 1000.0 * p == a / 1000.0 * p + b / 1000.0 * p
  {
  }

  /** Cost is additive: pricing the totals is the same as adding up the priced calls. */
  lemma CostAdds(d: string, a: CallUsage, b: CallUsage)
    ensures CostOrZero(d, a.prompt + b.prompt, a.completion + b.completion)
         == CostOrZero(d, a.prompt, a.completion) + CostOrZero(d, b.prompt, b.completion)
  {
    if d in PRICING {
      Distributes(a.prompt as real, b.prompt as real, PRICING[d].input);
      Distributes(a.completion as real, b.completion as real, PRICING[d].output);
    }
  }

  /** The price list: a thousand prompt or completion tokens of either model, and nothing for any other name. Together
      with `CostAdds` this is the price of every call. */
  lemma PriceList(d: string)
    ensures EstimateCost("gpt-4o", 1000, 0) == Some(0.0025) && EstimateCost("gpt-4o", 0, 1000) == Some(0.01)
    ensures EstimateCost("gpt-4o-mini", 1000, 0) == Some(0.00015)
    ensures EstimateCost("gpt-4o-mini", 0, 1000) == Some(0.0006)
    ensures d != "gpt-4o" && d != "gpt-4o-mini" ==> EstimateCost(d, 1000, 1000) == None
  {
  }

  /** A call costs its prompt tokens at the prompt price and its completion tokens at the completion price. */
  lemma CostOfACall(input: int, output: int)
    ensures CostOrZero("gpt-4o", input, output) == (2.5 * input as real + 10.0 * output as real) / 1000000.0
    ensures CostOrZero("gpt-4o-mini", input, output) == (0.15 * input as real + 0.6 * output as real) / 1000000.0
    ensures forall d | d != "gpt-4o" && d != "gpt-4o-mini" :: CostOrZero(d, input, output) == 0.0
    ensures forall d :: EstimateCost(d, input, output).Some? ==>
              EstimateCost(d, input, output).value == CostOrZero(d, input, output)
  {
  }

  /** What a usage block counts as: nothing unless both counts are there, refused when one is negative, and otherwise
      the two counts, zero included. */
  lemma CountIs(prompt: int, completion: int)
    ensures Count(None) == Unreported
    ensures Count(Some(Usage(None, Some(completion)))) == Count(Some(Usage(Some(prompt), None))) == Unreported
    ensures var c := Count(Some(Usage(Some(prompt), Some(completion))));
            && (c == Invalid <==> prompt < 0 || completion < 0)
            && (prompt >= 0 && completion >= 0 ==> c == Counts(CallUsage(prompt, completion)))
  {
  }

  lemma CostOfNothing(d: string)
    ensures CostOrZero(d, 0, 0) == 0.0
  {
  }

  lemma CostNonNegative(d: string, u: CallUsage)
    ensures CostOrZero(d, u.prompt, u.completion) >= 0.0
  {
    if d in PRICING {
      assert PRICING[d].input > 0.0 && PRICING[d].output > 0.0;
    }
  }

  // ---- the recorder -------------------------------------------------------

  class UsageRecorder {
    var prompt: nat
    var completion: nat
    var calls: nat

    constructor ()
      ensures Snapshot() == NO_USAGE && calls == 0
    {
      prompt, completion, calls := 0, 0, 0;
    }

    function Snapshot(): CallUsage
      reads this
    {
      CallUsage(prompt, completion)
    }

    method Record(u: CallUsage)
      modifies this
      ensures Snapshot() == Plus(old(Snapshot()), u) && calls == old(calls) + 1
    {
      prompt := prompt + u.prompt;
      completion := completion + u.completion;
      calls := calls + 1;
    }
  }

  // ---- calls and spans ----------------------------------------------------

  /** Everything that reaches the accounting: a chat completion of the validation or narrative agent, or a
      callback of the extraction agent's loop, keyed by its run id and stamped with the clock in seconds. */
  datatype Call<+Id> =
    | Chat(usage: Option<Usage>)
    | Start(id: Id, at: real)
    | End(id: Id, at: real, usage: Option<Usage>)
    | Error(id: Id, at: real)

  datatype Tokens = Tokens(input: int, output: int)

  datatype Span =
    | ChatSpan(tokens: Tokens, cost: real)
    | CallbackSpan(reported: Option<Tokens>, cost: real, success: bool, durationMs: real)

  /** `int(count or 0)`: a chat span shows 0 for a missing count, and shows the other one all the same. */
  function ChatTokens(u: Option<Usage>): Tokens {
    if u.None? then Tokens(0, 0)
    else Tokens(if u.value.prompt.Some? then u.value.prompt.value else 0,
                if u.value.completion.Some? then u.value.completion.value else 0)
  }

  function ChatSpanOf(u: Option<Usage>, d: string): Span {
    var t := ChatTokens(u);
    ChatSpan(t, CostOrZero(d, t.input, t.output))
  }

  /** A callback span carries tokens only when both counts are there. */
  function ReportedTokens(u: Option<Usage>): Option<Tokens> {
    if Count(u).Unreported? then None else Some(Tokens(u.value.prompt.value, u.value.completion.value))
  }

  function CallbackSpanOf(reported: Option<Tokens>, d: string, success: bool, seconds: real): Span {
    CallbackSpan(reported, if reported.None? then 0.0 else CostOrZero(d, reported.value.input, reported.value.output),
                 success, seconds * 1000.0)
  }

  /** The callback handler's span table, and the spans exported so far. */
  datatype Table<Id> = Table(open: map<Id, real>, spans: seq<Span>)

  /** `_finalize_span`: nothing when no span is open for the id. */
  function Close<Id>(t: Table<Id>, id: Id, at: real, reported: Option<Tokens>, success: bool, d: string): Table<Id> {
    if id !in t.open then t
    else Table(t.open - {id}, t.spans + [CallbackSpanOf(reported, d, success, at - t.open[id])])
  }

  /** One event. Counts the recorder rejects raise before the span is reached. */
  function Step<Id>(t: Table<Id>, c: Call<Id>, d: string, wired: bool): Table<Id> {
    match c
    case Chat(u) => if wired && Count(u).Invalid? then t else t.(spans := t.spans + [ChatSpanOf(u, d)])
    case Start(id, at) => t.(open := t.open[id := at])
    case End(id, at, u) =>
      if wired && Count(u).Invalid? then t else Close(t, id, at, ReportedTokens(u), true, d)
    case Error(id, at) => Close(t, id, at, None, false, d)
  }

  /** The span a closed callback leaves: its tokens and their price when both counts were reported, neither
      otherwise, and the milliseconds since its own start. */
  lemma ClosedSpan<Id>(t: Table<Id>, id: Id, at: real, u: Option<Usage>, d: string)
    requires id in t.open && !Count(u).Invalid?
    ensures var spans := Step(t, End(id, at, u), d, true).spans;
            && |spans| == |t.spans| + 1 && spans[..|t.spans|] == t.spans
            && var s := spans[|t.spans|];
               && s.CallbackSpan? && s.success && s.durationMs == 1000.0 * (at - t.open[id])
               && (s.reported.Some? <==> u.Some? && u.value.prompt.Some? && u.value.completion.Some?)
               && (s.reported.Some? ==>
                     && s.reported.value == Tokens(u.value.prompt.value, u.value.completion.value)
                     && s.cost == CostOrZero(d, u.value.prompt.value, u.value.completion.value))
               && (s.reported.None? ==> s.cost == 0.0)
    ensures var spans := Step(t, Error(id, at), d, true).spans;
            spans == t.spans + [CallbackSpan(None, 0.0, false, 1000.0 * (at - t.open[id]))]
  {
    hide EstimateCost;
  }

  /** The span of a chat completion shows each count, 0 for a missing one, and their price. */
  lemma ChatSpanIs<Id>(t: Table<Id>, prompt: Option<int>, completion: Option<int>, d: string)
    requires !Count(Some(Usage(prompt, completion))).Invalid?
    ensures var spans := Step<Id>(t, Chat(Some(Usage(prompt, completion))), d, true).spans;
            var p, c := if prompt.Some? then prompt.value else 0, if completion.Some? then completion.value else 0;
            spans == t.spans + [ChatSpan(Tokens(p, c), CostOrZero(d, p, c))]
    ensures Step<Id>(t, Chat(None), d, true).spans == t.spans + [ChatSpan(Tokens(0, 0), 0.0)]
  {
    CostOfNothing(d);
    hide CostOrZero;
  }

  function Trace<Id>(t: Table<Id>, cs: seq<Call<Id>>, d: string, wired: bool): Table<Id> {
    if cs == [] then t else Step(Trace(t, Front(cs), d, wired), Last(cs), d, wired)
  }

  function Front<T>(s: seq<T>): seq<T>
    requires s != []
  {
    s[..|s| - 1]
  }

  function Last<T>(s: seq<T>): T
    requires s != []
  {
    s[|s| - 1]
  }

  /** What one call adds to a wired recorder. */
  function Recorded<Id>(c: Call<Id>): CallUsage {
    if (c.Chat? || c.End?) && Count(c.usage).Counts? then Count(c.usage).usage else NO_USAGE
  }

  /** The token sum over the calls that carry usage. */
  function Tally<Id>(cs: seq<Call<Id>>): CallUsage {
    if cs == [] then NO_USAGE else Plus(Tally(Front(cs)), Recorded(Last(cs)))
  }

  // ---- the classes --------------------------------------------------------

  /** The process-wide tracer: the spans that were ended. */
  class Tracer {
    var spans: seq<Span>

    constructor ()
      ensures spans == []
    {
      spans := [];
    }
  }

  /** The validation or the narrative agent, as far as accounting goes. */
  class ChatAgent {
    var recorder: UsageRecorder?
    const tracer: Tracer
    const deployment: string

    constructor (tracer: Tracer, deployment: string)
      ensures recorder == null && this.tracer == tracer && this.deployment == deployment
    {
      recorder := null;
      this.tracer, this.deployment := tracer, deployment;
    }

    /** `_traced_chat_completion`, once the service has replied. */
    method TracedChatCompletion<Id>(u: Option<Usage>) returns (raised: bool)
      modifies recorder, tracer
      ensures raised <==> recorder != null && Count(u).Invalid?
      ensures recorder != null ==> recorder.Snapshot() == Plus(old(recorder.Snapshot()), Recorded<Id>(Chat(u)))
      ensures tracer.spans == Step<Id>(Table(map[], old(tracer.spans)), Chat(u), deployment, recorder != null).spans
    {
      if recorder != null && !Count(u).Unreported? {
        if Count(u).Invalid? { return true; }
        recorder.Record(Count(u).usage);
      }
      tracer.spans := tracer.spans + [ChatSpanOf(u, deployment)];
      return false;
    }
  }

  /** `_TelemetryCallbackHandler`. */
  class CallbackHandler<Id(==)> {
    const recorder: UsageRecorder?
    const tracer: Tracer
    const deployment: string
    var open: map<Id, real>

    constructor (recorder: UsageRecorder?, tracer: Tracer, deployment: string)
      ensures this.recorder == recorder && this.tracer == tracer && this.deployment == deployment && open == map[]
    {
      this.recorder, this.tracer, this.deployment := recorder, tracer, deployment;
      open := map[];
    }

    function View(): Table<Id>
      reads this, tracer
    {
      Table(open, tracer.spans)
    }

    method OnStart(id: Id, at: real)
      modifies this
      ensures View() == Step(old(View()), Start(id, at), deployment, recorder != null)
    {
      open := open[id := at];
    }

    method OnEnd(id: Id, at: real, u: Option<Usage>) returns (raised: bool)
      modifies this, recorder, tracer
      ensures raised <==> recorder != null && Count(u).Invalid?
      ensures recorder != null ==> recorder.Snapshot() == Plus(old(recorder.Snapshot()), Recorded(End(id, at, u)))
      ensures View() == Step(old(View()), End(id, at, u), deployment, recorder != null)
    {
      if recorder != null && !Count(u).Unreported? {
        if Count(u).Invalid? { return true; }
        recorder.Record(Count(u).usage);
      }
      FinalizeSpan(id, at, ReportedTokens(u), true);
      return false;
    }

    method OnError(id: Id, at: real)
      modifies this, tracer
      ensures View() == Step(old(View()), Error(id, at), deployment, recorder != null)
    {
      FinalizeSpan(id, at, None, false);
    }

    method FinalizeSpan(id: Id, at: real, reported: Option<Tokens>, success: bool)
      modifies this, tracer
      ensures View() == Close(old(View()), id, at, reported, success, deployment)
    {
      if id !in open { return; }
      var start := open[id];
      open := open - {id};
      tracer.spans := tracer.spans + [CallbackSpanOf(reported, deployment, success, at - start)];
    }
  }

  // ---- no span leaks ------------------------------------------------------

  /** The event ends the span of `id`, if there is one. */
  ghost predicate Closes<Id>(c: Call<Id>, id: Id, wired: bool) {
    || (c.Error? && c.id == id)
    || (c.End? && c.id == id && !(wired && Count(c.usage).Invalid?))
  }

  /** The id was started and nothing after that start ended it. */
  ghost predicate LeftOpen<Id(!new)>(cs: seq<Call<Id>>, id: Id, wired: bool) {
    exists i :: 0 <= i < |cs| && cs[i].Start? && cs[i].id == id
                && forall j :: i < j < |cs| ==> !Closes(cs[j], id, wired)
  }

  lemma StepOpens<Id>(t: Table<Id>, c: Call<Id>, d: string, wired: bool, id: Id)
    ensures id in Step(t, c, d, wired).open <==> (c.Start? && c.id == id) || (id in t.open && !Closes(c, id, wired))
  {
    hide Count, CostOrZero, ChatTokens;
  }

  lemma LeftOpenLast<Id(!new)>(cs: seq<Call<Id>>, id: Id, wired: bool)
    requires cs != []
    ensures LeftOpen(cs, id, wired) <==>
              (Last(cs).Start? && Last(cs).id == id) || (LeftOpen(Front(cs), id, wired) && !Closes(Last(cs), id, wired))
  {
    hide Closes;
    var n := |cs| - 1;
    if Last(cs).Start? && Last(cs).id == id {
      assert cs[n].Start?;
    } else if LeftOpen(cs, id, wired) {
      var i :| 0 <= i < |cs| && cs[i].Start? && cs[i].id == id
               && forall j :: i < j < |cs| ==> !Closes(cs[j], id, wired);
      assert Front(cs)[i] == cs[i] && forall j :: i < j < n ==> cs[j] == Front(cs)[j];
    } else if LeftOpen(Front(cs), id, wired) {
      var i :| 0 <= i < n && Front(cs)[i].Start? && Front(cs)[i].id == id
               && forall j :: i < j < n ==> !Closes(Front(cs)[j], id, wired);
      assert cs[i] == Front(cs)[i] && forall j :: i < j < n ==> cs[j] == Front(cs)[j];
    }
  }

  /** A span stays in the table exactly when its id is started and not ended afterwards; every start
      that is followed by an end or an error of its id leaves nothing behind. */
  lemma {:induction false} OpenIffNeverEnded<Id(!new)>(spans: seq<Span>, cs: seq<Call<Id>>, d: string, wired: bool,
                                                       id: Id)
    ensures id in Trace(Table(map[], spans), cs, d, wired).open <==> LeftOpen(cs, id, wired)
  {
    if cs != [] {
      OpenIffNeverEnded(spans, Front(cs), d, wired, id);
      LeftOpenLast(cs, id, wired);
      StepOpens(Trace(Table(map[], spans), Front(cs), d, wired), Last(cs), d, wired, id);
      hide Step, LeftOpen, Closes;
    }
  }

  /** How many spans were started, and how many starts replaced a span that was still open. */
  function Starts<Id>(cs: seq<Call<Id>>): nat {
    if cs == [] then 0 else Starts(Front(cs)) + if Last(cs).Start? then 1 else 0
  }

  function Replaced<Id>(t: Table<Id>, cs: seq<Call<Id>>, d: string, wired: bool): nat {
    if cs == [] then 0
    else Replaced(t, Front(cs), d, wired)
         + if Last(cs).Start? && Last(cs).id in Trace(t, Front(cs), d, wired).open then 1 else 0
  }

  function CallbackSpans(spans: seq<Span>): nat {
    if spans == [] then 0 else CallbackSpans(Front(spans)) + if Last(spans).CallbackSpan? then 1 else 0
  }

  lemma CallbackSpansOfAppend(spans: seq<Span>, s: Span)
    ensures CallbackSpans(spans + [s]) == CallbackSpans(spans) + if s.CallbackSpan? then 1 else 0
  {
    assert Front(spans + [s]) == spans;
  }

  lemma OpenAfterStart<Id>(open: map<Id, real>, id: Id, at: real)
    ensures |open[id := at]| == |open| + if id in open then 0 else 1
  {
    assert open[id := at].Keys == open.Keys + {id};
  }

  lemma OpenAfterClose<Id>(open: map<Id, real>, id: Id)
    requires id in open
    ensures |open - {id}| == |open| - 1
  {
    assert (open - {id}).Keys == open.Keys - {id};
  }

  lemma StepConserves<Id>(t: Table<Id>, c: Call<Id>, d: string, wired: bool)
    ensures var after := Step(t, c, d, wired);
            |t.open| + CallbackSpans(t.spans) + (if c.Start? then 1 else 0)
            == |after.open| + CallbackSpans(after.spans) + (if c.Start? && c.id in t.open then 1 else 0)
  {
    hide CostOrZero, CallbackSpans, ChatTokens;
    match c
    case Chat(u) => CallbackSpansOfAppend(t.spans, ChatSpanOf(u, d));
    case Start(id, at) => OpenAfterStart(t.open, id, at);
    case End(id, at, u) =>
      if id in t.open {
        OpenAfterClose(t.open, id);
        CallbackSpansOfAppend(t.spans, CallbackSpanOf(ReportedTokens(u), d, true, at - t.open[id]));
      }
    case Error(id, at) =>
      if id in t.open {
        OpenAfterClose(t.open, id);
        CallbackSpansOfAppend(t.spans, CallbackSpanOf(None, d, false, at - t.open[id]));
      }
  }

  /** Every started span is exported, still open, or was replaced by a start with the same id. */
  lemma {:induction false} SpansConserved<Id>(t: Table<Id>, cs: seq<Call<Id>>, d: string, wired: bool)
    ensures var after := Trace(t, cs, d, wired);
            |t.open| + CallbackSpans(t.spans) + Starts(cs)
            == |after.open| + CallbackSpans(after.spans) + Replaced(t, cs, d, wired)
  {
    hide Step, CallbackSpans;
    if cs != [] {
      SpansConserved(t, Front(cs), d, wired);
      StepConserves(Trace(t, Front(cs), d, wired), Last(cs), d, wired);
    }
  }

  // ---- the two pipes agree on cost ----------------------------------------

  function SpanCost(spans: seq<Span>): real {
    if spans == [] then 0.0 else SpanCost(Front(spans)) + Last(spans).cost
  }

  lemma SpanCostOfAppend(spans: seq<Span>, s: Span)
    ensures SpanCost(spans + [s]) == SpanCost(spans) + s.cost
  {
    assert Front(spans + [s]) == spans;
  }

  /** Cost the recorder sees and no span shows: usage reported for an id without an open span. */
  function Unspanned<Id>(t: Table<Id>, cs: seq<Call<Id>>, d: string): real {
    if cs == [] then 0.0
    else
      var u := Recorded(Last(cs));
      Unspanned(t, Front(cs), d)
      + (if Last(cs).End? && Last(cs).id !in Trace(t, Front(cs), d, true).open
         then CostOrZero(d, u.prompt, u.completion) else 0.0)
  }

  /** Cost a chat span shows and the recorder skips: a reply with only one of the two counts. */
  function HalfReported<Id>(cs: seq<Call<Id>>, d: string): real {
    if cs == [] then 0.0
    else HalfReported(Front(cs), d)
         + if Last(cs).Chat? && Count(Last(cs).usage).Unreported? then ChatSpanOf(Last(cs).usage, d).cost else 0.0
  }

  /** Both pipes priced with one deployment differ by exactly the two leaks above. */
  lemma {:induction false} CostConserved<Id>(t: Table<Id>, cs: seq<Call<Id>>, d: string)
    ensures SpanCost(Trace(t, cs, d, true).spans) + Unspanned(t, cs, d)
         == SpanCost(t.spans) + CostOrZero(d, Tally(cs).prompt, Tally(cs).completion) + HalfReported(cs, d)
  {
    CostOfNothing(d);
    hide CostOrZero, Step, Recorded, ChatSpanOf, Count;
    if cs != [] {
      CostConserved(t, Front(cs), d);
      CostAdds(d, Tally(Front(cs)), Recorded(Last(cs)));
      StepCost(Trace(t, Front(cs), d, true), Last(cs), d);
    }
  }

  lemma StepCost<Id>(t: Table<Id>, c: Call<Id>, d: string)
    ensures var u := Recorded(c);
            SpanCost(Step(t, c, d, true).spans)
              + (if c.End? && c.id !in t.open then CostOrZero(d, u.prompt, u.completion) else 0.0)
              == SpanCost(t.spans) + CostOrZero(d, u.prompt, u.completion)
                 + (if c.Chat? && Count(c.usage).Unreported? then ChatSpanOf(c.usage, d).cost else 0.0)
  {
    CostOfNothing(d);
    hide CostOrZero, SpanCost;
    match c
    case Chat(u) => SpanCostOfAppend(t.spans, ChatSpanOf(u, d));
    case Start(id, at) =>
    case End(id, at, u) =>
      if id in t.open {
        SpanCostOfAppend(t.spans, CallbackSpanOf(ReportedTokens(u), d, true, at - t.open[id]));
      }
    case Error(id, at) =>
      if id in t.open {
        SpanCostOfAppend(t.spans, CallbackSpanOf(None, d, false, at - t.open[id]));
      }
  }

  predicate BothOrNeither(u: Option<Usage>) {
    u.Some? ==> (u.value.prompt.Some? <==> u.value.completion.Some?)
  }

  /** Every end of a callback finds the span its start opened. */
  ghost predicate Bracketed<Id(!new)>(cs: seq<Call<Id>>) {
    forall k :: 0 <= k < |cs| && cs[k].End? ==> LeftOpen(cs[..k], cs[k].id, true)
  }

  /** With bracketed callbacks and both or neither count in every chat reply, the dashboards' cost is the row's cost. */
  lemma {:induction false} SpanCostsSumToTheRow<Id(!new)>(cs: seq<Call<Id>>, d: string)
    requires Bracketed(cs)
    requires forall k :: 0 <= k < |cs| && cs[k].Chat? ==> BothOrNeither(cs[k].usage)
    ensures SpanCost(Trace(Table(map[], []), cs, d, true).spans)
         == CostOrZero(d, Tally(cs).prompt, Tally(cs).completion)
  {
    CostConserved(Table(map[], []), cs, d);
    NoLeaks(cs, d);
  }

  lemma {:induction false} NoLeaks<Id(!new)>(cs: seq<Call<Id>>, d: string)
    requires Bracketed(cs)
    requires forall k :: 0 <= k < |cs| && cs[k].Chat? ==> BothOrNeither(cs[k].usage)
    ensures Unspanned(Table(map[], []), cs, d) == 0.0 == HalfReported(cs, d)
  {
    if cs != [] {
      var n := |cs| - 1;
      assert forall k :: 0 <= k < n ==> Front(cs)[k] == cs[k] && Front(cs)[..k] == cs[..k];
      NoLeaks(Front(cs), d);
      if cs[n].End? { OpenIffNeverEnded([], cs[..n], d, true, cs[n].id); }
    }
  }

  // ---- the cost row -------------------------------------------------------

  datatype CostRow = CostRow(runId: string, input: int, output: int, total: int, latencyMs: int, cost: Option<real>,
                             model: string, startedAt: real, completedAt: real)

  predicate ValidCostRow(r: CostRow) {
    && r.runId != "" && r.model != ""
    && r.input >= 0 && r.output >= 0 && r.total >= 0 && r.latencyMs >= 0
    && (r.cost.Some? ==> r.cost.value >= 0.0)
    && r.total == r.input + r.output
    && r.completedAt >= r.startedAt
  }

  function Max(a: int, b: int): int { if a >= b then a else b }

  function BuildCostRow(runId: string, u: CallUsage, d: string, startedAt: real, completedAt: real): CostRow {
    CostRow(runId, u.prompt, u.completion, u.prompt + u.completion,
            Max(Corpus.Truncate((completedAt - startedAt) * 1000.0), 0), EstimateCost(d, u.prompt, u.completion),
            d, startedAt, completedAt)
  }

  /** The row, field by field: the recorder's counts and their sum, their price or nothing for an unknown model, and the
      whole milliseconds of the clock, never negative. */
  lemma CostRowIs(runId: string, u: CallUsage, d: string, startedAt: real, completedAt: real)
    ensures var r := BuildCostRow(runId, u, d, startedAt, completedAt);
            && r.runId == runId && r.model == d && r.startedAt == startedAt && r.completedAt == completedAt
            && r.input == u.prompt && r.output == u.completion && r.total == r.input + r.output
            && (r.cost.Some? <==> d == "gpt-4o" || d == "gpt-4o-mini")
            && (r.cost.Some? ==> r.cost.value == CostOrZero(d, u.prompt, u.completion))
            && (completedAt >= startedAt ==>
                  r.latencyMs as real <= 1000.0 * (completedAt - startedAt) < (r.latencyMs + 1) as real)
            && (completedAt < startedAt ==> r.latencyMs == 0)
  {
  }

  /** The row validator never rejects the tokens or the cost: a row is refused only for an empty name or a
      clock that ran backwards. The clamp on the latency therefore never changes an accepted row. */
  lemma CostRowAcceptedIff(runId: string, u: CallUsage, d: string, startedAt: real, completedAt: real)
    ensures var r := BuildCostRow(runId, u, d, startedAt, completedAt);
            && (ValidCostRow(r) <==> runId != "" && d != "" && completedAt >= startedAt)
            && (ValidCostRow(r) ==> r.latencyMs == ((completedAt - startedAt) * 1000.0).Floor)
  {
    CostNonNegative(d, u);
  }

  // ---- one investigation --------------------------------------------------

  /** A wired chat agent that shares the handler's recorder and tracer. */
  ghost predicate Shares<Id>(agent: ChatAgent?, handler: CallbackHandler<Id>)
    reads agent, handler
  {
    agent != null && agent.recorder == handler.recorder && agent.tracer == handler.tracer
  }

  /** Every chat completion is made with deployment d. */
  predicate OneDeployment<Id>(agents: seq<ChatAgent?>, calls: seq<Call<Id>>, d: string)
    requires |agents| == |calls|
  {
    forall k :: 0 <= k < |calls| && calls[k].Chat? ==> agents[k] != null && agents[k].deployment == d
  }

  /** One call, made by `agent` when it is a chat completion. Counts that the recorder rejects raise, and the raise
      stays inside: the chat agents take it for a failed attempt and LangChain swallows it in a callback. */
  method Dispatch<Id>(handler: CallbackHandler<Id>, agent: ChatAgent?, c: Call<Id>)
    requires c.Chat? ==> Shares(agent, handler)
    requires handler.recorder != null
    modifies handler, handler.recorder, handler.tracer
    ensures handler.recorder.Snapshot() == Plus(old(handler.recorder.Snapshot()), Recorded(c))
    ensures (c.Chat? ==> agent.deployment == handler.deployment) ==>
              handler.View() == Step(old(handler.View()), c, handler.deployment, true)
  {
    hide CostOrZero, Count;
    match c
    case Chat(u) => var _ := agent.TracedChatCompletion<Id>(u);
    case Start(id, at) => handler.OnStart(id, at);
    case End(id, at, u) => var _ := handler.OnEnd(id, at, u);
    case Error(id, at) => handler.OnError(id, at);
  }

  /** The calls of one investigation, in order. */
  method Play<Id>(handler: CallbackHandler<Id>, agents: seq<ChatAgent?>, calls: seq<Call<Id>>)
    requires |agents| == |calls| && handler.recorder != null
    requires forall k :: 0 <= k < |calls| && calls[k].Chat? ==> Shares(agents[k], handler)
    modifies handler, handler.recorder, handler.tracer
    ensures handler.recorder.Snapshot() == Plus(old(handler.recorder.Snapshot()), Tally(calls))
    ensures OneDeployment(agents, calls, handler.deployment) ==>
              handler.View() == Trace(old(handler.View()), calls, handler.deployment, true)
  {
    hide Step, Count, Recorded;
    for i := 0 to |calls|
      invariant forall k :: 0 <= k < |calls| && calls[k].Chat? ==> Shares(agents[k], handler)
      invariant handler.recorder.Snapshot() == Plus(old(handler.recorder.Snapshot()), Tally(calls[..i]))
      invariant OneDeployment(agents, calls, handler.deployment) ==>
                  handler.View() == Trace(old(handler.View()), calls[..i], handler.deployment, true)
    {
      assert Front(calls[..i + 1]) == calls[..i] && Last(calls[..i + 1]) == calls[i];
      Dispatch(handler, agents[i], calls[i]);
    }
    assert calls[..|calls|] == calls;
  }

  /** `run_investigation`'s accounting: one recorder, injected into every wired agent, fed by all their
      calls, and turned into one row unless the row's validator refuses it. */
  method Investigate<Id(==)>(tracer: Tracer, supplied: UsageRecorder?, validation: ChatAgent?, narrative: ChatAgent?,
                             extractionDeployment: string, calls: seq<Call<Id>>, agents: seq<ChatAgent?>,
                             d: string, runId: string, startedAt: real, completedAt: real)
    returns (recorder: UsageRecorder, row: Option<CostRow>)
    requires validation != null ==> validation.tracer == tracer
    requires narrative != null ==> narrative.tracer == tracer
    requires |agents| == |calls|
    requires forall k :: 0 <= k < |calls| && calls[k].Chat? ==>
               agents[k] != null && agents[k] in [validation, narrative]
    modifies tracer, supplied, validation, narrative
    ensures if supplied != null then recorder == supplied else fresh(recorder)
    ensures validation != null ==> validation.recorder == recorder
    ensures narrative != null ==> narrative.recorder == recorder
    ensures recorder.Snapshot() == Plus(if supplied != null then old(supplied.Snapshot()) else NO_USAGE, Tally(calls))
    ensures OneDeployment(agents, calls, extractionDeployment) ==>
              tracer.spans == Trace(Table(map[], old(tracer.spans)), calls, extractionDeployment, true).spans
    ensures row.Some? <==> runId != "" && d != "" && completedAt >= startedAt
    ensures row.Some? ==>
              && ValidCostRow(row.value)
              && row.value == BuildCostRow(runId, recorder.Snapshot(), d, startedAt, completedAt)
  {
    hide Step, Trace, Count, Tally, EstimateCost, ValidCostRow, BuildCostRow;
    if supplied != null { recorder := supplied; } else { recorder := new UsageRecorder(); }
    if validation != null { validation.recorder := recorder; }
    if narrative != null { narrative.recorder := recorder; }
    var handler := new CallbackHandler<Id>(recorder, tracer, extractionDeployment);
    assert handler.View() == Table(map[], old(tracer.spans));
    assert recorder.Snapshot() == if supplied != null then old(supplied.Snapshot()) else NO_USAGE;
    Play(handler, agents, calls);
    CostRowAcceptedIff(runId, recorder.Snapshot(), d, startedAt, completedAt);
    var built := BuildCostRow(runId, recorder.Snapshot(), d, startedAt, completedAt);
    row := if ValidCostRow(built) then Some(built) else None;
  }
}
