/** What a chat-completion call can hand back, and a client that replays any
    sequence of replies. Because the sequence is arbitrary, it covers every
    model, every prompt and every failure. */
module Llm {
  /** What `json.loads` returned: an object the response model can look at, or anything else. */
  datatype Parsed<+P> = Object(payload: P) | NonObject

  /** The call raised; its token counts are refused when they are recorded; there is no choice to read; the content is
      empty, is not JSON, or is JSON. */
  datatype Reply<+P> =
    | TransportFailure
    | RejectedUsage
    | NoChoice
    | NoContent
    | MalformedJson
    | Json(parsed: Parsed<P>)

  /** A value; a ValueError or ValidationError, which callers handle; or any other exception. */
  datatype Outcome<+T> = Done(value: T) | Rejected | Crashed

  /** A result together with the number of replies consumed so far. */
  datatype Run<+T> = Run(outcome: Outcome<T>, calls: nat)

  class Client<P> {
    const script: nat -> Reply<P>
    var calls: nat

    constructor (script: nat -> Reply<P>)
      ensures this.script == script && calls == 0
    {
      this.script := script;
      calls := 0;
    }

    method Complete() returns (r: Reply<P>)
      modifies this`calls
      ensures r == script(old(calls)) && calls == old(calls) + 1
    {
      r := script(calls);
      calls := calls + 1;
    }
  }
}
