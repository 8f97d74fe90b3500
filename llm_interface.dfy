/**
 * The generation front end: the token budget a call may spend, which calls
 * `call_llm` and `call_llm_long` make, and the self-consistency vote. The
 * language model itself is an oracle: `tokens` gives the prompt's length in
 * tokens and `gen` the raw text a request produces.
 */
module LlmInterface {
  import opened Options
  import opened PyStr

  /** The context size the model is loaded with. */
  const N_CTX: int := 8192
  /** The smallest budget a call is ever given. */
  const MIN_BUDGET: int := 64

  /** `_budget`: what is left after the prompt and the reserve, capped, but never below 64. */
  function Budget(used: int, nCtx: int, reserve: int, hardCap: Option<int>): (r: int)
    ensures r >= MIN_BUDGET
    ensures hardCap.Some? && hardCap.value >= MIN_BUDGET ==> r <= hardCap.value
    ensures hardCap.None? && nCtx - used - reserve >= MIN_BUDGET ==> r == nCtx - used - reserve
    ensures r == MIN_BUDGET || r == nCtx - used - reserve || (hardCap.Some? && r == hardCap.value)
    ensures r <= nCtx - used - reserve || r == MIN_BUDGET
  {
    var avail := nCtx - used - reserve;
    var capped := if hardCap.Some? && hardCap.value < avail then hardCap.value else avail;
    if capped < MIN_BUDGET then MIN_BUDGET else capped
  }

  /**
   * One generation call as `_call_block` / `_call_stream` receive it: the
   * prompt, the sampling temperature, the context reserve and cap that fix
   * its budget, and whether it streams.
   */
  datatype Request = Request(prompt: string, temperature: real, reserve: int, hardCap: Option<int>, stream: bool)

  /** The `max_tokens` a request is sent with, given the prompt's length in tokens. */
  function MaxTokens(r: Request, tokens: string -> nat): int {
    Budget(tokens(r.prompt), N_CTX, r.reserve, r.hardCap)
  }

  /** The temperature of the `i`-th self-consistency sample. */
  function SampleTemperature(i: nat): real {
    0.20 + 0.05 * (i as real)
  }

  /** The calls `call_llm(prompt, self_consistency, stream)` makes, in order. */
  function CallPlan(prompt: string, selfConsistency: int, stream: bool): seq<Request> {
    if selfConsistency <= 1 then [Request(prompt, 0.32, 400, None, stream)]
    else seq(selfConsistency, i requires 0 <= i < selfConsistency => Request(prompt, SampleTemperature(i), 400, None, false))
  }

  /** The calls `call_llm_long(prompt, self_consistency, hard_cap, stream)` makes, in order. */
  function LongCallPlan(prompt: string, selfConsistency: int, hardCap: Option<int>, stream: bool): seq<Request> {
    if selfConsistency <= 1 then [Request(prompt, 0.20, 256, hardCap, stream)]
    else seq(selfConsistency, i requires 0 <= i < selfConsistency => Request(prompt, SampleTemperature(i), 256, hardCap, false))
  }

  /** The stripped output of every call of a plan. */
  function Outputs(plan: seq<Request>, gen: Request -> string): (outs: seq<string>)
    ensures |outs| == |plan|
    ensures forall i | 0 <= i < |plan| :: outs[i] == Strip(gen(plan[i]))
  {
    seq(|plan|, i requires 0 <= i < |plan| => Strip(gen(plan[i])))
  }

  function Count(outs: seq<string>, s: string): nat {
    multiset(outs)[s]
  }

  /**
   * The candidate of `cands` that occurs most often in `outs`, the earliest
   * one among equals.
   */
  function MostFrequent(outs: seq<string>, cands: seq<string>): (r: string)
    requires cands != []
    ensures r in cands
    ensures forall c | c in cands :: Count(outs, c) <= Count(outs, r)
  {
    if |cands| == 1 then cands[0]
    else
      var rest := MostFrequent(outs, cands[1..]);
      if Count(outs, cands[0]) >= Count(outs, rest) then cands[0] else rest
  }

  /**
   * `max(set(outs), key=outs.count)`: an output of maximal count. Python
   * breaks ties by set order; the model takes the earliest.
   */
  function MajorityVote(outs: seq<string>): (r: string)
    requires outs != []
    ensures r in outs
    ensures forall o | o in outs :: Count(outs, o) <= Count(outs, r)
  {
    MostFrequent(outs, outs)
  }

  /** A unanimous vote returns the common output. */
  lemma MajorityVoteUnanimous(outs: seq<string>, s: string)
    requires outs != [] && forall i | 0 <= i < |outs| :: outs[i] == s
    ensures MajorityVote(outs) == s
  {
    assert MajorityVote(outs) in outs;
  }

  /** The answer a plan yields: the single output, or the vote over all of them. */
  function Answer(plan: seq<Request>, selfConsistency: int, gen: Request -> string): string
    requires plan != []
  {
    var outs := Outputs(plan, gen);
    if selfConsistency <= 1 then outs[0] else MajorityVote(outs)
  }

  /**
   * `call_llm(prompt, self_consistency, stream)`: with a self-consistency of
   * at most 1, the stripped output of one call at temperature 0.32 that
   * keeps 400 tokens free, streamed when asked; otherwise an output of
   * maximal count among that many samples.
   */
  function CallLlm(prompt: string, selfConsistency: int, stream: bool, gen: Request -> string): (r: string)
    ensures selfConsistency <= 1 ==> r == Strip(gen(Request(prompt, 0.32, 400, None, stream)))
    ensures selfConsistency > 1 ==>
      var outs := Outputs(CallPlan(prompt, selfConsistency, stream), gen);
      |outs| == selfConsistency && r in outs && forall o | o in outs :: Count(outs, o) <= Count(outs, r)
  {
    AnswerIsVoted(CallPlan(prompt, selfConsistency, stream), selfConsistency, gen);
    Answer(CallPlan(prompt, selfConsistency, stream), selfConsistency, gen)
  }

  /**
   * `call_llm_long(prompt, self_consistency, hard_cap, stream)`: the same,
   * at temperature 0.20 with 256 tokens kept free and the cap passed on.
   */
  function CallLlmLong(prompt: string, selfConsistency: int, hardCap: Option<int>, stream: bool,
                       gen: Request -> string): (r: string)
    ensures selfConsistency <= 1 ==> r == Strip(gen(Request(prompt, 0.20, 256, hardCap, stream)))
    ensures selfConsistency > 1 ==>
      var outs := Outputs(LongCallPlan(prompt, selfConsistency, hardCap, stream), gen);
      |outs| == selfConsistency && r in outs && forall o | o in outs :: Count(outs, o) <= Count(outs, r)
  {
    AnswerIsVoted(LongCallPlan(prompt, selfConsistency, hardCap, stream), selfConsistency, gen);
    Answer(LongCallPlan(prompt, selfConsistency, hardCap, stream), selfConsistency, gen)
  }

  /**
   * `call_llm` makes one call, streaming exactly when asked, for a
   * self-consistency of at most 1; otherwise it makes that many block calls
   * with rising temperatures. Every call reserves 400 tokens, with no cap.
   */
  lemma CallPlanShape(prompt: string, selfConsistency: int, stream: bool)
    ensures var plan := CallPlan(prompt, selfConsistency, stream);
      && (selfConsistency <= 1 ==> |plan| == 1 && plan[0].stream == stream && plan[0].temperature == 0.32)
      && (selfConsistency > 1 ==>
            |plan| == selfConsistency
            && forall i | 0 <= i < |plan| :: !plan[i].stream && plan[i].temperature == SampleTemperature(i))
      && forall i | 0 <= i < |plan| :: plan[i].prompt == prompt && plan[i].reserve == 400 && plan[i].hardCap.None?
  {
  }

  /** `call_llm_long` always reserves 256 tokens and passes its cap on. */
  lemma LongCallPlanShape(prompt: string, selfConsistency: int, hardCap: Option<int>, stream: bool)
    ensures var plan := LongCallPlan(prompt, selfConsistency, hardCap, stream);
      && (selfConsistency <= 1 ==> |plan| == 1 && plan[0].stream == stream && plan[0].temperature == 0.20)
      && (selfConsistency > 1 ==> |plan| == selfConsistency && forall i | 0 <= i < |plan| :: !plan[i].stream)
      && forall i | 0 <= i < |plan| :: plan[i].prompt == prompt && plan[i].reserve == 256 && plan[i].hardCap == hardCap
  {
  }

  /**
   * With several samples the answer is one of the (stripped) outputs with
   * maximal count; with one it is that output.
   */
  lemma AnswerIsVoted(plan: seq<Request>, selfConsistency: int, gen: Request -> string)
    requires plan != []
    ensures var outs := Outputs(plan, gen);
      && Answer(plan, selfConsistency, gen) in outs
      && (selfConsistency > 1 ==> forall o | o in outs :: Count(outs, o) <= Count(outs, Answer(plan, selfConsistency, gen)))
      && (selfConsistency <= 1 ==> Answer(plan, selfConsistency, gen) == Strip(gen(plan[0])))
  {
    var outs := Outputs(plan, gen);
    assert outs[0] == Strip(gen(plan[0]));
  }

  /** A long call's budget never exceeds a cap of at least 64 tokens. */
  lemma LongCallBudget(prompt: string, selfConsistency: int, hardCap: Option<int>, stream: bool,
                       tokens: string -> nat, i: nat)
    requires i < |LongCallPlan(prompt, selfConsistency, hardCap, stream)|
    requires hardCap.Some? && hardCap.value >= MIN_BUDGET
    ensures MIN_BUDGET <= MaxTokens(LongCallPlan(prompt, selfConsistency, hardCap, stream)[i], tokens) <= hardCap.value
  {
  }
}
