/**
 * One completion attempt and the bounded retry loop around it, shared by the
 * two metadata generators (lib/openai.ts:60-106 and lib/grok.ts:64-105 hold
 * the same loop): at most three attempts, stop at the first success, rethrow
 * on the third failure or on an error whose `status` is set and is not 429,
 * otherwise wait 1000 * attempt milliseconds and try again.
 */
module Completion {
  import opened Common
  import opened MetadataSchema
  import opened ResponseText

  /** A thrown JavaScript error: its `message` and its `status` property. */
  datatype Error = Error(message: string, status: Option<int>)

  /** What one call to the chat-completions endpoint gives: the content of the
      first choice (`None` for null or undefined) or a thrown error. */
  datatype Outcome = Content(text: Option<string>) | Threw(error: Error)

  datatype Role = User | Assistant | System
  datatype Message = Message(role: Role, content: string)

  /** The body sent to the chat-completions endpoint. */
  datatype ChatRequest = ChatRequest(model: string, messages: seq<Message>, temperature: real, maxTokens: int)

  const NullContentMessage: string := "Groq response content is null or undefined"
  const NoObjectMessage: string := "No valid JSON object found in response"
  const ParseErrorPrefix: string := "Failed to parse JSON: "
  const RetriesExhaustedMessage: string := "Failed to generate metadata after retries"
  const GenerationErrorPrefix: string := "Failed to generate metadata: "
  const DefaultModel: string := "llama3-8b-8192"
  const Temperature: real := 0.7
  const MaxTokens: int := 4000
  const MaxAttempts: nat := 3
  const BackoffUnitMs: nat := 1000
  const RateLimited: int := 429

  /** `process.env.GROQ_MODEL || "llama3-8b-8192"`. */
  function ModelName(env: Option<string>): (model: string)
    ensures Truthy(env) ==> model == env.value
    ensures !Truthy(env) ==> model == DefaultModel
  {
    if Truthy(env) then env.value else DefaultModel
  }

  /** `error.status && error.status !== 429`: the error ends the retry loop at once. */
  predicate StopsRetry(e: Error): (stop: bool)
    ensures !stop <==> e.status.None? || e.status.value == 0 || e.status.value == RateLimited
  {
    e.status.Some? && e.status.value != 0 && e.status.value != RateLimited
  }

  /** The body of one loop iteration: from the call's outcome to metadata or a thrown error. */
  function Attempt(o: Outcome, parse: string -> Option<Json>): (r: Result<Metadata, Error>)
    ensures r.Success? ==> WithinBounds(r.value)
    ensures r.Success? ==>
      && o.Content? && Truthy(o.text)
      && CandidateJson(o.text.value).Some?
      && parse(CandidateJson(o.text.value).value).Some?
      && Describes(parse(CandidateJson(o.text.value).value).value, r.value)
    ensures o.Content? && !Truthy(o.text) ==> r == Failure(Error(NullContentMessage, None))
    ensures o.Content? && Truthy(o.text) && CandidateJson(o.text.value).None? ==>
      r == Failure(Error(NoObjectMessage, None))
    ensures o.Content? && r.Failure? ==> r.error.status.None?
    ensures o.Threw? ==> r == Failure(o.error)
  {
    match o
    case Threw(e) => Failure(e)
    case Content(text) =>
      if !Truthy(text) then Failure(Error(NullContentMessage, None))
      else
        match CandidateJson(text.value)
        case None => Failure(Error(NoObjectMessage, None))
        case Some(jsonText) =>
          match parse(jsonText)
          case None => Failure(Error(ParseErrorPrefix + jsonText, None))
          case Some(j) =>
            match Validate(j)
            case Success(m) => Success(m)
            case Failure(msg) => Failure(Error(msg, None))
  }

  /** The result of attempt `a` for every attempt number `a`, given the
      outcome `call(a)` of the call that attempt makes. */
  function Attempts(call: nat -> Outcome, parse: string -> Option<Json>): nat -> Result<Metadata, Error> {
    (a: nat) => Attempt(call(a), parse)
  }

  /** A whole run of the loop from some attempt on: the result, the number of
      the last attempt made, and the waits between attempts in milliseconds. */
  datatype Run = Run(result: Result<Metadata, Error>, attempts: nat, waits: seq<nat>)

  /** The loop from `attempt` on, where `step(a)` is what attempt `a` gives. */
  function RunFrom(step: nat -> Result<Metadata, Error>, attempt: nat): (run: Run)
    requires 1 <= attempt <= MaxAttempts
    ensures attempt <= run.attempts <= MaxAttempts
    ensures run.result == step(run.attempts)
    ensures run.result.Failure? ==> run.attempts == MaxAttempts || StopsRetry(run.result.error)
    ensures forall a :: attempt <= a < run.attempts ==> step(a).Failure? && !StopsRetry(step(a).error)
    ensures |run.waits| == run.attempts - attempt
    ensures forall k :: 0 <= k < |run.waits| ==> run.waits[k] == BackoffUnitMs * (attempt + k)
    decreases MaxAttempts - attempt
  {
    match step(attempt)
    case Success(m) => Run(Success(m), attempt, [])
    case Failure(e) =>
      if attempt == MaxAttempts || StopsRetry(e) then Run(Failure(e), attempt, [])
      else
        var rest := RunFrom(step, attempt + 1);
        Run(rest.result, rest.attempts, [BackoffUnitMs * attempt] + rest.waits)
  }

  /** Whatever a run returns satisfies the schema bounds. */
  lemma RunWithinBounds(call: nat -> Outcome, parse: string -> Option<Json>)
    ensures var run := RunFrom(Attempts(call, parse), 1);
      run.result.Success? ==> WithinBounds(run.result.value)
  {
    var run := RunFrom(Attempts(call, parse), 1);
    assert run.result == Attempt(call(run.attempts), parse);
  }

  function Sum(xs: seq<nat>): nat {
    if |xs| == 0 then 0 else xs[0] + Sum(xs[1..])
  }

  /** When every attempt fails with an error that allows a retry, exactly three
      calls are made, the waits are 1000 ms and 2000 ms (3000 ms in all) and
      the third error is the one thrown. */
  lemma PersistentFailure(step: nat -> Result<Metadata, Error>)
    requires forall a :: 1 <= a <= MaxAttempts ==> step(a).Failure? && !StopsRetry(step(a).error)
    ensures RunFrom(step, 1).attempts == MaxAttempts
    ensures RunFrom(step, 1).waits == [1000, 2000] && Sum(RunFrom(step, 1).waits) == 3000
    ensures RunFrom(step, 1).result == step(MaxAttempts)
  {
    var run := RunFrom(step, 1);
    assert run.attempts == MaxAttempts by {
      assert run.result.Failure? && !StopsRetry(run.result.error);
    }
    assert run.waits == [run.waits[0], run.waits[1]];
    assert Sum(run.waits) == run.waits[0] + Sum(run.waits[1..]);
  }

  /** An error with a status other than 429 on the first attempt ends the run
      after one call, with no wait. */
  lemma FirstErrorStops(step: nat -> Result<Metadata, Error>)
    requires step(1).Failure? && StopsRetry(step(1).error)
    ensures RunFrom(step, 1) == Run(step(1), 1, [])
  {
  }

  /** One retry: a failure that allows another attempt is followed by the
      wait for this attempt and the run from the next one. */
  lemma RetryStep(step: nat -> Result<Metadata, Error>, attempt: nat)
    requires 1 <= attempt < MaxAttempts
    requires step(attempt).Failure? && !StopsRetry(step(attempt).error)
    ensures var rest := RunFrom(step, attempt + 1);
      RunFrom(step, attempt) == Run(rest.result, rest.attempts, [BackoffUnitMs * attempt] + rest.waits)
  {
  }

  lemma AppendWait(waits: seq<nat>, wait: nat, later: seq<nat>)
    ensures waits + ([wait] + later) == (waits + [wait]) + later
  {
  }

  /** The retry loop. */
  method Retry(call: nat -> Outcome, parse: string -> Option<Json>)
    returns (r: Result<Metadata, Error>, attempts: nat, waits: seq<nat>)
    ensures Run(r, attempts, waits) == RunFrom(Attempts(call, parse), 1)
  {
    ghost var step := Attempts(call, parse);
    waits := [];
    for attempt := 1 to MaxAttempts + 1
      invariant attempt <= MaxAttempts
      invariant RunFrom(step, 1) ==
        Run(RunFrom(step, attempt).result, RunFrom(step, attempt).attempts, waits + RunFrom(step, attempt).waits)
    {
      var outcome := Attempt(call(attempt), parse);
      assert outcome == step(attempt);
      if outcome.Success? || attempt == MaxAttempts || StopsRetry(outcome.error) {
        assert RunFrom(step, attempt) == Run(outcome, attempt, []);
        assert waits + [] == waits;
        r, attempts := outcome, attempt;
        return;
      }
      RetryStep(step, attempt);
      var wait: nat := BackoffUnitMs * attempt;
      AppendWait(waits, wait, RunFrom(step, attempt + 1).waits);
      waits := waits + [wait];
    }
    // The "after retries" throw that follows the loop in the source is dead code.
    assert false;
    r, attempts := Failure(Error(RetriesExhaustedMessage, None)), MaxAttempts;
  }
}
