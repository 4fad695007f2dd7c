/**
 One streaming model call with retries.  What the provider answers to each request and when the abort signal
 is seen set are inputs: `rounds(k)` is the answer to the k-th request, `signal(n)` the n-th look at the signal.
 */
module LlmCall {
  import opened Wrappers
  import opened Backoff

  datatype StopReason = EndTurn | ToolUse | MaxTokens | Aborted

  datatype Message = ApiStatus(status: nat, text: string) | Transport(text: string) | StreamReadFailed

  datatype Event =
    | TextDelta(text: string)
    | ReasoningDelta(text: string)
    | ToolCall(call: string)
    | Done(stop_reason: StopReason)
    | Error(message: Message)
  {
    predicate Terminal() { Done? || Error? }
  }

  /** One line of the response: a dead socket, something without data, or a parsed chunk. */
  datatype Line = Broken | Noise | Data(text: Option<string>, reasoning: Option<string>, stop: Option<StopReason>)

  datatype Round =
    | Refused(status: nat, retry_after_s: Option<U64>, body: string)
    | Unreachable(retryable: bool, error: string)
    | Streamed(lines: seq<Line>)

  datatype Failure = Failure(message: Message, retryable: bool, retry_after_ms: Option<U64>)

  /** `flush` gives the tool calls the parser has gathered from the lines it was fed. */
  datatype Env = Env(signal: nat -> bool, flush: seq<Line> -> seq<string>, policy: BackoffPolicy)

  predicate IsRetryableStatus(status: nat) { status == 429 || 500 <= status < 600 }

  // ----- One round.

  /** What a round has emitted so far, the stop reason, and the lines fed to the parser. */
  datatype Progress = Progress(events: seq<Event>, emitted_text: bool, stop: StopReason, fed: seq<Line>)

  const NOTHING_YET := Progress([], false, EndTurn, [])

  function Feed(p: Progress, line: Line): Progress
    requires !line.Broken?
  {
    match line
    case Noise => p.(fed := p.fed + [line])
    case Data(text, reasoning, stop) =>
      var t := if text.Some? then [TextDelta(text.value)] else [];
      var r := if reasoning.Some? then [ReasoningDelta(reasoning.value)] else [];
      Progress(p.events + t + r, p.emitted_text || text.Some?, if stop.Some? then stop.value else p.stop,
               p.fed + [line])
  }

  lemma FeedIs(p: Progress, line: Line, added: seq<Event>)
    requires line.Data?
    requires added == (if line.text.Some? then [TextDelta(line.text.value)] else []) +
                      (if line.reasoning.Some? then [ReasoningDelta(line.reasoning.value)] else [])
    ensures Feed(p, line).events == p.events + added
  {
  }

  datatype ReadEnd = Finished(p: Progress, polls: nat) | Died(p: Progress, polls: nat)

  /** The loop over the lines: the signal is looked at before each one. */
  function ReadLines(lines: seq<Line>, signal: nat -> bool, poll: nat, p: Progress): ReadEnd
    decreases |lines|
  {
    if lines == [] then Finished(p, poll)
    else if signal(poll) then Finished(p.(stop := Aborted), poll + 1)
    else if lines[0].Broken? then Died(p, poll + 1)
    else ReadLines(lines[1..], signal, poll + 1, Feed(p, lines[0]))
  }

  function Calls(calls: seq<string>): (r: seq<Event>)
    ensures |r| == |calls| && forall i :: 0 <= i < |r| ==> r[i] == ToolCall(calls[i])
  {
    if calls == [] then [] else Calls(calls[..|calls| - 1]) + [ToolCall(calls[|calls| - 1])]
  }

  /** The events of a round, its failure if it may be retried, and the looks at the signal so far. */
  datatype RoundResult = RoundResult(events: seq<Event>, failure: Option<Failure>, emitted_text: bool, polls: nat)

  function RetryAfterMs(retry_after_s: Option<U64>): Option<U64> {
    if retry_after_s.Some? then Some(SaturatingMul(retry_after_s.value, 1000)) else None
  }

  function RoundTrip(round: Round, env: Env, poll: nat): RoundResult {
    match round
    case Refused(status, after, body) =>
      RoundResult([], Some(Failure(ApiStatus(status, body), IsRetryableStatus(status), RetryAfterMs(after))), false,
                  poll)
    case Unreachable(retryable, error) =>
      if env.signal(poll) then RoundResult([Done(Aborted)], None, false, poll + 1)
      else RoundResult([], Some(Failure(Transport(error), retryable, None)), false, poll + 1)
    case Streamed(lines) =>
      match ReadLines(lines, env.signal, poll, NOTHING_YET)
      case Died(p, polls) =>
        if p.emitted_text then RoundResult(p.events + [Error(StreamReadFailed)], None, true, polls)
        else RoundResult(p.events, Some(Failure(StreamReadFailed, true, None)), false, polls)
      case Finished(p, polls) =>
        RoundResult(p.events + Calls(env.flush(p.fed)) + [Done(p.stop)], None, p.emitted_text, polls)
  }

  /** `stream_round_trip`: appends to what was emitted before. */
  method StreamRoundTrip(round: Round, env: Env, poll: nat, before: seq<Event>)
    returns (events: seq<Event>, failure: Option<Failure>, emitted_text: bool, polls: nat)
    ensures var r := RoundTrip(round, env, poll);
            events == before + r.events && failure == r.failure && emitted_text == r.emitted_text && polls == r.polls
  {
    match round {
      case Refused(status, after, body) =>
        failure := Some(Failure(ApiStatus(status, body), IsRetryableStatus(status), RetryAfterMs(after)));
        return before, failure, false, poll;
      case Unreachable(retryable, error) =>
        if env.signal(poll) {
          return before + [Done(Aborted)], None, false, poll + 1;
        }
        return before, Some(Failure(Transport(error), retryable, None)), false, poll + 1;
      case Streamed(lines) =>
        var stop, fed, dead;
        events, emitted_text, stop, fed, dead, polls := StreamLines(lines, env.signal, poll, before);
        if dead {
          if emitted_text {
            events := events + [Error(StreamReadFailed)];
            return events, None, emitted_text, polls;
          }
          return events, Some(Failure(StreamReadFailed, true, None)), emitted_text, polls;
        }
        events := events + Calls(env.flush(fed)) + [Done(stop)];
        failure := None;
    }
  }

  /** The loop over the lines of a response; `dead` when the socket died. */
  method StreamLines(lines: seq<Line>, signal: nat -> bool, poll: nat, before: seq<Event>)
    returns (events: seq<Event>, emitted_text: bool, stop: StopReason, fed: seq<Line>, dead: bool, polls: nat)
    ensures var end := ReadLines(lines, signal, poll, NOTHING_YET);
            events == before + end.p.events && emitted_text == end.p.emitted_text && stop == end.p.stop &&
            fed == end.p.fed && dead == end.Died? && polls == end.polls
  {
    events, emitted_text, stop, fed, polls := before, false, EndTurn, [], poll;
    assert lines[0..] == lines && before[|before|..] == [];
    for i := 0 to |lines|
      invariant before <= events
      invariant ReadLines(lines, signal, poll, NOTHING_YET) ==
                ReadLines(lines[i..], signal, polls, Progress(events[|before|..], emitted_text, stop, fed))
    {
      assert lines[i..][0] == lines[i] && lines[i..][1..] == lines[i + 1..];
      polls := polls + 1;
      if signal(polls - 1) {
        return events, emitted_text, Aborted, fed, false, polls;
      }
      if lines[i].Broken? {
        return events, emitted_text, stop, fed, true, polls;
      }
      ghost var p := Progress(events[|before|..], emitted_text, stop, fed);
      fed := fed + [lines[i]];
      if lines[i].Data? {
        var added := [];
        if lines[i].text.Some? {
          emitted_text := true;
          added := added + [TextDelta(lines[i].text.value)];
        }
        if lines[i].reasoning.Some? {
          added := added + [ReasoningDelta(lines[i].reasoning.value)];
        }
        if lines[i].stop.Some? {
          stop := lines[i].stop.value;
        }
        events := events + added;
        FeedIs(p, lines[i], added);
        assert events[|before|..] == p.events + added;
      }
      assert Progress(events[|before|..], emitted_text, stop, fed) == Feed(p, lines[i]);
    }
    dead := false;
  }

  // ----- The wait.

  const STEP_MS: nat := 25

  datatype Slept = Slept(aborted: bool, polls: nat, slept_ms: nat)

  function Sleep(left: nat, signal: nat -> bool, poll: nat): Slept
    decreases left
  {
    if left == 0 then Slept(signal(poll), poll + 1, 0)
    else
      var chunk := Min(left, STEP_MS);
      if signal(poll) then Slept(true, poll + 1, chunk)
      else
        var rest := Sleep(left - chunk, signal, poll + 1);
        rest.(slept_ms := chunk + rest.slept_ms)
  }

  /** `sleep_abortable`. */
  method SleepAbortable(delay: nat, signal: nat -> bool, poll: nat) returns (s: Slept)
    ensures s == Sleep(delay, signal, poll)
  {
    var left: nat, polls: nat, slept: nat := delay, poll, 0;
    while left > 0
      invariant Sleep(delay, signal, poll) ==
                var rest := Sleep(left, signal, polls); rest.(slept_ms := slept + rest.slept_ms)
    {
      var chunk := Min(left, STEP_MS);
      slept := slept + chunk;
      polls := polls + 1;
      if signal(polls - 1) {
        return Slept(true, polls, slept);
      }
      left := left - chunk;
    }
    return Slept(signal(polls), polls + 1, slept);
  }

  /** How often a full wait looks at the signal: after every step and once more at the end. */
  function Looks(delay: nat): nat { (delay + 24) / 25 + 1 }

  /** A wait is cut short exactly when one of its looks sees the signal, and never lasts longer than asked. */
  lemma {:induction false} SleepHeedsSignal(delay: nat, signal: nat -> bool, poll: nat)
    ensures var s := Sleep(delay, signal, poll);
            (s.aborted <==> exists i :: poll <= i < poll + Looks(delay) && signal(i)) &&
            s.slept_ms <= delay && (!s.aborted ==> s.slept_ms == delay && s.polls == poll + Looks(delay))
    decreases delay
  {
    if delay > 0 {
      var chunk := Min(delay, STEP_MS);
      SleepHeedsSignal(delay - chunk, signal, poll + 1);
      assert Looks(delay) == Looks(delay - chunk) + 1;
    } else {
      assert Looks(delay) == 1;
    }
  }

  // ----- The call.

  /** Everything the consumer sees, the number of requests, and the computed waits. */
  datatype CallResult = CallResult(events: seq<Event>, requests: nat, waits: seq<nat>)

  predicate CanRetry(r: RoundResult, attempt: nat, policy: BackoffPolicy) {
    r.failure.Some? && r.failure.value.retryable && !r.emitted_text && attempt < policy.max_attempts
  }

  /** What follows a round: the call ends with these events, or another request is made after a full wait. */
  datatype Verdict = Ends(events: seq<Event>, waits: seq<nat>) | Again(wait: nat, poll: nat)

  function Judge(r: RoundResult, env: Env, attempt: nat): Verdict
    requires attempt >= 1
  {
    if r.failure.None? then Ends(r.events, [])
    else if !CanRetry(r, attempt, env.policy) then Ends(r.events + [Error(r.failure.value.message)], [])
    else
      var wait := Delay(attempt, r.failure.value.retry_after_ms, env.policy);
      var s := Sleep(wait, env.signal, r.polls);
      if s.aborted then Ends(r.events + [Done(Aborted)], [wait]) else Again(wait, s.polls)
  }

  /** From the given attempt on. */
  function Attempts(rounds: nat -> Round, env: Env, attempt: nat, poll: nat): CallResult
    requires attempt >= 1
    decreases if attempt < env.policy.max_attempts then env.policy.max_attempts - attempt else 0
  {
    var r := RoundTrip(rounds(attempt), env, poll);
    match Judge(r, env, attempt)
    case Ends(events, waits) => CallResult(events, 1, waits)
    case Again(wait, poll') =>
      var rest := Attempts(rounds, env, attempt + 1, poll');
      CallResult(r.events + rest.events, 1 + rest.requests, [wait] + rest.waits)
  }

  function Call(rounds: nat -> Round, env: Env): CallResult {
    if env.signal(0) then CallResult([Done(Aborted)], 0, []) else Attempts(rounds, env, 1, 1)
  }

  function Before(events: seq<Event>, requests: nat, waits: seq<nat>, rest: CallResult): CallResult {
    CallResult(events + rest.events, requests + rest.requests, waits + rest.waits)
  }

  /** `stream_cb_with_policy`. */
  method StreamCb(rounds: nat -> Round, env: Env) returns (events: seq<Event>, requests: nat, waits: seq<nat>)
    ensures CallResult(events, requests, waits) == Call(rounds, env)
  {
    events, requests, waits := [], 0, [];
    if env.signal(0) {
      return [Done(Aborted)], 0, [];
    }
    var attempt, poll := 0, 1;
    while true
      invariant requests == attempt && (attempt == 0 || attempt < env.policy.max_attempts)
      invariant Call(rounds, env) == Before(events, requests, waits, Attempts(rounds, env, attempt + 1, poll))
      decreases if attempt < env.policy.max_attempts then env.policy.max_attempts - attempt else 0
    {
      attempt, requests := attempt + 1, requests + 1;
      ghost var events0 := events;
      ghost var r := RoundTrip(rounds(attempt), env, poll);
      ghost var verdict := Judge(r, env, attempt);
      JudgeStep(rounds, env, attempt, poll, events0, requests - 1, waits);
      var failure, emitted_text, polls;
      events, failure, emitted_text, polls := StreamRoundTrip(rounds(attempt), env, poll, events);
      if failure.None? {
        assert verdict == Ends(r.events, []);
        return;
      }
      if !(failure.value.retryable && !emitted_text && attempt < env.policy.max_attempts) {
        events := events + [Error(failure.value.message)];
        assert verdict == Ends(r.events + [Error(failure.value.message)], []);
        return;
      }
      var delay := Delay(attempt, failure.value.retry_after_ms, env.policy);
      waits := waits + [delay];
      var s := SleepAbortable(delay, env.signal, polls);
      if s.aborted {
        events := events + [Done(Aborted)];
        assert verdict == Ends(r.events + [Done(Aborted)], [delay]);
        return;
      }
      poll := s.polls;
      assert verdict == Again(delay, poll);
    }
  }

  /** One turn of the loop. */
  lemma JudgeStep(rounds: nat -> Round, env: Env, attempt: nat, poll: nat, events: seq<Event>, requests: nat,
                  waits: seq<nat>)
    requires attempt >= 1
    ensures var r := RoundTrip(rounds(attempt), env, poll);
            var all := Before(events, requests, waits, Attempts(rounds, env, attempt, poll));
            match Judge(r, env, attempt)
            case Ends(es, ws) =>
              all == CallResult(events + es, requests + 1, waits + ws) &&
              forall e :: es == r.events + [e] ==> events + es == events + r.events + [e]
            case Again(wait, poll') =>
              attempt < env.policy.max_attempts &&
              all == Before(events + r.events, requests + 1, waits + [wait], Attempts(rounds, env, attempt + 1, poll'))
  {
  }

  // ----- What the consumer can rely on.

  ghost predicate NoTerminal(events: seq<Event>) {
    forall i :: 0 <= i < |events| ==> !events[i].Terminal()
  }

  ghost predicate OneTerminalLast(events: seq<Event>) {
    events != [] && events[|events| - 1].Terminal() && NoTerminal(events[..|events| - 1])
  }

  /** The text deltas among the events. */
  function TextOf(events: seq<Event>): seq<Event> {
    if events == [] then []
    else TextOf(events[..|events| - 1]) + (if events[|events| - 1].TextDelta? then [events[|events| - 1]] else [])
  }

  lemma {:induction false} TextOfAppend(a: seq<Event>, b: seq<Event>)
    ensures TextOf(a + b) == TextOf(a) + TextOf(b)
  {
    if b == [] {
      assert a + b == a;
    } else {
      assert (a + b)[..|a + b| - 1] == a + b[..|b| - 1];
      TextOfAppend(a, b[..|b| - 1]);
    }
  }

  ghost predicate Sound(p: Progress) {
    NoTerminal(p.events) && (p.emitted_text <==> TextOf(p.events) != [])
  }

  lemma Emit(events: seq<Event>, e: Event)
    requires NoTerminal(events) && !e.Terminal()
    ensures NoTerminal(events + [e])
    ensures TextOf(events + [e]) == TextOf(events) + (if e.TextDelta? then [e] else [])
  {
  }

  lemma FeedSound(p: Progress, line: Line)
    requires Sound(p) && !line.Broken?
    ensures Sound(Feed(p, line))
  {
    if line.Data? {
      var events := p.events;
      if line.text.Some? {
        Emit(events, TextDelta(line.text.value));
        events := events + [TextDelta(line.text.value)];
      }
      if line.reasoning.Some? {
        Emit(events, ReasoningDelta(line.reasoning.value));
        events := events + [ReasoningDelta(line.reasoning.value)];
      }
      assert Feed(p, line).events == events;
    }
  }

  lemma {:induction false} ReadSound(lines: seq<Line>, signal: nat -> bool, poll: nat, p: Progress)
    requires Sound(p)
    ensures Sound(ReadLines(lines, signal, poll, p).p)
    decreases |lines|
  {
    if lines != [] && !signal(poll) && !lines[0].Broken? {
      FeedSound(p, lines[0]);
      ReadSound(lines[1..], signal, poll + 1, Feed(p, lines[0]));
    }
  }

  /** A round that may be retried has emitted neither text nor a terminal event; any other ends with its only one. */
  lemma RoundIsSound(round: Round, env: Env, poll: nat)
    ensures var r := RoundTrip(round, env, poll);
            if r.failure.Some? then NoTerminal(r.events) && TextOf(r.events) == [] && !r.emitted_text
            else OneTerminalLast(r.events)
  {
    if round.Streamed? {
      ReadSound(round.lines, env.signal, poll, NOTHING_YET);
      var end := ReadLines(round.lines, env.signal, poll, NOTHING_YET);
      var r := RoundTrip(round, env, poll);
      if end.Finished? {
        assert r.events[..|r.events| - 1] == end.p.events + Calls(env.flush(end.p.fed));
      } else if r.failure.None? {
        assert r.events[..|r.events| - 1] == end.p.events;
      }
    }
  }

  lemma PrependSilent(a: seq<Event>, b: seq<Event>)
    requires NoTerminal(a) && OneTerminalLast(b)
    ensures OneTerminalLast(a + b)
  {
  }

  lemma JudgeIsSound(round: Round, env: Env, attempt: nat, poll: nat)
    requires attempt >= 1
    ensures var r := RoundTrip(round, env, poll);
            match Judge(r, env, attempt)
            case Ends(events, _) => OneTerminalLast(events) && TextOf(events) == TextOf(r.events)
            case Again(_, _) => NoTerminal(r.events) && TextOf(r.events) == []
  {
    var r := RoundTrip(round, env, poll);
    RoundIsSound(round, env, poll);
    if r.failure.Some? {
      EndWith(r.events, Error(r.failure.value.message));
      EndWith(r.events, Done(Aborted));
    }
  }

  lemma EndWith(events: seq<Event>, e: Event)
    requires NoTerminal(events) && e.Terminal()
    ensures OneTerminalLast(events + [e]) && TextOf(events + [e]) == TextOf(events)
  {
  }

  lemma {:induction false} AttemptsEndOnce(rounds: nat -> Round, env: Env, attempt: nat, poll: nat)
    requires attempt >= 1
    ensures OneTerminalLast(Attempts(rounds, env, attempt, poll).events)
    decreases if attempt < env.policy.max_attempts then env.policy.max_attempts - attempt else 0
  {
    var r := RoundTrip(rounds(attempt), env, poll);
    JudgeIsSound(rounds(attempt), env, attempt, poll);
    match Judge(r, env, attempt)
    case Ends(_, _) =>
    case Again(_, poll') =>
      AttemptsEndOnce(rounds, env, attempt + 1, poll');
      PrependSilent(r.events, Attempts(rounds, env, attempt + 1, poll').events);
  }

  /** Whatever the provider does and whenever the abort comes, the call ends with its one terminal event. */
  lemma ExactlyOneTerminalEvent(rounds: nat -> Round, env: Env)
    ensures OneTerminalLast(Call(rounds, env).events)
  {
    if !env.signal(0) {
      AttemptsEndOnce(rounds, env, 1, 1);
    }
  }

  function RetryAfterOf(round: Round): Option<U64> {
    if round.Refused? then RetryAfterMs(round.retry_after_s) else None
  }

  lemma JudgeWaits(round: Round, env: Env, attempt: nat, poll: nat)
    requires attempt >= 1
    ensures var wait := Delay(attempt, RetryAfterOf(round), env.policy);
            match Judge(RoundTrip(round, env, poll), env, attempt)
            case Ends(_, waits) => waits == [] || waits == [wait]
            case Again(w, _) => w == wait && attempt < env.policy.max_attempts
  {
  }

  /** The waits of the rounds from `attempt` on. */
  ghost predicate WaitsFollow(waits: seq<nat>, rounds: nat -> Round, env: Env, attempt: nat)
    requires attempt >= 1
  {
    forall i :: 0 <= i < |waits| ==> waits[i] == Delay(attempt + i, RetryAfterOf(rounds(attempt + i)), env.policy)
  }

  lemma WaitFirst(wait: nat, waits: seq<nat>, rounds: nat -> Round, env: Env, attempt: nat)
    requires attempt >= 1 && WaitsFollow(waits, rounds, env, attempt + 1)
    requires wait == Delay(attempt, RetryAfterOf(rounds(attempt)), env.policy)
    ensures WaitsFollow([wait] + waits, rounds, env, attempt)
  {
  }

  lemma {:induction false} AttemptsWaits(rounds: nat -> Round, env: Env, attempt: nat, poll: nat)
    requires attempt >= 1
    ensures var c := Attempts(rounds, env, attempt, poll);
            c.requests - 1 <= |c.waits| <= c.requests &&
            (c.requests > 1 ==> attempt + c.requests - 1 <= env.policy.max_attempts) &&
            WaitsFollow(c.waits, rounds, env, attempt)
    decreases if attempt < env.policy.max_attempts then env.policy.max_attempts - attempt else 0
  {
    JudgeWaits(rounds(attempt), env, attempt, poll);
    match Judge(RoundTrip(rounds(attempt), env, poll), env, attempt)
    case Ends(_, _) =>
    case Again(wait, poll') =>
      AttemptsWaits(rounds, env, attempt + 1, poll');
      WaitFirst(wait, Attempts(rounds, env, attempt + 1, poll').waits, rounds, env, attempt);
  }

  /**
   At most max(1, max_attempts) requests are made; every wait follows the curve or the server's `Retry-After`,
   both capped, and the waits without a `Retry-After` never shrink.
   */
  lemma RequestsAndWaitsBounded(rounds: nat -> Round, env: Env, i: nat, j: nat)
    ensures var c := Call(rounds, env);
            c.requests <= (if env.policy.max_attempts > 1 then env.policy.max_attempts else 1) &&
            |c.waits| <= c.requests &&
            (i < |c.waits| ==> c.waits[i] <= env.policy.max_delay_ms) &&
            (i < |c.waits| && rounds(i + 1).Refused? && rounds(i + 1).retry_after_s.Some? ==>
               c.waits[i] == Min(1000 * rounds(i + 1).retry_after_s.value, env.policy.max_delay_ms)) &&
            (i <= j < |c.waits| && RetryAfterOf(rounds(i + 1)).None? && RetryAfterOf(rounds(j + 1)).None? ==>
               c.waits[i] <= c.waits[j])
  {
    if !env.signal(0) {
      AttemptsWaits(rounds, env, 1, 1);
      if i <= j {
        DelayNonDecreasing(i + 1, j + 1, env.policy);
      }
      DelayCapped(i + 1, RetryAfterOf(rounds(i + 1)), env.policy);
    }
  }

  // ----- Every event of a call.

  /** The deltas of one line: its text, then its reasoning. */
  function DeltasOf(line: Line): seq<Event> {
    match line
    case Data(Some(t), Some(r), _) => [TextDelta(t), ReasoningDelta(r)]
    case Data(Some(t), None, _) => [TextDelta(t)]
    case Data(None, Some(r), _) => [ReasoningDelta(r)]
    case _ => []
  }

  function Deltas(lines: seq<Line>): seq<Event> {
    if lines == [] then [] else DeltasOf(lines[0]) + Deltas(lines[1..])
  }

  predicate Stops(line: Line) { line.Data? && line.stop.Some? }

  /** The stop reason of the last line that has one, else `default`. */
  ghost predicate LastStop(lines: seq<Line>, default: StopReason, stop: StopReason) {
    if forall i :: 0 <= i < |lines| ==> !Stops(lines[i]) then stop == default
    else
      exists i :: 0 <= i < |lines| && Stops(lines[i]) && lines[i].stop == Some(stop) &&
                  forall j :: i < j < |lines| ==> !Stops(lines[j])
  }

  /** The lines before `i` are read: none is broken and no look before one of them sees the signal. */
  ghost predicate ReadsTo(lines: seq<Line>, signal: nat -> bool, poll: nat, i: nat) {
    i <= |lines| && forall j :: 0 <= j < i ==> !lines[j].Broken? && !signal(poll + j)
  }

  /**
   What the last request of a call adds.  A stream that is read to its end or up to an abort: the deltas in order, all
   tool calls gathered from the lines read, and `Done` with the last stop reason or `Aborted`.  A stream that breaks:
   the deltas and the error.  A refused or failed request: its error.  Instead of an error, `Done(Aborted)` if the
   signal was seen.
   */
  ghost predicate LastEvents(events: seq<Event>, round: Round, env: Env, poll: nat) {
    match round
    case Refused(status, _, body) => ErrorOrAbort(events, [], ApiStatus(status, body), env)
    case Unreachable(_, error) => ErrorOrAbort(events, [], Transport(error), env)
    case Streamed(lines) => exists i :: StreamEvents(events, lines, env, poll, i)
  }

  ghost predicate ErrorOrAbort(events: seq<Event>, before: seq<Event>, message: Message, env: Env) {
    events == before + [Error(message)] || (events == before + [Done(Aborted)] && exists n :: env.signal(n))
  }

  ghost predicate StreamEvents(events: seq<Event>, lines: seq<Line>, env: Env, poll: nat, i: nat) {
    ReadsTo(lines, env.signal, poll, i) &&
    if i == |lines| then exists stop :: LastStop(lines, EndTurn, stop) && Completes(events, lines, env, stop)
    else if env.signal(poll + i) then Completes(events, lines[..i], env, Aborted)
    else lines[i].Broken? && ErrorOrAbort(events, Deltas(lines[..i]), StreamReadFailed, env)
  }

  ghost predicate Completes(events: seq<Event>, lines: seq<Line>, env: Env, stop: StopReason) {
    var calls := env.flush(lines);
    var n := |Deltas(lines)|;
    && |events| == n + |calls| + 1 && events[..n] == Deltas(lines)
    && (forall k :: 0 <= k < |calls| ==> events[n + k] == ToolCall(calls[k]))
    && events[n + |calls|] == Done(stop)
  }

  /** What a request that is retried adds: the reasoning before the break of its stream, if it streamed. */
  function RetriedEvents(round: Round): seq<Event> {
    if round.Streamed? then DeltasToBreak(round.lines) else []
  }

  function DeltasToBreak(lines: seq<Line>): seq<Event> {
    if lines == [] || lines[0].Broken? then [] else DeltasOf(lines[0]) + DeltasToBreak(lines[1..])
  }

  /** What each request adds when it is retried. */
  type Additions = nat -> seq<Event>

  function RetriedOf(rounds: nat -> Round): Additions {
    (k: nat) => RetriedEvents(rounds(k))
  }

  /** What the requests from number `from` to before `to` add, one after the other. */
  function Earlier(adds: Additions, from: nat, to: nat): seq<Event>
    decreases if from < to then to - from else 0
  {
    if from >= to then [] else adds(from) + Earlier(adds, from + 1, to)
  }

  lemma FeedAdds(p: Progress, line: Line)
    requires !line.Broken?
    ensures Feed(p, line).events == p.events + DeltasOf(line) && Feed(p, line).fed == p.fed + [line]
    ensures Feed(p, line).stop == if Stops(line) then line.stop.value else p.stop
  {
  }

  lemma LastStopNext(lines: seq<Line>, default: StopReason, stop: StopReason)
    requires lines != [] && LastStop(lines[1..], if Stops(lines[0]) then lines[0].stop.value else default, stop)
    ensures LastStop(lines, default, stop)
  {
    var rest := lines[1..];
    assert forall j :: 0 <= j < |rest| ==> rest[j] == lines[j + 1];
    if i :| 0 <= i < |rest| && Stops(rest[i]) {
      var k :| 0 <= k < |rest| && Stops(rest[k]) && rest[k].stop == Some(stop) &&
               forall j :: k < j < |rest| ==> !Stops(rest[j]);
      assert forall j :: k + 1 < j < |lines| ==> lines[j] == rest[j - 1];
      assert Stops(lines[k + 1]);
    } else {
      assert forall j :: 1 <= j < |lines| ==> lines[j] == rest[j - 1];
    }
  }

  /** How the loop over the lines ends, from what was read before. */
  ghost predicate ReadEndsAt(end: ReadEnd, lines: seq<Line>, signal: nat -> bool, poll: nat, p: Progress, i: nat) {
    && ReadsTo(lines, signal, poll, i)
    && end.p.events == p.events + Deltas(lines[..i]) && end.p.fed == p.fed + lines[..i]
    && (end.Died? <==> i < |lines| && !signal(poll + i))
    && (i < |lines| && !signal(poll + i) ==> lines[i].Broken?)
    && (i < |lines| && signal(poll + i) ==> end.p.stop == Aborted)
    && (i == |lines| ==> LastStop(lines, p.stop, end.p.stop))
  }

  lemma ReadEndsFirst(lines: seq<Line>, signal: nat -> bool, poll: nat, p: Progress)
    requires lines == [] || signal(poll) || lines[0].Broken?
    ensures ReadEndsAt(ReadLines(lines, signal, poll, p), lines, signal, poll, p, 0)
  {
  }

  lemma ReadsToNext(lines: seq<Line>, signal: nat -> bool, poll: nat, i: nat)
    requires lines != [] && !signal(poll) && !lines[0].Broken? && ReadsTo(lines[1..], signal, poll + 1, i)
    ensures ReadsTo(lines, signal, poll, i + 1)
  {
    forall j | 0 <= j < i + 1 ensures !lines[j].Broken? && !signal(poll + j) {
      if j > 0 {
        assert lines[1..][j - 1] == lines[j] && !signal(poll + 1 + (j - 1));
      }
    }
  }

  lemma ReadEndsNext(end: ReadEnd, lines: seq<Line>, signal: nat -> bool, poll: nat, p: Progress, i: nat)
    requires lines != [] && !signal(poll) && !lines[0].Broken?
    requires ReadEndsAt(end, lines[1..], signal, poll + 1, Feed(p, lines[0]), i)
    ensures ReadEndsAt(end, lines, signal, poll, p, i + 1)
  {
    var rest := lines[1..];
    FeedAdds(p, lines[0]);
    assert lines[..i + 1][0] == lines[0] && lines[..i + 1][1..] == rest[..i];
    assert lines[..i + 1] == [lines[0]] + rest[..i];
    ReadsToNext(lines, signal, poll, i);
    if i == |rest| {
      LastStopNext(lines, p.stop, end.p.stop);
    }
  }

  lemma {:induction false} ReadEnds(lines: seq<Line>, signal: nat -> bool, poll: nat, p: Progress) returns (i: nat)
    ensures ReadEndsAt(ReadLines(lines, signal, poll, p), lines, signal, poll, p, i)
    decreases |lines|
  {
    if lines == [] || signal(poll) || lines[0].Broken? {
      i := 0;
      ReadEndsFirst(lines, signal, poll, p);
    } else {
      i := ReadEnds(lines[1..], signal, poll + 1, Feed(p, lines[0]));
      ReadEndsNext(ReadLines(lines, signal, poll, p), lines, signal, poll, p, i);
      i := i + 1;
    }
  }

  lemma CompletesWith(events: seq<Event>, lines: seq<Line>, env: Env, stop: StopReason)
    requires events == Deltas(lines) + Calls(env.flush(lines)) + [Done(stop)]
    ensures Completes(events, lines, env, stop)
  {
  }

  /** A round that ends the call adds what it must; one that is retried only the deltas before its break. */
  lemma StreamedRound(lines: seq<Line>, env: Env, attempt: nat, poll: nat)
    requires attempt >= 1
    ensures var r := RoundTrip(Streamed(lines), env, poll);
            match Judge(r, env, attempt)
            case Ends(events, _) => exists i :: StreamEvents(events, lines, env, poll, i)
            case Again(_, _) => r.events == DeltasToBreak(lines)
  {
    var r := RoundTrip(Streamed(lines), env, poll);
    var end := ReadLines(lines, env.signal, poll, NOTHING_YET);
    var i := ReadEnds(lines, env.signal, poll, NOTHING_YET);
    assert end.p.events == Deltas(lines[..i]) && end.p.fed == lines[..i];
    if i == |lines| {
      assert lines[..i] == lines;
      CompletesWith(r.events, lines, env, end.p.stop);
      assert StreamEvents(r.events, lines, env, poll, i);
    } else if env.signal(poll + i) {
      CompletesWith(r.events, lines[..i], env, Aborted);
      assert StreamEvents(r.events, lines, env, poll, i);
    } else {
      BreaksAt(lines, i);
      if r.failure.Some? {
        JudgeBroken(r, env, attempt);
      }
      match Judge(r, env, attempt)
      case Ends(events, _) => assert StreamEvents(events, lines, env, poll, i);
      case Again(_, _) =>
    }
  }

  lemma {:induction false} BreaksAt(lines: seq<Line>, i: nat)
    requires i < |lines| && lines[i].Broken? && forall j :: 0 <= j < i ==> !lines[j].Broken?
    ensures DeltasToBreak(lines) == Deltas(lines[..i])
  {
    if i > 0 {
      assert lines[..i][1..] == lines[1..][..i - 1];
      BreaksAt(lines[1..], i - 1);
    }
  }

  lemma JudgeBroken(r: RoundResult, env: Env, attempt: nat)
    requires attempt >= 1 && r.failure.Some?
    ensures match Judge(r, env, attempt)
            case Ends(events, _) => ErrorOrAbort(events, r.events, r.failure.value.message, env)
            case Again(_, _) => true
  {
    if CanRetry(r, attempt, env.policy) {
      SleepHeedsSignal(Delay(attempt, r.failure.value.retry_after_ms, env.policy), env.signal, r.polls);
    }
  }

  lemma EndAdds(round: Round, env: Env, attempt: nat, poll: nat)
    requires attempt >= 1 && Judge(RoundTrip(round, env, poll), env, attempt).Ends?
    ensures LastEvents(Judge(RoundTrip(round, env, poll), env, attempt).events, round, env, poll)
  {
    match round
    case Streamed(lines) => StreamedRound(lines, env, attempt, poll);
    case _ =>
      var r := RoundTrip(round, env, poll);
      if r.failure.Some? {
        JudgeBroken(r, env, attempt);
      }
  }

  lemma RetryAdds(round: Round, env: Env, attempt: nat, poll: nat)
    requires attempt >= 1 && Judge(RoundTrip(round, env, poll), env, attempt).Again?
    ensures RoundTrip(round, env, poll).events == RetriedEvents(round)
  {
    match round
    case Streamed(lines) => StreamedRound(lines, env, attempt, poll);
    case _ =>
  }

  /** The attempts of a call as a function of the number and the first look at the signal. */
  type Tries = (nat, nat) -> CallResult

  /** Attempt `a` is retried: another one follows, and it has added no text. */
  ghost predicate RetriesTo(tries: Tries, adds: Additions, a: nat, p: nat, q: nat) {
    && tries(a, p).requests == 1 + tries(a + 1, q).requests
    && tries(a, p).events == adds(a) + tries(a + 1, q).events
    && TextOf(adds(a)) == []
  }

  ghost predicate LastOrRetried(tries: Tries, adds: Additions, a: nat, p: nat) {
    tries(a, p).requests == 1 || exists q :: RetriesTo(tries, adds, a, p, q)
  }

  function TriesOf(rounds: nat -> Round, env: Env): Tries {
    (a: nat, p: nat) => if a >= 1 then Attempts(rounds, env, a, p) else CallResult([], 1, [])
  }

  lemma AttemptStep(rounds: nat -> Round, env: Env, attempt: nat, poll: nat)
    ensures LastOrRetried(TriesOf(rounds, env), RetriedOf(rounds), attempt, poll)
  {
    if attempt >= 1 {
      match Judge(RoundTrip(rounds(attempt), env, poll), env, attempt)
      case Ends(_, _) =>
      case Again(_, p) =>
        RetryAdds(rounds(attempt), env, attempt, poll);
        JudgeIsSound(rounds(attempt), env, attempt, poll);
        assert RetriesTo(TriesOf(rounds, env), RetriedOf(rounds), attempt, poll, p);
    }
  }

  lemma LastAttempt(rounds: nat -> Round, env: Env, attempt: nat, poll: nat)
    requires attempt >= 1 && Attempts(rounds, env, attempt, poll).requests == 1
    ensures var end := Judge(RoundTrip(rounds(attempt), env, poll), env, attempt);
            end.Ends? && Attempts(rounds, env, attempt, poll).events == end.events
  {
  }

  /** Before its last attempt a call adds what the retried requests add, and no text. */
  lemma {:induction false} TriesAdd(tries: Tries, adds: Additions, attempt: nat, poll: nat)
    returns (last: nat, poll': nat)
    requires tries(attempt, poll).requests >= 1
    requires forall a, p :: LastOrRetried(tries, adds, a, p)
    ensures last == attempt + tries(attempt, poll).requests - 1 && tries(last, poll').requests == 1
    ensures TextOf(Earlier(adds, attempt, last)) == []
    ensures tries(attempt, poll).events == Earlier(adds, attempt, last) + tries(last, poll').events
    decreases tries(attempt, poll).requests
  {
    assert LastOrRetried(tries, adds, attempt, poll);
    if tries(attempt, poll).requests == 1 {
      last, poll' := attempt, poll;
    } else {
      var q :| RetriesTo(tries, adds, attempt, poll, q);
      last, poll' := TriesAdd(tries, adds, attempt + 1, q);
      TextOfAppend(adds(attempt), Earlier(adds, attempt + 1, last));
    }
  }

  lemma AttemptsAdd(rounds: nat -> Round, env: Env) returns (poll: nat)
    ensures var last := Attempts(rounds, env, 1, 1).requests;
            && Attempts(rounds, env, last, poll).requests == 1 && TextOf(Earlier(RetriedOf(rounds), 1, last)) == []
            && Attempts(rounds, env, 1, 1).events ==
               Earlier(RetriedOf(rounds), 1, last) + Attempts(rounds, env, last, poll).events
  {
    forall a, p ensures LastOrRetried(TriesOf(rounds, env), RetriedOf(rounds), a, p) {
      AttemptStep(rounds, env, a, p);
    }
    var last;
    last, poll := TriesAdd(TriesOf(rounds, env), RetriedOf(rounds), 1, 1);
  }

  /**
   Every event of every call: the reasoning of the requests that were retried, in order, then what the last request
   adds.  An abort before the first request is all there is then.
   */
  lemma CallInFull(rounds: nat -> Round, env: Env) returns (events: seq<Event>, poll: nat)
    ensures var c := Call(rounds, env);
            if env.signal(0) then c.requests == 0 && c.events == [Done(Aborted)]
            else
              c.events == Earlier(RetriedOf(rounds), 1, c.requests) + events &&
              LastEvents(events, rounds(c.requests), env, poll)
  {
    events, poll := [], 0;
    if !env.signal(0) {
      var last := Call(rounds, env).requests;
      poll := AttemptsAdd(rounds, env);
      events := Attempts(rounds, env, last, poll).events;
      LastAttempt(rounds, env, last, poll);
      EndAdds(rounds(last), env, last, poll);
    }
  }

  ghost predicate TextOfRound(text: seq<Event>, round: Round, env: Env) {
    exists poll: nat :: text == TextOf(RoundTrip(round, env, poll).events)
  }

  lemma TextOfLast(rounds: nat -> Round, env: Env, last: nat, poll: nat)
    requires last >= 1 && Attempts(rounds, env, last, poll).requests == 1
    ensures TextOf(Attempts(rounds, env, last, poll).events) == TextOf(RoundTrip(rounds(last), env, poll).events)
  {
    LastAttempt(rounds, env, last, poll);
    JudgeIsSound(rounds(last), env, last, poll);
  }

  /** No text is ever replayed: all text deltas of a call come from its last request. */
  lemma TextComesFromLastRound(rounds: nat -> Round, env: Env)
    ensures var c := Call(rounds, env);
            if c.requests == 0 then TextOf(c.events) == [] else TextOfRound(TextOf(c.events), rounds(c.requests), env)
  {
    if env.signal(0) {
      assert TextOf([Done(Aborted)]) == [];
    } else {
      var last := Call(rounds, env).requests;
      var poll := AttemptsAdd(rounds, env);
      TextOfAppend(Earlier(RetriedOf(rounds), 1, last), Attempts(rounds, env, last, poll).events);
      TextOfLast(rounds, env, last, poll);
    }
  }

  // ----- Which round decides, when no abort comes.

  /** A round worth another try: an overloaded server, a dead connection, a stream that broke before any text. */
  ghost predicate WorthRetrying(round: Round) {
    match round
    case Refused(status, _, _) => status == 429 || status / 100 == 5
    case Unreachable(retryable, _) => retryable
    case Streamed(lines) => BreaksSilently(lines)
  }

  ghost predicate BreaksSilently(lines: seq<Line>) {
    exists b :: 0 <= b < |lines| && lines[b].Broken? &&
      forall i :: 0 <= i < b ==> !lines[i].Broken? && !HasText(lines[i])
  }

  predicate HasText(line: Line) { line.Data? && line.text.Some? }

  ghost predicate Quiet(signal: nat -> bool) { forall n :: !signal(n) }

  lemma {:induction false} ReadBreaks(lines: seq<Line>, signal: nat -> bool, poll: nat, p: Progress)
    requires Quiet(signal)
    ensures var end := ReadLines(lines, signal, poll, p);
            end.Died? && !end.p.emitted_text <==> !p.emitted_text && BreaksSilently(lines)
    decreases |lines|
  {
    if lines != [] && !lines[0].Broken? {
      var next := Feed(p, lines[0]);
      ReadBreaks(lines[1..], signal, poll + 1, next);
      BreaksLater(lines);
      if next.emitted_text {
        StaysEmitted(lines[1..], signal, poll + 1, next);
      }
    } else if lines != [] {
      assert BreaksSilently(lines);
    }
  }

  lemma BreaksLater(lines: seq<Line>)
    requires lines != [] && !lines[0].Broken?
    ensures BreaksSilently(lines) <==> !HasText(lines[0]) && BreaksSilently(lines[1..])
  {
  }

  lemma {:induction false} StaysEmitted(lines: seq<Line>, signal: nat -> bool, poll: nat, p: Progress)
    requires p.emitted_text
    ensures ReadLines(lines, signal, poll, p).p.emitted_text
    decreases |lines|
  {
    if lines != [] && !signal(poll) && !lines[0].Broken? {
      StaysEmitted(lines[1..], signal, poll + 1, Feed(p, lines[0]));
    }
  }

  lemma RetriedIffWorthIt(round: Round, env: Env, attempt: nat, poll: nat)
    requires Quiet(env.signal) && attempt >= 1
    ensures Judge(RoundTrip(round, env, poll), env, attempt).Again? <==>
              WorthRetrying(round) && attempt < env.policy.max_attempts
  {
    var r := RoundTrip(round, env, poll);
    if round.Streamed? {
      ReadBreaks(round.lines, env.signal, poll, NOTHING_YET);
    }
    assert CanRetry(r, attempt, env.policy) <==> WorthRetrying(round) && attempt < env.policy.max_attempts;
    if CanRetry(r, attempt, env.policy) {
      SleepHeedsSignal(Delay(attempt, r.failure.value.retry_after_ms, env.policy), env.signal, r.polls);
    }
  }

  /** The requests from `attempt` to `last` are made for a reason, and there is none for another one. */
  ghost predicate MadeForAReason(rounds: nat -> Round, max: nat, attempt: nat, last: nat) {
    && attempt <= last && (last < max ==> !WorthRetrying(rounds(last)))
    && forall k :: attempt <= k < last ==> WorthRetrying(rounds(k)) && k < max
  }

  lemma ReasonFirst(rounds: nat -> Round, max: nat, attempt: nat, last: nat)
    requires WorthRetrying(rounds(attempt)) && attempt < max && MadeForAReason(rounds, max, attempt + 1, last)
    ensures MadeForAReason(rounds, max, attempt, last)
  {
  }

  lemma {:induction false} AttemptsUntil(rounds: nat -> Round, env: Env, attempt: nat, poll: nat) returns (last: nat)
    requires attempt >= 1 && Quiet(env.signal)
    ensures Attempts(rounds, env, attempt, poll).requests == last - attempt + 1
    ensures MadeForAReason(rounds, env.policy.max_attempts, attempt, last)
    decreases if attempt < env.policy.max_attempts then env.policy.max_attempts - attempt else 0
  {
    RetriedIffWorthIt(rounds(attempt), env, attempt, poll);
    match Judge(RoundTrip(rounds(attempt), env, poll), env, attempt)
    case Ends(_, _) =>
      last := attempt;
    case Again(_, poll') =>
      last := AttemptsUntil(rounds, env, attempt + 1, poll');
      ReasonFirst(rounds, env.policy.max_attempts, attempt, last);
  }

  /**
   Without an abort the call makes exactly the requests up to the first round that is not worth retrying, or
   up to the last allowed one: it neither gives up early nor tries again in vain.
   */
  lemma RetriesExactlyWhileWorthIt(rounds: nat -> Round, env: Env)
    requires Quiet(env.signal)
    ensures Call(rounds, env).requests >= 1
    ensures MadeForAReason(rounds, env.policy.max_attempts, 1, Call(rounds, env).requests)
  {
    var last := AttemptsUntil(rounds, env, 1, 1);
  }
}
