/**
 The reminder against repeating one tool call: a streaming counter per agent, proved to count the longest
 identical suffix of the agent's tracked calls since its last reset.
 */
module RepeatReminder {
  import opened Wrappers
  import opened Sorting
  import opened Json
  import Glob

  datatype RepeatConfig = RepeatConfig(
    thresholds: seq<nat>, include_: seq<string>, exclude: seq<string>, arguments_preview_chars: nat)

  datatype ConfigError =
    | EmptyThresholds | ThresholdBelowTwo | DuplicateThreshold(value: nat) | NotAscending | InvalidPreviewChars

  // ----- Configuration.

  predicate Ascending(ts: seq<nat>) {
    forall i, j :: 0 <= i < j < |ts| ==> ts[i] < ts[j]
  }

  predicate Distinct(ts: seq<nat>) {
    forall i, j :: 0 <= i < j < |ts| ==> ts[i] != ts[j]
  }

  predicate AtLeastTwo(ts: seq<nat>) {
    forall i :: 0 <= i < |ts| ==> ts[i] >= 2
  }

  predicate ValidConfig(c: RepeatConfig) {
    c.thresholds != [] && AtLeastTwo(c.thresholds) && Ascending(c.thresholds) && c.arguments_preview_chars >= 1
  }

  predicate NatLe(a: nat, b: nat) { a <= b }

  lemma {:induction false} SortingAscendingChangesNothing(ts: seq<nat>)
    requires Sorted(ts, NatLe)
    ensures SortBy(ts, NatLe) == ts
  {
    if ts != [] {
      SortingAscendingChangesNothing(ts[1..]);
      assert ts == [ts[0]] + ts[1..];
    }
  }

  /** Comparing with the sorted list tells whether distinct thresholds ascend. */
  lemma SortedIffAscending(ts: seq<nat>)
    requires Distinct(ts)
    ensures SortBy(ts, NatLe) == ts <==> Ascending(ts)
  {
    SortBySorted(ts, NatLe);
    if Ascending(ts) {
      SortingAscendingChangesNothing(ts);
    }
  }

  /** The checks of `new`, in their order; the first one that fails names the error. */
  method Validate(c: RepeatConfig) returns (r: Option<ConfigError>)
    ensures r == None <==> ValidConfig(c)
    ensures r == Some(EmptyThresholds) <==> c.thresholds == []
    ensures r == Some(ThresholdBelowTwo) <==> c.thresholds != [] && !AtLeastTwo(c.thresholds)
    ensures (r.Some? && r.value.DuplicateThreshold?) <==>
              c.thresholds != [] && AtLeastTwo(c.thresholds) && !Distinct(c.thresholds)
    ensures r.Some? && r.value.DuplicateThreshold? ==>
              exists j :: 0 <= j < |c.thresholds| && c.thresholds[j] == r.value.value &&
                          r.value.value in c.thresholds[..j] && Distinct(c.thresholds[..j])
    ensures r == Some(NotAscending) <==>
              c.thresholds != [] && AtLeastTwo(c.thresholds) && Distinct(c.thresholds) && !Ascending(c.thresholds)
  {
    if c.thresholds == [] {
      return Some(EmptyThresholds);
    }
    for i := 0 to |c.thresholds|
      invariant AtLeastTwo(c.thresholds[..i])
    {
      if c.thresholds[i] < 2 {
        return Some(ThresholdBelowTwo);
      }
    }
    assert c.thresholds[..|c.thresholds|] == c.thresholds;
    var duplicate := FirstDuplicate(c.thresholds);
    if duplicate.Some? {
      return Some(DuplicateThreshold(duplicate.value));
    }
    SortedIffAscending(c.thresholds);
    if SortBy(c.thresholds, NatLe) != c.thresholds {
      return Some(NotAscending);
    }
    if c.arguments_preview_chars < 1 {
      return Some(InvalidPreviewChars);
    }
    return None;
  }

  method FirstDuplicate(ts: seq<nat>) returns (r: Option<nat>)
    ensures r.None? <==> Distinct(ts)
    ensures r.Some? ==>
              exists j :: 0 <= j < |ts| && ts[j] == r.value && r.value in ts[..j] && Distinct(ts[..j])
  {
    var seen: set<nat> := {};
    for j := 0 to |ts|
      invariant Distinct(ts[..j])
      invariant forall t :: t in seen <==> t in ts[..j]
    {
      assert ts[..j + 1] == ts[..j] + [ts[j]];
      if ts[j] in seen {
        var i :| 0 <= i < j && ts[..j][i] == ts[j];
        assert ts[i] == ts[j];
        return Some(ts[j]);
      }
      seen := seen + {ts[j]};
    }
    assert ts[..|ts|] == ts;
    return None;
  }

  // ----- Which tools are tracked.

  ghost predicate MatchesAny(patterns: seq<string>, tool: string) {
    exists k :: 0 <= k < |patterns| && Glob.Matches(patterns[k], tool)
  }

  ghost predicate Tracked(c: RepeatConfig, tool: string) {
    !MatchesAny(c.exclude, tool) && (c.include_ == [] || MatchesAny(c.include_, tool))
  }

  method AnyMatches(patterns: seq<string>, tool: string) returns (any: bool)
    ensures any <==> MatchesAny(patterns, tool)
  {
    for k := 0 to |patterns|
      invariant forall j :: 0 <= j < k ==> !Glob.Matches(patterns[j], tool)
    {
      var matched := Glob.GlobMatch(patterns[k], tool);
      if matched {
        return true;
      }
    }
    return false;
  }

  /** `is_tracked`. */
  method IsTracked(c: RepeatConfig, tool: string) returns (tracked: bool)
    ensures tracked <==> Tracked(c, tool)
  {
    var excluded := AnyMatches(c.exclude, tool);
    if excluded {
      return false;
    }
    if c.include_ == [] {
      return true;
    }
    tracked := AnyMatches(c.include_, tool);
  }

  // ----- The definition by history.

  datatype ToolCall = ToolCall(tool: string, args: Value)

  datatype Event = Observed(agent: string, call: ToolCall) | Reset(agent: string)

  ghost predicate SameCall(a: ToolCall, b: ToolCall) {
    a.tool == b.tool && Same(a.args, b.args)
  }

  /** The tracked calls of an agent since its last reset. */
  ghost function CallsSince(c: RepeatConfig, history: seq<Event>, agent: string): seq<ToolCall> {
    if history == [] then []
    else
      var before := CallsSince(c, history[..|history| - 1], agent);
      var last := history[|history| - 1];
      if last.agent != agent then before
      else
        match last
        case Reset(_) => []
        case Observed(_, call) => if Tracked(c, call.tool) then before + [call] else before
  }

  /** The last `n` calls are the same as the very last one, and the one before them is not. */
  ghost predicate IsStreak(calls: seq<ToolCall>, n: nat) {
    && n <= |calls| && (calls != [] ==> n > 0)
    && (forall i :: |calls| - n <= i < |calls| ==> SameCall(calls[i], calls[|calls| - 1]))
    && (n < |calls| ==> !SameCall(calls[|calls| - n - 1], calls[|calls| - 1]))
  }

  ghost predicate CallsWellFormed(calls: seq<ToolCall>) {
    forall i :: 0 <= i < |calls| ==> WellFormed(calls[i].args)
  }

  /** What two same calls have in common. */
  type Key = (string, Value)

  function KeyOf(call: ToolCall): Key { (call.tool, SortValue(call.args)) }

  function Keys(calls: seq<ToolCall>): (r: seq<Key>)
    ensures |r| == |calls| && forall i :: 0 <= i < |r| ==> r[i] == KeyOf(calls[i])
  {
    seq(|calls|, i requires 0 <= i < |calls| => KeyOf(calls[i]))
  }

  ghost predicate KeyStreak(keys: seq<Key>, n: nat) {
    && n <= |keys| && (keys != [] ==> n > 0)
    && (forall i :: |keys| - n <= i < |keys| ==> keys[i] == keys[|keys| - 1])
    && (n < |keys| ==> keys[|keys| - n - 1] != keys[|keys| - 1])
  }

  lemma SameCallIsSameKey(a: ToolCall, b: ToolCall)
    requires WellFormed(a.args) && WellFormed(b.args)
    ensures SameCall(a, b) <==> KeyOf(a) == KeyOf(b)
  {
    SortValueDecidesSame(a.args, b.args);
  }

  lemma StreakByKeys(calls: seq<ToolCall>, n: nat)
    requires CallsWellFormed(calls)
    ensures IsStreak(calls, n) <==> KeyStreak(Keys(calls), n)
  {
    var keys := Keys(calls);
    forall i | 0 <= i < |calls| ensures SameCall(calls[i], calls[|calls| - 1]) <==> keys[i] == keys[|calls| - 1] {
      SameCallIsSameKey(calls[i], calls[|calls| - 1]);
    }
  }

  /** There is one streak length. */
  lemma StreakIsUnique(calls: seq<ToolCall>, m: nat, n: nat)
    requires CallsWellFormed(calls) && IsStreak(calls, m) && IsStreak(calls, n)
    ensures m == n
  {
  }

  lemma KeyStreakGrows(keys: seq<Key>, n: nat, key: Key)
    requires KeyStreak(keys, n)
    ensures KeyStreak(keys + [key], if keys != [] && keys[|keys| - 1] == key then n + 1 else 1)
  {
  }

  /** One more call lengthens the streak by one or starts a new one. */
  lemma StreakGrows(calls: seq<ToolCall>, n: nat, call: ToolCall)
    requires CallsWellFormed(calls) && WellFormed(call.args) && IsStreak(calls, n)
    ensures IsStreak(calls + [call], if calls != [] && SameCall(calls[|calls| - 1], call) then n + 1 else 1)
  {
    StreakByKeys(calls, n);
    KeyStreakGrows(Keys(calls), n, KeyOf(call));
    assert Keys(calls + [call]) == Keys(calls) + [KeyOf(call)];
    StreakByKeys(calls + [call], n + 1);
    StreakByKeys(calls + [call], 1);
    if calls != [] {
      SameCallIsSameKey(calls[|calls| - 1], call);
    }
  }

  lemma PrefixStreakByKeys(calls: seq<ToolCall>, k: nat, m: nat)
    requires CallsWellFormed(calls) && k <= |calls| && IsStreak(calls[..k], m)
    ensures KeyStreak(Keys(calls)[..k], m)
  {
    StreakByKeys(calls[..k], m);
    assert Keys(calls[..k]) == Keys(calls)[..k];
  }

  /** Along a streak the lengths are 1, 2, 3, ..., so each threshold is met once per streak. */
  lemma ThresholdMetOncePerStreak(calls: seq<ToolCall>, n: nat, k: nat, m: nat)
    requires CallsWellFormed(calls) && IsStreak(calls, n)
    requires |calls| - n < k <= |calls| && IsStreak(calls[..k], m)
    ensures m == k - (|calls| - n)
  {
    StreakByKeys(calls, n);
    PrefixStreakByKeys(calls, k, m);
    KeyStreakOfPrefix(Keys(calls), n, k, m);
  }

  lemma KeyStreakOfPrefix(keys: seq<Key>, n: nat, k: nat, m: nat)
    requires KeyStreak(keys, n) && |keys| - n < k <= |keys| && KeyStreak(keys[..k], m)
    ensures m == k - (|keys| - n)
  {
  }

  // ----- The counter.

  datatype Chain = Chain(tool: string, canonical_args: string, count: nat)

  /** The reminder texts: a plain one at the first threshold, a detailed one at the later ones. */
  datatype Reminder = First | Later(tool: string, count: nat)

  /** The printer of sorted values loses nothing. */
  ghost predicate Injective(print_: Value -> string) {
    forall a, b :: print_(a) == print_(b) ==> a == b
  }

  /** `canonical_args`. */
  function CanonicalArgs(print_: Value -> string, args: Value): string {
    print_(SortValue(args))
  }

  /** Two argument values have one canonical form exactly when they are equal up to object key order. */
  lemma CanonicalIffSame(print_: Value -> string, a: Value, b: Value)
    requires Injective(print_) && WellFormed(a) && WellFormed(b)
    ensures CanonicalArgs(print_, a) == CanonicalArgs(print_, b) <==> Same(a, b)
  {
    SortValueDecidesSame(a, b);
  }

  function ReminderAt(thresholds: seq<nat>, tool: string, n: nat): Option<Reminder> {
    if thresholds != [] && thresholds[0] == n then Some(First)
    else if n in thresholds then Some(Later(tool, n))
    else None
  }

  ghost predicate ChainAgrees(print_: Value -> string, chains: map<string, Chain>, agent: string,
                              calls: seq<ToolCall>) {
    if agent !in chains then calls == []
    else
      var chain := chains[agent];
      && calls != [] && IsStreak(calls, chain.count)
      && chain.tool == calls[|calls| - 1].tool
      && chain.canonical_args == CanonicalArgs(print_, calls[|calls| - 1].args)
  }

  function Counted(chains: map<string, Chain>, agent: string, tool: string, canonical: string): nat {
    if agent in chains && chains[agent].tool == tool && chains[agent].canonical_args == canonical
    then chains[agent].count + 1 else 1
  }

  lemma CountedAgrees(print_: Value -> string, chains: map<string, Chain>, agent: string, calls: seq<ToolCall>,
                      call: ToolCall)
    requires Injective(print_) && ChainAgrees(print_, chains, agent, calls)
    requires CallsWellFormed(calls) && WellFormed(call.args)
    ensures var canonical := CanonicalArgs(print_, call.args);
            var count := Counted(chains, agent, call.tool, canonical);
            IsStreak(calls + [call], count) &&
            ChainAgrees(print_, chains[agent := Chain(call.tool, canonical, count)], agent, calls + [call])
  {
    if agent in chains {
      CanonicalIffSame(print_, calls[|calls| - 1].args, call.args);
      StreakGrows(calls, chains[agent].count, call);
    } else {
      StreakGrows(calls, 0, call);
    }
  }

  lemma {:induction false} HistoryWellFormed(c: RepeatConfig, history: seq<Event>, agent: string)
    requires ArgsWellFormed(history)
    ensures CallsWellFormed(CallsSince(c, history, agent))
  {
    if history != [] {
      HistoryWellFormed(c, history[..|history| - 1], agent);
    }
  }

  lemma CallsNext(c: RepeatConfig, history: seq<Event>, e: Event, agent: string)
    ensures CallsSince(c, history + [e], agent) ==
            if e.agent != agent then CallsSince(c, history, agent)
            else if e.Reset? then []
            else if Tracked(c, e.call.tool) then CallsSince(c, history, agent) + [e.call]
            else CallsSince(c, history, agent)
  {
  }

  ghost predicate ArgsWellFormed(history: seq<Event>) {
    forall i :: 0 <= i < |history| && history[i].Observed? ==> WellFormed(history[i].call.args)
  }

  /** Every agent's chain is what its history says. */
  ghost predicate AllAgree(c: RepeatConfig, print_: Value -> string, chains: map<string, Chain>, history: seq<Event>) {
    forall agent :: ChainAgrees(print_, chains, agent, CallsSince(c, history, agent))
  }

  lemma UntrackedAgrees(c: RepeatConfig, print_: Value -> string, chains: map<string, Chain>, history: seq<Event>,
                        agent: string, call: ToolCall)
    requires AllAgree(c, print_, chains, history) && !Tracked(c, call.tool)
    ensures AllAgree(c, print_, chains, history + [Observed(agent, call)])
  {
    forall a ensures ChainAgrees(print_, chains, a, CallsSince(c, history + [Observed(agent, call)], a)) {
      CallsNext(c, history, Observed(agent, call), a);
    }
  }

  lemma TrackedAgrees(c: RepeatConfig, print_: Value -> string, chains: map<string, Chain>, history: seq<Event>,
                      agent: string, call: ToolCall)
    requires Injective(print_) && AllAgree(c, print_, chains, history) && ArgsWellFormed(history)
    requires Tracked(c, call.tool) && WellFormed(call.args)
    ensures var canonical := CanonicalArgs(print_, call.args);
            var count := Counted(chains, agent, call.tool, canonical);
            var history' := history + [Observed(agent, call)];
            IsStreak(CallsSince(c, history', agent), count) &&
            AllAgree(c, print_, chains[agent := Chain(call.tool, canonical, count)], history')
  {
    var canonical := CanonicalArgs(print_, call.args);
    var chains' := chains[agent := Chain(call.tool, canonical, Counted(chains, agent, call.tool, canonical))];
    HistoryWellFormed(c, history, agent);
    CountedAgrees(print_, chains, agent, CallsSince(c, history, agent), call);
    CallsNext(c, history, Observed(agent, call), agent);
    forall a | a != agent ensures ChainAgrees(print_, chains', a, CallsSince(c, history + [Observed(agent, call)], a)) {
      CallsNext(c, history, Observed(agent, call), a);
      assert ChainAgrees(print_, chains, a, CallsSince(c, history, a));
    }
  }

  lemma ResetAgrees(c: RepeatConfig, print_: Value -> string, chains: map<string, Chain>, history: seq<Event>,
                    agent: string)
    requires AllAgree(c, print_, chains, history)
    ensures AllAgree(c, print_, chains - {agent}, history + [Reset(agent)])
  {
    forall a ensures ChainAgrees(print_, chains - {agent}, a, CallsSince(c, history + [Reset(agent)], a)) {
      CallsNext(c, history, Reset(agent), a);
      assert ChainAgrees(print_, chains, a, CallsSince(c, history, a));
    }
  }

  class RepeatToolReminder {
    const config: RepeatConfig
    const print_: Value -> string
    var chains: map<string, Chain>
    /** Every observed call and reset, in order. */
    ghost var history: seq<Event>

    ghost predicate Valid()
      reads this
    {
      && ValidConfig(config) && Injective(print_)
      && ArgsWellFormed(history) && AllAgree(config, print_, chains, history)
    }

    constructor (config: RepeatConfig, print_: Value -> string)
      requires ValidConfig(config) && Injective(print_)
      ensures Valid() && this.config == config && this.print_ == print_ && history == []
    {
      this.config, this.print_ := config, print_;
      chains, history := map[], [];
    }

    /** `observe`: a reminder is returned exactly when the agent's streak has reached a threshold. */
    method Observe(agent: string, call: ToolCall) returns (r: Option<Reminder>)
      requires Valid() && WellFormed(call.args)
      modifies this
      ensures Valid() && history == old(history) + [Observed(agent, call)]
      ensures !Tracked(config, call.tool) ==> r == None && chains == old(chains)
      ensures Tracked(config, call.tool) ==>
                agent in chains && IsStreak(CallsSince(config, history, agent), chains[agent].count) &&
                (r == None <==> chains[agent].count !in config.thresholds) &&
                (r == Some(First) <==> chains[agent].count == config.thresholds[0]) &&
                (r.Some? && r != Some(First) ==> r == Some(Later(call.tool, chains[agent].count)))
    {
      var tracked := IsTracked(config, call.tool);
      if !tracked {
        UntrackedAgrees(config, print_, chains, history, agent, call);
        history := history + [Observed(agent, call)];
        return None;
      }
      var canonical := CanonicalArgs(print_, call.args);
      TrackedAgrees(config, print_, chains, history, agent, call);
      var count := CountCall(agent, call.tool, canonical);
      history := history + [Observed(agent, call)];
      return ReminderAt(config.thresholds, call.tool, count);
    }

    /** The update of the agent's chain. */
    method CountCall(agent: string, tool: string, canonical: string) returns (count: nat)
      modifies this`chains
      ensures count == Counted(old(chains), agent, tool, canonical)
      ensures chains == old(chains)[agent := Chain(tool, canonical, count)]
    {
      var chain := if agent in chains then chains[agent] else Chain(tool, canonical, 0);
      if chain.tool == tool && chain.canonical_args == canonical {
        chain := chain.(count := chain.count + 1);
      } else {
        chain := Chain(tool, canonical, 1);
      }
      chains := chains[agent := chain];
      count := chain.count;
    }

    /** `reset_agent`. */
    method ResetAgent(agent: string)
      requires Valid()
      modifies this
      ensures Valid() && history == old(history) + [Reset(agent)] && chains == old(chains) - {agent}
    {
      ResetAgrees(config, print_, chains, history, agent);
      history := history + [Reset(agent)];
      chains := chains - {agent};
    }
  }

  /** `new`: an invalid configuration is refused. */
  method NewReminder(config: RepeatConfig, print_: Value -> string) returns (r: Result<RepeatToolReminder, ConfigError>)
    requires Injective(print_)
    ensures r.Ok? <==> ValidConfig(config)
    ensures r.Ok? ==> fresh(r.value) && r.value.Valid() && r.value.config == config && r.value.history == []
  {
    var error := Validate(config);
    if error.Some? {
      return Err(error.value);
    }
    var reminder := new RepeatToolReminder(config, print_);
    return Ok(reminder);
  }
}
