/**
 Windowed statistics over the run ledger: counters, the comparison with the previous
 window, and the throughput buckets.  Averages and rates are exact (real) here.
 */
module Stats {
  import opened Wrappers
  import opened Sorting
  import opened Text

  datatype RunRecord = RunRecord(
    seq_: int, run_id: string, session_id: string, started_at_ms: int,
    finished_at_ms: Option<int>, status: Option<string>)

  const STATS_BUCKETS: nat := 12
  const HOUR: int := 3_600_000
  const DAY: int := 24 * HOUR
  const I64_MIN: int := -0x8000_0000_0000_0000

  datatype StatsWindow = Last(ms: int) | All

  /** `parse_stats_range`: an unknown token means the last day. */
  function ParseStatsRange(range: string): StatsWindow {
    var token := Lower(TrimLeft(TrimRight(range)));
    if token == "1h" then Last(HOUR)
    else if token == "24h" then Last(DAY)
    else if token == "7d" then Last(7 * DAY)
    else if token == "30d" then Last(30 * DAY)
    else if token == "90d" then Last(90 * DAY)
    else if token == "all" then All
    else Last(DAY)
  }

  // ----- Selecting and counting.

  function Select(runs: seq<RunRecord>, p: RunRecord -> bool): seq<RunRecord> {
    if runs == [] then []
    else Select(runs[..|runs| - 1], p) + (if p(runs[|runs| - 1]) then [runs[|runs| - 1]] else [])
  }

  function Since(runs: seq<RunRecord>, floor: int): seq<RunRecord> {
    Select(runs, (r: RunRecord) => r.started_at_ms >= floor)
  }

  function Between(runs: seq<RunRecord>, lo: int, hi: int): seq<RunRecord> {
    Select(runs, (r: RunRecord) => lo <= r.started_at_ms < hi)
  }

  function Count(runs: seq<RunRecord>, p: RunRecord -> bool): (n: nat)
    ensures n <= |runs|
  {
    if runs == [] then 0
    else Count(runs[..|runs| - 1], p) + (if p(runs[|runs| - 1]) then 1 else 0)
  }

  predicate InFlight(r: RunRecord) { r.finished_at_ms.None? }
  predicate Succeeded(r: RunRecord) { r.finished_at_ms.Some? && r.status == Some("ok") }
  predicate Aborted(r: RunRecord) {
    r.finished_at_ms.Some? && (r.status == Some("aborted") || r.status == Some("paused"))
  }
  predicate Failed(r: RunRecord) { r.finished_at_ms.Some? && !Succeeded(r) && !Aborted(r) }
  predicate Timed(r: RunRecord) { r.finished_at_ms.Some? && r.finished_at_ms.value >= r.started_at_ms }

  function DurationSum(runs: seq<RunRecord>): int {
    if runs == [] then 0
    else
      var r := runs[|runs| - 1];
      DurationSum(runs[..|runs| - 1]) + (if Timed(r) then r.finished_at_ms.value - r.started_at_ms else 0)
  }

  /** Mean duration of the terminal runs, when there is one. */
  function Average(runs: seq<RunRecord>): Option<real> {
    var n := Count(runs, Timed);
    if n > 0 then Some(DurationSum(runs) as real / n as real) else None
  }

  function Sessions(runs: seq<RunRecord>): set<string> {
    set r | r in runs && r.session_id != "" :: r.session_id
  }

  function Earliest(runs: seq<RunRecord>, default: int): int {
    if runs == [] then default
    else
      var rest := Earliest(runs[1..], runs[0].started_at_ms);
      if runs[0].started_at_ms < rest then runs[0].started_at_ms else rest
  }

  // ----- The summary.

  datatype StatsBucket = StatsBucket(start_ms: int, end_ms: int, runs: nat)

  datatype StatsRecentRun = StatsRecentRun(
    run_id: string, session_id: string, started_at_ms: int, duration_ms: Option<int>, status: string)

  datatype Previous = Previous(total: nat, ok: nat, errors: nat, avg: Option<real>)

  datatype StatsSummary = StatsSummary(
    range: string, now_ms: int, window_start_ms: int, total_runs: nat, ok_runs: nat, failed_runs: nat,
    aborted_runs: nat, in_flight_runs: nat, avg_duration_ms: Option<real>, active_sessions: nat,
    runs_per_hour: Option<real>, throughput: seq<StatsBucket>, recent: seq<StatsRecentRun>, previous: Option<Previous>)

  function WindowStart(window: StatsWindow, runs: seq<RunRecord>, now: int): int {
    match window
    case Last(w) => now - w
    case All => var e := Earliest(runs, now); if e < now then e else now
  }

  function RecentRun(r: RunRecord): StatsRecentRun {
    StatsRecentRun(r.run_id, r.session_id, r.started_at_ms,
      if Timed(r) then Some(r.finished_at_ms.value - r.started_at_ms) else None,
      if r.finished_at_ms.None? then "running" else if r.status.Some? then r.status.value else "unknown")
  }

  function RecentRuns(runs: seq<RunRecord>): seq<StatsRecentRun> {
    if runs == [] then [] else [RecentRun(runs[0])] + RecentRuns(runs[1..])
  }

  predicate NewestFirst(a: RunRecord, b: RunRecord) { a.started_at_ms >= b.started_at_ms }

  function TakeRecent(runs: seq<RunRecord>): seq<RunRecord> {
    if |runs| <= STATS_BUCKETS then runs else runs[..STATS_BUCKETS]
  }

  function PreviousWindow(window: StatsWindow, runs: seq<RunRecord>, now: int): Option<Previous> {
    match window
    case All => None
    case Last(w) =>
      var slice := Between(runs, now - 2 * w, now - w);
      Some(Previous(|slice|, Count(slice, Succeeded), Count(slice, r => Failed(r) || Aborted(r)), Average(slice)))
  }

  function RunsPerHour(total: nat, window_ms: int): Option<real> {
    if window_ms > 0 then Some(total as real * 3_600_000.0 / window_ms as real) else None
  }

  /** What `aggregate_stats` reports: every number as a count over the records of the window. */
  function Summary(runs: seq<RunRecord>, range: string, now: int): StatsSummary {
    var window := ParseStatsRange(range);
    var start := WindowStart(window, runs, now);
    SummaryOf(range, now, start, Since(runs, start), PreviousWindow(window, runs, now))
  }

  function SummaryOf(range: string, now: int, start: int, shown: seq<RunRecord>,
                     previous: Option<Previous>): StatsSummary {
    StatsSummary(range, now, start, |shown|, Count(shown, Succeeded), Count(shown, Failed), Count(shown, Aborted),
      Count(shown, InFlight), Average(shown), |Sessions(shown)|, RunsPerHour(|shown|, now - start),
      Buckets(shown, start, now), RecentRuns(TakeRecent(SortBy(shown, NewestFirst))), previous)
  }

  // ----- Buckets.

  /** The boundary before bucket `i`. */
  function Boundary(start: int, now: int, i: nat): int {
    start + (now - start) * i / STATS_BUCKETS
  }

  predicate InBucket(start: int, now: int, i: nat, t: int) {
    t >= Boundary(start, now, i) &&
    (t < Boundary(start, now, i + 1) || (i == STATS_BUCKETS - 1 && t <= now))
  }

  function Bucket(runs: seq<RunRecord>, start: int, now: int, i: nat): StatsBucket {
    StatsBucket(Boundary(start, now, i), Boundary(start, now, i + 1),
      Count(runs, (r: RunRecord) => InBucket(start, now, i, r.started_at_ms)))
  }

  function Collect<T>(f: nat -> T, n: nat): (r: seq<T>)
    ensures |r| == n
  {
    if n == 0 then [] else Collect(f, n - 1) + [f(n - 1)]
  }

  lemma {:induction false} CollectAt<T>(f: nat -> T, n: nat, i: nat)
    requires i < n
    ensures Collect(f, n)[i] == f(i)
  {
    if i < n - 1 {
      CollectAt(f, n - 1, i);
    }
  }

  function FirstBuckets(runs: seq<RunRecord>, start: int, now: int, n: nat): (r: seq<StatsBucket>)
    ensures |r| == n
  {
    Collect((i: nat) => Bucket(runs, start, now, i), n)
  }

  /** `bucket_runs`: twelve buckets, or none for an empty window. */
  function Buckets(runs: seq<RunRecord>, start: int, now: int): seq<StatsBucket> {
    if now - start <= 0 then [] else FirstBuckets(runs, start, now, STATS_BUCKETS)
  }

  function SumRuns(buckets: seq<StatsBucket>): nat {
    if buckets == [] then 0 else SumRuns(buckets[..|buckets| - 1]) + buckets[|buckets| - 1].runs
  }

  lemma BucketAt(runs: seq<RunRecord>, start: int, now: int, i: nat)
    requires start < now && i < STATS_BUCKETS
    ensures Buckets(runs, start, now)[i] == Bucket(runs, start, now, i)
  {
    CollectAt((j: nat) => Bucket(runs, start, now, j), STATS_BUCKETS, i);
  }

  lemma Widths(start: int, now: int, i: nat)
    requires start < now
    ensures (now - start) / 12 <= Boundary(start, now, i + 1) - Boundary(start, now, i) <= (now - start) / 12 + 1
    ensures Boundary(start, now, 0) == start && Boundary(start, now, 12) == now
  {
  }

  /** The buckets tile `[start, now]` without gap or overlap, and their widths differ by at most one. */
  lemma BucketsTile(runs: seq<RunRecord>, start: int, now: int, i: nat)
    requires start < now && i < STATS_BUCKETS
    ensures var b := Buckets(runs, start, now);
            |b| == STATS_BUCKETS &&
            b[0].start_ms == start && b[STATS_BUCKETS - 1].end_ms == now &&
            (i + 1 < STATS_BUCKETS ==> b[i].end_ms == b[i + 1].start_ms) &&
            (now - start) / STATS_BUCKETS <= b[i].end_ms - b[i].start_ms <= (now - start) / STATS_BUCKETS + 1
  {
    BucketAt(runs, start, now, 0);
    BucketAt(runs, start, now, STATS_BUCKETS - 1);
    BucketAt(runs, start, now, i);
    if i + 1 < STATS_BUCKETS {
      BucketAt(runs, start, now, i + 1);
    }
    Widths(start, now, i);
  }

  predicate Covered(start: int, now: int, n: nat, t: int) {
    start <= t && (t < Boundary(start, now, n) || (n == STATS_BUCKETS && t <= now))
  }

  /** A start time before boundary `n` lies in exactly one of the first `n` buckets. */
  lemma CoveredStep(start: int, now: int, n: nat, t: int)
    requires start < now && n < STATS_BUCKETS
    ensures Covered(start, now, n + 1, t) <==> Covered(start, now, n, t) || InBucket(start, now, n, t)
    ensures !(Covered(start, now, n, t) && InBucket(start, now, n, t))
    ensures !Covered(start, now, 0, t)
  {
  }

  lemma {:induction false} CountSplits(runs: seq<RunRecord>, p: RunRecord -> bool, q: RunRecord -> bool,
                                       both: RunRecord -> bool)
    requires forall r :: (both(r) <==> p(r) || q(r)) && !(p(r) && q(r))
    ensures Count(runs, both) == Count(runs, p) + Count(runs, q)
  {
    if runs != [] {
      CountSplits(runs[..|runs| - 1], p, q, both);
    }
  }

  lemma {:induction false} CountNone(runs: seq<RunRecord>, p: RunRecord -> bool)
    requires forall r :: !p(r)
    ensures Count(runs, p) == 0
  {
    if runs != [] {
      CountNone(runs[..|runs| - 1], p);
    }
  }

  lemma {:induction false} FirstBucketsSum(runs: seq<RunRecord>, start: int, now: int, n: nat)
    requires start < now && n <= STATS_BUCKETS
    ensures SumRuns(FirstBuckets(runs, start, now, n)) ==
            Count(runs, (r: RunRecord) => Covered(start, now, n, r.started_at_ms))
  {
    var covered := (r: RunRecord) => Covered(start, now, n, r.started_at_ms);
    if n == 0 {
      forall r ensures !covered(r) { CoveredStep(start, now, 0, r.started_at_ms); }
      CountNone(runs, covered);
    } else {
      FirstBucketsSum(runs, start, now, n - 1);
      var before := (r: RunRecord) => Covered(start, now, n - 1, r.started_at_ms);
      var inside := (r: RunRecord) => InBucket(start, now, n - 1, r.started_at_ms);
      forall r ensures (covered(r) <==> before(r) || inside(r)) && !(before(r) && inside(r)) {
        CoveredStep(start, now, n - 1, r.started_at_ms);
      }
      CountSplits(runs, before, inside, covered);
      var b := FirstBuckets(runs, start, now, n);
      assert b[..n - 1] == FirstBuckets(runs, start, now, n - 1);
    }
  }

  /** The bucket counts add up to the runs started in `[start, now]`. */
  lemma BucketsSum(runs: seq<RunRecord>, start: int, now: int)
    requires start < now
    ensures SumRuns(Buckets(Since(runs, start), start, now)) ==
            Count(runs, (r: RunRecord) => start <= r.started_at_ms <= now)
  {
    var shown := Since(runs, start);
    FirstBucketsSum(shown, start, now, STATS_BUCKETS);
    assert Boundary(start, now, STATS_BUCKETS) == now;
    var covered := (r: RunRecord) => Covered(start, now, STATS_BUCKETS, r.started_at_ms);
    var wanted := (r: RunRecord) => start <= r.started_at_ms <= now;
    forall r ensures covered(r) <==> wanted(r) && r.started_at_ms >= start {
    }
    CountSelected(runs, (r: RunRecord) => r.started_at_ms >= start, covered, wanted);
  }

  lemma {:induction false} CountSelected(runs: seq<RunRecord>, p: RunRecord -> bool, q: RunRecord -> bool,
                                         w: RunRecord -> bool)
    requires forall r :: w(r) <==> p(r) && q(r)
    ensures Count(Select(runs, p), q) == Count(runs, w)
  {
    if runs != [] {
      var front, last := runs[..|runs| - 1], runs[|runs| - 1];
      CountSelected(front, p, q, w);
      if p(last) {
        assert Select(runs, p)[..|Select(runs, p)| - 1] == Select(front, p);
      } else {
        assert Select(runs, p) == Select(front, p);
      }
    }
  }

  /** Every run of the window is exactly one of ok, failed, aborted, in flight. */
  lemma TotalsAdd(runs: seq<RunRecord>, range: string, now: int)
    ensures var s := Summary(runs, range, now);
            s.ok_runs + s.failed_runs + s.aborted_runs + s.in_flight_runs == s.total_runs
  {
    ClassesAdd(Since(runs, WindowStart(ParseStatsRange(range), runs, now)));
  }

  lemma {:induction false} ClassesAdd(runs: seq<RunRecord>)
    ensures Count(runs, Succeeded) + Count(runs, Failed) + Count(runs, Aborted) + Count(runs, InFlight) == |runs|
  {
    if runs != [] {
      ClassesAdd(runs[..|runs| - 1]);
    }
  }

  // ----- The summary in plain terms.

  /** The places of the records with a property. */
  ghost function Where(runs: seq<RunRecord>, p: RunRecord -> bool): set<nat> {
    set k: nat | k < |runs| && p(runs[k])
  }

  lemma {:induction false} CountIsCard(runs: seq<RunRecord>, p: RunRecord -> bool)
    ensures Count(runs, p) == |Where(runs, p)|
  {
    if runs != [] {
      var front := runs[..|runs| - 1];
      CountIsCard(front, p);
      assert Where(runs, p) == Where(front, p) + (if p(runs[|front|]) then {|front|} else {});
    } else {
      assert Where(runs, p) == {};
    }
  }

  lemma SelectedCount(runs: seq<RunRecord>, p: RunRecord -> bool, q: RunRecord -> bool, w: RunRecord -> bool)
    requires forall r :: w(r) <==> p(r) && q(r)
    ensures Count(Select(runs, p), q) == |Where(runs, w)|
  {
    CountSelected(runs, p, q, w);
    CountIsCard(runs, w);
  }

  lemma {:induction false} CountAll(runs: seq<RunRecord>, p: RunRecord -> bool)
    requires forall r :: p(r)
    ensures Count(runs, p) == |runs|
  {
    if runs != [] {
      CountAll(runs[..|runs| - 1], p);
    }
  }

  lemma SelectedSize(runs: seq<RunRecord>, p: RunRecord -> bool)
    ensures |Select(runs, p)| == |Where(runs, p)|
  {
    var all := (r: RunRecord) => true;
    SelectedCount(runs, p, all, p);
    CountAll(Select(runs, p), all);
  }

  predicate Ended(r: RunRecord, status: set<string>) {
    r.finished_at_ms.Some? && r.status.Some? && r.status.value in status
  }

  predicate StartedSince(r: RunRecord, from: int) { r.started_at_ms >= from }

  predicate EndedOtherwise(r: RunRecord) { r.finished_at_ms.Some? && !Ended(r, {"ok", "aborted", "paused"}) }

  /** The counters of a window: all runs, the ok ones, aborted or paused, any other end, no end yet. */
  ghost predicate Counts(s: StatsSummary, runs: seq<RunRecord>, from: int) {
    && s.total_runs == |Where(runs, (r: RunRecord) => StartedSince(r, from))|
    && s.ok_runs == |Where(runs, (r: RunRecord) => StartedSince(r, from) && Ended(r, {"ok"}))|
    && s.aborted_runs == |Where(runs, (r: RunRecord) => StartedSince(r, from) && Ended(r, {"aborted", "paused"}))|
    && s.failed_runs == |Where(runs, (r: RunRecord) => StartedSince(r, from) && EndedOtherwise(r))|
    && s.in_flight_runs == |Where(runs, (r: RunRecord) => StartedSince(r, from) && r.finished_at_ms == None)|
  }

  lemma WindowCounts(runs: seq<RunRecord>, from: int, s: StatsSummary)
    requires s.total_runs == |Since(runs, from)| && s.ok_runs == Count(Since(runs, from), Succeeded)
    requires s.aborted_runs == Count(Since(runs, from), Aborted) && s.failed_runs == Count(Since(runs, from), Failed)
    requires s.in_flight_runs == Count(Since(runs, from), InFlight)
    ensures Counts(s, runs, from)
  {
    var inside := (r: RunRecord) => r.started_at_ms >= from;
    SelectedSize(runs, inside);
    assert Where(runs, inside) == Where(runs, (r: RunRecord) => StartedSince(r, from));
    SelectedCount(runs, inside, Succeeded, (r: RunRecord) => StartedSince(r, from) && Ended(r, {"ok"}));
    SelectedCount(runs, inside, Aborted, (r: RunRecord) => StartedSince(r, from) && Ended(r, {"aborted", "paused"}));
    SelectedCount(runs, inside, Failed, (r: RunRecord) => StartedSince(r, from) && EndedOtherwise(r));
    SelectedCount(runs, inside, InFlight, (r: RunRecord) => StartedSince(r, from) && r.finished_at_ms == None);
  }

  lemma CountersMean(runs: seq<RunRecord>, range: string, now: int)
    ensures var s := Summary(runs, range, now); Counts(s, runs, s.window_start_ms)
  {
    var s := Summary(runs, range, now);
    WindowCounts(runs, s.window_start_ms, s);
  }

  /** A token in lower case without blanks around it is taken as it is. */
  lemma PlainToken(range: string)
    requires range != "" && !IsSpace(range[0]) && !IsSpace(range[|range| - 1])
    requires forall i :: 0 <= i < |range| ==> !('A' <= range[i] <= 'Z')
    ensures Lower(TrimLeft(TrimRight(range))) == range
  {
    LowerKeeps(range);
  }

  /** The length of the window a token asks for. */
  lemma RangesMean(range: string)
    requires range in {"1h", "24h", "7d", "30d", "90d", "all"}
    ensures range == "1h" ==> ParseStatsRange(range) == Last(3_600_000)
    ensures range == "24h" ==> ParseStatsRange(range) == Last(86_400_000)
    ensures range == "7d" ==> ParseStatsRange(range) == Last(604_800_000)
    ensures range == "30d" ==> ParseStatsRange(range) == Last(2_592_000_000)
    ensures range == "90d" ==> ParseStatsRange(range) == Last(7_776_000_000)
    ensures range == "all" ==> ParseStatsRange(range) == StatsWindow.All
  {
    PlainToken(range);
  }

  lemma {:induction false} EarliestMeans(runs: seq<RunRecord>, default: int)
    ensures var e := Earliest(runs, default);
            (forall k :: 0 <= k < |runs| ==> e <= runs[k].started_at_ms) &&
            if runs == [] then e == default else exists k :: 0 <= k < |runs| && runs[k].started_at_ms == e
  {
    if runs != [] {
      EarliestMeans(runs[1..], runs[0].started_at_ms);
      var e := Earliest(runs, default);
      forall k | 0 <= k < |runs| ensures e <= runs[k].started_at_ms {
        if k > 0 {
          assert runs[1..][k - 1] == runs[k];
        }
      }
      if e != runs[0].started_at_ms {
        var k :| 0 <= k < |runs[1..]| && runs[1..][k].started_at_ms == e;
        assert runs[k + 1].started_at_ms == e;
      }
    }
  }

  /** A window of fixed length ends now; the one of all records begins with the earliest of them, or now. */
  lemma WindowMeans(runs: seq<RunRecord>, range: string, now: int)
    ensures var start := Summary(runs, range, now).window_start_ms;
            match ParseStatsRange(range)
            case Last(w) => start == now - w
            case All =>
              start <= now && (forall k :: 0 <= k < |runs| ==> start <= runs[k].started_at_ms) &&
              (start == now || exists k :: 0 <= k < |runs| && runs[k].started_at_ms == start)
  {
    EarliestMeans(runs, now);
  }

  predicate StartedIn(r: RunRecord, lo: int, hi: int) { lo <= r.started_at_ms < hi }

  predicate EndedBadly(r: RunRecord) { r.finished_at_ms.Some? && !Ended(r, {"ok"}) }

  lemma SliceMeans(runs: seq<RunRecord>, lo: int, hi: int)
    ensures |Between(runs, lo, hi)| == |Where(runs, (r: RunRecord) => StartedIn(r, lo, hi))|
    ensures Count(Between(runs, lo, hi), Succeeded) ==
            |Where(runs, (r: RunRecord) => StartedIn(r, lo, hi) && Ended(r, {"ok"}))|
    ensures Count(Between(runs, lo, hi), (r: RunRecord) => Failed(r) || Aborted(r)) ==
            |Where(runs, (r: RunRecord) => StartedIn(r, lo, hi) && EndedBadly(r))|
  {
    var inside := (r: RunRecord) => lo <= r.started_at_ms < hi;
    SelectedSize(runs, inside);
    assert Where(runs, inside) == Where(runs, (r: RunRecord) => StartedIn(r, lo, hi));
    SelectedCount(runs, inside, Succeeded, (r: RunRecord) => StartedIn(r, lo, hi) && Ended(r, {"ok"}));
    SelectedCount(runs, inside, (r: RunRecord) => Failed(r) || Aborted(r),
                  (r: RunRecord) => StartedIn(r, lo, hi) && EndedBadly(r));
  }

  /** The window before, of the same length: its runs, the ok ones, and those that ended otherwise. */
  ghost predicate Precedes(previous: Option<Previous>, window: StatsWindow, runs: seq<RunRecord>, now: int) {
    match window
    case All => previous == None
    case Last(w) =>
      var lo, hi := now - 2 * w, now - w;
      && previous.Some?
      && previous.value.total == |Where(runs, (r: RunRecord) => StartedIn(r, lo, hi))|
      && previous.value.ok == |Where(runs, (r: RunRecord) => StartedIn(r, lo, hi) && Ended(r, {"ok"}))|
      && previous.value.errors == |Where(runs, (r: RunRecord) => StartedIn(r, lo, hi) && EndedBadly(r))|
  }

  lemma PreviousIs(window: StatsWindow, runs: seq<RunRecord>, now: int)
    ensures Precedes(PreviousWindow(window, runs, now), window, runs, now)
  {
    if window.Last? {
      SliceMeans(runs, now - 2 * window.ms, now - window.ms);
    }
  }

  lemma PreviousMeans(runs: seq<RunRecord>, range: string, now: int)
    ensures Precedes(Summary(runs, range, now).previous, ParseStatsRange(range), runs, now)
  {
    PreviousIs(ParseStatsRange(range), runs, now);
  }

  /** `places` are where the records with a property stand, in order. */
  ghost predicate PlacesOf(runs: seq<RunRecord>, p: RunRecord -> bool, places: seq<nat>) {
    && (forall i :: 0 <= i < |places| ==> places[i] < |runs| && p(runs[places[i]]))
    && (forall k: nat :: k < |runs| && p(runs[k]) ==> k in places)
  }

  /** `shown` are the records at the places `places`, in order. */
  ghost predicate ShownAt(runs: seq<RunRecord>, shown: seq<RunRecord>, places: seq<nat>) {
    && |places| == |shown|
    && (forall i :: 0 <= i < |places| ==> places[i] < |runs| && shown[i] == runs[places[i]])
    && (forall i, j :: 0 <= i < j < |places| ==> places[i] < places[j])
  }

  lemma {:induction false} SelectedFrom(runs: seq<RunRecord>, p: RunRecord -> bool) returns (places: seq<nat>)
    ensures PlacesOf(runs, p, places) && ShownAt(runs, Select(runs, p), places)
  {
    places := [];
    if runs != [] {
      var front, last := runs[..|runs| - 1], runs[|runs| - 1];
      places := SelectedFrom(front, p);
      assert runs == front + [last];
      if p(last) {
        PlacesGrow(front, p, places, last);
        ShownAtGrows(front, Select(front, p), places, last);
        places := places + [|front|];
      } else {
        PlacesStay(front, p, places, last);
        ShownAtStays(front, Select(front, p), places, last);
        assert Select(runs, p) == Select(front, p);
      }
    }
  }

  lemma PlacesGrow(front: seq<RunRecord>, p: RunRecord -> bool, places: seq<nat>, last: RunRecord)
    requires PlacesOf(front, p, places) && p(last)
    ensures PlacesOf(front + [last], p, places + [|front|])
  {
    var all := places + [|front|];
    assert all[|places|] == |front|;
    forall k: nat | k < |front| + 1 && p((front + [last])[k]) ensures k in all {
      assert k < |front| ==> k in places;
    }
  }

  lemma PlacesStay(front: seq<RunRecord>, p: RunRecord -> bool, places: seq<nat>, last: RunRecord)
    requires PlacesOf(front, p, places) && !p(last)
    ensures PlacesOf(front + [last], p, places)
  {
  }

  lemma ShownAtGrows(front: seq<RunRecord>, shown: seq<RunRecord>, places: seq<nat>, last: RunRecord)
    requires ShownAt(front, shown, places)
    ensures ShownAt(front + [last], shown + [last], places + [|front|])
  {
  }

  lemma ShownAtStays(front: seq<RunRecord>, shown: seq<RunRecord>, places: seq<nat>, last: RunRecord)
    requires ShownAt(front, shown, places)
    ensures ShownAt(front + [last], shown, places)
  {
  }

  /** A row of the feed. */
  ghost predicate ShownAs(row: StatsRecentRun, r: RunRecord) {
    && row.run_id == r.run_id && row.session_id == r.session_id && row.started_at_ms == r.started_at_ms
    && (r.finished_at_ms == None ==> row.duration_ms == None && row.status == "running")
    && (r.finished_at_ms.Some? && r.finished_at_ms.value >= r.started_at_ms ==>
          row.duration_ms == Some(r.finished_at_ms.value - r.started_at_ms))
    && (r.finished_at_ms.Some? && r.finished_at_ms.value < r.started_at_ms ==> row.duration_ms == None)
    && (r.finished_at_ms.Some? ==> row.status == if r.status.Some? then r.status.value else "unknown")
  }

  /** Record `a` comes before record `b` in the feed: it started later, or at once and stands earlier in the ledger. */
  predicate Newer(runs: seq<RunRecord>, a: nat, b: nat)
    requires a < |runs| && b < |runs|
  {
    runs[a].started_at_ms > runs[b].started_at_ms || (runs[a].started_at_ms == runs[b].started_at_ms && a < b)
  }

  lemma {:induction false} RowsAre(runs: seq<RunRecord>)
    ensures |RecentRuns(runs)| == |runs|
    ensures forall i :: 0 <= i < |runs| ==> ShownAs(RecentRuns(runs)[i], runs[i])
  {
    if runs != [] {
      RowsAre(runs[1..]);
    }
  }

  lemma SortedNewest(shown: seq<RunRecord>) returns (from: seq<nat>)
    ensures TakenFrom(SortBy(shown, NewestFirst), shown, from)
    ensures forall i, j :: 0 <= i < j < |from| ==> Newer(shown, from[i], from[j])
  {
    from := SortIsStable(shown, NewestFirst);
    SortBySorted(shown, NewestFirst);
    var sorted := SortBy(shown, NewestFirst);
    forall i, j | 0 <= i < j < |from| ensures Newer(shown, from[i], from[j]) {
      assert NewestFirst(sorted[i], sorted[j]);
    }
  }

  /** `from` lists the places of the window's records, the newest first. */
  ghost predicate NewestOrder(runs: seq<RunRecord>, start: int, from: seq<nat>) {
    && (forall i :: 0 <= i < |from| ==> from[i] < |runs| && runs[from[i]].started_at_ms >= start)
    && (forall i, j :: 0 <= i < j < |from| ==> Newer(runs, from[i], from[j]))
    && (forall k: nat :: k < |runs| && runs[k].started_at_ms >= start ==> k in from)
  }

  function Composed(places: seq<nat>, order: seq<nat>): (from: seq<nat>)
    requires forall i :: 0 <= i < |order| ==> order[i] < |places|
    ensures |from| == |order| && forall i :: 0 <= i < |order| ==> from[i] == places[order[i]]
  {
    seq(|order|, i requires 0 <= i < |order| => places[order[i]])
  }

  lemma NewerAt(runs: seq<RunRecord>, shown: seq<RunRecord>, places: seq<nat>, a: nat, b: nat)
    requires ShownAt(runs, shown, places) && a < |shown| && b < |shown| && Newer(shown, a, b)
    ensures Newer(runs, places[a], places[b])
  {
  }

  lemma NewestComposed(runs: seq<RunRecord>, start: int, shown: seq<RunRecord>, places: seq<nat>, order: seq<nat>)
    requires ShownAt(runs, shown, places) && forall i :: 0 <= i < |order| ==> order[i] < |shown|
    requires forall i, j :: 0 <= i < j < |order| ==> Newer(shown, order[i], order[j])
    requires forall k: nat :: k < |shown| ==> k in order
    requires forall i :: 0 <= i < |places| ==> runs[places[i]].started_at_ms >= start
    requires forall k: nat :: k < |runs| && runs[k].started_at_ms >= start ==> k in places
    ensures NewestOrder(runs, start, Composed(places, order))
  {
    var from := Composed(places, order);
    forall i, j | 0 <= i < j < |from| ensures Newer(runs, from[i], from[j]) {
      NewerAt(runs, shown, places, order[i], order[j]);
    }
    forall k: nat | k < |runs| && runs[k].started_at_ms >= start ensures k in from {
      ComposedHas(places, order, k);
    }
  }

  lemma ComposedHas(places: seq<nat>, order: seq<nat>, k: nat)
    requires forall i :: 0 <= i < |order| ==> order[i] < |places|
    requires k in places && forall p: nat :: p < |places| ==> p in order
    ensures k in Composed(places, order)
  {
    var p: nat :| p < |places| && places[p] == k;
    assert p in order;
    var i :| 0 <= i < |order| && order[i] == p;
    assert Composed(places, order)[i] == k;
  }

  /** The feed of the window that begins at `start`. */
  lemma FeedIs(runs: seq<RunRecord>, start: int) returns (from: seq<nat>)
    ensures var rows := RecentRuns(TakeRecent(SortBy(Since(runs, start), NewestFirst)));
            && NewestOrder(runs, start, from) && |from| == |Since(runs, start)|
            && |rows| == (if |from| < 12 then |from| else 12)
            && forall i :: 0 <= i < |rows| ==> ShownAs(rows[i], runs[from[i]])
  {
    var shown := Since(runs, start);
    var places := SelectedFrom(runs, (r: RunRecord) => r.started_at_ms >= start);
    var order := SortedNewest(shown);
    from := Composed(places, order);
    NewestComposed(runs, start, shown, places, order);
    var sorted := SortBy(shown, NewestFirst);
    assert forall i :: 0 <= i < |sorted| ==> sorted[i] == runs[from[i]];
    RowsAre(TakeRecent(sorted));
  }

  /** The feed shows the twelve newest records of the window, or all of them, one row each. */
  lemma RecentMeans(runs: seq<RunRecord>, range: string, now: int) returns (from: seq<nat>)
    ensures var s := Summary(runs, range, now);
            && NewestOrder(runs, s.window_start_ms, from) && |from| == s.total_runs
            && |s.recent| == (if |from| < 12 then |from| else 12)
            && forall i :: 0 <= i < |s.recent| ==> ShownAs(s.recent[i], runs[from[i]])
  {
    from := FeedIs(runs, Summary(runs, range, now).window_start_ms);
  }

  predicate StartedWithin(r: RunRecord, b: StatsBucket, now: int) {
    b.start_ms <= r.started_at_ms && (r.started_at_ms < b.end_ms || r.started_at_ms == b.end_ms == now)
  }

  /** A bucket counts the runs of the ledger that started in it; the last one includes the present moment. */
  lemma BucketMeans(runs: seq<RunRecord>, start: int, now: int, i: nat)
    requires start < now && i < STATS_BUCKETS
    ensures var b := Buckets(Since(runs, start), start, now)[i];
            b.runs == |Where(runs, (r: RunRecord) => StartedWithin(r, b, now))|
  {
    BucketAt(Since(runs, start), start, now, i);
    var b := Buckets(Since(runs, start), start, now)[i];
    forall r: RunRecord ensures StartedWithin(r, b, now) <==>
                                r.started_at_ms >= start && InBucket(start, now, i, r.started_at_ms)
    {
      BoundariesRise(start, now, i);
    }
    SelectedCount(runs, (r: RunRecord) => r.started_at_ms >= start,
                  (r: RunRecord) => InBucket(start, now, i, r.started_at_ms),
                  (r: RunRecord) => StartedWithin(r, b, now));
  }

  lemma {:induction false} BoundariesRise(start: int, now: int, i: nat)
    requires start < now && i < 12
    ensures start <= Boundary(start, now, i) <= Boundary(start, now, i + 1) <= now
    ensures Boundary(start, now, i + 1) == now <==> i == 11
  {
    Widths(start, now, i);
    if i > 0 {
      BoundariesRise(start, now, i - 1);
    }
  }

  predicate Lasted(r: RunRecord) { r.finished_at_ms.Some? && r.finished_at_ms.value - r.started_at_ms >= 0 }

  /** The time between start and finish, over the records with a property that did not finish before they started. */
  function Spent(runs: seq<RunRecord>, p: RunRecord -> bool): int {
    if runs == [] then 0
    else
      var last := runs[|runs| - 1];
      Spent(runs[..|runs| - 1], p) +
      (if p(last) && Lasted(last) then last.finished_at_ms.value - last.started_at_ms else 0)
  }

  lemma {:induction false} SelectedDurations(runs: seq<RunRecord>, p: RunRecord -> bool)
    ensures DurationSum(Select(runs, p)) == Spent(runs, p)
  {
    if runs != [] {
      var front, last := runs[..|runs| - 1], runs[|runs| - 1];
      SelectedDurations(front, p);
      if p(last) {
        assert Select(runs, p)[..|Select(runs, p)| - 1] == Select(front, p);
      } else {
        assert Select(runs, p) == Select(front, p);
      }
    }
  }

  ghost predicate IsMean(avg: Option<real>, sum: int, n: nat) {
    if n == 0 then avg == None else avg.Some? && avg.value * n as real == sum as real
  }

  lemma QuotientIsMean(sum: int, n: nat)
    ensures IsMean(if n > 0 then Some(sum as real / n as real) else None, sum, n)
  {
  }

  /** The mean time of those records, if there are any. */
  ghost predicate MeanOf(avg: Option<real>, runs: seq<RunRecord>, p: RunRecord -> bool) {
    IsMean(avg, Spent(runs, p), |Where(runs, (r: RunRecord) => p(r) && Lasted(r))|)
  }

  lemma AverageIsMean(runs: seq<RunRecord>, p: RunRecord -> bool)
    ensures MeanOf(Average(Select(runs, p)), runs, p)
  {
    SelectedDurations(runs, p);
    SelectedCount(runs, p, Timed, (r: RunRecord) => p(r) && Lasted(r));
    QuotientIsMean(DurationSum(Select(runs, p)), Count(Select(runs, p), Timed));
  }

  /** The mean duration of the window. */
  lemma AverageMeans(runs: seq<RunRecord>, range: string, now: int)
    ensures var s := Summary(runs, range, now);
            var start := s.window_start_ms;
            MeanOf(s.avg_duration_ms, runs, (r: RunRecord) => r.started_at_ms >= start)
  {
    var start := Summary(runs, range, now).window_start_ms;
    AverageIsMean(runs, (r: RunRecord) => r.started_at_ms >= start);
  }

  /** The mean duration of the window before. */
  lemma PreviousAverageMeans(window: StatsWindow, runs: seq<RunRecord>, now: int)
    requires window.Last?
    ensures var previous := PreviousWindow(window, runs, now);
            var lo, hi := now - 2 * window.ms, now - window.ms;
            previous.Some? && MeanOf(previous.value.avg, runs, (r: RunRecord) => lo <= r.started_at_ms < hi)
  {
    var lo, hi := now - 2 * window.ms, now - window.ms;
    AverageIsMean(runs, (r: RunRecord) => lo <= r.started_at_ms < hi);
  }

  lemma SelectedElements(runs: seq<RunRecord>, p: RunRecord -> bool, r: RunRecord)
    ensures r in Select(runs, p) <==> r in runs && p(r)
  {
    if runs != [] {
      var front, last := runs[..|runs| - 1], runs[|runs| - 1];
      SelectedElements(front, p, r);
      assert runs == front + [last];
    }
  }

  ghost predicate IsRate(rate: Option<real>, total: nat, window_ms: int) {
    if window_ms <= 0 then rate == None else rate.Some? && rate.value * window_ms as real == total as real * 3_600_000.0
  }

  lemma RateIs(total: nat, window_ms: int)
    ensures IsRate(RunsPerHour(total, window_ms), total, window_ms)
  {
  }

  /** The runs per hour of the window. */
  lemma RateMeans(s: StatsSummary, range: string, now: int, start: int, shown: seq<RunRecord>,
                  previous: Option<Previous>)
    requires s == SummaryOf(range, now, start, shown, previous)
    ensures IsRate(s.runs_per_hour, s.total_runs, now - start)
  {
    RateIs(|shown|, now - start);
  }

  ghost function ActiveIds(runs: seq<RunRecord>, start: int): set<string> {
    set k | 0 <= k < |runs| && runs[k].started_at_ms >= start && runs[k].session_id != "" :: runs[k].session_id
  }

  /** The sessions that started a run in the window, without the nameless one. */
  lemma SessionsMean(runs: seq<RunRecord>, range: string, now: int)
    ensures var s := Summary(runs, range, now); s.active_sessions == |ActiveIds(runs, s.window_start_ms)|
  {
    WindowSessions(runs, Summary(runs, range, now).window_start_ms);
  }

  lemma WindowSessions(runs: seq<RunRecord>, start: int)
    ensures Sessions(Since(runs, start)) == ActiveIds(runs, start)
  {
    forall id ensures id in Sessions(Since(runs, start)) <==> id in ActiveIds(runs, start) {
      if id in Sessions(Since(runs, start)) {
        var r :| r in Since(runs, start) && r.session_id != "" && r.session_id == id;
        SelectedElements(runs, (x: RunRecord) => x.started_at_ms >= start, r);
        var k :| 0 <= k < |runs| && runs[k] == r;
        assert runs[k].session_id in ActiveIds(runs, start);
      }
      if id in ActiveIds(runs, start) {
        var k :| 0 <= k < |runs| && runs[k].started_at_ms >= start && runs[k].session_id != "" &&
                 runs[k].session_id == id;
        SelectedElements(runs, (x: RunRecord) => x.started_at_ms >= start, runs[k]);
      }
    }
  }

  // ----- The snapshot floor.

  function SnapshotFloor(window: StatsWindow, now: int): int {
    match window
    case Last(w) => now - 2 * w
    case All => I64_MIN
  }

  /** Filtering below a bound that the selection already enforces changes nothing. */
  lemma {:induction false} SelectTwice(runs: seq<RunRecord>, p: RunRecord -> bool, q: RunRecord -> bool)
    requires forall r :: q(r) ==> p(r)
    ensures Select(Select(runs, p), q) == Select(runs, q)
  {
    if runs != [] {
      var front, last := runs[..|runs| - 1], runs[|runs| - 1];
      SelectTwice(front, p, q);
      if p(last) {
        assert Select(runs, p)[..|Select(runs, p)| - 1] == Select(front, p);
      } else {
        assert Select(runs, p) == Select(front, p);
      }
    }
  }

  lemma {:induction false} SelectAll(runs: seq<RunRecord>, p: RunRecord -> bool)
    requires forall r :: r in runs ==> p(r)
    ensures Select(runs, p) == runs
  {
    if runs != [] {
      SelectAll(runs[..|runs| - 1], p);
      assert runs[|runs| - 1] in runs;
    }
  }

  lemma WindowPositive(range: string)
    ensures ParseStatsRange(range).Last? ==> ParseStatsRange(range).ms > 0
  {
  }

  lemma SnapshotSelects(runs: seq<RunRecord>, window: StatsWindow, now: int, floor: int)
    requires window.Last? ==> window.ms > 0 && floor == now - 2 * window.ms
    requires window.All? ==> forall r :: r in runs ==> r.started_at_ms >= floor
    ensures var kept := Since(runs, floor);
            var start := WindowStart(window, runs, now);
            WindowStart(window, kept, now) == start && Since(kept, start) == Since(runs, start) &&
            PreviousWindow(window, kept, now) == PreviousWindow(window, runs, now)
  {
    var above := (r: RunRecord) => r.started_at_ms >= floor;
    match window {
      case All =>
        SelectAll(runs, above);
      case Last(w) =>
        SelectTwice(runs, above, (r: RunRecord) => r.started_at_ms >= now - w);
        SelectTwice(runs, above, (r: RunRecord) => now - 2 * w <= r.started_at_ms < now - w);
    }
  }

  /** The records the snapshot leaves out are not needed by any number of the summary. */
  lemma SnapshotSuffices(runs: seq<RunRecord>, range: string, now: int)
    requires forall r :: r in runs ==> r.started_at_ms >= I64_MIN
    ensures Summary(Since(runs, SnapshotFloor(ParseStatsRange(range), now)), range, now) == Summary(runs, range, now)
  {
    WindowPositive(range);
    SnapshotSelects(runs, ParseStatsRange(range), now, SnapshotFloor(ParseStatsRange(range), now));
  }

  // ----- The code.

  datatype Tally = Tally(ok: nat, failed: nat, aborted: nat, in_flight: nat, duration_sum: int, duration_n: nat,
                         sessions: set<string>)

  /** The counting loop over the window. */
  method TallyRuns(runs: seq<RunRecord>) returns (t: Tally)
    ensures t.ok == Count(runs, Succeeded) && t.failed == Count(runs, Failed)
    ensures t.aborted == Count(runs, Aborted) && t.in_flight == Count(runs, InFlight)
    ensures t.duration_sum == DurationSum(runs) && t.duration_n == Count(runs, Timed)
    ensures t.sessions == Sessions(runs)
  {
    t := Tally(0, 0, 0, 0, 0, 0, {});
    for i := 0 to |runs|
      invariant t.ok == Count(runs[..i], Succeeded) && t.failed == Count(runs[..i], Failed)
      invariant t.aborted == Count(runs[..i], Aborted) && t.in_flight == Count(runs[..i], InFlight)
      invariant t.duration_sum == DurationSum(runs[..i]) && t.duration_n == Count(runs[..i], Timed)
      invariant t.sessions == Sessions(runs[..i])
    {
      var run := runs[i];
      assert runs[..i + 1][..i] == runs[..i];
      if run.finished_at_ms.None? {
        t := t.(in_flight := t.in_flight + 1);
      } else {
        var fin := run.finished_at_ms.value;
        if run.status == Some("ok") {
          t := t.(ok := t.ok + 1);
        } else if run.status == Some("aborted") || run.status == Some("paused") {
          t := t.(aborted := t.aborted + 1);
        } else {
          t := t.(failed := t.failed + 1);
        }
        if fin >= run.started_at_ms {
          t := t.(duration_sum := t.duration_sum + (fin - run.started_at_ms), duration_n := t.duration_n + 1);
        }
      }
      if run.session_id != "" {
        t := t.(sessions := t.sessions + {run.session_id});
      }
      SessionsNext(runs, i);
    }
    assert runs[..|runs|] == runs;
  }

  lemma SessionsNext(runs: seq<RunRecord>, i: nat)
    requires i < |runs|
    ensures Sessions(runs[..i + 1]) ==
            Sessions(runs[..i]) + (if runs[i].session_id != "" then {runs[i].session_id} else {})
  {
  }

  method BucketRuns(runs: seq<RunRecord>, start: int, now: int) returns (out: seq<StatsBucket>)
    ensures out == Buckets(runs, start, now)
  {
    var span := now - start;
    if span <= 0 {
      return [];
    }
    out := [];
    for i := 0 to STATS_BUCKETS
      invariant out == FirstBuckets(runs, start, now, i)
    {
      out := out + [Bucket(runs, start, now, i)];
    }
  }

  /** `aggregate_stats`. */
  method AggregateStats(runs: seq<RunRecord>, range: string, now: int) returns (s: StatsSummary)
    ensures s == Summary(runs, range, now)
  {
    var window := ParseStatsRange(range);
    var start := WindowStart(window, runs, now);
    var shown := Since(runs, start);
    var t := TallyRuns(shown);
    var window_ms := if now - start > 0 then now - start else 0;
    var buckets := BucketRuns(shown, start, now);
    var previous := PreviousWindow(window, runs, now);
    var avg := if t.duration_n > 0 then Some(t.duration_sum as real / t.duration_n as real) else None;
    assert avg == Average(shown);
    s := StatsSummary(range, now, start, |shown|, t.ok, t.failed, t.aborted, t.in_flight, avg,
      |t.sessions|, RunsPerHour(|shown|, window_ms), buckets, RecentRuns(TakeRecent(SortBy(shown, NewestFirst))),
      previous);
    SummaryFields(s, range, now, start, shown, previous);
  }

  lemma SummaryFields(s: StatsSummary, range: string, now: int, start: int, shown: seq<RunRecord>,
                      previous: Option<Previous>)
    requires s == StatsSummary(range, now, start, |shown|, Count(shown, Succeeded), Count(shown, Failed),
                    Count(shown, Aborted), Count(shown, InFlight), Average(shown), |Sessions(shown)|,
                    RunsPerHour(|shown|, if now - start > 0 then now - start else 0),
                    Buckets(shown, start, now), RecentRuns(TakeRecent(SortBy(shown, NewestFirst))), previous)
    ensures s == SummaryOf(range, now, start, shown, previous)
  {
  }
}
