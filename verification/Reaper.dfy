/**
 The session reaper: on every tick it visits the live sessions in an arbitrary order and
 unloads the ones that have been idle, with no live descendant, for the grace period.
 */
module Reaper {
  import opened Wrappers
  import opened Lineage
  import opened Attach

  const UNLOAD_GRACE: int := 180_000

  /** Everything a tick reads, plus its own bookkeeping. */
  datatype Daemon = Daemon(
    orbit: bool, live: set<string>, open_runs: set<string>, active: set<string>, links: Links, store: Store,
    eligible_since: map<string, int>, now: int)

  ghost predicate HasLiveDescendant(d: Daemon, sid: string) {
    exists c :: c in d.live && c != sid && HasAncestor(d.store, c, sid)
  }

  ghost predicate Eligible(d: Daemon, sid: string) {
    !Attached(d.links.counts, sid) && sid !in d.open_runs && sid !in d.active && !HasLiveDescendant(d, sid)
  }

  function FirstSeen(d: Daemon, sid: string): int {
    if sid in d.eligible_since then d.eligible_since[sid] else d.now
  }

  /** One iteration of the tick loop. */
  ghost function Visit(d: Daemon, sid: string): Daemon {
    if !Eligible(d, sid) then d.(eligible_since := d.eligible_since - {sid})
    else if d.now - FirstSeen(d, sid) >= UNLOAD_GRACE then
      d.(live := d.live - {sid}, eligible_since := d.eligible_since - {sid})
    else d.(eligible_since := d.eligible_since[sid := FirstSeen(d, sid)])
  }

  ghost function VisitAll(d: Daemon, order: seq<string>): Daemon {
    if order == [] then d else Visit(VisitAll(d, order[..|order| - 1]), order[|order| - 1])
  }

  /** The final pruning of sessions that left the registry. */
  function Retain(d: Daemon): Daemon {
    d.(eligible_since := map sid | sid in d.eligible_since && sid in d.live :: d.eligible_since[sid])
  }

  ghost function Tick(d: Daemon, order: seq<string>): Daemon {
    Retain(VisitAll(d, order))
  }

  ghost predicate DistinctSeq(s: seq<string>) {
    forall i, j :: 0 <= i < j < |s| ==> s[i] != s[j]
  }

  /** Any enumeration of the live sessions. */
  ghost predicate IsOrder(live: set<string>, order: seq<string>) {
    DistinctSeq(order) && forall s :: s in order <==> s in live
  }

  /** `sid` was visited by the tick and found eligible. */
  ghost predicate Observed(d: Daemon, order: seq<string>, sid: string) {
    exists i :: 0 <= i < |order| && order[i] == sid && Eligible(VisitAll(d, order[..i]), sid)
  }

  /** A visit changes nothing but the bookkeeping and the liveness of the visited sessions. */
  lemma {:induction false} VisitAllFrame(d: Daemon, order: seq<string>)
    ensures var d' := VisitAll(d, order);
            d' == d.(live := d'.live, eligible_since := d'.eligible_since) && d'.live <= d.live
    ensures forall s :: s !in order ==>
              var d' := VisitAll(d, order);
              (s in d'.live <==> s in d.live) &&
              (s in d'.eligible_since <==> s in d.eligible_since) &&
              (s in d.eligible_since ==> d'.eligible_since[s] == d.eligible_since[s])
  {
    if order != [] {
      VisitAllFrame(d, order[..|order| - 1]);
      assert order == order[..|order| - 1] + [order[|order| - 1]];
    }
  }

  /** What a tick does to one session is decided at its visit. */
  lemma {:induction false} VisitDecides(d: Daemon, order: seq<string>, i: nat)
    requires DistinctSeq(order) && i < |order|
    ensures var sid := order[i];
            var at := Visit(VisitAll(d, order[..i]), sid);
            var end := VisitAll(d, order);
            (sid in end.live <==> sid in at.live) &&
            (sid in end.eligible_since <==> sid in at.eligible_since) &&
            (sid in end.eligible_since ==> end.eligible_since[sid] == at.eligible_since[sid])
  {
    var n := |order| - 1;
    if i < n {
      VisitDecides(d, order[..n], i);
      assert order[..n][..i] == order[..i];
    }
  }

  /** The outcome of a tick for one live session, from what was observed and the clock before it. */
  lemma TickOutcome(d: Daemon, order: seq<string>, sid: string)
    requires IsOrder(d.live, order)
    ensures var d' := Tick(d, order);
            var first := FirstSeen(d, sid);
            (sid in d'.live <==> sid in d.live && !(Observed(d, order, sid) && d.now - first >= UNLOAD_GRACE)) &&
            (sid in d'.eligible_since <==> Observed(d, order, sid) && d.now - first < UNLOAD_GRACE) &&
            (sid in d'.eligible_since ==> d'.eligible_since[sid] == first)
    ensures Observed(d, order, sid) ==> sid in d.live
  {
    VisitAllFrame(d, order);
    if sid in d.live {
      var i :| 0 <= i < |order| && order[i] == sid;
      VisitDecides(d, order, i);
      VisitAllFrame(d, order[..i]);
      assert sid !in order[..i];
      assert Observed(d, order, sid) <==> Eligible(VisitAll(d, order[..i]), sid);
    }
  }

  // ----- Runs.

  datatype Event =
    | Connection(e: ConnEvent)
    | Touch(sid: string)
    | RunStarted(sid: string)
    | RunEnded(sid: string)
    | Activated(sid: string)
    | Deactivated(sid: string)
    | LineageChanged(store: Store)
    | Clock(ms: nat)
    | Ticked(order: seq<string>)

  /** A request creates the handle of the session it is routed to. */
  function RoutedSessions(d: Daemon, e: ConnEvent): set<string> {
    if e.Request? && e.c in d.links.conns && Routed(d.orbit, d.links, e.c, e.requested) != ""
    then {Routed(d.orbit, d.links, e.c, e.requested)} else {}
  }

  ghost function Step(d: Daemon, e: Event): Daemon {
    match e
    case Connection(c) => d.(links := StepConn(d.orbit, d.links, c), live := d.live + RoutedSessions(d, c))
    case Touch(sid) => if Target(d.orbit, sid) == "" then d else d.(live := d.live + {sid})
    case RunStarted(sid) => d.(open_runs := d.open_runs + {sid})
    case RunEnded(sid) => d.(open_runs := d.open_runs - {sid})
    case Activated(sid) => d.(active := d.active + {sid})
    case Deactivated(sid) => d.(active := d.active - {sid})
    case LineageChanged(store) => d.(store := store)
    case Clock(ms) => d.(now := d.now + ms)
    case Ticked(order) => Tick(d, order)
  }

  ghost function After(orbit: bool, store: Store, run: seq<Event>): Daemon {
    if run == [] then Daemon(orbit, {}, {}, {}, Links(map[], map[]), store, map[], 0)
    else Step(After(orbit, store, run[..|run| - 1]), run[|run| - 1])
  }

  /** Every tick of the run visits exactly the sessions that are live then. */
  ghost predicate ValidRun(orbit: bool, store: Store, run: seq<Event>) {
    run == [] ||
    var front, last := run[..|run| - 1], run[|run| - 1];
    ValidRun(orbit, store, front) && (last.Ticked? ==> IsOrder(After(orbit, store, front).live, last.order))
  }

  /**
   There was a tick at time `t`, and at it and every tick since `sid` was live, observed eligible and not unloaded.
   A session that was unloaded and created again starts anew.
   */
  ghost predicate EligibleSince(orbit: bool, store: Store, run: seq<Event>, sid: string, t: int) {
    run != [] &&
    var front, last := run[..|run| - 1], run[|run| - 1];
    if !last.Ticked? then EligibleSince(orbit, store, front, sid, t)
    else
      var d := After(orbit, store, front);
      && Observed(d, last.order, sid) && sid in Tick(d, last.order).live
      && (d.now == t || EligibleSince(orbit, store, front, sid, t))
  }

  /** Such a streak began at least the grace period before `now`. */
  ghost predicate LongEligible(orbit: bool, store: Store, run: seq<Event>, sid: string, now: int) {
    exists t :: EligibleSince(orbit, store, run, sid, t) && now - t >= 180_000
  }

  lemma {:induction false} ClocksAreNotAhead(orbit: bool, store: Store, run: seq<Event>, sid: string)
    requires ValidRun(orbit, store, run)
    ensures var d := After(orbit, store, run); sid in d.eligible_since ==> d.eligible_since[sid] <= d.now
  {
    if run != [] {
      var front, last := run[..|run| - 1], run[|run| - 1];
      ClocksAreNotAhead(orbit, store, front, sid);
      if last.Ticked? {
        TickIsNotAhead(After(orbit, store, front), last.order, sid);
      }
    }
  }

  lemma TickIsNotAhead(d: Daemon, order: seq<string>, sid: string)
    requires IsOrder(d.live, order) && (sid in d.eligible_since ==> d.eligible_since[sid] <= d.now)
    ensures var d' := Tick(d, order); sid in d'.eligible_since ==> d'.eligible_since[sid] <= d'.now
  {
    TickOutcome(d, order, sid);
    VisitAllFrame(d, order);
  }

  /** The running clocks are exactly the sessions with such a streak, each set to the longest one. */
  lemma {:induction false} ClocksAreStreaks(orbit: bool, store: Store, run: seq<Event>, sid: string)
    requires ValidRun(orbit, store, run)
    ensures var since := After(orbit, store, run).eligible_since;
            (sid in since ==> EligibleSince(orbit, store, run, sid, since[sid])) &&
            forall t :: EligibleSince(orbit, store, run, sid, t) ==> sid in since && since[sid] <= t
  {
    if run != [] {
      var front, last := run[..|run| - 1], run[|run| - 1];
      ClocksAreStreaks(orbit, store, front, sid);
      if last.Ticked? {
        ClocksAreNotAhead(orbit, store, front, sid);
        TickOutcome(After(orbit, store, front), last.order, sid);
      }
    }
  }

  /**
   A tick unloads a live session exactly when it observes it eligible and some earlier tick, at least the grace period
   ago, began a streak that was never broken since.
   */
  lemma UnloadedExactlyAfterGrace(orbit: bool, store: Store, run: seq<Event>, order: seq<string>, sid: string)
    requires ValidRun(orbit, store, run) && IsOrder(After(orbit, store, run).live, order)
    requires sid in After(orbit, store, run).live
    ensures var d := After(orbit, store, run);
            sid !in Tick(d, order).live <==>
            Observed(d, order, sid) && LongEligible(orbit, store, run, sid, d.now)
  {
    var d := After(orbit, store, run);
    ClocksAreStreaks(orbit, store, run, sid);
    TickOutcome(d, order, sid);
    if sid in d.eligible_since && d.now - d.eligible_since[sid] >= UNLOAD_GRACE {
      assert LongEligible(orbit, store, run, sid, d.now);
    }
  }

  /** No clock runs for two sessions of which one descends from the other. */
  ghost predicate ClocksUnrelated(d: Daemon) {
    forall p, c :: p in d.eligible_since && c in d.eligible_since && p != c ==> !HasAncestor(d.store, c, p)
  }

  /** Every tick, whatever happened before it, leaves clocks of unrelated sessions only. */
  lemma TickUnrelates(d: Daemon, order: seq<string>)
    requires IsOrder(d.live, order)
    ensures ClocksUnrelated(Tick(d, order))
  {
    var d' := Tick(d, order);
    VisitAllFrame(d, order);
    forall p, c | p in d'.eligible_since && c in d'.eligible_since && p != c
      ensures !HasAncestor(d.store, c, p)
    {
      TickOutcome(d, order, p);
      TickOutcome(d, order, c);
      var i :| 0 <= i < |order| && order[i] == p && Eligible(VisitAll(d, order[..i]), p);
      VisitAllFrame(d, order[..i]);
      StillLive(d, order, i, c);
    }
  }

  /** A session live after the tick was live at every visit of it. */
  lemma StillLive(d: Daemon, order: seq<string>, i: nat, c: string)
    requires i <= |order| && c in VisitAll(d, order).live
    ensures c in VisitAll(d, order[..i]).live
  {
    if i < |order| {
      StillLive(d, order[..|order| - 1], i, c);
      assert order[..|order| - 1][..i] == order[..i];
    } else {
      assert order[..i] == order;
    }
  }

  /** The last lineage change since the last tick, if any, left no two sessions with running clocks related. */
  ghost predicate QuietLineage(orbit: bool, store: Store, run: seq<Event>) {
    run == [] ||
    var front, last := run[..|run| - 1], run[|run| - 1];
    last.Ticked? ||
    if last.LineageChanged? then ClocksUnrelated(After(orbit, store, run)) else QuietLineage(orbit, store, front)
  }

  lemma {:induction false} QuietIffUnrelated(orbit: bool, store: Store, run: seq<Event>)
    requires ValidRun(orbit, store, run)
    ensures QuietLineage(orbit, store, run) <==> ClocksUnrelated(After(orbit, store, run))
  {
    if run != [] {
      var front, last := run[..|run| - 1], run[|run| - 1];
      if last.Ticked? {
        TickUnrelates(After(orbit, store, front), last.order);
      } else {
        QuietIffUnrelated(orbit, store, front);
      }
    }
  }

  /** A session without children whose clock is not running, such as a new one, may be given any parent. */
  lemma NewChildIsQuiet(d: Daemon, child: string, parent: Option<string>)
    requires ClocksUnrelated(d) && child !in d.eligible_since
    requires forall x :: x in d.store ==> d.store[x] != Some(child)
    ensures ClocksUnrelated(Step(d, LineageChanged(d.store[child := parent])))
  {
    var store' := d.store[child := parent];
    forall p, c | p in d.eligible_since && c in d.eligible_since && p != c ensures !HasAncestor(store', c, p) {
      forall k: nat | k >= 1 ensures KthParent(store', c, k) != Some(p) {
        ChainAvoids(d.store, child, parent, c, k);
      }
    }
  }

  /**
   As long as no lineage change between two ticks relates sessions whose clocks are running, no session is unloaded
   before, or in the same tick as, one of its live descendants, in whatever order the tick visits them.
   */
  lemma ParentOutlivesChild(orbit: bool, store: Store, run: seq<Event>, order: seq<string>, p: string, c: string)
    requires ValidRun(orbit, store, run) && QuietLineage(orbit, store, run)
    requires IsOrder(After(orbit, store, run).live, order)
    requires var d := After(orbit, store, run); p in d.live && c in d.live && p != c && HasAncestor(d.store, c, p)
    ensures p in Tick(After(orbit, store, run), order).live
  {
    var d := After(orbit, store, run);
    QuietIffUnrelated(orbit, store, run);
    TickOutcome(d, order, p);
    if p !in Tick(d, order).live {
      var i :| 0 <= i < |order| && order[i] == p && Eligible(VisitAll(d, order[..i]), p);
      VisitAllFrame(d, order[..i]);
      assert c !in VisitAll(d, order[..i]).live;
      UnloadedHadClock(d, order[..i], c);
    }
  }

  /** Only a session whose clock was already running can be unloaded by a tick. */
  lemma {:induction false} UnloadedHadClock(d: Daemon, order: seq<string>, c: string)
    requires DistinctSeq(order) && c in d.live && c !in VisitAll(d, order).live
    ensures c in d.eligible_since
  {
    var n := |order| - 1;
    if c in VisitAll(d, order[..n]).live {
      VisitAllFrame(d, order[..n]);
    } else {
      UnloadedHadClock(d, order[..n], c);
    }
  }

  lemma AfterNext(orbit: bool, store: Store, run: seq<Event>, e: Event)
    ensures After(orbit, store, run + [e]) == Step(After(orbit, store, run), e)
    ensures ValidRun(orbit, store, run + [e]) <==>
            ValidRun(orbit, store, run) && (e.Ticked? ==> IsOrder(After(orbit, store, run).live, e.order))
  {
  }

  // ----- Open connections.

  function ConnEvents(run: seq<Event>): seq<ConnEvent> {
    if run == [] then []
    else
      var last := run[|run| - 1];
      ConnEvents(run[..|run| - 1]) + (if last.Connection? then [last.e] else [])
  }

  lemma LinksAfterStep(d: Daemon, e: Event)
    ensures Step(d, e).links == (if e.Connection? then StepConn(d.orbit, d.links, e.e) else d.links)
    ensures Step(d, e).orbit == d.orbit
  {
    if e.Ticked? {
      VisitAllFrame(d, e.order);
    }
  }

  lemma {:induction false} LinksFollowConnections(orbit: bool, store: Store, run: seq<Event>)
    ensures After(orbit, store, run).links == RunConns(orbit, ConnEvents(run))
    ensures After(orbit, store, run).orbit == orbit
  {
    if run != [] {
      var front, last := run[..|run| - 1], run[|run| - 1];
      LinksFollowConnections(orbit, store, front);
      LinksAfterStep(After(orbit, store, front), last);
      if last.Connection? {
        RunNext(orbit, ConnEvents(front), last.e);
      } else {
        assert ConnEvents(run) == ConnEvents(front);
      }
    }
  }

  lemma AttachedSurvives(d: Daemon, order: seq<string>, sid: string)
    requires IsOrder(d.live, order) && sid in d.live && Attached(d.links.counts, sid)
    ensures sid in Tick(d, order).live
  {
    TickOutcome(d, order, sid);
    if Observed(d, order, sid) {
      var i :| 0 <= i < |order| && order[i] == sid && Eligible(VisitAll(d, order[..i]), sid);
      VisitAllFrame(d, order[..i]);
    }
  }

  /** No session a still-open connection lists is ever unloaded. */
  lemma TargetedStaysLoaded(orbit: bool, store: Store, run: seq<Event>, order: seq<string>, c: ConnId, sid: string)
    requires ValidRun(orbit, store, run) && IsOrder(After(orbit, store, run).live, order)
    requires var d := After(orbit, store, run);
             sid in d.live && c in d.links.conns && sid in d.links.conns[c].attached
    ensures sid in Tick(After(orbit, store, run), order).live
  {
    LinksFollowConnections(orbit, store, run);
    ListedIsAttached(orbit, ConnEvents(run), c, sid);
    AttachedSurvives(After(orbit, store, run), order, sid);
  }

  lemma {:induction false} ConnEventsJoin(run: seq<Event>, more: seq<Event>)
    ensures ConnEvents(run + more) == ConnEvents(run) + ConnEvents(more)
  {
    if more == [] {
      assert run + more == run;
    } else {
      ConnEventsJoin(run, more[..|more| - 1]);
      assert (run + more)[..|run + more| - 1] == run + more[..|more| - 1];
    }
  }

  lemma RepeatedSurvives(orbit: bool, store: Store, run: seq<Event>, more: seq<Event>, order: seq<string>, sid: string)
    requires ValidRun(orbit, store, run + more) && IsOrder(After(orbit, store, run + more).live, order)
    requires Repeats(orbit, ConnEvents(run), sid) > 0 && sid in After(orbit, store, run + more).live
    ensures sid in Tick(After(orbit, store, run + more), order).live
  {
    LinksFollowConnections(orbit, store, run + more);
    ConnEventsJoin(run, more);
    RepeatedNeverReleased(orbit, ConnEvents(run), ConnEvents(more), sid);
    AttachedSurvives(After(orbit, store, run + more), order, sid);
  }

  /** A live session that a request has repeated is never unloaded again, even with no connection left. */
  lemma {:induction false} RepeatedStaysLoaded(orbit: bool, store: Store, run: seq<Event>, more: seq<Event>,
                                               sid: string)
    requires ValidRun(orbit, store, run + more)
    requires Repeats(orbit, ConnEvents(run), sid) > 0 && sid in After(orbit, store, run).live
    ensures sid in After(orbit, store, run + more).live
  {
    if more == [] {
      assert run + more == run;
    } else {
      var front, last := more[..|more| - 1], more[|more| - 1];
      assert run + more == run + front + [last];
      AfterNext(orbit, store, run + front, last);
      RepeatedStaysLoaded(orbit, store, run, front, sid);
      if last.Ticked? {
        RepeatedSurvives(orbit, store, run, front, last.order, sid);
      }
    }
  }

  // ----- A lineage change between two ticks does break the order.

  /**
   Two unrelated idle sessions whose clocks have both run out, then a lineage edge from `c` to `p`: the next
   tick, visiting `c` first, unloads the child and its parent together.
   */
  lemma LineageChangeBreaksOrder()
    ensures var r3 := [Touch("p"), Touch("c"), Ticked(["p", "c"])];
            var r5 := r3 + [Clock(180_000)] + [LineageChanged(map["c" := Some("p")])];
            var d := After(true, map[], r5);
            ValidRun(true, map[], r5) && IsOrder(d.live, ["c", "p"]) &&
            "p" in d.live && "c" in d.live && HasAncestor(d.store, "c", "p") &&
            "p" !in Tick(d, ["c", "p"]).live && "c" !in Tick(d, ["c", "p"]).live
  {
    var lineage: Store := map["c" := Some("p")];
    var r3 := [Touch("p"), Touch("c"), Ticked(["p", "c"])];
    var r4 := r3 + [Clock(180_000)];
    ClocksStarted();
    AfterNext(true, map[], r3, Clock(180_000));
    AfterNext(true, map[], r4, LineageChanged(lineage));
    var d := After(true, map[], r4 + [LineageChanged(lineage)]);
    assert d == Daemon(true, {"p", "c"}, {}, {}, Links(map[], map[]), lineage, map["p" := 0, "c" := 0], 180_000);
    assert KthParent(lineage, "c", 0) == Some("c");
    assert KthParent(lineage, "c", 1) == Some("p");
    UnloadsBoth(d);
  }

  lemma ClocksStarted()
    ensures var r3 := [Touch("p"), Touch("c"), Ticked(["p", "c"])];
            ValidRun(true, map[], r3) &&
            After(true, map[], r3) ==
            Daemon(true, {"p", "c"}, {}, {}, Links(map[], map[]), map[], map["p" := 0, "c" := 0], 0)
  {
    var r0: seq<Event> := [];
    AfterNext(true, map[], r0, Touch("p"));
    AfterNext(true, map[], r0 + [Touch("p")], Touch("c"));
    var r2 := r0 + [Touch("p")] + [Touch("c")];
    AfterNext(true, map[], r2, Ticked(["p", "c"]));
    var d2 := Daemon(true, {"p", "c"}, {}, {}, Links(map[], map[]), map[], map[], 0);
    assert After(true, map[], r2) == d2;
    FirstTickStartsClocks(d2);
    assert r2 + [Ticked(["p", "c"])] == [Touch("p"), Touch("c"), Ticked(["p", "c"])];
  }

  lemma FirstTickStartsClocks(d: Daemon)
    requires d == Daemon(true, {"p", "c"}, {}, {}, Links(map[], map[]), map[], map[], 0)
    ensures Tick(d, ["p", "c"]) == d.(eligible_since := map["p" := 0, "c" := 0])
    ensures IsOrder(d.live, ["p", "c"])
  {
    var order := ["p", "c"];
    assert order[..1] == ["p"] && ["p"][..0] == [];
    assert VisitAll(d, ["p"]) == Visit(VisitAll(d, []), "p");
    assert VisitAll(d, order) == Visit(VisitAll(d, ["p"]), "c");
    assert VisitAll(d, ["p"]) == d.(eligible_since := map["p" := 0]);
    assert VisitAll(d, order) == d.(eligible_since := map["p" := 0, "c" := 0]);
  }

  lemma UnloadsBoth(d: Daemon)
    requires d == Daemon(true, {"p", "c"}, {}, {}, Links(map[], map[]), map["c" := Some("p")],
                         map["p" := 0, "c" := 0], 180_000)
    ensures Tick(d, ["c", "p"]).live == {}
    ensures IsOrder(d.live, ["c", "p"])
  {
    var order := ["c", "p"];
    assert order[..1] == ["c"] && ["c"][..0] == [];
    assert KthParent(d.store, "p", 1) == None;
    forall k: nat | k >= 1 ensures KthParent(d.store, "p", k) != Some("c") {
      ChainEnds(d.store, "p", 1, k);
    }
    assert VisitAll(d, ["c"]) == Visit(VisitAll(d, []), "c");
    assert VisitAll(d, order) == Visit(VisitAll(d, ["c"]), "p");
    assert VisitAll(d, ["c"]).live == {"p"};
  }

  // ----- The code.

  /** The per-session worker handles; a handle carries whether its run slot is taken. */
  class SessionRegistry {
    var handles: map<string, bool>
    const orbit: bool

    ghost predicate Valid()
      reads this
    {
      !orbit ==> handles.Keys <= {""}
    }

    function LiveIds(): set<string>
      reads this
    {
      handles.Keys - {""}
    }

    constructor (orbit: bool)
      ensures Valid() && handles == map[] && this.orbit == orbit
    {
      handles := map[];
      this.orbit := orbit;
    }

    method Has(session_id: string) returns (r: bool)
      ensures r <==> Target(orbit, session_id) in handles
    {
      r := Target(orbit, session_id) in handles;
    }

    /** `with_session`: get or create; reports whether a run is active. */
    method WithSession(session_id: string) returns (has_active_run: bool)
      requires Valid()
      modifies this
      ensures Valid()
      ensures var key := Target(orbit, session_id);
              handles == (if key in old(handles) then old(handles) else old(handles)[key := false]) &&
              has_active_run == handles[key]
    {
      var key := Target(orbit, session_id);
      if key !in handles {
        handles := handles[key := false];
      }
      has_active_run := handles[key];
    }

    method Unload(session_id: string) returns (r: bool)
      requires Valid()
      modifies this
      ensures Valid() && handles == old(handles) - {Target(orbit, session_id)}
      ensures r <==> Target(orbit, session_id) in old(handles)
    {
      var key := Target(orbit, session_id);
      r := key in handles;
      handles := handles - {key};
    }
  }

  class SessionReaper {
    const registry: SessionRegistry
    const attach: AttachTracker
    var eligible_since: map<string, int>

    constructor (registry: SessionRegistry, attach: AttachTracker)
      ensures this.registry == registry && this.attach == attach && eligible_since == map[]
    {
      this.registry := registry;
      this.attach := attach;
      eligible_since := map[];
    }

    /** The daemon as this tick sees it. */
    ghost function View(open_runs: set<string>, conns: map<ConnId, Conn>, store: Store, now: int): Daemon
      reads this, registry, attach
    {
      Daemon(registry.orbit, registry.LiveIds(), open_runs,
        (set s | s in registry.handles && s != "" && registry.handles[s]),
        Links(attach.counts, conns), store, eligible_since, now)
    }

    method LiveDescendant(sid: string, store: Store) returns (r: bool)
      ensures r <==> exists c :: c in registry.LiveIds() && c != sid && HasAncestor(store, c, sid)
    {
      r := false;
      var todo := registry.LiveIds() - {sid};
      while todo != {} && !r
        invariant todo <= registry.LiveIds() - {sid}
        invariant r ==> exists c :: c in registry.LiveIds() && c != sid && HasAncestor(store, c, sid)
        invariant !r ==> forall c :: c in registry.LiveIds() - {sid} - todo ==> !HasAncestor(store, c, sid)
        decreases todo
      {
        var c :| c in todo;
        todo := todo - {c};
        r := IsAncestorInStore(store, sid, c);
      }
    }

    /** Clocks run for sessions only, never for the legacy entry. */
    ghost predicate Valid()
      reads this, registry
    {
      registry.Valid() && "" !in eligible_since && (!registry.orbit ==> eligible_since == map[])
    }

    /** One pass over the live sessions, in any order. */
    method RunTick(open_runs: set<string>, store: Store, now: int, ghost conns: map<ConnId, Conn>)
      returns (ghost order: seq<string>)
      requires Valid()
      modifies this, registry
      ensures Valid()
      ensures IsOrder(old(registry.LiveIds()), order)
      ensures View(open_runs, conns, store, now) == Tick(old(View(open_runs, conns, store, now)), order)
    {
      ghost var d := View(open_runs, conns, store, now);
      var live := registry.LiveIds();
      var todo := live;
      order := [];
      while todo != {}
        invariant Valid()
        invariant todo <= registry.LiveIds()
        invariant DistinctSeq(order) && forall s :: s in order <==> s in live - todo
        invariant View(open_runs, conns, store, now) == VisitAll(d, order)
        decreases todo
      {
        var sid :| sid in todo;
        assert sid !in order && (order + [sid])[..|order|] == order;
        todo := todo - {sid};
        order := order + [sid];
        VisitOne(sid, open_runs, store, now, conns);
      }
      eligible_since :=
        map sid | sid in eligible_since && Target(registry.orbit, sid) in registry.handles :: eligible_since[sid];
    }

    method VisitOne(sid: string, open_runs: set<string>, store: Store, now: int, ghost conns: map<ConnId, Conn>)
      requires Valid() && sid in registry.LiveIds()
      modifies this, registry
      ensures Valid() && registry.LiveIds() >= old(registry.LiveIds()) - {sid}
      ensures View(open_runs, conns, store, now) == Visit(old(View(open_runs, conns, store, now)), sid)
    {
      var attached := attach.IsAttached(sid);
      var eligible := !attached && sid !in open_runs;
      if eligible {
        var active := registry.WithSession(sid);
        eligible := !active;
      }
      if eligible {
        var descendant := LiveDescendant(sid, store);
        eligible := !descendant;
      }
      if eligible {
        var first := if sid in eligible_since then eligible_since[sid] else now;
        eligible_since := eligible_since[sid := first];
        if now - first >= UNLOAD_GRACE {
          var gone := registry.Unload(sid);
          eligible_since := eligible_since - {sid};
        }
      } else {
        eligible_since := eligible_since - {sid};
      }
    }
  }
}
