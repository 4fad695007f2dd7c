/**
 Which sessions the open connections keep hot.  A connection attaches once more on every
 request it routes to a session, but its teardown detaches each session once.
 */
module Attach {
  import opened Wrappers

  type ConnId = nat
  type Counts = map<string, nat>

  function CountOf(counts: Counts, s: string): nat {
    if s in counts then counts[s] else 0
  }

  predicate Attached(counts: Counts, s: string) {
    CountOf(counts, s) > 0
  }

  function AttachCount(counts: Counts, s: string): Counts {
    if s == "" then counts else counts[s := CountOf(counts, s) + 1]
  }

  /** Saturating at zero, and an entry at zero is dropped. */
  function DetachCount(counts: Counts, s: string): Counts {
    if s == "" || s !in counts then counts
    else if counts[s] <= 1 then counts - {s}
    else counts[s := counts[s] - 1]
  }

  function DetachAll(counts: Counts, sessions: seq<string>): Counts {
    if sessions == [] then counts
    else DetachCount(DetachAll(counts, sessions[..|sessions| - 1]), sessions[|sessions| - 1])
  }

  class AttachTracker {
    var counts: Counts

    constructor ()
      ensures counts == map[]
    {
      counts := map[];
    }

    method Attach(session_id: string)
      modifies this
      ensures counts == AttachCount(old(counts), session_id)
    {
      if session_id == "" {
        return;
      }
      var count := if session_id in counts then counts[session_id] else 0;
      counts := counts[session_id := count + 1];
    }

    method Detach(session_id: string)
      modifies this
      ensures counts == DetachCount(old(counts), session_id)
    {
      if session_id == "" {
        return;
      }
      if session_id in counts {
        var count := if counts[session_id] == 0 then 0 else counts[session_id] - 1;
        counts := counts[session_id := count];
        if count == 0 {
          counts := counts - {session_id};
        }
      }
    }

    method IsAttached(session_id: string) returns (r: bool)
      ensures r <==> Attached(counts, session_id)
    {
      r := session_id in counts && counts[session_id] > 0;
    }

    /** The teardown loop over a connection's sessions. */
    method Release(attached_sessions: seq<string>)
      modifies this
      ensures counts == DetachAll(old(counts), attached_sessions)
    {
      for i := 0 to |attached_sessions|
        invariant counts == DetachAll(old(counts), attached_sessions[..i])
      {
        assert attached_sessions[..i + 1][..i] == attached_sessions[..i];
        Detach(attached_sessions[i]);
      }
      assert attached_sessions[..|attached_sessions|] == attached_sessions;
    }

    /** The attach part of one request; returns the connection's list of sessions. */
    method Route(target: string, subscribe: Option<string>, attached: seq<string>) returns (attached': seq<string>)
      modifies this
      ensures (counts, attached') ==
              AddSubscription(AddTarget((old(counts), attached), target), subscribe)
    {
      attached' := attached;
      if target != "" {
        Attach(target);
        if target !in attached' {
          attached' := attached' + [target];
        }
      }
      if subscribe.Some? {
        var s := subscribe.value;
        if s != "" && s !in attached' {
          Attach(s);
          attached' := attached' + [s];
        }
      }
    }
  }

  /** A request attaches its target again even when the connection already lists it. */
  function AddTarget(a: (Counts, seq<string>), target: string): (Counts, seq<string>) {
    if target == "" then a
    else (AttachCount(a.0, target), if target in a.1 then a.1 else a.1 + [target])
  }

  /** The optional session of a subscription attaches only when the connection does not list it yet. */
  function AddSubscription(a: (Counts, seq<string>), subscribe: Option<string>): (Counts, seq<string>) {
    if subscribe.None? || subscribe.value == "" || subscribe.value in a.1 then a
    else (AttachCount(a.0, subscribe.value), a.1 + [subscribe.value])
  }

  /** Afterwards the connection lists what it listed, the target and the session of the subscription. */
  lemma RoutedAreListed(a: (Counts, seq<string>), target: string, subscribe: Option<string>, s: string)
    ensures s in AddSubscription(AddTarget(a, target), subscribe).1 <==>
              s in a.1 || (s != "" && (s == target || subscribe == Some(s)))
  {
  }

  // ----- Runs of connection events.

  /** An open connection: the sessions it lists and its most recent explicit target. */
  datatype Conn = Conn(attached: seq<string>, last_session: Option<string>)

  datatype Links = Links(counts: Counts, conns: map<ConnId, Conn>)

  datatype ConnEvent =
    | Open(c: ConnId)
    | Request(c: ConnId, requested: Option<string>, subscribe: Option<string>)
    | Close(c: ConnId)

  /** `registry.target`: a session id in orbit mode, the legacy entry otherwise. */
  function Target(orbit: bool, session_id: string): string {
    if orbit && session_id != "" then session_id else ""
  }

  /** `target_session`: the requested session, else the connection's default, else the legacy entry. */
  function TargetSession(orbit: bool, requested: Option<string>, default: Option<string>): string {
    Target(orbit, if requested.Some? then requested.value else if default.Some? then default.value else "")
  }

  /** `requested_session` never reports an empty id. */
  function Explicit(requested: Option<string>): Option<string> {
    if requested == Some("") then None else requested
  }

  function Routed(orbit: bool, l: Links, c: ConnId, requested: Option<string>): string
    requires c in l.conns
  {
    TargetSession(orbit, Explicit(requested), l.conns[c].last_session)
  }

  function StepConn(orbit: bool, l: Links, e: ConnEvent): Links {
    match e
    case Open(c) => if c in l.conns then l else l.(conns := l.conns[c := Conn([], None)])
    case Request(c, requested, subscribe) =>
      if c !in l.conns then l
      else
        var conn := l.conns[c];
        var a := AddSubscription(AddTarget((l.counts, conn.attached), Routed(orbit, l, c, requested)), subscribe);
        Links(a.0, l.conns[c := Conn(a.1, if Explicit(requested).Some? then requested else conn.last_session)])
    case Close(c) =>
      if c !in l.conns then l
      else Links(DetachAll(l.counts, l.conns[c].attached), l.conns - {c})
  }

  /** The open connections that list `s`. */
  function Listing(conns: map<ConnId, Conn>, s: string): set<ConnId> {
    set c | c in conns && s in conns[c].attached
  }

  /** 1 when the event routes to a session its connection already lists. */
  function Repeat(orbit: bool, l: Links, e: ConnEvent, s: string): nat {
    if e.Request? && e.c in l.conns && s != "" && Routed(orbit, l, e.c, e.requested) == s && s in l.conns[e.c].attached
    then 1 else 0
  }

  ghost predicate Distinct(ss: seq<string>) {
    "" !in ss && forall i, j :: 0 <= i < j < |ss| ==> ss[i] != ss[j]
  }

  ghost predicate WellFormed(l: Links) {
    forall c :: c in l.conns ==> Distinct(l.conns[c].attached)
  }

  lemma {:induction false} DetachAllCounts(counts: Counts, ss: seq<string>, s: string)
    requires Distinct(ss) && forall x :: x in ss ==> CountOf(counts, x) > 0
    ensures CountOf(DetachAll(counts, ss), s) == CountOf(counts, s) - (if s in ss then 1 else 0)
  {
    if ss != [] {
      var front, last := ss[..|ss| - 1], ss[|ss| - 1];
      assert ss == front + [last] && last !in front;
      DetachAllCounts(counts, front, s);
      DetachAllCounts(counts, front, last);
    }
  }

  lemma ListingWithout(conns: map<ConnId, Conn>, c: ConnId, s: string)
    requires c in conns
    ensures |Listing(conns, s)| == |Listing(conns - {c}, s)| + (if s in conns[c].attached then 1 else 0)
  {
    var rest := Listing(conns - {c}, s);
    assert Listing(conns, s) == if s in conns[c].attached then rest + {c} else rest;
  }

  lemma ListingAfterUpdate(conns: map<ConnId, Conn>, c: ConnId, conn: Conn, s: string)
    ensures |Listing(conns[c := conn], s)| == |Listing(conns - {c}, s)| + (if s in conn.attached then 1 else 0)
  {
    ListingWithout(conns[c := conn], c, s);
    assert conns[c := conn] - {c} == conns - {c};
  }

  function Once(ss: seq<string>, s: string): nat { if s in ss then 1 else 0 }

  lemma AddSubscriptionSurplus(a: (Counts, seq<string>), subscribe: Option<string>, s: string)
    requires Distinct(a.1)
    ensures var a' := AddSubscription(a, subscribe);
            Distinct(a'.1) && CountOf(a'.0, s) - Once(a'.1, s) == CountOf(a.0, s) - Once(a.1, s)
  {
  }

  lemma RequestSurplus(orbit: bool, l: Links, e: ConnEvent, s: string)
    requires e.Request? && e.c in l.conns && WellFormed(l)
    ensures var l' := StepConn(orbit, l, e);
            WellFormed(l') &&
            CountOf(l'.counts, s) - |Listing(l'.conns, s)| ==
            CountOf(l.counts, s) - |Listing(l.conns, s)| + Repeat(orbit, l, e, s)
  {
    var a := (l.counts, l.conns[e.c].attached);
    var target := Routed(orbit, l, e.c, e.requested);
    AddSubscriptionSurplus(AddTarget(a, target), e.subscribe, s);
    ListingWithout(l.conns, e.c, s);
    ListingAfterUpdate(l.conns, e.c, StepConn(orbit, l, e).conns[e.c], s);
  }

  lemma CloseSurplus(orbit: bool, l: Links, c: ConnId, s: string)
    requires c in l.conns && WellFormed(l) && forall x :: CountOf(l.counts, x) >= |Listing(l.conns, x)|
    ensures var l' := StepConn(orbit, l, Close(c));
            WellFormed(l') &&
            CountOf(l'.counts, s) - |Listing(l'.conns, s)| == CountOf(l.counts, s) - |Listing(l.conns, s)|
  {
    var ss := l.conns[c].attached;
    forall x | x in ss ensures CountOf(l.counts, x) > 0 {
      assert c in Listing(l.conns, x);
    }
    DetachAllCounts(l.counts, ss, s);
    ListingWithout(l.conns, c, s);
  }

  /** One event changes the surplus of a count over the listing connections by exactly its repeats. */
  lemma StepSurplus(orbit: bool, l: Links, e: ConnEvent, s: string)
    requires WellFormed(l) && forall x :: CountOf(l.counts, x) >= |Listing(l.conns, x)|
    ensures var l' := StepConn(orbit, l, e);
            CountOf(l'.counts, s) - |Listing(l'.conns, s)| ==
            CountOf(l.counts, s) - |Listing(l.conns, s)| + Repeat(orbit, l, e, s)
    ensures WellFormed(StepConn(orbit, l, e))
  {
    match e
    case Open(c) =>
      if c !in l.conns {
        ListingAfterUpdate(l.conns, c, Conn([], None), s);
        assert l.conns - {c} == l.conns;
      }
    case Request(c, _, _) =>
      if c in l.conns {
        RequestSurplus(orbit, l, e, s);
      }
    case Close(c) =>
      if c in l.conns {
        CloseSurplus(orbit, l, c, s);
      }
  }

  function RunConns(orbit: bool, events: seq<ConnEvent>): Links {
    if events == [] then Links(map[], map[])
    else StepConn(orbit, RunConns(orbit, events[..|events| - 1]), events[|events| - 1])
  }

  function Repeats(orbit: bool, events: seq<ConnEvent>, s: string): nat {
    if events == [] then 0
    else
      var front := events[..|events| - 1];
      Repeats(orbit, front, s) + Repeat(orbit, RunConns(orbit, front), events[|events| - 1], s)
  }

  /**
   After every run the count of a session is the number of open connections listing it plus the requests
   that were routed to a session their connection already listed.
   */
  lemma {:induction false} CountIsListingPlusRepeats(orbit: bool, events: seq<ConnEvent>, s: string)
    ensures WellFormed(RunConns(orbit, events))
    ensures CountOf(RunConns(orbit, events).counts, s) ==
            |Listing(RunConns(orbit, events).conns, s)| + Repeats(orbit, events, s)
  {
    if events == [] {
      assert Listing(map[], s) == {};
    } else {
      var front := events[..|events| - 1];
      var l := RunConns(orbit, front);
      forall x ensures CountOf(l.counts, x) >= |Listing(l.conns, x)| && WellFormed(l) {
        CountIsListingPlusRepeats(orbit, front, x);
      }
      CountIsListingPlusRepeats(orbit, front, s);
      StepSurplus(orbit, l, events[|events| - 1], s);
    }
  }

  /** A session listed by an open connection is attached, so no teardown ever detaches below zero. */
  lemma ListedIsAttached(orbit: bool, events: seq<ConnEvent>, c: ConnId, s: string)
    requires var l := RunConns(orbit, events); c in l.conns && s in l.conns[c].attached
    ensures Attached(RunConns(orbit, events).counts, s)
  {
    CountIsListingPlusRepeats(orbit, events, s);
    assert c in Listing(RunConns(orbit, events).conns, s);
  }

  /**
   The last teardown does release a session exactly when no connection ever repeated it: once no open
   connection lists the session, it is still attached if and only if some request repeated it.
   */
  lemma ReleasedUnlessRepeated(orbit: bool, events: seq<ConnEvent>, s: string)
    requires Listing(RunConns(orbit, events).conns, s) == {}
    ensures Attached(RunConns(orbit, events).counts, s) <==> Repeats(orbit, events, s) > 0
  {
    CountIsListingPlusRepeats(orbit, events, s);
  }

  lemma {:induction false} RepeatsGrow(orbit: bool, a: seq<ConnEvent>, b: seq<ConnEvent>, s: string)
    ensures Repeats(orbit, a, s) <= Repeats(orbit, a + b, s)
  {
    if b == [] {
      assert a + b == a;
    } else {
      RepeatsGrow(orbit, a, b[..|b| - 1], s);
      assert (a + b)[..|a + b| - 1] == a + b[..|b| - 1];
    }
  }

  /** Once some request has repeated a session it is attached for good, whatever connections do afterwards. */
  lemma RepeatedNeverReleased(orbit: bool, events: seq<ConnEvent>, later: seq<ConnEvent>, s: string)
    requires Repeats(orbit, events, s) > 0
    ensures Attached(RunConns(orbit, events + later).counts, s)
  {
    RepeatsGrow(orbit, events, later, s);
    CountIsListingPlusRepeats(orbit, events + later, s);
  }

  /** The session the connection has named last since it was opened. */
  function LastNamed(orbit: bool, events: seq<ConnEvent>, c: ConnId): Option<string> {
    if events == [] then None
    else
      var front, last := events[..|events| - 1], events[|events| - 1];
      match last
      case Open(x) => if x == c && c !in RunConns(orbit, front).conns then None else LastNamed(orbit, front, c)
      case Request(x, Some(s), _) => if x == c && s != "" then Some(s) else LastNamed(orbit, front, c)
      case _ => LastNamed(orbit, front, c)
  }

  lemma {:induction false} DefaultIsLastNamed(orbit: bool, events: seq<ConnEvent>, c: ConnId)
    requires c in RunConns(orbit, events).conns
    ensures RunConns(orbit, events).conns[c].last_session == LastNamed(orbit, events, c)
  {
    if events != [] {
      var front := events[..|events| - 1];
      if c in RunConns(orbit, front).conns {
        DefaultIsLastNamed(orbit, front, c);
      }
    }
  }

  /**
   Where a request goes: to the session it names, else to the one its connection has named last, else to the legacy
   entry; without orbit always to the legacy entry.
   */
  lemma RequestsGoTo(orbit: bool, events: seq<ConnEvent>, c: ConnId, requested: Option<string>)
    requires c in RunConns(orbit, events).conns
    ensures var target := Routed(orbit, RunConns(orbit, events), c, requested);
            && (!orbit ==> target == "")
            && (orbit && requested.Some? && requested.value != "" ==> target == requested.value)
            && (orbit && (requested == None || requested == Some("")) ==>
                  target == if LastNamed(orbit, events, c).Some? then LastNamed(orbit, events, c).value else "")
  {
    DefaultIsLastNamed(orbit, events, c);
  }

  /** The concrete case: two prompts to one session and a hang-up leave it attached with no connection open. */
  lemma TwoPromptsLeak()
    ensures var l := RunConns(true, [Open(0), Request(0, Some("a"), None), Request(0, Some("a"), None), Close(0)]);
            l.conns == map[] && Attached(l.counts, "a")
  {
    var e0, e1, e2 := Open(0), Request(0, Some("a"), None), Close(0);
    LeakSteps(e0, e1, e2);
    RunNext(true, [], e0);
    RunNext(true, [e0], e1);
    RunNext(true, [e0, e1], e1);
    RunNext(true, [e0, e1, e1], e2);
    assert [] + [e0] == [e0] && [e0] + [e1] == [e0, e1] && [e0, e1] + [e1] == [e0, e1, e1];
    assert [e0, e1, e1] + [e2] == [e0, e1, e1, e2];
  }

  lemma LeakSteps(e0: ConnEvent, e1: ConnEvent, e2: ConnEvent)
    requires e0 == Open(0) && e1 == Request(0, Some("a"), None) && e2 == Close(0)
    ensures var l := StepConn(true, StepConn(true, StepConn(true, Links(map[], map[]), e0), e1), e1);
            StepConn(true, l, e2).conns == map[] && Attached(StepConn(true, l, e2).counts, "a")
  {
    var l1 := Links(map[], map[0 := Conn([], None)]);
    var l2 := Links(map["a" := 1], map[0 := Conn(["a"], Some("a"))]);
    var l3 := Links(map["a" := 2], map[0 := Conn(["a"], Some("a"))]);
    assert StepConn(true, Links(map[], map[]), e0) == l1;
    assert StepConn(true, l1, e1) == l2 by { assert [] + ["a"] == ["a"]; }
    assert StepConn(true, l2, e1) == l3;
    assert Attached(StepConn(true, l3, e2).counts, "a") by {
      assert ["a"][..0] == [];
      assert DetachAll(l3.counts, ["a"]) == DetachCount(DetachAll(l3.counts, []), "a");
    }
  }

  lemma RunNext(orbit: bool, events: seq<ConnEvent>, e: ConnEvent)
    ensures RunConns(orbit, events + [e]) == StepConn(orbit, RunConns(orbit, events), e)
  {
  }
}
