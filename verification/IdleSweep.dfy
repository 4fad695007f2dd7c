/**
 The idle sweep on the store: which sessions qualify, in which order they are archived, and where a refusal ends
 the sweep.
 */
module IdleSweep {
  import opened Sorting
  import opened SessionStore

  type Candidate = (Id, int)

  function LastUse(m: Meta): int {
    if m.updated_at > m.last_access_ms then m.updated_at else m.last_access_ms
  }

  /** Most recently used first, by id among equals. */
  predicate RecentFirst(a: Candidate, b: Candidate) {
    a.1 > b.1 || (a.1 == b.1 && StringLe(a.0, b.0))
  }

  ghost predicate DistinctIds(cs: seq<Candidate>) {
    forall i, j :: 0 <= i < j < |cs| ==> cs[i].0 != cs[j].0
  }

  ghost predicate IsListing(cs: seq<Candidate>, sessions: map<Id, Meta>) {
    && (forall c :: c in cs <==> c.0 in sessions && c.1 == LastUse(sessions[c.0]))
    && DistinctIds(cs)
  }

  /** The sessions past the `keep` most recent ones that were last used before `cutoff`, in that order. */
  function Qualifying(cs: seq<Candidate>, keep: nat, cutoff: int): seq<Id> {
    if cs == [] then []
    else
      var last := cs[|cs| - 1];
      Qualifying(cs[..|cs| - 1], keep, cutoff) + (if |cs| > keep && last.1 < cutoff then [last.0] else [])
  }

  function Cutoff(now: int, idle_ms: int): int { now - (if idle_ms > 0 then idle_ms else 0) }

  function BatchLimit(max_sessions: nat): nat { if max_sessions > 1 then max_sessions else 1 }

  function First(ids: seq<Id>, n: nat): seq<Id> {
    if |ids| <= n then ids else ids[..n]
  }

  lemma {:induction false} QualifyingGrows(cs: seq<Candidate>, k: nat, keep: nat, cutoff: int)
    requires k <= |cs|
    ensures Qualifying(cs[..k], keep, cutoff) <= Qualifying(cs, keep, cutoff)
  {
    if k < |cs| {
      QualifyingGrows(cs[..|cs| - 1], k, keep, cutoff);
      assert cs[..|cs| - 1][..k] == cs[..k];
    } else {
      assert cs[..k] == cs;
    }
  }

  predicate Qualifies(cs: seq<Candidate>, rank: nat, keep: nat, cutoff: int)
    requires rank < |cs|
  {
    rank >= keep && cs[rank].1 < cutoff
  }

  /** `done` are the first qualifying sessions among the candidates before `rank`. */
  ghost predicate Swept(cs: seq<Candidate>, rank: nat, keep: nat, cutoff: int, limit: nat, done: seq<Id>)
    requires rank <= |cs|
  {
    done == First(Qualifying(cs[..rank], keep, cutoff), limit)
  }

  /** One more candidate is skipped, or taken while the batch has room. */
  lemma SweptStep(cs: seq<Candidate>, rank: nat, keep: nat, cutoff: int, limit: nat, done: seq<Id>)
    requires rank < |cs| && Swept(cs, rank, keep, cutoff, limit, done)
    ensures !Qualifies(cs, rank, keep, cutoff) ==> Swept(cs, rank + 1, keep, cutoff, limit, done)
    ensures Qualifies(cs, rank, keep, cutoff) && |done| < limit ==>
              Swept(cs, rank + 1, keep, cutoff, limit, done + [cs[rank].0])
  {
    assert cs[..rank + 1][..rank] == cs[..rank];
  }

  /** A full batch stays the same whatever candidates follow. */
  lemma SweptEnough(cs: seq<Candidate>, rank: nat, keep: nat, cutoff: int, limit: nat, done: seq<Id>)
    requires rank <= |cs| && Swept(cs, rank, keep, cutoff, limit, done) && |done| >= limit
    ensures Swept(cs, |cs|, keep, cutoff, limit, done)
  {
    assert cs[..|cs|] == cs;
    QualifyingGrows(cs, rank, keep, cutoff);
  }

  function Batch(cs: seq<Candidate>, keep: nat, cutoff: int, limit: nat): seq<Id> {
    First(Qualifying(cs, keep, cutoff), limit)
  }

  lemma SweptAll(cs: seq<Candidate>, keep: nat, cutoff: int, limit: nat, done: seq<Id>)
    requires Swept(cs, |cs|, keep, cutoff, limit, done)
    ensures done == Batch(cs, keep, cutoff, limit)
  {
    assert cs[..|cs|] == cs;
  }

  lemma FullBatch(cs: seq<Candidate>, rank: nat, keep: nat, cutoff: int, limit: nat, done: seq<Id>)
    requires rank <= |cs| && Swept(cs, rank, keep, cutoff, limit, done) && |done| >= limit
    ensures done == Batch(cs, keep, cutoff, limit)
  {
    SweptEnough(cs, rank, keep, cutoff, limit, done);
    SweptAll(cs, keep, cutoff, limit, done);
  }

  /** The next qualifying candidate comes next in the batch. */
  lemma NextInBatch(cs: seq<Candidate>, rank: nat, keep: nat, cutoff: int, limit: nat, done: seq<Id>)
    requires rank < |cs| && Swept(cs, rank, keep, cutoff, limit, done) && |done| < limit
    requires Qualifies(cs, rank, keep, cutoff)
    ensures done + [cs[rank].0] <= Batch(cs, keep, cutoff, limit)
  {
    SweptStep(cs, rank, keep, cutoff, limit, done);
    QualifyingGrows(cs, rank + 1, keep, cutoff);
  }

  // ----- Which sessions qualify, without the listing.

  /** Used later than `id`, or at the same time under a smaller id; a use is an update or an access. */
  ghost predicate UsedBefore(sessions: map<Id, Meta>, id: Id, x: Id)
    requires id in sessions && x in sessions
  {
    var a, b := sessions[x], sessions[id];
    var last := if a.updated_at >= a.last_access_ms then a.updated_at else a.last_access_ms;
    && last >= b.updated_at && last >= b.last_access_ms
    && (last == b.updated_at || last == b.last_access_ms ==> x != id && StringLe(x, id))
  }

  ghost function MoreRecent(sessions: map<Id, Meta>, id: Id): set<Id>
    requires id in sessions
  {
    set x | x in sessions && UsedBefore(sessions, id, x)
  }

  lemma {:induction false} QualifyingHas(cs: seq<Candidate>, keep: nat, cutoff: int, id: Id)
    ensures id in Qualifying(cs, keep, cutoff) <==>
              exists r :: 0 <= r < |cs| && cs[r].0 == id && Qualifies(cs, r, keep, cutoff)
  {
    if cs != [] {
      var front := cs[..|cs| - 1];
      QualifyingHas(front, keep, cutoff, id);
      assert forall r :: 0 <= r < |front| ==> Qualifies(front, r, keep, cutoff) == Qualifies(cs, r, keep, cutoff);
    }
  }

  lemma {:induction false} IdsOf(cs: seq<Candidate>) returns (ids: set<Id>)
    requires DistinctIds(cs)
    ensures |ids| == |cs| && forall x :: x in ids <==> exists i :: 0 <= i < |cs| && cs[i].0 == x
  {
    if cs == [] {
      ids := {};
    } else {
      ids := IdsOf(cs[..|cs| - 1]);
      ids := ids + {cs[|cs| - 1].0};
    }
  }

  lemma BeforeInListing(cs: seq<Candidate>, sessions: map<Id, Meta>, i: nat, r: nat)
    requires IsListing(cs, sessions) && Sorted(cs, RecentFirst) && i < |cs| && r < |cs|
    ensures cs[i].0 in sessions && cs[r].0 in sessions
    ensures UsedBefore(sessions, cs[r].0, cs[i].0) <==> i < r
  {
    assert cs[i] in cs && cs[r] in cs;
    StringLeTotal(cs[i].0, cs[r].0);
  }

  /** In the sorted listing a session is preceded by the more recent ones. */
  lemma RankIsMoreRecent(cs: seq<Candidate>, sessions: map<Id, Meta>, r: nat)
    requires IsListing(cs, sessions) && Sorted(cs, RecentFirst) && r < |cs|
    ensures cs[r].0 in sessions && |MoreRecent(sessions, cs[r].0)| == r
  {
    BeforeInListing(cs, sessions, r, r);
    var ids := IdsOf(cs[..r]);
    forall x ensures x in ids <==> x in MoreRecent(sessions, cs[r].0) {
      if x in ids {
        var i :| 0 <= i < r && cs[..r][i].0 == x;
        BeforeInListing(cs, sessions, i, r);
      }
      if x in MoreRecent(sessions, cs[r].0) {
        assert (x, LastUse(sessions[x])) in cs;
        var i :| 0 <= i < |cs| && cs[i] == (x, LastUse(sessions[x]));
        BeforeInListing(cs, sessions, i, r);
        assert cs[..r][i].0 == x;
      }
    }
    assert ids == MoreRecent(sessions, cs[r].0);
  }

  /** A session qualifies exactly when neither of its times is recent and enough others were used after it. */
  lemma QualifiesIff(cs: seq<Candidate>, sessions: map<Id, Meta>, keep: nat, cutoff: int, id: Id)
    requires IsListing(cs, sessions) && Sorted(cs, RecentFirst)
    ensures id in Qualifying(cs, keep, cutoff) <==>
              id in sessions && sessions[id].updated_at < cutoff && sessions[id].last_access_ms < cutoff &&
              |MoreRecent(sessions, id)| >= keep
  {
    QualifyingHas(cs, keep, cutoff, id);
    if id in sessions {
      assert (id, LastUse(sessions[id])) in cs;
      var r :| 0 <= r < |cs| && cs[r] == (id, LastUse(sessions[id]));
      RankIsMoreRecent(cs, sessions, r);
    } else {
      assert forall r :: 0 <= r < |cs| ==> cs[r] in cs;
    }
  }

  predicate LongUnused(m: Meta, now: int, idle_ms: int) {
    && m.updated_at < now && m.updated_at + idle_ms < now
    && m.last_access_ms < now && m.last_access_ms + idle_ms < now
  }

  /**
   What a sweep takes: only sessions that have been neither updated nor accessed for `idle_ms` (none, if negative) and
   that at least `keep` others were used after; all of them, unless there are more than `max_sessions` (at least one).
   */
  lemma BatchIsIdle(cs: seq<Candidate>, sessions: map<Id, Meta>, keep: nat, now: int, idle_ms: int, max_sessions: nat,
                    id: Id)
    requires IsListing(cs, sessions) && Sorted(cs, RecentFirst)
    ensures var batch := Batch(cs, keep, Cutoff(now, idle_ms), BatchLimit(max_sessions));
            var takes := id in sessions && LongUnused(sessions[id], now, idle_ms) && |MoreRecent(sessions, id)| >= keep;
            (id in batch ==> takes) && |batch| <= (if max_sessions == 0 then 1 else max_sessions) &&
            (takes && id !in batch ==> |batch| == if max_sessions == 0 then 1 else max_sessions)
  {
    QualifiesIff(cs, sessions, keep, Cutoff(now, idle_ms), id);
  }

  // ----- What the sweep does to the store.

  function ArchivedAll(st: Store, ids: seq<Id>): Store {
    if ids == [] then st else ArchivedAway(ArchivedAll(st, ids[..|ids| - 1]), ids[|ids| - 1])
  }

  /** How many sessions from the front can be archived before the first refusal. */
  function Archivable(st: Store, ids: seq<Id>): (n: nat)
    ensures n <= |ids|
  {
    if ids == [] then 0
    else
      var n := Archivable(st, ids[..|ids| - 1]);
      if n == |ids| - 1 && CanArchive(st, ids[n]) then n + 1 else n
  }

  /** The count ends at the first session whose archive holds more messages, or at none. */
  lemma {:induction false} ArchivableIsFirstRefusal(st: Store, ids: seq<Id>, n: nat)
    requires n <= |ids|
    ensures Archivable(st, ids) == n <==>
              (forall i :: 0 <= i < n ==> CanArchive(st, ids[i])) && (n < |ids| ==> !CanArchive(st, ids[n]))
  {
    if ids != [] {
      var front := ids[..|ids| - 1];
      var m := Archivable(st, front);
      ArchivableIsFirstRefusal(st, front, m);
      assert forall i :: 0 <= i < |front| ==> front[i] == ids[i];
    }
  }

  /** A batch meets a refusal exactly when it holds a session whose archive has more messages. */
  lemma RefusedIffOneShrinks(st: Store, ids: seq<Id>)
    ensures Archivable(st, ids) < |ids| <==> exists i :: 0 <= i < |ids| && !CanArchive(st, ids[i])
  {
    ArchivableIsFirstRefusal(st, ids, Archivable(st, ids));
  }

  function BackupsOf(backups: seq<Backup>, id: Id): seq<Backup> {
    if backups == [] then []
    else BackupsOf(backups[..|backups| - 1], id) +
         (if backups[|backups| - 1].session_id == id then [backups[|backups| - 1]] else [])
  }

  lemma {:induction false} OtherBackupsStay(backups: seq<Backup>, gone: Id, x: Id)
    requires gone != x
    ensures BackupsOf(BackupsWithout(backups, gone), x) == BackupsOf(backups, x)
  {
    if backups != [] {
      var front, last := backups[..|backups| - 1], backups[|backups| - 1];
      OtherBackupsStay(front, gone, x);
      if last.session_id != gone {
        assert (BackupsWithout(front, gone) + [last])[..|BackupsWithout(front, gone)|] == BackupsWithout(front, gone);
      } else {
        assert BackupsWithout(backups, gone) == BackupsWithout(front, gone);
      }
    }
  }

  /** Session `x` is the same in both stores, with its archive and its backups. */
  ghost predicate SameAt(st: Store, st': Store, x: Id) {
    && (x in st'.live <==> x in st.live) && (x in st.live ==> st'.live[x] == st.live[x])
    && (x in st'.archived <==> x in st.archived) && (x in st.archived ==> st'.archived[x] == st.archived[x])
    && BackupsOf(st'.backups, x) == BackupsOf(st.backups, x)
  }

  /** Archiving sessions changes nothing about the others. */
  lemma {:induction false} OthersStay(st: Store, ids: seq<Id>, x: Id)
    requires x !in ids
    ensures SameAt(st, ArchivedAll(st, ids), x) && CanArchive(ArchivedAll(st, ids), x) == CanArchive(st, x)
  {
    if ids != [] {
      var front, last := ids[..|ids| - 1], ids[|ids| - 1];
      assert ids == front + [last];
      OthersStay(st, front, x);
      OtherBackupsStay(ArchivedAll(st, front).backups, last, x);
    }
  }

  lemma {:induction false} QualifyingAreListed(cs: seq<Candidate>, sessions: map<Id, Meta>, keep: nat, cutoff: int)
    requires forall c :: c in cs ==> c.0 in sessions
    requires DistinctIds(cs)
    ensures var q := Qualifying(cs, keep, cutoff);
            Distinct(q) && forall id :: id in q ==> id in sessions && exists k :: 0 <= k < |cs| && cs[k].0 == id
  {
    if cs != [] {
      var front, last := cs[..|cs| - 1], cs[|cs| - 1];
      assert cs == front + [last];
      QualifyingAreListed(front, sessions, keep, cutoff);
      assert forall k :: 0 <= k < |front| ==> cs[k] == front[k];
    }
  }

  lemma BatchIsListed(cs: seq<Candidate>, sessions: map<Id, Meta>, keep: nat, cutoff: int, limit: nat)
    requires IsListing(cs, sessions)
    ensures Distinct(Batch(cs, keep, cutoff, limit))
    ensures forall id :: id in Batch(cs, keep, cutoff, limit) ==> id in sessions
  {
    QualifyingAreListed(cs, sessions, keep, cutoff);
  }

  ghost predicate Distinct(ids: seq<Id>) {
    forall i, j :: 0 <= i < j < |ids| ==> ids[i] != ids[j]
  }

  ghost predicate HistoriesGrow(st: Store, st': Store) {
    forall id :: History(st, id) <= History(st', id)
  }

  /**
   On a store whose archives are prefixes no session of the batch is refused, all of them leave the live store,
   archives stay prefixes, and no history shrinks.
   */
  lemma {:induction false} PrefixStoreSweeps(st: Store, ids: seq<Id>)
    requires ArchivesArePrefixes(st) && Distinct(ids) && forall id :: id in ids ==> id in st.live
    ensures Archivable(st, ids) == |ids|
    ensures var st' := ArchivedAll(st, ids);
            ArchivesArePrefixes(st') && HistoriesGrow(st, st') &&
            forall id :: id in st'.live <==> id in st.live && id !in ids
  {
    if ids != [] {
      var front, last := ids[..|ids| - 1], ids[|ids| - 1];
      assert ids == front + [last];
      PrefixStoreSweeps(st, front);
      OthersStay(st, front, last);
      var mid := ArchivedAll(st, front);
      ArchiveGrows(mid, last);
    }
  }

  // ----- A refusal, and what becomes of it.

  function MetasOf(st: Store): map<Id, Meta> {
    map id | id in st.live :: st.live[id].meta
  }

  /** Such a refusal can be reached, and it leaves the sweep with an error after it has archived another session. */
  lemma RefusalIsReached(id: Id, x: Id, a: SessionMessage, b: SessionMessage)
    requires id != x
    ensures var cut := Rewound(Restored(ArchivedAway(Appended(Store(map[], map[], []), id, a, 1), id), id, 2), id, 1);
            var st := Appended(cut, x, b, 3);
            var cs := [(x, 3), (id, 2)];
            var batch := Batch(cs, 0, 10, 2);
            IsListing(cs, MetasOf(st)) && Sorted(cs, RecentFirst) && batch == [x, id] &&
            CanArchive(st, x) && !CanArchive(st, id) && Archivable(st, batch) == 1 &&
            ArchivedAll(st, batch[..1]) == ArchivedAway(st, x)
  {
    var cut := RewoundIsRefused(id, a);
    var st := Appended(cut, x, b, 3);
    var cs := [(x, 3), (id, 2)];
    TwoListed(st, x, id);
    TwoQualify(cs, 10);
    var batch := Batch(cs, 0, 10, 2);
    ArchivableIsFirstRefusal(st, batch, 1);
    assert batch[..1] == [x] && [x][..0] == [];
  }

  lemma TwoListed(st: Store, x: Id, id: Id)
    requires id != x && st.live.Keys == {x, id}
    requires LastUse(st.live[x].meta) == 3 && LastUse(st.live[id].meta) == 2
    ensures IsListing([(x, 3), (id, 2)], MetasOf(st)) && Sorted([(x, 3), (id, 2)], RecentFirst)
  {
  }

  lemma TwoQualify(cs: seq<Candidate>, cutoff: int)
    requires |cs| == 2 && cs[0].1 < cutoff && cs[1].1 < cutoff
    ensures Batch(cs, 0, cutoff, 2) == [cs[0].0, cs[1].0]
  {
    var one := cs[..1];
    assert one[..0] == [] && cs[..1] == one;
    assert Qualifying(one, 0, cutoff) == [cs[0].0];
  }

  /**
   A session that is refused stays so through every run that neither appends to it nor deletes it, whatever else
   happens, other sweeps included.
   */
  lemma {:induction false} RefusedStays(st: Store, run: seq<Event>, id: Id)
    requires id in st.live && !CanArchive(st, id)
    requires forall e :: e in run ==> e.id == id ==> !e.Append? && !e.Delete?
    ensures id in After(st, run).live && !CanArchive(After(st, run), id)
  {
    if run != [] {
      var front, last := run[..|run| - 1], run[|run| - 1];
      assert run == front + [last];
      RefusedStays(st, front, id);
      RefusedStaysOnce(After(st, front), last, id);
    }
  }

  lemma RefusedStaysOnce(st: Store, e: Event, id: Id)
    requires id in st.live && !CanArchive(st, id)
    requires e.id == id ==> !e.Append? && !e.Delete?
    ensures id in Step(st, e).live && !CanArchive(Step(st, e), id)
  {
    if e.Rewind? && e.id in st.live {
      BelowIsPrefix(st.live[e.id].messages, e.from);
    }
  }

  /** Whenever a refused session qualifies, the sweep touches no session ranked from it on. */
  lemma RefusedBlocksRest(st: Store, cs: seq<Candidate>, keep: nat, cutoff: int, limit: nat, rank: nat)
    requires DistinctIds(cs)
    requires rank < |cs| && Qualifies(cs, rank, keep, cutoff) && !CanArchive(st, cs[rank].0)
    ensures var batch := Batch(cs, keep, cutoff, limit);
            var end := ArchivedAll(st, batch[..Archivable(st, batch)]);
            forall k :: rank <= k < |cs| ==> SameAt(st, end, cs[k].0)
  {
    var batch := Batch(cs, keep, cutoff, limit);
    var n := Archivable(st, batch);
    var before := Qualifying(cs[..rank], keep, cutoff);
    QualifyingGrows(cs, rank + 1, keep, cutoff);
    assert cs[..rank + 1][..rank] == cs[..rank];
    assert before + [cs[rank].0] <= Qualifying(cs, keep, cutoff);
    if |before| < |batch| {
      assert batch[|before|] == cs[rank].0;
      ArchivableIsFirstRefusal(st, batch, n);
    }
    assert batch[..n] == before[..n];
    forall k | rank <= k < |cs| ensures SameAt(st, ArchivedAll(st, batch[..n]), cs[k].0) {
      QualifyingRanks(cs[..rank], keep, cutoff, cs[k].0);
      OthersStay(st, batch[..n], cs[k].0);
    }
  }

  lemma {:induction false} QualifyingRanks(cs: seq<Candidate>, keep: nat, cutoff: int, id: Id)
    requires forall c :: c in cs ==> c.0 != id
    ensures id !in Qualifying(cs, keep, cutoff)
  {
    if cs != [] {
      var front, last := cs[..|cs| - 1], cs[|cs| - 1];
      assert cs == front + [last];
      QualifyingRanks(front, keep, cutoff, id);
    }
  }

  /** In a sorted listing the qualifying sessions are a suffix. */
  lemma {:induction false} QualifyingIsSuffix(cs: seq<Candidate>, keep: nat, cutoff: int) returns (start: nat)
    requires Sorted(cs, RecentFirst)
    ensures start + |Qualifying(cs, keep, cutoff)| == |cs|
    ensures forall i :: start <= i < |cs| ==>
              Qualifying(cs, keep, cutoff)[i - start] == cs[i].0 && Qualifies(cs, i, keep, cutoff)
  {
    if cs == [] {
      start := 0;
    } else {
      var front := cs[..|cs| - 1];
      start := QualifyingIsSuffix(front, keep, cutoff);
      assert forall i :: start <= i < |front| ==> Qualifies(front, i, keep, cutoff) && front[i] == cs[i];
      if start < |front| {
        assert Qualifies(front, start, keep, cutoff) && RecentFirst(cs[start], cs[|cs| - 1]);
      } else if !Qualifies(cs, |front|, keep, cutoff) {
        start := |cs|;
      }
    }
  }

  /** The sessions that could be archived are gone, every other one is as before. */
  lemma {:induction false} ArchivedAreGone(st: Store, ids: seq<Id>)
    requires Distinct(ids) && forall i :: 0 <= i < |ids| ==> CanArchive(st, ids[i])
    ensures var end := ArchivedAll(st, ids);
            forall x :: (x in end.live <==> x in st.live && x !in ids) && (x in end.live ==> end.live[x] == st.live[x])
  {
    if ids != [] {
      var front, last := ids[..|ids| - 1], ids[|ids| - 1];
      assert ids == front + [last];
      ArchivedAreGone(st, front);
      OthersStay(st, front, last);
    }
  }

  lemma InFront(a: seq<Candidate>, c: Candidate)
    requires DistinctIds(a) && a != []
    ensures c in a[..|a| - 1] <==> c in a && c != a[|a| - 1]
  {
    assert a == a[..|a| - 1] + [a[|a| - 1]];
  }

  lemma HasElement(a: seq<Candidate>)
    requires a != []
    ensures exists c :: c in a
  {
    assert a[0] in a;
  }

  /** There is only one sorted listing. */
  lemma {:induction false} ListingIsUnique(a: seq<Candidate>, b: seq<Candidate>)
    requires Sorted(a, RecentFirst) && Sorted(b, RecentFirst) && DistinctIds(a) && DistinctIds(b)
    requires forall c :: c in a <==> c in b
    ensures a == b
  {
    if a == [] {
      if b != [] {
        HasElement(b);
      }
    } else {
      var x := a[|a| - 1];
      assert x in b;
      var y := b[|b| - 1];
      assert y in a;
      StringLeTotal(x.0, y.0);
      assert x == y;
      var a', b' := a[..|a| - 1], b[..|b| - 1];
      forall c ensures c in a' <==> c in b' {
        InFront(a, c);
        InFront(b, c);
      }
      ListingIsUnique(a', b');
      assert a == a' + [x] && b == b' + [x];
    }
  }

  lemma StretchIds(cs: seq<Candidate>, start: nat, ids: seq<Id>, c: Candidate)
    requires DistinctIds(cs) && start + |ids| <= |cs| && forall i :: 0 <= i < |ids| ==> ids[i] == cs[start + i].0
    ensures c in cs ==> (c in cs[start..start + |ids|] <==> c.0 in ids)
  {
    var stretch := cs[start..start + |ids|];
    if c in stretch {
      var i :| 0 <= i < |ids| && stretch[i] == c;
      assert ids[i] == c.0;
    }
    if c in cs && c.0 in ids {
      var i :| 0 <= i < |ids| && ids[i] == c.0;
      assert stretch[i] == cs[start + i];
    }
  }

  lemma SameMembers(cs: seq<Candidate>, start: nat, ids: seq<Id>, cs': seq<Candidate>, before: map<Id, Meta>,
                    after: map<Id, Meta>, c: Candidate)
    requires IsListing(cs, before) && IsListing(cs', after)
    requires start + |ids| <= |cs| && forall i :: 0 <= i < |ids| ==> ids[i] == cs[start + i].0
    requires (c.0 in after <==> c.0 in before && c.0 !in ids) && (c.0 in after ==> after[c.0] == before[c.0])
    ensures c in cs[..start] + cs[start + |ids|..] <==> c in cs'
  {
    StretchIds(cs, start, ids, c);
  }

  /** The listing after a sweep lacks the sessions it archived. */
  lemma ListingAfterSweep(st: Store, cs: seq<Candidate>, start: nat, ids: seq<Id>, cs': seq<Candidate>)
    requires IsListing(cs, MetasOf(st)) && Sorted(cs, RecentFirst)
    requires Distinct(ids) && forall i :: 0 <= i < |ids| ==> CanArchive(st, ids[i])
    requires start + |ids| <= |cs| && forall i :: 0 <= i < |ids| ==> ids[i] == cs[start + i].0
    requires IsListing(cs', MetasOf(ArchivedAll(st, ids))) && Sorted(cs', RecentFirst)
    ensures cs' == cs[..start] + cs[start + |ids|..]
  {
    MetasAfter(st, ids);
    RestIsListing(cs, start, ids, cs', MetasOf(st), MetasOf(ArchivedAll(st, ids)));
  }

  lemma RestIsListing(cs: seq<Candidate>, start: nat, ids: seq<Id>, cs': seq<Candidate>, before: map<Id, Meta>,
                      after: map<Id, Meta>)
    requires IsListing(cs, before) && Sorted(cs, RecentFirst) && IsListing(cs', after) && Sorted(cs', RecentFirst)
    requires start + |ids| <= |cs| && forall i :: 0 <= i < |ids| ==> ids[i] == cs[start + i].0
    requires forall x :: (x in after <==> x in before && x !in ids) && (x in after ==> after[x] == before[x])
    ensures cs' == cs[..start] + cs[start + |ids|..]
  {
    var rest := cs[..start] + cs[start + |ids|..];
    forall c ensures c in rest <==> c in cs' {
      SameMembers(cs, start, ids, cs', before, after, c);
    }
    ListingIsUnique(rest, cs');
  }

  lemma MetasAfter(st: Store, ids: seq<Id>)
    requires Distinct(ids) && forall i :: 0 <= i < |ids| ==> CanArchive(st, ids[i])
    ensures var before, after := MetasOf(st), MetasOf(ArchivedAll(st, ids));
            forall x :: (x in after <==> x in before && x !in ids) && (x in after ==> after[x] == before[x])
  {
    ArchivedAreGone(st, ids);
  }

  /** In a sorted listing the batch is a stretch. */
  lemma BatchIsStretch(cs: seq<Candidate>, keep: nat, cutoff: int, limit: nat) returns (start: nat)
    requires Sorted(cs, RecentFirst)
    ensures var batch := Batch(cs, keep, cutoff, limit);
            start + |batch| <= |cs| &&
            forall i :: 0 <= i < |batch| ==> batch[i] == cs[start + i].0 && Qualifies(cs, start + i, keep, cutoff)
  {
    start := QualifyingIsSuffix(cs, keep, cutoff);
    forall i | 0 <= i < |Batch(cs, keep, cutoff, limit)| ensures Qualifying(cs, keep, cutoff)[i] == cs[start + i].0 {
      assert i == start + i - start;
    }
  }

  /** The refused session moves up to the rank of the first one that was archived. */
  lemma RefusedMovesUp(st: Store, cs: seq<Candidate>, keep: nat, cutoff: int, limit: nat, n: nat, cs': seq<Candidate>)
    returns (rank: nat)
    requires IsListing(cs, MetasOf(st)) && Sorted(cs, RecentFirst)
    requires var batch := Batch(cs, keep, cutoff, limit);
             n < |batch| && Distinct(batch) && (forall i :: 0 <= i < n ==> CanArchive(st, batch[i])) &&
             IsListing(cs', MetasOf(ArchivedAll(st, batch[..n]))) && Sorted(cs', RecentFirst)
    ensures rank < |cs'| && cs'[rank].0 == Batch(cs, keep, cutoff, limit)[n] && Qualifies(cs', rank, keep, cutoff)
  {
    var batch := Batch(cs, keep, cutoff, limit);
    rank := BatchIsStretch(cs, keep, cutoff, limit);
    assert batch[0] == cs[rank + 0].0 && batch[n] == cs[rank + n].0;
    ListingAfterSweep(st, cs, rank, batch[..n], cs');
    assert cs'[rank] == cs[rank + n];
  }

  /**
   After a sweep that was refused, with nothing else changed, the next one meets the same session again at a
   qualifying rank, so nothing ranked after it is ever archived.
   */
  lemma NextSweepIsBlocked(st: Store, cs: seq<Candidate>, keep: nat, cutoff: int, limit: nat, end: Store,
                           cs': seq<Candidate>, keep': nat, cutoff': int, limit': nat)
    returns (rank: nat)
    requires IsListing(cs, MetasOf(st)) && Sorted(cs, RecentFirst)
    requires var batch := Batch(cs, keep, cutoff, limit);
             Archivable(st, batch) < |batch| && end == ArchivedAll(st, batch[..Archivable(st, batch)])
    requires IsListing(cs', MetasOf(end)) && Sorted(cs', RecentFirst) && keep' <= keep && cutoff' >= cutoff
    ensures var batch := Batch(cs, keep, cutoff, limit);
            rank < |cs'| && cs'[rank].0 == batch[Archivable(st, batch)] && !CanArchive(end, cs'[rank].0)
    ensures var batch' := Batch(cs', keep', cutoff', limit');
            var end' := ArchivedAll(end, batch'[..Archivable(end, batch')]);
            forall k :: rank <= k < |cs'| ==> SameAt(end, end', cs'[k].0)
  {
    var batch := Batch(cs, keep, cutoff, limit);
    var n := Archivable(st, batch);
    BatchIsListed(cs, MetasOf(st), keep, cutoff, limit);
    ArchivableIsFirstRefusal(st, batch, n);
    OthersStay(st, batch[..n], batch[n]);
    rank := RefusedMovesUp(st, cs, keep, cutoff, limit, n, cs');
    RefusedBlocksRest(end, cs', keep', cutoff', limit', rank);
  }

  lemma RecentFirstOrders()
    ensures TotalPreorder(RecentFirst)
  {
    forall a: Candidate, b: Candidate ensures RecentFirst(a, b) || RecentFirst(b, a) {
      StringLeTotal(a.0, b.0);
    }
    forall a: Candidate, b: Candidate, c: Candidate | RecentFirst(a, b) && RecentFirst(b, c) ensures RecentFirst(a, c) {
      if a.1 == b.1 == c.1 { StringLeTransitive(a.0, b.0, c.0); }
    }
  }
}
