/**
 The session database as tables: sessions by id, messages by session and sequence number,
 rewind snapshots, and the archive files beside it.  Sequence numbers of a live session are
 always exactly 1..n, so the tables hold transcripts.
 */
module SessionDb {
  import opened Wrappers
  import opened Text
  import opened Lines
  import opened Sorting
  import opened Archive
  import opened SessionStore
  import opened IdleSweep

  const MAX_LIMIT: nat := 1000

  datatype SessionError =
    | InvalidSessionId | InvalidMessageText | InvalidLimit | DatabaseMissing
    | RefusingToShrink | Undecodable | WrongSession | AlreadyLive | UnknownRole

  datatype ArchiveReceipt = ArchiveReceipt(session_id: Id, messages: nat, raw_bytes: nat)

  type Transcripts = map<Id, seq<SessionMessage>>
  type Rows = map<(Id, int), SessionMessage>

  /** The message rows are the transcripts, numbered from one without a gap. */
  ghost predicate Represents(rows: Rows, ts: Transcripts) {
    && (forall id, k: int :: (id, k) in rows <==> id in ts && 1 <= k <= |ts[id]|)
    && (forall id, k: int :: (id, k) in rows ==> rows[(id, k)] == ts[id][k - 1])
  }

  /** The transcript of a session, empty when there is none. */
  ghost function MessagesOf(ts: Transcripts, id: Id): seq<SessionMessage> {
    if id in ts then ts[id] else []
  }

  lemma {:induction false} RangeSize(id: Id, lo: int, hi: int)
    requires lo <= hi
    ensures |set k: int | lo < k <= hi :: (id, k)| == hi - lo
    decreases hi - lo
  {
    var s := set k: int | lo < k <= hi :: (id, k);
    if lo == hi {
      assert s == {};
    } else {
      RangeSize(id, lo, hi - 1);
      assert s == (set k: int | lo < k <= hi - 1 :: (id, k)) + {(id, hi)};
    }
  }

  lemma InsertRepresents(rows: Rows, ts: Transcripts, id: Id, m: SessionMessage)
    requires Represents(rows, ts) && id in ts
    ensures Represents(rows[(id, |ts[id]| + 1) := m], ts[id := ts[id] + [m]])
  {
  }

  lemma CutRepresents(rows: Rows, ts: Transcripts, id: Id, from: int, gone: set<(Id, int)>)
    requires Represents(rows, ts)
    requires gone == set k | k in rows && k.0 == id && k.1 >= from
    ensures id !in ts ==> gone == {}
    ensures id in ts ==>
              var kept := Kept(from, |ts[id]|);
              |gone| == |ts[id]| - kept && Represents(rows - gone, ts[id := ts[id][..kept]])
  {
    if id in ts {
      RangeSize(id, Kept(from, |ts[id]|), |ts[id]|);
      assert gone == set k: int | Kept(from, |ts[id]|) < k <= |ts[id]| :: (id, k);
    } else {
      assert gone == {};
    }
  }

  /** The largest sequence number of a session, 0 when it has no message: `SELECT COALESCE(MAX(seq), 0)`. */
  method MaxSeq(rows: Rows, id: Id, ghost ts: Transcripts) returns (n: nat)
    requires Represents(rows, ts)
    ensures n == if id in ts then |ts[id]| else 0
  {
    n := 0;
    var todo := set k | k in rows && k.0 == id;
    ghost var all := todo;
    while todo != {}
      invariant todo <= all
      invariant n == 0 || (id, n) in rows
      invariant forall k :: k in all - todo ==> k.1 <= n
      decreases todo
    {
      var k :| k in todo;
      todo := todo - {k};
      if k.1 > n {
        n := k.1;
      }
    }
    if id in ts && ts[id] != [] {
      assert (id, |ts[id]|) in all;
    }
  }

  /** The tail of a transcript with its sequence numbers. */
  ghost predicate IsTail(out: seq<(int, SessionMessage)>, ms: seq<SessionMessage>, limit: nat) {
    && |out| == (if limit <= |ms| then limit else |ms|)
    && forall i :: 0 <= i < |out| ==> out[i] == (|ms| - |out| + i + 1, ms[|ms| - |out| + i])
  }

  function Reversed<T>(s: seq<T>): (r: seq<T>)
    ensures |r| == |s|
    ensures forall i :: 0 <= i < |s| ==> r[i] == s[|s| - 1 - i]
  {
    if s == [] then [] else Reversed(s[1..]) + [s[0]]
  }

  lemma RestoredNext(ms: seq<ArchivedMessage>, i: nat)
    requires i < |ms| && Numbered(ms) && RolesKnown(ms)
    ensures RestoredMessages(ms[..i + 1]) == RestoredMessages(ms[..i]) + [RestoredMessage(ms[i])]
  {
  }

  lemma AppendedIs(st: Store, id: Id, m: SessionMessage, now: int)
    ensures var base := if id in st.live then st.live[id] else LiveSession(Meta(id, None, now, now, "", 0), []);
            Appended(st, id, m, now) ==
            st.(live := st.live[id := LiveSession(base.meta.(updated_at := now), base.messages + [m])])
  {
  }

  ghost function LiveOf(sessions: map<Id, Meta>, ts: Transcripts): map<Id, LiveSession> {
    map id | id in sessions && id in ts :: LiveSession(sessions[id], ts[id])
  }

  lemma UpdateTwice<K, V>(m: map<K, V>, k: K, v: V, w: V)
    ensures m[k := v][k := w] == m[k := w]
  {
  }

  lemma LiveAfterUpdate(sessions: map<Id, Meta>, ts: Transcripts, id: Id, meta: Meta, ms: seq<SessionMessage>)
    requires sessions.Keys == ts.Keys
    ensures LiveOf(sessions[id := meta], ts[id := ms]) == LiveOf(sessions, ts)[id := LiveSession(meta, ms)]
  {
  }

  lemma RewoundIs(sessions: map<Id, Meta>, ts: Transcripts, decoded: map<Id, DecodedArchive>, snapshots: seq<Backup>,
                  id: Id, from: int)
    requires sessions.Keys == ts.Keys
    ensures Rewound(Store(LiveOf(sessions, ts), decoded, snapshots), id, from) ==
            if id in ts then
              Store(LiveOf(sessions, ts[id := ts[id][..Kept(from, |ts[id]|)]]), decoded,
                    snapshots + BackupRows(id, ts[id], from))
            else Store(LiveOf(sessions, ts), decoded, snapshots)
  {
    if id in ts {
      BelowIsPrefix(ts[id], from);
      assert sessions[id := sessions[id]] == sessions;
      LiveAfterUpdate(sessions, ts, id, sessions[id], ts[id][..Kept(from, |ts[id]|)]);
    }
  }

  lemma LiveAfterRemove(sessions: map<Id, Meta>, ts: Transcripts, id: Id)
    ensures LiveOf(sessions - {id}, ts - {id}) == LiveOf(sessions, ts) - {id}
  {
  }

  /** No session has a blank id. */
  ghost predicate Named(sessions: map<Id, Meta>) {
    forall id :: id in sessions ==> !Blank(id)
  }

  /**
   `decoded` is what the archive files decode to, where they do; the messages of a file that decodes are numbered from
   one, as this program writes them.  It may be damaged, misnamed, or spell roles differently or know other ones.
   */
  ghost predicate FilesDecode(codec: Codec, files: map<Id, Bytes>, decoded: map<Id, DecodedArchive>) {
    && decoded.Keys <= files.Keys
    && forall id :: id in files ==>
         (Decoded(codec, files[id]).Ok? <==> id in decoded) &&
         (id in decoded ==> Decoded(codec, files[id]).value == decoded[id] && Numbered(decoded[id].messages))
  }

  lemma TailReversed(rows: seq<(int, SessionMessage)>, ms: seq<SessionMessage>, limit: nat)
    requires |rows| == (if limit <= |ms| then limit else |ms|)
    requires forall i :: 0 <= i < |rows| ==> rows[i] == (|ms| - i, ms[|ms| - i - 1])
    ensures IsTail(Reversed(rows), ms, limit)
  {
  }

  /** How a sweep over a batch ends. */
  ghost predicate SweepResult(r: Result<seq<ArchiveReceipt>, SessionError>, st: Store, end: Store, batch: seq<Id>) {
    var n := Archivable(st, batch);
    && end == ArchivedAll(st, batch[..n])
    && (n == |batch| <==> r.Ok?)
    && (r.Ok? ==> ReceiptIds(r.value) == batch)
    && (r.Err? ==> r.error == RefusingToShrink)
  }

  /** A sweep touches only the sessions it archived. */
  lemma SweepLeavesOthers(r: Result<seq<ArchiveReceipt>, SessionError>, st: Store, end: Store, batch: seq<Id>, x: Id)
    requires SweepResult(r, st, end, batch) && x !in batch[..Archivable(st, batch)]
    ensures SameAt(st, end, x)
  {
    OthersStay(st, batch[..Archivable(st, batch)], x);
  }

  /** On a store whose archives are prefixes the whole batch is archived and nothing known of any session is lost. */
  lemma SweepOfPrefixStore(r: Result<seq<ArchiveReceipt>, SessionError>, st: Store, end: Store, sessions: map<Id, Meta>,
                           cs: seq<Candidate>, keep: nat, cutoff: int, limit: nat)
    requires SweepResult(r, st, end, Batch(cs, keep, cutoff, limit))
    requires ArchivesArePrefixes(st) && IsListing(cs, sessions) && sessions.Keys == st.live.Keys
    ensures r.Ok? && ArchivesArePrefixes(end) && HistoriesGrow(st, end)
    ensures forall id :: id in end.live <==> id in st.live && id !in Batch(cs, keep, cutoff, limit)
  {
    var batch := Batch(cs, keep, cutoff, limit);
    BatchIsListed(cs, sessions, keep, cutoff, limit);
    PrefixStoreSweeps(st, batch);
    assert batch[..|batch|] == batch;
  }

  /**
   A refusal is reachable: a session that was archived, restored and rewound, and a second one used since.  A sweep
   over both archives the second session and then ends with the error.
   */
  lemma SweepOfCutStore(id: Id, x: Id, a: SessionMessage, b: SessionMessage,
                        r: Result<seq<ArchiveReceipt>, SessionError>, end: Store)
    requires id != x
    requires var archived := ArchivedAway(Appended(Store(map[], map[], []), id, a, 1), id);
             var st := Appended(Rewound(Restored(archived, id, 2), id, 1), x, b, 3);
             SweepResult(r, st, end, Batch([(x, 3), (id, 2)], 0, 10, 2))
    ensures r == Err(RefusingToShrink) && x !in end.live && x in end.archived && id in end.live
  {
    RefusalIsReached(id, x, a, b);
    var archived := ArchivedAway(Appended(Store(map[], map[], []), id, a, 1), id);
    var st := Appended(Rewound(Restored(archived, id, 2), id, 1), x, b, 3);
    assert end == ArchivedAway(st, x);
    assert id in MetasOf(st) by {
      assert ((id, 2) in [(x, 3), (id, 2)]);
    }
  }

  /**
   The sweep after a refused one, with nothing changed in between, meets the refused session again, and no session
   ranked after it is archived.
   */
  lemma RefusalBlocksNextSweep(r: Result<seq<ArchiveReceipt>, SessionError>, st: Store, cs: seq<Candidate>, keep: nat,
                               cutoff: int, limit: nat, r': Result<seq<ArchiveReceipt>, SessionError>, mid: Store,
                               end: Store, cs': seq<Candidate>, cutoff': int, limit': nat) returns (rank: nat)
    requires IsListing(cs, MetasOf(st)) && Sorted(cs, RecentFirst) && IsListing(cs', MetasOf(mid)) &&
             Sorted(cs', RecentFirst)
    requires r.Err? && SweepResult(r, st, mid, Batch(cs, keep, cutoff, limit))
    requires cutoff' >= cutoff && SweepResult(r', mid, end, Batch(cs', keep, cutoff', limit'))
    ensures rank < |cs'| && !CanArchive(mid, cs'[rank].0)
    ensures forall k :: rank <= k < |cs'| ==> SameAt(mid, end, cs'[k].0)
  {
    rank := NextSweepIsBlocked(st, cs, keep, cutoff, limit, mid, cs', keep, cutoff', limit');
  }

  /** The sweep has archived `done`; the candidates from `rank` on are still to come. */
  ghost predicate Sweeping(st: Store, now: Store, cs: seq<Candidate>, rank: nat, keep: nat, cutoff: int, limit: nat,
                           done: seq<Id>)
  {
    && rank <= |cs| && Swept(cs, rank, keep, cutoff, limit, done)
    && DistinctIds(cs)
    && now == ArchivedAll(st, done)
    && (forall i :: 0 <= i < |done| ==> CanArchive(st, done[i]))
    && (forall k :: rank <= k < |cs| ==> cs[k].0 in st.live && cs[k].0 !in done)
  }

  lemma Skips(st: Store, now: Store, cs: seq<Candidate>, rank: nat, keep: nat, cutoff: int, limit: nat, done: seq<Id>)
    requires Sweeping(st, now, cs, rank, keep, cutoff, limit, done) && rank < |cs| && !Qualifies(cs, rank, keep, cutoff)
    ensures Sweeping(st, now, cs, rank + 1, keep, cutoff, limit, done)
  {
    SweptStep(cs, rank, keep, cutoff, limit, done);
  }

  /** The next session is live and refused exactly when it would have been at the start. */
  lemma NextToSweep(st: Store, now: Store, cs: seq<Candidate>, rank: nat, keep: nat, cutoff: int, limit: nat,
                    done: seq<Id>)
    requires Sweeping(st, now, cs, rank, keep, cutoff, limit, done)
    requires rank < |cs| && Qualifies(cs, rank, keep, cutoff) && |done| < limit
    ensures cs[rank].0 in now.live
    ensures CanArchive(now, cs[rank].0) ==>
              Sweeping(st, ArchivedAway(now, cs[rank].0), cs, rank + 1, keep, cutoff, limit, done + [cs[rank].0])
    ensures !CanArchive(now, cs[rank].0) ==>
              SweepResult(Err(RefusingToShrink), st, now, Batch(cs, keep, cutoff, limit))
  {
    var id := cs[rank].0;
    OthersStay(st, done, id);
    SweptStep(cs, rank, keep, cutoff, limit, done);
    assert (done + [id])[..|done|] == done;
    if !CanArchive(now, id) {
      NextInBatch(cs, rank, keep, cutoff, limit, done);
      SweepRefused(st, now, id, done, Batch(cs, keep, cutoff, limit));
    }
  }

  lemma SweepRefused(st: Store, now: Store, id: Id, done: seq<Id>, batch: seq<Id>)
    requires now == ArchivedAll(st, done) && (forall i :: 0 <= i < |done| ==> CanArchive(st, done[i]))
    requires !CanArchive(st, id) && done + [id] <= batch
    ensures SweepResult(Err(RefusingToShrink), st, now, batch)
  {
    assert batch[..|done|] == done && batch[|done|] == id;
    assert forall i :: 0 <= i < |done| ==> batch[i] == done[i];
    ArchivableIsFirstRefusal(st, batch, |done|);
  }

  lemma NoneRefused(st: Store, receipts: seq<ArchiveReceipt>)
    requires forall i :: 0 <= i < |receipts| ==> CanArchive(st, ReceiptIds(receipts)[i])
    ensures SweepResult(Ok(receipts), st, ArchivedAll(st, ReceiptIds(receipts)), ReceiptIds(receipts))
  {
    var done := ReceiptIds(receipts);
    ArchivableIsFirstRefusal(st, done, |done|);
    assert done[..|done|] == done;
  }

  lemma SweepFull(st: Store, cs: seq<Candidate>, rank: nat, keep: nat, cutoff: int, limit: nat,
                  receipts: seq<ArchiveReceipt>)
    requires rank <= |cs| && Swept(cs, rank, keep, cutoff, limit, ReceiptIds(receipts)) && |receipts| >= limit
    requires forall i :: 0 <= i < |receipts| ==> CanArchive(st, ReceiptIds(receipts)[i])
    ensures SweepResult(Ok(receipts), st, ArchivedAll(st, ReceiptIds(receipts)), Batch(cs, keep, cutoff, limit))
  {
    FullBatch(cs, rank, keep, cutoff, limit, ReceiptIds(receipts));
    NoneRefused(st, receipts);
  }

  lemma SweepEnds(st: Store, now: Store, cs: seq<Candidate>, keep: nat, cutoff: int, limit: nat,
                  receipts: seq<ArchiveReceipt>)
    requires Sweeping(st, now, cs, |cs|, keep, cutoff, limit, ReceiptIds(receipts))
    ensures SweepResult(Ok(receipts), st, now, Batch(cs, keep, cutoff, limit))
  {
    SweptAll(cs, keep, cutoff, limit, ReceiptIds(receipts));
    NoneRefused(st, receipts);
  }

  function ReceiptIds(rs: seq<ArchiveReceipt>): (ids: seq<Id>)
    ensures |ids| == |rs|
  {
    if rs == [] then [] else ReceiptIds(rs[..|rs| - 1]) + [rs[|rs| - 1].session_id]
  }

  class SessionDb {
    var sessions: map<Id, Meta>
    var messages: Rows
    var snapshots: seq<Backup>
    var archives: map<Id, Bytes>
    const codec: Codec
    ghost var transcripts: Transcripts
    ghost var decoded: map<Id, DecodedArchive>

    ghost predicate Valid()
      reads this
    {
      && IsJson(codec)
      && sessions.Keys == transcripts.Keys
      && Represents(messages, transcripts)
      && FilesDecode(codec, archives, decoded)
      && Named(sessions)
    }

    /** The tables and files as a store of transcripts. */
    ghost function View(): Store
      reads this
    {
      Store(LiveOf(sessions, transcripts), decoded, snapshots)
    }

    constructor (codec: Codec)
      requires IsJson(codec)
      ensures Valid() && this.codec == codec && sessions == map[] && archives == map[] && snapshots == []
    {
      this.codec := codec;
      sessions, messages, snapshots, archives := map[], map[], [], map[];
      transcripts, decoded := map[], map[];
    }

    // ----- Statements.

    method UpsertSession(id: Id, meta: Meta)
      requires Valid() && !Blank(id)
      modifies this`sessions, this`transcripts
      ensures Valid() && sessions == old(sessions)[id := meta]
      ensures transcripts == old(transcripts)[id := MessagesOf(old(transcripts), id)]
    {
      transcripts := transcripts[id := MessagesOf(transcripts, id)];
      sessions := sessions[id := meta];
    }

    /** The same statement, seen on the store. */
    method Upsert(id: Id, meta: Meta)
      requires Valid() && !Blank(id)
      modifies this`sessions, this`transcripts
      ensures Valid() && sessions == old(sessions)[id := meta]
      ensures View() == old(View()).(live := old(View()).live[id :=
                LiveSession(meta, MessagesOf(old(transcripts), id))])
    {
      ghost var ms := MessagesOf(transcripts, id);
      LiveAfterUpdate(sessions, transcripts, id, meta, ms);
      UpsertSession(id, meta);
      assert transcripts == old(transcripts)[id := ms];
    }

    method InsertMessage(id: Id, seq_: int, m: SessionMessage)
      requires Valid() && id in sessions && seq_ == |transcripts[id]| + 1
      modifies this`messages, this`transcripts
      ensures Valid() && transcripts == old(transcripts)[id := old(transcripts)[id] + [m]]
    {
      InsertRepresents(messages, transcripts, id, m);
      messages := messages[(id, seq_) := m];
      transcripts := transcripts[id := transcripts[id] + [m]];
    }

    /** Insert at the largest number plus one. */
    method InsertNext(id: Id, m: SessionMessage) returns (seq_: nat)
      requires Valid() && id in sessions
      modifies this`messages, this`transcripts
      ensures Valid() && seq_ == |old(transcripts)[id]| + 1
      ensures transcripts == old(transcripts)[id := old(transcripts)[id] + [m]]
    {
      var top := MaxSeq(messages, id, transcripts);
      seq_ := top + 1;
      InsertMessage(id, seq_, m);
    }

    /** `DELETE FROM messages WHERE session_id = ?1 AND seq >= ?2`, with the number of rows deleted. */
    method DeleteFrom(id: Id, from: int) returns (n: nat)
      requires Valid()
      modifies this`messages, this`transcripts
      ensures Valid()
      ensures id !in old(transcripts) ==> n == 0 && transcripts == old(transcripts)
      ensures id in old(transcripts) ==>
                var ms := old(transcripts)[id];
                n == |ms| - Kept(from, |ms|) && transcripts == old(transcripts)[id := ms[..Kept(from, |ms|)]]
    {
      var gone := set k | k in messages && k.0 == id && k.1 >= from;
      CutRepresents(messages, transcripts, id, from, gone);
      n := |gone|;
      messages := messages - gone;
      if id in transcripts {
        var ms := transcripts[id];
        transcripts := transcripts[id := ms[..Kept(from, |ms|)]];
      }
    }

    /** `SELECT ... WHERE session_id = ?1 AND seq >= ?4`. */
    method SelectFrom(id: Id, from: int) returns (rows: seq<Backup>)
      requires Valid()
      ensures rows == BackupRows(id, MessagesOf(transcripts, id), from)
    {
      rows := [];
      var n := MaxSeq(messages, id, transcripts);
      ghost var ms := MessagesOf(transcripts, id);
      for k := 1 to n + 1
        invariant rows == BackupRows(id, ms[..k - 1], from)
      {
        assert ms[..k][..k - 1] == ms[..k - 1];
        if k >= from {
          rows := rows + [Backup(id, k, messages[(id, k)])];
        }
      }
      assert ms[..n] == ms;
    }

    /** Delete the session row; messages and snapshots go with it. */
    method DeleteRow(id: Id)
      requires Valid()
      modifies this`sessions, this`messages, this`snapshots, this`transcripts
      ensures Valid() && sessions == old(sessions) - {id} && transcripts == old(transcripts) - {id}
      ensures snapshots == if id in old(sessions) then BackupsWithout(old(snapshots), id) else old(snapshots)
    {
      if id !in sessions {
        assert transcripts - {id} == transcripts;
        return;
      }
      DropRows(id);
      DropSnapshots(id);
    }

    method DropRows(id: Id)
      requires Valid()
      modifies this`sessions, this`messages, this`transcripts
      ensures Valid() && sessions == old(sessions) - {id} && transcripts == old(transcripts) - {id}
    {
      sessions := sessions - {id};
      messages := messages - (set k | k in messages && k.0 == id);
      transcripts := transcripts - {id};
    }

    method DropSnapshots(id: Id)
      modifies this`snapshots
      ensures snapshots == BackupsWithout(old(snapshots), id)
    {
      var kept := [];
      for i := 0 to |snapshots|
        modifies {}
        invariant kept == BackupsWithout(snapshots[..i], id)
      {
        assert snapshots[..i + 1][..i] == snapshots[..i];
        if snapshots[i].session_id != id {
          kept := kept + [snapshots[i]];
        }
      }
      assert snapshots[..|snapshots|] == snapshots;
      snapshots := kept;
    }

    // ----- Sessions and messages.

    method EnsureSession(id: Id, title: string, parent: Option<string>, now: int)
      returns (r: Result<Meta, SessionError>)
      requires Valid()
      modifies this
      ensures Valid()
      ensures Blank(id) || Blank(title) <==> r == Err(InvalidSessionId)
      ensures r.Err? ==> View() == old(View())
      ensures r.Ok? ==>
                View() == Ensured(old(View()), id, title,
                                  if parent.Some? && Blank(parent.value) then None else parent, now) &&
                id in sessions && r.value == sessions[id]
      ensures r.Ok? && id !in old(sessions) ==>
                (r.value.title, r.value.created_at, r.value.updated_at, r.value.turn_log) == (title, now, now, "") &&
                r.value.parent_id == (if parent.Some? && Blank(parent.value) then None else parent)
      ensures r.Ok? && id in old(sessions) ==> r.value == old(sessions)[id].(updated_at := now)
    {
      if Blank(id) || Blank(title) {
        return Err(InvalidSessionId);
      }
      var parent_id := if parent.Some? && Blank(parent.value) then None else parent;
      Upsert(id, if id in sessions then sessions[id].(updated_at := now) else Meta(title, parent_id, now, now, "", 0));
      return Ok(sessions[id]);
    }

    /** The assigned number is one more than the messages so far. */
    method AppendMessage(id: Id, role: Role, text: string, attachments: Option<string>, tool_calls: Option<string>,
                         now: int)
      returns (r: Result<(int, int), SessionError>)
      requires Valid()
      modifies this
      ensures Valid()
      ensures Blank(id) <==> r == Err(InvalidSessionId)
      ensures !Blank(id) && text == "" <==> r == Err(InvalidMessageText)
      ensures r.Err? ==> View() == old(View())
      ensures r.Ok? ==>
                r.value == (|MessagesOf(old(transcripts), id)| + 1, now) &&
                View() == Appended(old(View()), id, SessionMessage(role, text, now, attachments, tool_calls), now)
      ensures r.Ok? ==> transcripts == old(transcripts)[id := MessagesOf(old(transcripts), id) +
                                                          [SessionMessage(role, text, now, attachments, tool_calls)]]
      ensures !Blank(id) && text != "" ==> r.Ok?
    {
      if Blank(id) {
        return Err(InvalidSessionId);
      }
      if text == "" {
        return Err(InvalidMessageText);
      }
      var seq_ := AppendRow(id, SessionMessage(role, text, now, attachments, tool_calls), now);
      return Ok((seq_, now));
    }

    /** The transaction of an append. */
    method AppendRow(id: Id, m: SessionMessage, now: int) returns (seq_: nat)
      requires Valid() && !Blank(id)
      modifies this
      ensures Valid() && View() == Appended(old(View()), id, m, now)
      ensures transcripts == old(transcripts)[id := MessagesOf(old(transcripts), id) + [m]]
      ensures seq_ == |MessagesOf(old(transcripts), id)| + 1
    {
      ghost var ms := MessagesOf(transcripts, id);
      var meta := if id in sessions then sessions[id] else Meta(id, None, now, now, "", 0);
      AppendedIs(View(), id, m, now);
      LiveAfterUpdate(sessions, transcripts, id, meta.(updated_at := now), ms + [m]);
      seq_ := WriteRow(id, meta, m, now);
    }

    /** Make sure of the session row, number and insert the message, bump the session. */
    method WriteRow(id: Id, meta: Meta, m: SessionMessage, now: int) returns (seq_: nat)
      requires Valid() && !Blank(id) && (id in sessions ==> sessions[id] == meta)
      modifies this`sessions, this`messages, this`transcripts
      ensures Valid() && sessions == old(sessions)[id := meta.(updated_at := now)]
      ensures var ms := MessagesOf(old(transcripts), id);
              seq_ == |ms| + 1 && transcripts == old(transcripts)[id := ms + [m]]
    {
      ghost var ms := MessagesOf(transcripts, id);
      UpsertSession(id, meta);
      seq_ := InsertNext(id, m);
      UpsertSession(id, meta.(updated_at := now));
      UpdateTwice(old(transcripts), id, ms, ms + [m]);
      UpdateTwice(old(transcripts), id, ms + [m], ms + [m]);
      UpdateTwice(old(sessions), id, meta, meta.(updated_at := now));
    }

    method TruncateMessages(id: Id, from: int) returns (r: Result<nat, SessionError>)
      requires Valid()
      modifies this
      ensures Valid()
      ensures Blank(id) ==> r == Err(InvalidSessionId) && View() == old(View())
      ensures !Blank(id) ==> View() == Truncated(old(View()), id, from)
      ensures !Blank(id) ==> r == Ok(if id in old(transcripts)
                               then |old(transcripts)[id]| - Kept(from, |old(transcripts)[id]|) else 0)
    {
      if Blank(id) {
        return Err(InvalidSessionId);
      }
      var n := DeleteFrom(id, from);
      return Ok(n);
    }

    /** The dropped rows are backed up first; their number is reported. */
    method RewindMessages(id: Id, from: int) returns (r: Result<nat, SessionError>)
      requires Valid()
      modifies this
      ensures Valid()
      ensures Blank(id) ==> r == Err(InvalidSessionId) && View() == old(View())
      ensures !Blank(id) ==> View() == Rewound(old(View()), id, from)
      ensures !Blank(id) ==> r == Ok(|snapshots| - |old(snapshots)|)
    {
      if Blank(id) {
        return Err(InvalidSessionId);
      }
      var n := BackUpAndDelete(id, from);
      return Ok(n);
    }

    /** The transaction of a rewind. */
    method BackUpAndDelete(id: Id, from: int) returns (n: nat)
      requires Valid()
      modifies this`snapshots, this`messages, this`transcripts
      ensures Valid() && View() == Rewound(old(View()), id, from) && n == |snapshots| - |old(snapshots)|
    {
      RewoundIs(sessions, transcripts, decoded, snapshots, id, from);
      var rows := SelectFrom(id, from);
      snapshots := snapshots + rows;
      var deleted := DeleteFrom(id, from);
      n := |rows|;
      BackupRowsAre(id, MessagesOf(old(transcripts), id), from);
    }

    method DeleteSession(id: Id) returns (r: Result<bool, SessionError>)
      requires Valid()
      modifies this
      ensures Valid()
      ensures Blank(id) ==> r == Err(InvalidSessionId) && View() == old(View())
      ensures !Blank(id) ==> r == Ok(id in old(sessions)) && View() == Deleted(old(View()), id)
    {
      if Blank(id) {
        return Err(InvalidSessionId);
      }
      var existed := id in sessions;
      DeleteRow(id);
      return Ok(existed);
    }

    // ----- The cold archive.

    method TouchAccess(id: Id, now: int)
      requires Valid()
      modifies this`sessions
      ensures Valid() && View() == Touched(old(View()), id, now)
      ensures sessions == if id in old(sessions) then old(sessions)[id := old(sessions)[id].(last_access_ms := now)]
                          else old(sessions)
    {
      if id in sessions {
        sessions := sessions[id := sessions[id].(last_access_ms := now)];
        assert transcripts[id := transcripts[id]] == transcripts;
        LiveAfterUpdate(old(sessions), transcripts, id, sessions[id], transcripts[id]);
      }
    }

    /** `SELECT ... ORDER BY seq ASC` in archive shape. */
    method SelectArchived(id: Id) returns (out: seq<ArchivedMessage>)
      requires Valid() && id in sessions
      ensures out == ArchivedForm(transcripts[id])
    {
      out := [];
      var n := MaxSeq(messages, id, transcripts);
      for k := 1 to n + 1
        invariant out == ArchivedForm(transcripts[id][..k - 1])
      {
        assert transcripts[id][..k][..k - 1] == transcripts[id][..k - 1];
        out := out + [ArchivedMessageOf(messages[(id, k)], k)];
      }
      assert transcripts[id][..n] == transcripts[id];
    }

    /** Write and rename the archive file. */
    method WriteArchive(id: Id, session: ArchivedSession, ms: seq<ArchivedMessage>) returns (size: nat)
      requires Valid() && Numbered(ms)
      modifies this`archives, this`decoded
      ensures Valid() && archives.Keys == old(archives.Keys) + {id}
      ensures decoded == old(decoded)[id := DecodedArchive(session, ms)]
    {
      var payload := EncodeArchive(codec, session, ms);
      RoundTrip(codec, session, ms);
      size := |payload|;
      archives := archives[id := payload];
      decoded := decoded[id := DecodedArchive(session, ms)];
    }

    /** Whether an existing archive of `id` holds more than `n` messages. */
    method HoldsMore(id: Id, n: nat) returns (more: bool)
      requires Valid()
      ensures more <==> id in decoded && |decoded[id].messages| > n
    {
      if id !in archives {
        return false;
      }
      var old_ := DecodeArchive(codec, archives[id]);
      return old_.Ok? && |old_.value.messages| > n;
    }

    /**
     `archive_session`; with `crash` the process dies after the archive is written and before the rows are
     deleted, the point where both exist.
     */
    method ArchiveSession(id: Id, crash: bool) returns (r: Result<ArchiveReceipt, SessionError>)
      requires Valid()
      modifies this
      ensures Valid()
      ensures Blank(id) ==> r == Err(InvalidSessionId)
      ensures !Blank(id) && id !in old(sessions) ==> r == Err(DatabaseMissing)
      ensures !Blank(id) && id in old(sessions) && !CanArchive(old(View()), id) ==> r == Err(RefusingToShrink)
      ensures !Blank(id) && CanArchive(old(View()), id) ==>
                r.Ok? && r.value.session_id == id && r.value.messages == |old(transcripts)[id]| &&
                View() == if crash then ArchiveWritten(old(View()), id) else ArchivedAway(old(View()), id)
      ensures r.Err? ==> View() == old(View())
    {
      if Blank(id) {
        return Err(InvalidSessionId);
      }
      if id !in sessions {
        return Err(DatabaseMissing);
      }
      var ms := SelectArchived(id);
      var more := HoldsMore(id, |ms|);
      if more {
        return Err(RefusingToShrink);
      }
      var size := MoveOut(id, ms, crash);
      return Ok(ArchiveReceipt(id, |ms|, size));
    }

    /** Write the archive, then drop the rows. */
    method MoveOut(id: Id, ms: seq<ArchivedMessage>, crash: bool) returns (size: nat)
      requires Valid() && id in sessions && ms == ArchivedForm(transcripts[id]) && CanArchive(View(), id)
      modifies this
      ensures Valid()
      ensures View() == if crash then ArchiveWritten(old(View()), id) else ArchivedAway(old(View()), id)
    {
      ArchivedFormWellNumbered(transcripts[id]);
      size := WriteArchive(id, ArchivedSessionOf(id, sessions[id]), ms);
      if !crash {
        LiveAfterRemove(sessions, transcripts, id);
        DeleteRow(id);
      }
    }

    /** Every error in its order; otherwise the archived transcript is live again. */
    method RestoreSession(id: Id, now: int) returns (r: Result<Meta, SessionError>)
      requires Valid()
      modifies this
      ensures Valid()
      ensures r.Ok? <==> CanRestore(old(View()), id) && !Blank(id)
      ensures Blank(id) ==> r == Err(InvalidSessionId)
      ensures !Blank(id) && id !in old(archives) ==> r == Err(DatabaseMissing)
      ensures !Blank(id) && id in old(archives) && id !in old(decoded) ==> r == Err(Undecodable)
      ensures !Blank(id) && id in old(decoded) ==>
                (old(decoded)[id].session.id != id <==> r == Err(WrongSession)) &&
                (old(decoded)[id].session.id == id && id in old(sessions) <==> r == Err(AlreadyLive))
      ensures !Blank(id) && id in old(decoded) && old(decoded)[id].session.id == id && id !in old(sessions) ==>
                (!RolesKnown(old(decoded)[id].messages) <==> r == Err(UnknownRole))
      ensures r.Ok? ==> id in sessions && r.value == sessions[id] && View() == Restored(old(View()), id, now)
      ensures r.Ok? ==> RestoredFrom(View().live[id], old(decoded)[id], now) && r.value == View().live[id].meta
      ensures r.Err? ==> View() == old(View())
    {
      if Blank(id) {
        return Err(InvalidSessionId);
      }
      if id !in archives {
        return Err(DatabaseMissing);
      }
      var file := DecodeArchive(codec, archives[id]);
      if file.Err? {
        return Err(Undecodable);
      }
      if file.value.session.id != id {
        return Err(WrongSession);
      }
      if id in sessions {
        return Err(AlreadyLive);
      }
      if !RolesKnown(file.value.messages) {
        return Err(UnknownRole);
      }
      RestoredIsFrom(View(), id, now);
      MoveIn(id, file.value, now);
      return Ok(sessions[id]);
    }

    /** The transaction of a restore that goes through. */
    method MoveIn(id: Id, a: DecodedArchive, now: int)
      requires Valid() && !Blank(id) && id in decoded && a == decoded[id] && CanRestore(View(), id)
      modifies this
      ensures Valid() && id in sessions && View() == Restored(old(View()), id, now)
    {
      assert id !in sessions && Numbered(a.messages) && RolesKnown(a.messages);
      var s := a.session;
      var meta := Meta(s.title, s.parent_id, s.created_at, s.updated_at, s.turn_log, now);
      ghost var ms := RestoredMessages(a.messages);
      LiveAfterUpdate(sessions, transcripts, id, meta, ms);
      InsertRows(id, meta, a.messages);
    }

    /** Insert the session row, then its messages. */
    method InsertRows(id: Id, meta: Meta, ms: seq<ArchivedMessage>)
      requires Valid() && !Blank(id) && id !in sessions && Numbered(ms) && RolesKnown(ms)
      modifies this`sessions, this`messages, this`transcripts
      ensures Valid() && sessions == old(sessions)[id := meta]
      ensures transcripts == old(transcripts)[id := RestoredMessages(ms)]
    {
      UpsertSession(id, meta);
      InsertAll(id, ms);
      assert transcripts == old(transcripts)[id := RestoredMessages(ms)];
    }

    /** The insert loop of a restore, keeping the archived sequence numbers. */
    method InsertAll(id: Id, ms: seq<ArchivedMessage>)
      requires Valid() && id in sessions && transcripts[id] == [] && Numbered(ms) && RolesKnown(ms)
      modifies this`messages, this`transcripts
      ensures Valid() && transcripts == old(transcripts)[id := RestoredMessages(ms)]
    {
      for i := 0 to |ms|
        invariant Valid() && transcripts == old(transcripts)[id := RestoredMessages(ms[..i])]
      {
        RestoredNext(ms, i);
        InsertMessage(id, ms[i].seq_, RestoredMessage(ms[i]));
        UpdateTwice(old(transcripts), id, RestoredMessages(ms[..i]), RestoredMessages(ms[..i + 1]));
      }
      assert ms[..|ms|] == ms;
    }

    /** What a lookup leaves behind: a live session is touched, an archived one restored if it can be. */
    ghost function Opened(id: Id, now: int): Store
      reads this
    {
      if id in sessions then Touched(View(), id, now) else Restored(View(), id, now)
    }

    /** The archive of the session, if it decodes, is one this program wrote. */
    ghost predicate AsWritten(id: Id)
      reads this
    {
      id in decoded ==> WellNumbered(decoded[id].messages)
    }

    /** Neither live nor in an archive that cannot be restored. */
    ghost predicate CanOpen(id: Id)
      reads this
    {
      !Blank(id) && (id in sessions || id !in archives || CanRestore(View(), id))
    }

    /**
     `session`: a lookup touches a live session and restores an archived one; no history changes, but for the spelling
     of roles in an archive this program did not write.
     */
    method LookUp(id: Id, now: int) returns (r: Result<Option<Meta>, SessionError>)
      requires Valid()
      modifies this
      ensures Valid()
      ensures r.Ok? <==> old(CanOpen(id))
      ensures Blank(id) ==> r == Err(InvalidSessionId)
      ensures r.Ok? ==> (r.value.Some? <==> id in old(sessions) || id in old(archives))
      ensures r.Ok? ==> View() == old(Opened(id, now)) && (id in sessions <==> r.value.Some?)
      ensures id in old(sessions) ==> sessions == old(sessions)[id := old(sessions)[id].(last_access_ms := now)]
      ensures r.Err? ==> View() == old(View())
      ensures old(AsWritten(id)) ==> History(View(), id) == History(old(View()), id)
    {
      if Blank(id) {
        return Err(InvalidSessionId);
      }
      if id in sessions {
        var found := sessions[id];
        TouchAccess(id, now);
        return Ok(Some(found));
      }
      if id !in archives {
        return Ok(None);
      }
      var restored := RestoreSession(id, now);
      if restored.Err? {
        return Err(restored.error);
      }
      if old(AsWritten(id)) {
        RestoredFormIsSame(decoded[id].messages);
      }
      return Ok(Some(restored.value));
    }

    /** The last `limit` messages of a live or archived session, in ascending order. */
    method LoadMessages(id: Id, limit: nat, now: int) returns (r: Result<seq<(int, SessionMessage)>, SessionError>)
      requires Valid()
      modifies this
      ensures Valid()
      ensures Blank(id) ==> r == Err(InvalidSessionId)
      ensures !Blank(id) && (limit == 0 || limit > MAX_LIMIT) ==> r == Err(InvalidLimit)
      ensures r.Ok? <==> old(CanOpen(id)) && 0 < limit <= MAX_LIMIT
      ensures r.Err? ==> View() == old(View())
      ensures r.Ok? ==> View() == Touched(old(Opened(id, now)), id, now)
      ensures r.Ok? && id in sessions ==> sessions[id].last_access_ms == now
      ensures old(AsWritten(id)) ==> History(View(), id) == History(old(View()), id)
      ensures r.Ok? ==> IsTail(r.value, MessagesOf(transcripts, id), limit)
    {
      if Blank(id) {
        return Err(InvalidSessionId);
      }
      if limit == 0 || limit > MAX_LIMIT {
        return Err(InvalidLimit);
      }
      var found := OpenForRead(id, now);
      if found.Err? {
        return Err(found.error);
      }
      var rows := SelectTail(id, limit);
      return Ok(rows);
    }

    /** `restore_if_archived`, then record the access. */
    method OpenForRead(id: Id, now: int) returns (r: Result<bool, SessionError>)
      requires Valid() && !Blank(id)
      modifies this
      ensures Valid()
      ensures r.Ok? <==> old(CanOpen(id))
      ensures r.Err? ==> View() == old(View())
      ensures r.Ok? ==> View() == Touched(old(Opened(id, now)), id, now)
      ensures r.Ok? && id in sessions ==> sessions[id].last_access_ms == now
      ensures old(AsWritten(id)) ==> History(View(), id) == History(old(View()), id)
    {
      var found := LookUp(id, now);
      if found.Err? {
        return Err(found.error);
      }
      TouchAccess(id, now);
      return Ok(found.value.None?);
    }

    /** The newest rows, put back in order. */
    method SelectTail(id: Id, limit: nat) returns (tail: seq<(int, SessionMessage)>)
      requires Valid()
      ensures IsTail(tail, MessagesOf(transcripts, id), limit)
    {
      var rows := SelectDescending(id, limit);
      TailReversed(rows, MessagesOf(transcripts, id), limit);
      tail := Reversed(rows);
    }

    /** `SELECT ... ORDER BY seq DESC LIMIT ?2`. */
    method SelectDescending(id: Id, limit: nat) returns (rows: seq<(int, SessionMessage)>)
      requires Valid()
      ensures var ms := MessagesOf(transcripts, id);
              |rows| == (if limit <= |ms| then limit else |ms|) &&
              forall i :: 0 <= i < |rows| ==> rows[i] == (|ms| - i, ms[|ms| - i - 1])
    {
      rows := [];
      var n := MaxSeq(messages, id, transcripts);
      var k := n;
      while k > 0 && |rows| < limit
        invariant 0 <= k <= n && |rows| == n - k && |rows| <= limit
        invariant forall i :: 0 <= i < |rows| ==> rows[i] == (n - i, transcripts[id][n - i - 1])
      {
        rows := rows + [(k, messages[(id, k)])];
        k := k - 1;
      }
    }

    method Candidates() returns (cs: seq<Candidate>)
      requires Valid()
      ensures IsListing(cs, sessions) && Sorted(cs, RecentFirst)
    {
      var items: seq<Candidate> := [];
      var todo := sessions.Keys;
      while todo != {}
        invariant todo <= sessions.Keys
        invariant forall c :: c in items <==> c.0 in sessions.Keys - todo && c.1 == LastUse(sessions[c.0])
        invariant DistinctIds(items)
        decreases todo
      {
        var id :| id in todo;
        todo := todo - {id};
        items := items + [(id, LastUse(sessions[id]))];
      }
      cs := SortBy(items, RecentFirst);
      RecentFirstOrders();
      SortBySorted(items, RecentFirst);
      SortKeepsDistinct(items, RecentFirst, (c: Candidate) => c.0);
      forall c ensures c in cs <==> c in items {
        SameElements(items, RecentFirst, c);
      }
    }

    /**
     `compress_idle_sessions`: the first qualifying sessions up to the batch limit are archived in order; the first
     one whose archive holds more messages ends the sweep with the error, the ones before it stay archived and the
     ones after it are not touched.
     */
    method CompressIdleSessions(now: int, idle_ms: int, keep_recent: nat, max_sessions: nat)
      returns (r: Result<seq<ArchiveReceipt>, SessionError>, ghost cs: seq<Candidate>)
      requires Valid()
      modifies this
      ensures Valid()
      ensures IsListing(cs, old(sessions)) && Sorted(cs, RecentFirst)
      ensures SweepResult(r, old(View()), View(),
              Batch(cs, keep_recent, Cutoff(now, idle_ms), BatchLimit(max_sessions)))
    {
      var candidates := Candidates();
      cs := candidates;
      r := SweepCandidates(candidates, keep_recent, Cutoff(now, idle_ms), BatchLimit(max_sessions));
    }

    /** The loop over the candidates. */
    method SweepCandidates(candidates: seq<Candidate>, keep_recent: nat, cutoff: int, limit: nat)
      returns (r: Result<seq<ArchiveReceipt>, SessionError>)
      requires Valid()
      requires DistinctIds(candidates)
      requires forall k :: 0 <= k < |candidates| ==> candidates[k].0 in sessions
      modifies this
      ensures Valid()
      ensures SweepResult(r, old(View()), View(), Batch(candidates, keep_recent, cutoff, limit))
    {
      var receipts := [];
      ghost var st := View();
      for rank := 0 to |candidates|
        invariant Valid() && Sweeping(st, View(), candidates, rank, keep_recent, cutoff, limit, ReceiptIds(receipts))
      {
        if rank < keep_recent || candidates[rank].1 >= cutoff {
          Skips(st, View(), candidates, rank, keep_recent, cutoff, limit, ReceiptIds(receipts));
          continue;
        }
        if |receipts| >= limit {
          SweepFull(st, candidates, rank, keep_recent, cutoff, limit, receipts);
          return Ok(receipts);
        }
        var moved := SweepOne(candidates, rank, keep_recent, cutoff, limit, receipts, st);
        match moved
        case Ok(receipt) =>
          receipts := receipts + [receipt];
        case Err(DatabaseMissing) =>
        case Err(e) =>
          return Err(e);
      }
      SweepEnds(st, View(), candidates, keep_recent, cutoff, limit, receipts);
      return Ok(receipts);
    }

    /** One qualifying candidate, with room left in the batch. */
    method SweepOne(cs: seq<Candidate>, rank: nat, ghost keep: nat, ghost cutoff: int, ghost limit: nat,
                    ghost receipts: seq<ArchiveReceipt>, ghost st: Store)
      returns (r: Result<ArchiveReceipt, SessionError>)
      requires Valid() && rank < |cs| && Qualifies(cs, rank, keep, cutoff) && |receipts| < limit
      requires Sweeping(st, View(), cs, rank, keep, cutoff, limit, ReceiptIds(receipts))
      modifies this
      ensures Valid()
      ensures r.Ok? ==>
                Sweeping(st, View(), cs, rank + 1, keep, cutoff, limit, ReceiptIds(receipts + [r.value]))
      ensures r.Err? ==>
                r.error == RefusingToShrink && SweepResult(Err(r.error), st, View(), Batch(cs, keep, cutoff, limit))
    {
      NextToSweep(st, View(), cs, rank, keep, cutoff, limit, ReceiptIds(receipts));
      r := ArchiveSession(cs[rank].0, false);
    }
  }
}
