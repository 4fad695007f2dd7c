/** The run ledger: append-only run records that are settled at most once, read by cursor and by time. */
module RunLedger {
  import opened Wrappers
  import opened Stats

  /** The next number is new; records loaded from a file may be in any order and, without a number, have number 0. */
  ghost predicate Below(runs: seq<RunRecord>, next_seq: int) {
    forall r :: r in runs ==> r.seq_ < next_seq
  }

  /** A record after a finish of `run_id`: settled records are never rewritten. */
  function Finished(r: RunRecord, run_id: string, at: int, status: string): RunRecord {
    if r.run_id == run_id && r.finished_at_ms.None? then r.(finished_at_ms := Some(at), status := Some(status)) else r
  }

  function FinishAll(runs: seq<RunRecord>, run_id: string, at: int, status: string): (r: seq<RunRecord>)
    ensures |r| == |runs|
    ensures forall i :: 0 <= i < |runs| ==> r[i] == Finished(runs[i], run_id, at, status)
  {
    if runs == [] then []
    else FinishAll(runs[..|runs| - 1], run_id, at, status) + [Finished(runs[|runs| - 1], run_id, at, status)]
  }

  /** The first finish of a run is the one that stands. */
  lemma FirstFinishStands(runs: seq<RunRecord>, run_id: string, at: int, status: string, at': int, status': string)
    ensures FinishAll(FinishAll(runs, run_id, at, status), run_id, at', status') == FinishAll(runs, run_id, at, status)
  {
  }

  function After(runs: seq<RunRecord>, cursor: int): seq<RunRecord> {
    Select(runs, (r: RunRecord) => r.seq_ > cursor)
  }

  function NextCursor(runs: seq<RunRecord>, cursor: int): int {
    if runs == [] then cursor else runs[|runs| - 1].seq_
  }

  lemma {:induction false} AfterJoins(a: seq<RunRecord>, b: seq<RunRecord>, cursor: int)
    ensures After(a + b, cursor) == After(a, cursor) + After(b, cursor)
  {
    if b == [] {
      assert a + b == a;
    } else {
      AfterJoins(a, b[..|b| - 1], cursor);
      assert (a + b)[..|a + b| - 1] == a + b[..|b| - 1];
    }
  }

  lemma AfterNext(runs: seq<RunRecord>, r: RunRecord, cursor: int)
    ensures After(runs + [r], cursor) == After(runs, cursor) + (if r.seq_ > cursor then [r] else [])
  {
    assert (runs + [r])[..|runs + [r]| - 1] == runs;
  }

  /** A read skips nothing exactly when every number is above the cursor. */
  lemma {:induction false} SkipsNothingIff(runs: seq<RunRecord>, cursor: int)
    ensures |After(runs, cursor)| <= |runs|
    ensures After(runs, cursor) == runs <==> forall r :: r in runs ==> r.seq_ > cursor
  {
    if runs != [] {
      var front, last := runs[..|runs| - 1], runs[|runs| - 1];
      assert runs == front + [last];
      SkipsNothingIff(front, cursor);
      AfterNext(front, last, cursor);
    }
  }

  lemma {:induction false} ReadsNothingIff(runs: seq<RunRecord>, cursor: int)
    ensures After(runs, cursor) == [] <==> forall r :: r in runs ==> r.seq_ <= cursor
  {
    if runs != [] {
      var front, last := runs[..|runs| - 1], runs[|runs| - 1];
      assert runs == front + [last];
      ReadsNothingIff(front, cursor);
      AfterNext(front, last, cursor);
    }
  }

  /** `now` begins with the records of `runs`, settled or not. */
  ghost predicate Continues(now: seq<RunRecord>, runs: seq<RunRecord>) {
    |runs| <= |now| && forall i :: 0 <= i < |runs| ==> now[i].seq_ == runs[i].seq_
  }

  /** No record has a higher number than the last one. */
  ghost predicate LastIsHighest(runs: seq<RunRecord>) {
    runs != [] ==> forall r :: r in runs ==> r.seq_ <= runs[|runs| - 1].seq_
  }

  /**
   Reading from the cursor a read returned yields exactly the records appended in between, whatever was settled
   meanwhile, if and only if the last record had the highest number (or there was none, and the caller's own cursor
   was below the new ones); successive reads then neither skip nor repeat a record.
   */
  lemma CursorCoversAppendsIff(runs: seq<RunRecord>, next_seq: int, cursor: int, now: seq<RunRecord>)
    requires Below(runs, next_seq)
    requires Continues(now, runs) && forall r :: r in now[|runs|..] ==> r.seq_ >= next_seq
    ensures After(now, NextCursor(runs, cursor)) == now[|runs|..] <==>
            if runs == [] then forall r :: r in now ==> r.seq_ > cursor else LastIsHighest(runs)
  {
    var next := NextCursor(runs, cursor);
    if runs == [] {
      assert now[|runs|..] == now;
      SkipsNothingIff(now, next);
    } else {
      assert runs[|runs| - 1] in runs;
      ReadAgain(runs, next, now[..|runs|], now[|runs|..]);
      assert now == now[..|runs|] + now[|runs|..];
    }
  }

  lemma ReadAgain(runs: seq<RunRecord>, next: int, before: seq<RunRecord>, more: seq<RunRecord>)
    requires |before| == |runs| && forall i :: 0 <= i < |runs| ==> before[i].seq_ == runs[i].seq_
    requires forall r :: r in more ==> r.seq_ > next
    ensures After(before + more, next) == more <==> forall r :: r in runs ==> r.seq_ <= next
  {
    AfterJoins(before, more, next);
    SkipsNothingIff(more, next);
    ReadsNothingIff(before, next);
    SameNumbers(before, runs, next);
    assert |After(before, next) + more| == |After(before, next)| + |more|;
    assert [] + more == more;
  }

  lemma SameNumbers(a: seq<RunRecord>, b: seq<RunRecord>, cursor: int)
    requires |a| == |b| && forall i :: 0 <= i < |a| ==> a[i].seq_ == b[i].seq_
    ensures (forall r :: r in a ==> r.seq_ <= cursor) <==> (forall r :: r in b ==> r.seq_ <= cursor)
  {
    if forall r :: r in b ==> r.seq_ <= cursor {
      forall r | r in a ensures r.seq_ <= cursor {
        var i :| 0 <= i < |a| && a[i] == r;
        assert b[i] in b;
      }
    }
    if forall r :: r in a ==> r.seq_ <= cursor {
      forall r | r in b ensures r.seq_ <= cursor {
        var i :| 0 <= i < |b| && b[i] == r;
        assert a[i] in a;
      }
    }
  }

  /** One new record puts the highest number last again, and settling runs changes no number. */
  lemma LastStaysHighest(runs: seq<RunRecord>, next_seq: int, record: RunRecord, run_id: string, at: int,
                         status: string)
    requires Below(runs, next_seq) && record.seq_ == next_seq
    ensures LastIsHighest(runs + [record])
    ensures LastIsHighest(FinishAll(runs, run_id, at, status)) <==> LastIsHighest(runs)
  {
    if runs != [] {
      SameNumbers(FinishAll(runs, run_id, at, status), runs, runs[|runs| - 1].seq_);
    }
  }

  /** A ledger file whose last record lacks its number: the first read skips that record, the next repeats the other. */
  lemma MissingNumberSkipsAndRepeats(a: RunRecord, b: RunRecord)
    requires a.seq_ == 1 && b.seq_ == 0
    ensures After([a, b], 0) == [a] && NextCursor([a, b], 0) == 0 && After([a, b], NextCursor([a, b], 0)) == [a]
    ensures !LastIsHighest([a, b])
  {
    AfterNext([], a, 0);
    AfterNext([a], b, 0);
    assert [] + [a] == [a] && [a] + [b] == [a, b];
    assert a in [a, b];
  }

  class RunLedger {
    var runs: seq<RunRecord>
    var next_seq: int

    ghost predicate Valid()
      reads this
    {
      Below(runs, next_seq) && next_seq > 0
    }

    /** `open_for_socket` on the records of the file. */
    constructor (records: seq<RunRecord>)
      ensures Valid() && runs == records
    {
      var max_seq := 0;
      for i := 0 to |records|
        invariant max_seq >= 0
        invariant forall k :: 0 <= k < i ==> records[k].seq_ <= max_seq
      {
        if records[i].seq_ > max_seq {
          max_seq := records[i].seq_;
        }
      }
      runs := records;
      next_seq := max_seq + 1;
    }

    method Start(run_id: string, session_id: string, started_at_ms: int) returns (record: RunRecord)
      requires Valid()
      modifies this
      ensures Valid() && runs == old(runs) + [record] && next_seq == old(next_seq) + 1
      ensures record == RunRecord(old(next_seq), run_id, session_id, started_at_ms, None, None)
      ensures HasOpen(session_id)
    {
      record := RunRecord(next_seq, run_id, session_id, started_at_ms, None, None);
      next_seq := next_seq + 1;
      runs := runs + [record];
      assert runs[|runs| - 1] == record;
    }

    method Finish(run_id: string, finished_at_ms: int, status: string)
      requires Valid()
      modifies this`runs
      ensures Valid() && runs == FinishAll(old(runs), run_id, finished_at_ms, status)
      ensures |runs| == |old(runs)| && forall i :: 0 <= i < |runs| ==>
                runs[i] == if old(runs)[i].run_id == run_id && old(runs)[i].finished_at_ms == None
                           then old(runs)[i].(finished_at_ms := Some(finished_at_ms), status := Some(status))
                           else old(runs)[i]
    {
      for i := 0 to |runs|
        invariant |runs| == |old(runs)|
        invariant forall k :: 0 <= k < |runs| ==>
                    runs[k] == if k < i then Finished(old(runs)[k], run_id, finished_at_ms, status) else old(runs)[k]
      {
        if runs[i].run_id == run_id {
          if runs[i].finished_at_ms.Some? {
            continue;
          }
          runs := runs[i := runs[i].(finished_at_ms := Some(finished_at_ms), status := Some(status))];
        }
      }
    }

    ghost predicate HasOpen(session_id: string)
      reads this
    {
      exists r :: r in runs && r.session_id == session_id && r.finished_at_ms.None?
    }

    method HasOpenRun(session_id: string) returns (open: bool)
      ensures open <==> HasOpen(session_id)
    {
      open := false;
      for i := 0 to |runs|
        invariant open <==> exists r :: r in runs[..i] && r.session_id == session_id && r.finished_at_ms.None?
      {
        assert runs[..i + 1] == runs[..i] + [runs[i]];
        open := open || (runs[i].session_id == session_id && runs[i].finished_at_ms.None?);
      }
      assert runs[..|runs|] == runs;
    }

    method SnapshotSince(floor_ms: int) returns (snapshot: seq<RunRecord>)
      ensures snapshot == Since(runs, floor_ms)
    {
      snapshot := [];
      for i := 0 to |runs|
        invariant snapshot == Since(runs[..i], floor_ms)
      {
        assert runs[..i + 1][..i] == runs[..i];
        if runs[i].started_at_ms >= floor_ms {
          snapshot := snapshot + [runs[i]];
        }
      }
      assert runs[..|runs|] == runs;
    }

    method ReadFromCursor(cursor: int) returns (remaining: seq<RunRecord>, next_cursor: int)
      ensures remaining == After(runs, cursor) && next_cursor == NextCursor(runs, cursor)
    {
      remaining := [];
      for i := 0 to |runs|
        invariant remaining == After(runs[..i], cursor)
      {
        assert runs[..i + 1][..i] == runs[..i];
        if runs[i].seq_ > cursor {
          remaining := remaining + [runs[i]];
        }
      }
      assert runs[..|runs|] == runs;
      next_cursor := if runs == [] then cursor else runs[|runs| - 1].seq_;
    }

    /** `stats` aggregates a snapshot only, and reports what the whole ledger would. */
    method Stats(range: string, now: int) returns (s: StatsSummary)
      requires forall r :: r in runs ==> r.started_at_ms >= I64_MIN
      ensures s == Summary(runs, range, now)
    {
      var window := ParseStatsRange(range);
      var floor := SnapshotFloor(window, now);
      var snapshot := SnapshotSince(floor);
      SnapshotSuffices(runs, range, now);
      s := AggregateStats(snapshot, range, now);
    }
  }
}
