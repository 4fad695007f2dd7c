/**
 The durable turn log: run starts and ends, one JSON line each, and the crash repair
 that closes the runs a previous process left open.
 */
module TurnLog {
  import opened Wrappers
  import opened Lines
  import opened Sorting
  import Text

  datatype TurnRecord =
    | TurnStart(run_id: string, ts_ms: int)
    | TurnEnd(run_id: string, ts_ms: int, status: string)

  const ABORTED: string := "aborted"

  // ----- What is left open.

  /** Starts of `id` still unmatched after `log`, when every end closes one open start. */
  function Unmatched(log: seq<TurnRecord>, id: string): nat {
    if log == [] then 0
    else
      var before := Unmatched(log[..|log| - 1], id);
      var last := log[|log| - 1];
      if last.run_id != id then before
      else if last.TurnStart? then before + 1
      else if before == 0 then 0 else before - 1
  }

  /** Starts minus ends of `id` in a stretch of log. */
  function Balance(log: seq<TurnRecord>, id: string): int {
    if log == [] then 0
    else
      Balance(log[..|log| - 1], id) + Weight(log[|log| - 1], id)
  }

  function Weight(r: TurnRecord, id: string): int {
    if r.run_id != id then 0 else if r.TurnStart? then 1 else -1
  }

  lemma BalanceNext(log: seq<TurnRecord>, id: string, k: nat)
    requires k < |log|
    ensures Balance(log[k..], id) == Balance(log[..|log| - 1][k..], id) + Weight(log[|log| - 1], id)
  {
    assert log[k..][..|log| - k - 1] == log[..|log| - 1][k..];
  }

  lemma {:induction false} UnmatchedBounds(log: seq<TurnRecord>, id: string, k: nat)
    requires k <= |log|
    ensures Balance(log[k..], id) <= Unmatched(log, id)
  {
    if k < |log| {
      UnmatchedBounds(log[..|log| - 1], id, k);
      BalanceNext(log, id, k);
    } else {
      assert log[k..] == [];
    }
  }

  lemma {:induction false} UnmatchedAttained(log: seq<TurnRecord>, id: string) returns (k: nat)
    ensures k <= |log| && Balance(log[k..], id) == Unmatched(log, id)
  {
    k := |log|;
    assert log[k..] == [];
    if Unmatched(log, id) != 0 {
      k := UnmatchedAttained(log[..|log| - 1], id);
      if k == |log| - 1 {
        assert log[..|log| - 1][k..] == [];
      }
      BalanceNext(log, id, k);
    }
  }

  /** The unmatched starts are the largest surplus of starts over ends in any suffix of the log. */
  lemma UnmatchedIsLargestSurplus(log: seq<TurnRecord>, id: string)
    ensures forall k :: 0 <= k <= |log| ==> Balance(log[k..], id) <= Unmatched(log, id)
    ensures exists k :: 0 <= k <= |log| && Balance(log[k..], id) == Unmatched(log, id)
  {
    forall k | 0 <= k <= |log| ensures Balance(log[k..], id) <= Unmatched(log, id) {
      UnmatchedBounds(log, id, k);
    }
    var k := UnmatchedAttained(log, id);
  }

  // ----- The repair.

  type Open = seq<(string, int)>

  function CountOpen(open: Open, id: string): nat {
    if open == [] then 0 else (if open[0].0 == id then 1 else 0) + CountOpen(open[1..], id)
  }

  lemma {:induction false} CountOpenAppend(a: Open, b: Open, id: string)
    ensures CountOpen(a + b, id) == CountOpen(a, id) + CountOpen(b, id)
  {
    if a == [] {
      assert a + b == b;
    } else {
      CountOpenAppend(a[1..], b, id);
      assert (a + b)[1..] == a[1..] + b;
    }
  }

  /** `iter().rposition`: the last open instance of `id`. */
  function RPosition(open: Open, id: string): (pos: Option<nat>)
    ensures pos.Some? ==> pos.value < |open| && open[pos.value].0 == id
    ensures pos.None? ==> CountOpen(open, id) == 0
  {
    if open == [] then None
    else
      var front, last := open[..|open| - 1], open[|open| - 1];
      assert open == front + [last];
      CountOpenAppend(front, [last], id);
      if last.0 == id then Some(|open| - 1) else RPosition(front, id)
  }

  /** `Vec::swap_remove`: the last element moves into the gap. */
  function SwapRemove(open: Open, pos: nat): Open
    requires pos < |open|
  {
    open[pos := open[|open| - 1]][..|open| - 1]
  }

  lemma CountThree(a: Open, x: (string, int), b: Open, id: string)
    ensures CountOpen(a + [x] + b, id) == CountOpen(a, id) + (if x.0 == id then 1 else 0) + CountOpen(b, id)
  {
    CountOpenAppend(a + [x], b, id);
    CountOpenAppend(a, [x], id);
  }

  lemma SwapRemoveParts(open: Open, pos: nat)
    requires pos < |open| - 1
    ensures var a, b, last := open[..pos], open[pos + 1..|open| - 1], open[|open| - 1];
            open == a + [open[pos]] + (b + [last]) && SwapRemove(open, pos) == a + [last] + b
  {
  }

  /** Although it reorders the list, `swap_remove` takes away one instance and nothing else. */
  lemma SwapRemoveCounts(open: Open, pos: nat, id: string)
    requires pos < |open|
    ensures CountOpen(SwapRemove(open, pos), id) == CountOpen(open, id) - (if open[pos].0 == id then 1 else 0)
  {
    var a, last := open[..pos], open[|open| - 1];
    if pos == |open| - 1 {
      assert SwapRemove(open, pos) == a && open == a + [last] + [];
      CountThree(a, last, [], id);
    } else {
      var b := open[pos + 1..|open| - 1];
      SwapRemoveParts(open, pos);
      CountThree(a, open[pos], b + [last], id);
      CountThree(a, last, b, id);
      CountOpenAppend(b, [last], id);
    }
  }

  predicate OpenLe(a: (string, int), b: (string, int)) {
    a.1 < b.1 || (a.1 == b.1 && StringLe(a.0, b.0))
  }

  function CloserCount(log: seq<TurnRecord>, id: string): nat {
    if log == [] then 0 else (if log[0].run_id == id then 1 else 0) + CloserCount(log[1..], id)
  }

  ghost predicate AllAborted(closers: seq<TurnRecord>, ts: int) {
    forall c :: c in closers ==> c.TurnEnd? && c.status == "aborted" && c.ts_ms == ts
  }

  /** The closers end each run id exactly as often as starts of it are left unmatched. */
  ghost predicate Closes(closers: seq<TurnRecord>, log: seq<TurnRecord>) {
    forall id :: CloserCount(closers, id) == Unmatched(log, id)
  }

  ghost predicate Tracks(open: Open, log: seq<TurnRecord>) {
    forall id :: CountOpen(open, id) == Unmatched(log, id)
  }

  lemma TracksStart(open: Open, log: seq<TurnRecord>, run_id: string, ts_ms: int)
    requires Tracks(open, log)
    ensures Tracks(open + [(run_id, ts_ms)], log + [TurnStart(run_id, ts_ms)])
  {
    var log' := log + [TurnStart(run_id, ts_ms)];
    assert log'[..|log'| - 1] == log;
    forall id ensures CountOpen(open + [(run_id, ts_ms)], id) == Unmatched(log', id) {
      CountOpenAppend(open, [(run_id, ts_ms)], id);
    }
  }

  lemma TracksEnd(open: Open, log: seq<TurnRecord>, end: TurnRecord)
    requires Tracks(open, log) && end.TurnEnd?
    ensures var pos := RPosition(open, end.run_id);
            Tracks(if pos.Some? then SwapRemove(open, pos.value) else open, log + [end])
  {
    var log' := log + [end];
    assert log'[..|log'| - 1] == log;
    var pos := RPosition(open, end.run_id);
    assert CountOpen(open, end.run_id) == Unmatched(log, end.run_id);
    if pos.Some? {
      CountAtLeastOne(open, pos.value);
      forall id ensures CountOpen(SwapRemove(open, pos.value), id) == Unmatched(log', id) {
        SwapRemoveCounts(open, pos.value, id);
      }
    }
  }

  /**
   `interrupted_run_closers`: per run id exactly as many aborted ends as starts left unmatched, all
   with the time of the last record.
   */
  method InterruptedRunClosers(log: seq<TurnRecord>) returns (closers: seq<TurnRecord>)
    ensures Closes(closers, log)
    ensures log == [] ==> closers == []
    ensures log != [] ==> AllAborted(closers, log[|log| - 1].ts_ms)
  {
    var open: Open := [];
    for i := 0 to |log|
      invariant Tracks(open, log[..i])
    {
      assert log[..i + 1] == log[..i] + [log[i]];
      match log[i] {
        case TurnStart(run_id, ts_ms) =>
          TracksStart(open, log[..i], run_id, ts_ms);
          open := open + [(run_id, ts_ms)];
        case TurnEnd(run_id, _, _) =>
          TracksEnd(open, log[..i], log[i]);
          var pos := RPosition(open, run_id);
          if pos.Some? {
            open := SwapRemove(open, pos.value);
          }
      }
    }
    assert log[..|log|] == log;
    if log == [] {
      return [];
    }
    var ts := log[|log| - 1].ts_ms;
    var sorted := SortBy(open, OpenLe);
    closers := [];
    for i := 0 to |sorted|
      invariant closers == AbortedEnds(sorted[..i], ts)
    {
      assert sorted[..i + 1][..i] == sorted[..i];
      closers := closers + [TurnEnd(sorted[i].0, ts, ABORTED)];
    }
    assert sorted[..|sorted|] == sorted;
    forall id ensures CloserCount(closers, id) == Unmatched(log, id) {
      AbortedEndsCount(sorted, ts, id);
      CountOpenSorted(open, id);
    }
  }

  function AbortedEnds(open: Open, ts: int): (closers: seq<TurnRecord>)
    ensures AllAborted(closers, ts)
  {
    if open == [] then []
    else AbortedEnds(open[..|open| - 1], ts) + [TurnEnd(open[|open| - 1].0, ts, ABORTED)]
  }

  lemma {:induction false} AbortedEndsCount(open: Open, ts: int, id: string)
    ensures CloserCount(AbortedEnds(open, ts), id) == CountOpen(open, id)
  {
    if open != [] {
      var front, last := open[..|open| - 1], open[|open| - 1];
      assert open == front + [last];
      AbortedEndsCount(front, ts, id);
      CountOpenAppend(front, [last], id);
      CloserCountAppend(AbortedEnds(front, ts), [TurnEnd(last.0, ts, ABORTED)], id);
    }
  }

  lemma CountAtLeastOne(open: Open, pos: nat)
    requires pos < |open|
    ensures CountOpen(open, open[pos].0) >= 1
  {
    assert open == open[..pos] + ([open[pos]] + open[pos + 1..]);
    CountOpenAppend(open[..pos], [open[pos]] + open[pos + 1..], open[pos].0);
  }

  lemma {:induction false} CountOpenInsert(x: (string, int), s: Open, id: string)
    ensures CountOpen(Insert(x, s, OpenLe), id) == CountOpen([x] + s, id)
  {
    if s != [] && !OpenLe(x, s[0]) {
      CountOpenInsert(x, s[1..], id);
    }
  }

  lemma {:induction false} CountOpenSorted(s: Open, id: string)
    ensures CountOpen(SortBy(s, OpenLe), id) == CountOpen(s, id)
  {
    if s != [] {
      CountOpenSorted(s[1..], id);
      CountOpenInsert(s[0], SortBy(s[1..], OpenLe), id);
    }
  }

  lemma {:induction false} CloserCountAppend(a: seq<TurnRecord>, b: seq<TurnRecord>, id: string)
    ensures CloserCount(a + b, id) == CloserCount(a, id) + CloserCount(b, id)
  {
    if a == [] {
      assert a + b == b;
    } else {
      CloserCountAppend(a[1..], b, id);
      assert (a + b)[1..] == a[1..] + b;
    }
  }

  // ----- Repairing once is enough.

  /** Ends appended to a log close that many open runs of each id. */
  lemma {:induction false} EndsClose(log: seq<TurnRecord>, ends: seq<TurnRecord>, id: string)
    requires forall e :: e in ends ==> e.TurnEnd?
    ensures var n := Unmatched(log, id);
            Unmatched(log + ends, id) == if CloserCount(ends, id) >= n then 0 else n - CloserCount(ends, id)
  {
    if ends == [] {
      assert log + ends == log;
    } else {
      var front, last := ends[..|ends| - 1], ends[|ends| - 1];
      EndsClose(log, front, id);
      assert log + ends == (log + front) + [last];
      assert ends == front + [last];
      CloserCountAppend(front, [last], id);
      UnmatchedAfterEnd(log + front, last, id);
    }
  }

  lemma UnmatchedAfterEnd(log: seq<TurnRecord>, end: TurnRecord, id: string)
    requires end.TurnEnd?
    ensures var n := Unmatched(log, id);
            Unmatched(log + [end], id) == if end.run_id == id && n > 0 then n - 1 else n
  {
  }

  /** Appending the closers balances the log. */
  lemma RepairBalances(log: seq<TurnRecord>, closers: seq<TurnRecord>, id: string)
    requires Closes(closers, log) && forall c :: c in closers ==> c.TurnEnd?
    ensures Unmatched(log + closers, id) == 0
  {
    EndsClose(log, closers, id);
  }

  /** Repairing a repaired log adds no record. */
  lemma RepairIdempotent(log: seq<TurnRecord>, closers: seq<TurnRecord>, again: seq<TurnRecord>)
    requires Closes(closers, log) && forall c :: c in closers ==> c.TurnEnd?
    requires Closes(again, log + closers)
    ensures again == []
  {
    if again != [] {
      RepairBalances(log, closers, again[0].run_id);
      CloserCountPositive(again);
    }
  }

  lemma CloserCountPositive(closers: seq<TurnRecord>)
    requires closers != []
    ensures CloserCount(closers, closers[0].run_id) > 0
  {
  }

  // ----- The stored form.

  type Codec = LineCodec<TurnRecord>

  predicate Blank(line: Bytes) {
    forall b :: b in line ==> 9 <= b <= 13 || b == 32
  }

  /** `str::lines` drops a carriage return before the line break. */
  function Line(line: Bytes): Bytes {
    if line != [] && line[|line| - 1] == CARRIAGE_RETURN then line[..|line| - 1] else line
  }

  /** The records of the non-blank lines, or the number of the first line that is no record. */
  function RecordsOf(c: Codec, lines: seq<Bytes>, number: nat): Result<seq<TurnRecord>, nat>
    decreases |lines|
  {
    if lines == [] then Ok([])
    else if Blank(Line(lines[0])) then RecordsOf(c, lines[1..], number + 1)
    else if c.parse(Line(lines[0])).None? then Err(number + 1)
    else
      match RecordsOf(c, lines[1..], number + 1)
      case Err(n) => Err(n)
      case Ok(rest) => Ok([c.parse(Line(lines[0])).value] + rest)
  }

  function DecodedLog(c: Codec, text: Bytes): Result<seq<TurnRecord>, nat> {
    RecordsOf(c, Split(text), 0)
  }

  /** `encode_turn_log`. */
  method EncodeTurnLog(c: Codec, records: seq<TurnRecord>) returns (text: Bytes)
    ensures text == Terminated(c, records)
  {
    text := [];
    for i := 0 to |records|
      invariant text == Terminated(c, records[..i])
    {
      LastLine(c, records[..i], records[i]);
      assert records[..i + 1] == records[..i] + [records[i]];
      text := text + c.print_(records[i]);
      text := text + [NEWLINE];
    }
    assert records[..|records|] == records;
  }

  /** `decode_turn_log`. */
  method DecodeTurnLog(c: Codec, text: Bytes) returns (r: Result<seq<TurnRecord>, nat>)
    ensures r == DecodedLog(c, text)
  {
    var out := [];
    var lines := Split(text);
    assert forall rest: seq<TurnRecord> :: [] + rest == rest;
    for i := 0 to |lines|
      invariant DecodedLog(c, text) ==
                match RecordsOf(c, lines[i..], i) case Err(n) => Err(n) case Ok(rest) => Ok(out + rest)
    {
      assert lines[i..][1..] == lines[i + 1..];
      var line := Line(lines[i]);
      if Blank(line) {
        continue;
      }
      var record := c.parse(line);
      if record.None? {
        return Err(i + 1);
      }
      assert forall rest :: out + ([record.value] + rest) == out + [record.value] + rest;
      out := out + [record.value];
    }
    assert out + [] == out;
    return Ok(out);
  }

  lemma {:induction false} RecordsRoundTrip(c: Codec, records: seq<TurnRecord>, number: nat)
    requires IsJson(c)
    ensures RecordsOf(c, Printed(c, records) + [[]], number) == Ok(records)
    decreases |records|
  {
    var lines := Printed(c, records) + [[]];
    if records == [] {
      assert lines[1..] == [];
    } else {
      assert IsJsonLine(c, records[0]);
      var text := c.print_(records[0]);
      assert lines[0] == text && lines[1..] == Printed(c, records[1..]) + [[]];
      assert Line(text) == text && text[0] in text;
      RecordsRoundTrip(c, records[1..], number + 1);
      assert [records[0]] + records[1..] == records;
    }
  }

  /** Decoding undoes encoding, and appending encoded records appends the records. */
  lemma LogRoundTrip(c: Codec, a: seq<TurnRecord>, b: seq<TurnRecord>)
    requires IsJson(c)
    ensures DecodedLog(c, Terminated(c, a)) == Ok(a)
    ensures Terminated(c, a) + Terminated(c, b) == Terminated(c, a + b)
  {
    TerminatedAppend(c, a, b);
    SplitWhole(c, a);
    RecordsRoundTrip(c, a, 0);
  }

  lemma {:induction false} SplitWhole(c: Codec, ls: seq<TurnRecord>)
    requires IsJson(c)
    ensures Split(Terminated(c, ls)) == Printed(c, ls) + [[]]
  {
    if ls != [] {
      assert IsJsonLine(c, ls[0]);
      SplitFirst(c.print_(ls[0]), Terminated(c, ls[1..]));
      SplitWhole(c, ls[1..]);
    }
  }

  function TextRecords(c: Codec, text: Bytes): seq<TurnRecord> {
    var r := DecodedLog(c, text);
    if r.Ok? then r.value else []
  }

  /** Nothing is left over after the last line break. */
  predicate EndsLine(text: Bytes) { text == [] || text[|text| - 1] == NEWLINE }

  lemma {:induction false} SplitJoin(a: Bytes, b: Bytes)
    requires EndsLine(a)
    ensures var lines := Split(a);
            lines[|lines| - 1] == [] && Split(a + b) == lines[..|lines| - 1] + Split(b)
  {
    if a == [] {
      assert a + b == b;
    } else {
      SplitJoin(a[1..], b);
      assert (a + b)[1..] == a[1..] + b;
      if |a| > 1 {
        SplitSeveral(a[1..]);
      }
      JoinNext(a[0], Split(a[1..]), Split(b));
    }
  }

  /** One more byte in front of a text that splits into `rest`. */
  function Extended(x: Byte, rest: seq<Bytes>): seq<Bytes>
    requires rest != []
  {
    if x == NEWLINE then [[]] + rest else [[x] + rest[0]] + rest[1..]
  }

  lemma JoinNext(x: Byte, rest: seq<Bytes>, more: seq<Bytes>)
    requires rest != [] && more != [] && rest[|rest| - 1] == [] && (x == NEWLINE || |rest| >= 2)
    ensures var lines := Extended(x, rest);
            lines[|lines| - 1] == [] && Extended(x, rest[..|rest| - 1] + more) == lines[..|lines| - 1] + more
  {
  }

  lemma {:induction false} SplitSeveral(a: Bytes)
    requires a != [] && EndsLine(a)
    ensures |Split(a)| >= 2
  {
    if |a| > 1 {
      SplitSeveral(a[1..]);
    }
  }

  lemma {:induction false} RecordsJoin(c: Codec, a: seq<Bytes>, b: seq<Bytes>, number: nat)
    requires RecordsOf(c, a, number).Ok? && RecordsOf(c, b, number + |a|).Ok?
    ensures RecordsOf(c, a + b, number) ==
            Ok(RecordsOf(c, a, number).value + RecordsOf(c, b, number + |a|).value)
    decreases |a|
  {
    if a == [] {
      assert a + b == b;
      assert [] + RecordsOf(c, b, number).value == RecordsOf(c, b, number).value;
    } else {
      RecordsJoin(c, a[1..], b, number + 1);
      assert (a + b)[1..] == a[1..] + b && (a + b)[0] == a[0];
      if !Blank(Line(a[0])) {
        var x := c.parse(Line(a[0])).value;
        var rest, more := RecordsOf(c, a[1..], number + 1).value, RecordsOf(c, b, number + |a|).value;
        assert [x] + rest + more == [x] + (rest + more);
      }
    }
  }

  lemma {:induction false} FrontRecords(c: Codec, a: seq<Bytes>, number: nat)
    requires a != [] && a[|a| - 1] == [] && RecordsOf(c, a, number).Ok?
    ensures RecordsOf(c, a[..|a| - 1], number) == RecordsOf(c, a, number)
    decreases |a|
  {
    var front := a[..|a| - 1];
    if |a| > 1 {
      FrontRecords(c, a[1..], number + 1);
      assert front[1..] == a[1..][..|a| - 2];
    } else {
      assert a[1..] == [];
    }
  }

  /** Appending encoded records to a log that decodes appends the records, whatever spelling the log has. */
  lemma AppendDecodes(c: Codec, text: Bytes, records: seq<TurnRecord>)
    requires IsJson(c) && DecodedLog(c, text).Ok? && EndsLine(text)
    ensures DecodedLog(c, text + Terminated(c, records)) == Ok(TextRecords(c, text) + records)
  {
    var lines := Split(text);
    SplitJoin(text, Terminated(c, records));
    FrontRecords(c, lines, 0);
    AppendLines(c, lines[..|lines| - 1], records);
  }

  lemma AppendLines(c: Codec, front: seq<Bytes>, records: seq<TurnRecord>)
    requires IsJson(c) && RecordsOf(c, front, 0).Ok?
    ensures RecordsOf(c, front + Split(Terminated(c, records)), 0) == Ok(RecordsOf(c, front, 0).value + records)
  {
    SplitWhole(c, records);
    RecordsRoundTrip(c, records, |front|);
    RecordsJoin(c, front, Printed(c, records) + [[]], 0);
  }

  lemma {:induction false} TerminatedEndsLine(c: Codec, records: seq<TurnRecord>)
    ensures EndsLine(Terminated(c, records))
  {
    if records != [] {
      TerminatedEndsLine(c, records[1..]);
    }
  }

  /** `after` is `before` with exactly the missing aborted ends appended. */
  ghost predicate Repaired(before: seq<TurnRecord>, after: seq<TurnRecord>) {
    && before <= after
    && Closes(after[|before|..], before)
    && (if before == [] then after == [] else AllAborted(after[|before|..], before[|before| - 1].ts_ms))
  }

  /** A repaired log has no open run, and repairing it again changes nothing. */
  lemma RepairedStays(before: seq<TurnRecord>, after: seq<TurnRecord>, again: seq<TurnRecord>)
    requires Repaired(before, after)
    ensures forall run :: Unmatched(after, run) == 0
    ensures Repaired(after, again) ==> again == after
  {
    var closers := after[|before|..];
    assert after == before + closers;
    forall run ensures Unmatched(after, run) == 0 {
      RepairBalances(before, closers, run);
    }
    if Repaired(after, again) {
      assert again == after + again[|after|..];
      RepairIdempotent(before, closers, again[|after|..]);
    }
  }

  /** A log without open runs stays as it is. */
  lemma BalancedStays(before: seq<TurnRecord>, after: seq<TurnRecord>)
    requires Repaired(before, after) && forall run :: Unmatched(before, run) == 0
    ensures after == before
  {
    var closers := after[|before|..];
    assert after == before + closers;
    if closers != [] {
      CloserCountPositive(closers);
    }
  }

  /** What an append stores: the records come after a log that decodes, and instead of one that does not. */
  function AppendedText(c: Codec, existing: Bytes, records: seq<TurnRecord>): Bytes {
    (if DecodedLog(c, existing).Ok? then existing else []) + Terminated(c, records)
  }

  /** The stored log is kept exactly when it decodes. */
  lemma AppendKeepsLogIffReadable(c: Codec, existing: Bytes, records: seq<TurnRecord>)
    ensures AppendedText(c, existing, records) == existing + Terminated(c, records) <==> DecodedLog(c, existing).Ok?
  {
    if existing == [] {
      EmptyDecodes(c);
    }
  }

  lemma EmptyDecodes(c: Codec)
    ensures DecodedLog(c, []) == Ok([])
  {
    assert Blank(Line([])) && Split([])[1..] == [];
  }

  lemma BraceParses(c: Codec, r: TurnRecord)
    requires IsJsonLine(c, r)
    ensures c.parse([OPEN_BRACE]) == if c.print_(r) == [OPEN_BRACE] then Some(r) else None
  {
    var text := c.print_(r);
    assert text[..1] == [OPEN_BRACE];
    assert |text| == 1 ==> text == text[..1];
  }

  /** No record is printed as a single brace, as there is more than one. */
  lemma BraceIsNoRecord(c: Codec)
    requires IsJson(c)
    ensures c.parse([OPEN_BRACE]) == None
  {
    BraceParses(c, TurnStart("", 0));
    BraceParses(c, TurnStart("", 1));
  }

  /**
   The concrete case: a record followed by a torn line, of which only the opening brace was written.  The log decodes
   before the torn line; with it the next append drops the record as well.
   */
  lemma TornLineLosesLog(c: Codec, good: TurnRecord, more: seq<TurnRecord>)
    requires IsJson(c)
    ensures var torn := Terminated(c, [good]) + [OPEN_BRACE];
            DecodedLog(c, Terminated(c, [good])) == Ok([good]) && DecodedLog(c, torn) == Err(2) &&
            AppendedText(c, torn, more) == Terminated(c, more) && DecodedLog(c, AppendedText(c, torn, more)) == Ok(more)
  {
    LogRoundTrip(c, [good], more);
    LogRoundTrip(c, more, []);
    TornLine(c, good);
  }

  lemma TornLine(c: Codec, good: TurnRecord)
    requires IsJson(c)
    ensures DecodedLog(c, Terminated(c, [good]) + [OPEN_BRACE]) == Err(2)
  {
    BraceIsNoRecord(c);
    var line := c.print_(good);
    assert IsJsonLine(c, good);
    assert [good][1..] == [];
    assert Terminated(c, [good]) + [OPEN_BRACE] == line + [NEWLINE] + [OPEN_BRACE];
    SplitFirst(line, [OPEN_BRACE]);
    SplitSingle([OPEN_BRACE]);
    assert Line(line) == line && line[0] in line;
    assert Line([OPEN_BRACE]) == [OPEN_BRACE] && [OPEN_BRACE][0] in [OPEN_BRACE];
    assert ([line] + [[OPEN_BRACE]])[1..] == [[OPEN_BRACE]];
    assert RecordsOf(c, [[OPEN_BRACE]], 1) == Err(2);
  }

  /** The `turn_log` column of the sessions table. */
  class TurnLogs {
    var logs: map<string, Bytes>
    const codec: Codec

    constructor (codec: Codec)
      ensures logs == map[] && this.codec == codec
    {
      this.codec := codec;
      logs := map[];
    }

    /** Logs are written in whole lines; one that does not decode may be anything. */
    ghost predicate Valid()
      reads this
    {
      && IsJson(codec)
      && forall id :: id in logs ==> !Text.Blank(id) && (Readable(id) ==> EndsLine(logs[id]))
    }

    predicate Readable(id: string)
      reads this
    {
      id in logs && DecodedLog(codec, logs[id]).Ok?
    }

    function Records(id: string): seq<TurnRecord>
      reads this
    {
      if id in logs then TextRecords(codec, logs[id]) else []
    }

    /** `append_turn_log`: a missing session is a no-op, an undecodable prefix is dropped. */
    method AppendTurnLog(id: string, records: seq<TurnRecord>) returns (ok: bool)
      requires Valid()
      modifies this`logs
      ensures Valid()
      ensures ok <==> records == [] || !Text.Blank(id)
      ensures records == [] || id !in old(logs) ==> logs == old(logs)
      ensures records != [] && id in old(logs) ==>
                logs == old(logs)[id := AppendedText(codec, old(logs)[id], records)] &&
                Readable(id) && Records(id) == old(Records(id)) + records
    {
      if records == [] {
        return true;
      }
      if Text.Blank(id) {
        return false;
      }
      ok := true;
      var appended := EncodeTurnLog(codec, records);
      if id !in logs {
        return;
      }
      var existing := logs[id];
      var prefix := [];
      if existing != [] {
        var decoded := DecodeTurnLog(codec, existing);
        prefix := if decoded.Ok? then existing else [];
      }
      PrefixDecodes(codec, existing, prefix, records);
      logs := logs[id := prefix + appended];
    }

    /** `repair_interrupted_runs`: every readable log gets exactly its missing ends, an unreadable one is left alone. */
    method RepairInterruptedRuns()
      requires Valid()
      modifies this`logs
      ensures Valid() && logs.Keys == old(logs.Keys)
      ensures forall id :: id in logs ==> OneRepaired(codec, old(logs)[id], logs[id])
      ensures forall id :: id in logs ==> old(Records(id)) <= Records(id)
      ensures forall id, run :: id in logs ==> Unmatched(Records(id), run) == 0
    {
      var todo := logs.Keys;
      while todo != {}
        invariant Valid() && logs.Keys == old(logs.Keys) && todo <= logs.Keys
        invariant forall id :: id in todo ==> logs[id] == old(logs)[id]
        invariant forall id :: id in logs && id !in todo ==> OneRepaired(codec, old(logs)[id], logs[id])
        decreases todo
      {
        var id :| id in todo;
        RepairOne(id);
        todo := todo - {id};
      }
      forall id | id in logs ensures old(Records(id)) <= Records(id) && forall run :: Unmatched(Records(id), run) == 0 {
        RepairedTextBalances(codec, old(logs)[id], logs[id]);
      }
    }

    /** The body of the repair loop. */
    method RepairOne(id: string)
      requires Valid() && id in logs
      modifies this`logs
      ensures Valid() && id in logs && logs == old(logs)[id := logs[id]]
      ensures OneRepaired(codec, old(logs)[id], logs[id])
    {
      var records := DecodeTurnLog(codec, logs[id]);
      if records.Err? {
        return;
      }
      var closers := InterruptedRunClosers(records.value);
      if closers == [] {
        assert records.value + [] == records.value;
        return;
      }
      var ok := AppendTurnLog(id, closers);
    }
  }

  lemma PrefixDecodes(c: Codec, existing: Bytes, prefix: Bytes, records: seq<TurnRecord>)
    requires IsJson(c) && (DecodedLog(c, existing).Ok? ==> EndsLine(existing))
    requires prefix == if existing != [] && DecodedLog(c, existing).Ok? then existing else []
    ensures DecodedLog(c, prefix + Terminated(c, records)) == Ok(TextRecords(c, existing) + records)
    ensures EndsLine(prefix + Terminated(c, records))
  {
    EmptyDecodes(c);
    assert TextRecords(c, prefix) == TextRecords(c, existing) && DecodedLog(c, prefix).Ok?;
    AppendDecodes(c, prefix, records);
    TerminatedEndsLine(c, records);
  }

  /** What the repair makes of one stored log; a log that needs no record keeps its very text. */
  ghost predicate OneRepaired(c: Codec, before: Bytes, after: Bytes) {
    if DecodedLog(c, before).Err? then after == before
    else
      && DecodedLog(c, after).Ok? && Repaired(TextRecords(c, before), TextRecords(c, after))
      && (TextRecords(c, after) == TextRecords(c, before) ==> after == before)
  }

  lemma RepairedTextBalances(c: Codec, before: Bytes, after: Bytes)
    requires OneRepaired(c, before, after)
    ensures TextRecords(c, before) <= TextRecords(c, after)
    ensures forall run :: Unmatched(TextRecords(c, after), run) == 0
  {
    if DecodedLog(c, before).Ok? {
      RepairedStays(TextRecords(c, before), TextRecords(c, after), []);
    }
  }

  /** Repairing the stored log twice is repairing it once, to the byte. */
  lemma RepairTwice(c: Codec, before: Bytes, after: Bytes, again: Bytes)
    requires OneRepaired(c, before, after) && OneRepaired(c, after, again)
    ensures again == after
  {
    if DecodedLog(c, before).Ok? {
      RepairedStays(TextRecords(c, before), TextRecords(c, after), TextRecords(c, again));
    }
  }
}
