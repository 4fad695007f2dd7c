/**
 Newline-terminated JSON lines, as used by the cold archive and the turn log.  The
 JSON encoding of one line is a pair of functions with the properties a JSON object
 has: it parses back, it holds no line break, and no proper prefix of it parses.
 */
module Lines {
  import opened Wrappers

  type Byte = b: nat | b < 256
  type Bytes = seq<Byte>

  const NEWLINE: Byte := 10
  const CARRIAGE_RETURN: Byte := 13
  const OPEN_BRACE: Byte := 123

  datatype LineCodec<!L> = LineCodec(print_: L -> Bytes, parse: Bytes -> Option<L>)

  ghost predicate IsJsonLine<L(!new)>(c: LineCodec<L>, l: L) {
    var text := c.print_(l);
    && c.parse(text) == Some(l)
    && NEWLINE !in text && CARRIAGE_RETURN !in text
    && text != [] && text[0] == OPEN_BRACE
    && forall k :: 0 <= k < |text| ==> c.parse(text[..k]) == None
  }

  ghost predicate IsJson<L(!new)>(c: LineCodec<L>) {
    forall l :: IsJsonLine(c, l)
  }

  /** The printed lines, each followed by a line break. */
  function Terminated<L>(c: LineCodec<L>, ls: seq<L>): Bytes {
    if ls == [] then [] else c.print_(ls[0]) + [NEWLINE] + Terminated(c, ls[1..])
  }

  lemma {:induction false} TerminatedAppend<L>(c: LineCodec<L>, a: seq<L>, b: seq<L>)
    ensures Terminated(c, a + b) == Terminated(c, a) + Terminated(c, b)
  {
    if a == [] {
      assert a + b == b;
    } else {
      TerminatedAppend(c, a[1..], b);
      assert (a + b)[1..] == a[1..] + b;
    }
  }

  /** `split('\n')`. */
  function Split(bytes: Bytes): (r: seq<Bytes>)
    ensures r != []
  {
    if bytes == [] then [[]]
    else
      var rest := Split(bytes[1..]);
      if bytes[0] == NEWLINE then [[]] + rest else [[bytes[0]] + rest[0]] + rest[1..]
  }

  lemma {:induction false} SplitFirst(line: Bytes, rest: Bytes)
    requires NEWLINE !in line
    ensures Split(line + [NEWLINE] + rest) == [line] + Split(rest)
  {
    var all := line + [NEWLINE] + rest;
    if line == [] {
      assert all[1..] == rest;
    } else {
      SplitFirst(line[1..], rest);
      assert all[1..] == line[1..] + [NEWLINE] + rest;
      assert line == [line[0]] + line[1..];
    }
  }

  lemma {:induction false} SplitSingle(line: Bytes)
    requires NEWLINE !in line
    ensures Split(line) == [line]
  {
    if line != [] {
      SplitSingle(line[1..]);
      assert line == [line[0]] + line[1..];
    }
  }

  /** `rfind('\n')`. */
  function RFind(bytes: Bytes): (pos: Option<nat>)
    ensures pos.Some? ==> pos.value < |bytes| && bytes[pos.value] == NEWLINE && NEWLINE !in bytes[pos.value + 1..]
    ensures pos.None? ==> NEWLINE !in bytes
  {
    if bytes == [] then None
    else if bytes[|bytes| - 1] == NEWLINE then Some(|bytes| - 1)
    else
      assert bytes == bytes[..|bytes| - 1] + [bytes[|bytes| - 1]];
      RFind(bytes[..|bytes| - 1])
  }

  lemma {:induction false} RFindUnique(body: Bytes, last: Bytes)
    requires NEWLINE !in last
    ensures RFind(body + [NEWLINE] + last) == Some(|body|)
  {
    if last == [] {
      assert body + [NEWLINE] + last == body + [NEWLINE];
    } else {
      var front := last[..|last| - 1];
      assert (body + [NEWLINE] + last)[..|body + last|] == body + [NEWLINE] + front;
      RFindUnique(body, front);
    }
  }

  function StripNewline(bytes: Bytes): Bytes {
    if bytes != [] && bytes[|bytes| - 1] == NEWLINE then bytes[..|bytes| - 1] else bytes
  }

  /** Where a prefix of a printed file ends: inside (or at an end of) line `i`. */
  lemma {:induction false} PrefixEnds<L(!new)>(c: LineCodec<L>, ls: seq<L>, n: nat) returns (i: nat, k: nat)
    requires IsJson(c) && n < |Terminated(c, ls)|
    ensures i < |ls| && k <= |c.print_(ls[i])|
    ensures Terminated(c, ls)[..n] == Terminated(c, ls[..i]) + c.print_(ls[i])[..k]
    ensures i == |ls| - 1 && k == |c.print_(ls[i])| ==> n == |Terminated(c, ls)| - 1
  {
    var head := c.print_(ls[0]);
    var all := Terminated(c, ls);
    if n <= |head| {
      i, k := 0, n;
      assert all[..n] == head[..n];
      assert ls[..0] == [];
    } else {
      var rest := Terminated(c, ls[1..]);
      i, k := PrefixEnds(c, ls[1..], n - |head| - 1);
      assert all[..n] == head + [NEWLINE] + rest[..n - |head| - 1];
      assert ls[1..][i] == ls[i + 1] && ls[..i + 1][1..] == ls[1..][..i] && ls[..i + 1][0] == ls[0];
      i := i + 1;
    }
  }

  /** A printed file ends in its last line and a line break. */
  lemma LastLine<L>(c: LineCodec<L>, front: seq<L>, last: L)
    ensures Terminated(c, front + [last]) == Terminated(c, front) + c.print_(last) + [NEWLINE]
  {
    TerminatedAppend(c, front, [last]);
    assert [last][1..] == [];
    assert Terminated(c, [last]) == c.print_(last) + [NEWLINE];
  }

  function Printed<L>(c: LineCodec<L>, ls: seq<L>): seq<Bytes> {
    if ls == [] then [] else [c.print_(ls[0])] + Printed(c, ls[1..])
  }

  /** Splitting a printed file, without its final line break, gives back the printed lines. */
  lemma {:induction false} SplitTerminated<L(!new)>(c: LineCodec<L>, ls: seq<L>)
    requires IsJson(c) && ls != []
    ensures Terminated(c, ls) != []
    ensures Split(Terminated(c, ls)[..|Terminated(c, ls)| - 1]) == Printed(c, ls)
  {
    var text := c.print_(ls[0]);
    assert IsJsonLine(c, ls[0]);
    var t := Terminated(c, ls);
    if |ls| == 1 {
      assert ls[1..] == [];
      assert t == text + [NEWLINE] + Terminated(c, []);
      assert t[..|t| - 1] == text;
      SplitSingle(text);
    } else {
      SplitTerminated(c, ls[1..]);
      var rest := Terminated(c, ls[1..]);
      assert t[..|t| - 1] == text + [NEWLINE] + rest[..|rest| - 1];
      SplitFirst(text, rest[..|rest| - 1]);
    }
  }
}
