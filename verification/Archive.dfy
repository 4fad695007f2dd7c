/**
 The cold archive of one session: a header line, one line per message and a trailer
 whose checksum covers everything before it.  Compression is not part of the model.
 */
module Archive {
  import opened Wrappers
  import opened Lines
  import opened Checksum

  datatype ArchivedMessage = ArchivedMessage(
    seq_: int, role: string, text: string, created_at: int, attachments: Option<string>)

  datatype ArchivedSession = ArchivedSession(
    id: string, title: string, parent_id: Option<string>, created_at: int, updated_at: int,
    turn_log: string, last_access_ms: int)

  datatype ArchiveLine =
    | Header(session: ArchivedSession, message_count: nat)
    | Message(message: ArchivedMessage)
    | Trailer(checksum: string)

  datatype ArchiveError =
    | NoTrailerLine | MalformedTrailer | LastLineNotTrailer | ChecksumMismatch
    | MalformedLine | DuplicateHeader | TrailerBeforeEnd | NoHeader | CountMismatch

  datatype DecodedArchive = DecodedArchive(session: ArchivedSession, messages: seq<ArchivedMessage>)

  type Codec = LineCodec<ArchiveLine>

  // ----- Encoding.

  function MessageLines(messages: seq<ArchivedMessage>): seq<ArchiveLine> {
    if messages == [] then [] else [Message(messages[0])] + MessageLines(messages[1..])
  }

  function BodyOf(session: ArchivedSession, messages: seq<ArchivedMessage>): (ls: seq<ArchiveLine>)
    ensures ls != []
  {
    [Header(session, |messages|)] + MessageLines(messages)
  }

  /** What the checksum covers: the body without its last line break. */
  function Covered(c: Codec, session: ArchivedSession, messages: seq<ArchivedMessage>): Bytes
  {
    var body := Terminated(c, BodyOf(session, messages));
    body[..|body| - 1]
  }

  function AllLines(c: Codec, session: ArchivedSession, messages: seq<ArchivedMessage>): seq<ArchiveLine> {
    BodyOf(session, messages) + [Trailer(HexSum(Covered(c, session, messages)))]
  }

  /** The file contents. */
  function Encoded(c: Codec, session: ArchivedSession, messages: seq<ArchivedMessage>): Bytes {
    Terminated(c, AllLines(c, session, messages))
  }

  /** `encode_archive` before compression. */
  method EncodeArchive(c: Codec, session: ArchivedSession, messages: seq<ArchivedMessage>) returns (lines: Bytes)
    ensures lines == Encoded(c, session, messages)
  {
    lines := [];
    var body := BodyOf(session, messages);
    for i := 0 to |body|
      invariant lines == Terminated(c, body[..i])
    {
      lines := lines + c.print_(body[i]);
      lines := lines + [NEWLINE];
      LastLine(c, body[..i], body[i]);
      assert body[..i + 1] == body[..i] + [body[i]];
    }
    assert body[..|body|] == body;
    var sum := ChecksumOf(lines[..|lines| - 1]);
    LastLine(c, body, Trailer(sum));
    lines := lines + c.print_(Trailer(sum));
    lines := lines + [NEWLINE];
  }

  // ----- Decoding.

  datatype Scan = Scan(session: Option<ArchivedSession>, declared: nat, messages: seq<ArchivedMessage>)

  /** One body line. */
  function ScanLine(c: Codec, s: Scan, line: Bytes): Result<Scan, ArchiveError> {
    match c.parse(line)
    case None => Err(MalformedLine)
    case Some(Header(session, count)) =>
      if s.session.Some? then Err(DuplicateHeader) else Ok(s.(session := Some(session), declared := count))
    case Some(Message(m)) => Ok(s.(messages := s.messages + [m]))
    case Some(Trailer(_)) => Err(TrailerBeforeEnd)
  }

  /** The non-empty lines of the body in order; the first bad one ends the scan. */
  function ScanLines(c: Codec, s: Scan, lines: seq<Bytes>): Result<Scan, ArchiveError>
    decreases |lines|
  {
    if lines == [] then Ok(s)
    else if lines[0] == [] then ScanLines(c, s, lines[1..])
    else
      var r := ScanLine(c, s, lines[0]);
      if r.Err? then r else ScanLines(c, r.value, lines[1..])
  }

  /** The bytes before the last line break, and the line after it. */
  function TrailerCut(raw: Bytes): Option<(Bytes, Bytes)> {
    var text := StripNewline(raw);
    var cut := RFind(text);
    if cut.None? then None else Some((text[..cut.value], text[cut.value + 1..]))
  }

  function Decoded(c: Codec, raw: Bytes): Result<DecodedArchive, ArchiveError> {
    match TrailerCut(raw)
    case None => Err(NoTrailerLine)
    case Some((body, last)) =>
      Assembled(c.parse(last), HexSum(body), ScanLines(c, Scan(None, 0, []), Split(body)))
  }

  /** The verdict on the last line, the checksum of the body, and the scan over it. */
  function Assembled(last: Option<ArchiveLine>, sum: string, scan: Result<Scan, ArchiveError>)
    : Result<DecodedArchive, ArchiveError>
  {
    match last
    case None => Err(MalformedTrailer)
    case Some(Header(_, _)) => Err(LastLineNotTrailer)
    case Some(Message(_)) => Err(LastLineNotTrailer)
    case Some(Trailer(expected)) =>
      if sum != expected then Err(ChecksumMismatch)
      else if scan.Err? then Err(scan.error)
      else if scan.value.session.None? then Err(NoHeader)
      else if |scan.value.messages| != scan.value.declared then Err(CountMismatch)
      else Ok(DecodedArchive(scan.value.session.value, scan.value.messages))
  }

  /** `decode_archive` after decompression. */
  method DecodeArchive(c: Codec, raw: Bytes) returns (r: Result<DecodedArchive, ArchiveError>)
    ensures r == Decoded(c, raw)
  {
    var text := StripNewline(raw);
    var cut := RFind(text);
    if cut.None? {
      return Err(NoTrailerLine);
    }
    var body := text[..cut.value];
    var last := c.parse(text[cut.value + 1..]);
    if last.None? {
      return Err(MalformedTrailer);
    }
    if !last.value.Trailer? {
      return Err(LastLineNotTrailer);
    }
    var sum := ChecksumOf(body);
    if sum != last.value.checksum {
      return Err(ChecksumMismatch);
    }
    var session: Option<ArchivedSession> := None;
    var declared: nat := 0;
    var messages := [];
    var lines := Split(body);
    for i := 0 to |lines|
      invariant ScanLines(c, Scan(None, 0, []), lines) == ScanLines(c, Scan(session, declared, messages), lines[i..])
    {
      assert lines[i..][1..] == lines[i + 1..];
      if lines[i] == [] {
        continue;
      }
      var line := c.parse(lines[i]);
      if line.None? {
        return Err(MalformedLine);
      }
      match line.value {
        case Header(s, message_count) =>
          if session.Some? {
            return Err(DuplicateHeader);
          }
          declared := message_count;
          session := Some(s);
        case Message(message) =>
          messages := messages + [message];
        case Trailer(_) =>
          return Err(TrailerBeforeEnd);
      }
    }
    if session.None? {
      return Err(NoHeader);
    }
    if |messages| != declared {
      return Err(CountMismatch);
    }
    return Ok(DecodedArchive(session.value, messages));
  }

  // ----- Which files decode, and to what.

  /** The file is `body`, a line break and a last line, with or without a final line break. */
  ghost predicate CutsInto(raw: Bytes, body: Bytes, last: Bytes) {
    && NEWLINE !in last
    && (raw == body + [NEWLINE] + last + [NEWLINE] || (raw == body + [NEWLINE] + last && last != []))
  }

  /** What the non-empty lines say. */
  function Parsed(c: Codec, lines: seq<Bytes>): seq<Option<ArchiveLine>> {
    if lines == [] then []
    else (if lines[0] == [] then [] else [c.parse(lines[0])]) + Parsed(c, lines[1..])
  }

  ghost predicate AreMessages(ls: seq<Option<ArchiveLine>>, messages: seq<ArchivedMessage>) {
    |ls| == |messages| && forall i :: 0 <= i < |ls| ==> ls[i] == Some(Message(messages[i]))
  }

  /** One header, wherever it stands, that declares as many messages as there are; the others are these in order. */
  ghost predicate Tells(ls: seq<Option<ArchiveLine>>, session: ArchivedSession, messages: seq<ArchivedMessage>) {
    exists h :: HeaderAt(ls, h, session, |messages|) && AreMessages(ls[..h] + ls[h + 1..], messages)
  }

  ghost predicate HeaderAt(ls: seq<Option<ArchiveLine>>, h: int, session: ArchivedSession, count: nat) {
    0 <= h < |ls| && ls[h] == Some(Header(session, count))
  }

  /** The scan over parsed lines. */
  function ScanParsed(s: Scan, ls: seq<Option<ArchiveLine>>): Option<Scan>
    decreases |ls|
  {
    if ls == [] then Some(s)
    else
      match ls[0]
      case None => None
      case Some(Header(session, count)) =>
        if s.session.Some? then None else ScanParsed(s.(session := Some(session), declared := count), ls[1..])
      case Some(Message(m)) => ScanParsed(s.(messages := s.messages + [m]), ls[1..])
      case Some(Trailer(_)) => None
  }

  lemma {:induction false} ScanIsParsed(c: Codec, s: Scan, lines: seq<Bytes>)
    ensures ScanLines(c, s, lines).Ok? <==> ScanParsed(s, Parsed(c, lines)).Some?
    ensures ScanLines(c, s, lines).Ok? ==> ScanParsed(s, Parsed(c, lines)).value == ScanLines(c, s, lines).value
    decreases |lines|
  {
    if lines != [] {
      if lines[0] == [] {
        assert Parsed(c, lines) == Parsed(c, lines[1..]);
        ScanIsParsed(c, s, lines[1..]);
      } else {
        var r := ScanLine(c, s, lines[0]);
        assert Parsed(c, lines)[1..] == Parsed(c, lines[1..]);
        if r.Ok? {
          ScanIsParsed(c, r.value, lines[1..]);
        }
      }
    }
  }

  /** After the header only messages may follow. */
  lemma {:induction false} ScanAfterHeader(s: Scan, ls: seq<Option<ArchiveLine>>, t: Scan)
    requires s.session.Some?
    ensures ScanParsed(s, ls) == Some(t) <==>
              t == s.(messages := t.messages) && s.messages <= t.messages && AreMessages(ls, t.messages[|s.messages|..])
    decreases |ls|
  {
    if ls == [] {
      assert t.messages == s.messages <==> s.messages <= t.messages && t.messages[|s.messages|..] == [];
    } else if ls[0].Some? && ls[0].value.Message? {
      var m := ls[0].value.message;
      var s' := s.(messages := s.messages + [m]);
      ScanAfterHeader(s', ls[1..], t);
      MessagesNext(s.messages, m, ls, t.messages);
    }
  }

  lemma MessagesNext(before: seq<ArchivedMessage>, m: ArchivedMessage, ls: seq<Option<ArchiveLine>>,
                     after: seq<ArchivedMessage>)
    requires ls != [] && ls[0] == Some(Message(m))
    ensures before + [m] <= after && AreMessages(ls[1..], after[|before| + 1..]) <==>
              before <= after && AreMessages(ls, after[|before|..])
  {
    if before <= after && |before| < |after| {
      var rest := after[|before|..];
      assert after == before + rest && rest[1..] == after[|before| + 1..];
      if AreMessages(ls, rest) {
        assert ls[0] == Some(Message(rest[0]));
        assert before + [m] == after[..|before| + 1];
        assert forall i :: 0 <= i < |ls[1..]| ==> ls[1..][i] == ls[i + 1];
      }
      if before + [m] <= after && AreMessages(ls[1..], rest[1..]) {
        assert rest[0] == after[|before|] == (before + [m])[|before|] == m;
        forall i | 0 <= i < |ls| ensures ls[i] == Some(Message(rest[i])) {
          assert i > 0 ==> ls[i] == ls[1..][i - 1];
        }
      }
    }
  }

  /** What the lines around the header at `h` add to the messages before. */
  ghost predicate TellsAfter(s: Scan, ls: seq<Option<ArchiveLine>>, t: Scan, h: int) {
    && t.session.Some? && HeaderAt(ls, h, t.session.value, t.declared)
    && s.messages <= t.messages && AreMessages(ls[..h] + ls[h + 1..], t.messages[|s.messages|..])
  }

  lemma OthersFirst(ls: seq<Option<ArchiveLine>>, h: int)
    requires 0 < h < |ls|
    ensures (ls[..h] + ls[h + 1..])[0] == ls[0]
  {
  }

  lemma HeaderFirst(s: Scan, ls: seq<Option<ArchiveLine>>, t: Scan, h: int)
    requires ls != [] && ls[0].Some? && ls[0].value.Header? && TellsAfter(s, ls, t, h)
    ensures h == 0
  {
    if h > 0 {
      OthersFirst(ls, h);
    }
  }

  lemma HeaderLater(s: Scan, ls: seq<Option<ArchiveLine>>, t: Scan, m: ArchivedMessage, h: int)
    requires ls != [] && ls[0] == Some(Message(m))
    ensures TellsAfter(s, ls, t, h) <==> TellsAfter(s.(messages := s.messages + [m]), ls[1..], t, h - 1)
  {
    if 0 < h < |ls| {
      var others := ls[..h] + ls[h + 1..];
      assert others[0] == ls[0] && others[1..] == ls[1..][..h - 1] + ls[1..][h..];
      MessagesNext(s.messages, m, others, t.messages);
    }
  }

  lemma {:induction false} ScanBeforeHeader(s: Scan, ls: seq<Option<ArchiveLine>>, t: Scan)
    requires s.session.None?
    ensures ScanParsed(s, ls) == Some(t) && t.session.Some? <==> exists h :: TellsAfter(s, ls, t, h)
    decreases |ls|
  {
    if ls != [] && ls[0].Some? && ls[0].value.Message? {
      ScanBeforeHeader(s.(messages := s.messages + [ls[0].value.message]), ls[1..], t);
      forall h ensures TellsAfter(s, ls, t, h) <==>
                       TellsAfter(s.(messages := s.messages + [ls[0].value.message]), ls[1..], t, h - 1)
      {
        HeaderLater(s, ls, t, ls[0].value.message, h);
      }
      if h :| TellsAfter(s.(messages := s.messages + [ls[0].value.message]), ls[1..], t, h) {
        assert TellsAfter(s, ls, t, h + 1);
      }
    } else if ls != [] && ls[0].Some? && ls[0].value.Header? {
      var header := ls[0].value;
      ScanAfterHeader(s.(session := Some(header.session), declared := header.message_count), ls[1..], t);
      assert ls[..0] + ls[1..] == ls[1..];
      if h :| TellsAfter(s, ls, t, h) {
        HeaderFirst(s, ls, t, h);
      }
      assert ScanParsed(s, ls) == Some(t) ==> TellsAfter(s, ls, t, 0);
    } else {
      if h :| TellsAfter(s, ls, t, h) {
        NoSuchLine(s, ls, t, h);
      }
    }
  }

  lemma NoSuchLine(s: Scan, ls: seq<Option<ArchiveLine>>, t: Scan, h: int)
    requires TellsAfter(s, ls, t, h)
    ensures ls[0].Some? && !ls[0].value.Trailer?
  {
    if h > 0 {
      OthersFirst(ls, h);
    }
  }

  lemma CutIs(raw: Bytes, body: Bytes, last: Bytes)
    ensures TrailerCut(raw) == Some((body, last)) <==> CutsInto(raw, body, last)
  {
    if CutsInto(raw, body, last) {
      var text := body + [NEWLINE] + last;
      assert StripNewline(raw) == text;
      RFindUnique(body, last);
      assert text[..|body|] == body && text[|body| + 1..] == last;
    }
    if TrailerCut(raw) == Some((body, last)) {
      IsCut(raw, body, last);
    }
  }

  lemma IsCut(raw: Bytes, body: Bytes, last: Bytes)
    requires TrailerCut(raw) == Some((body, last))
    ensures CutsInto(raw, body, last)
  {
    var text := StripNewline(raw);
    var cut := RFind(text).value;
    assert text == text[..cut] + [text[cut]] + text[cut + 1..];
    assert text == raw || raw == text + [NEWLINE];
  }

  lemma BodyTells(c: Codec, lines: seq<Bytes>, d: DecodedArchive)
    ensures var r := ScanLines(c, Scan(None, 0, []), lines);
            (r.Ok? && r.value == Scan(Some(d.session), |d.messages|, d.messages)) <==>
            Tells(Parsed(c, lines), d.session, d.messages)
  {
    var ls, s, t := Parsed(c, lines), Scan(None, 0, []), Scan(Some(d.session), |d.messages|, d.messages);
    ScanIsParsed(c, s, lines);
    ScanBeforeHeader(s, ls, t);
    assert d.messages[0..] == d.messages;
    if h :| HeaderAt(ls, h, d.session, |d.messages|) && AreMessages(ls[..h] + ls[h + 1..], d.messages) {
      assert TellsAfter(s, ls, t, h);
    }
  }

  /** The last line is a trailer with the checksum of the body, and the body holds this session and these messages. */
  ghost predicate Holds(c: Codec, body: Bytes, last: Bytes, d: DecodedArchive) {
    c.parse(last) == Some(Trailer(HexSum(body))) && Tells(Parsed(c, Split(body)), d.session, d.messages)
  }

  lemma AssembledIs(last: Option<ArchiveLine>, sum: string, scan: Result<Scan, ArchiveError>, d: DecodedArchive)
    ensures Assembled(last, sum, scan) == Ok(d) <==>
              last == Some(Trailer(sum)) && scan == Ok(Scan(Some(d.session), |d.messages|, d.messages))
  {
  }

  lemma DecodesCut(c: Codec, raw: Bytes, body: Bytes, last: Bytes, d: DecodedArchive)
    requires TrailerCut(raw) == Some((body, last))
    ensures Decoded(c, raw) == Ok(d) <==> Holds(c, body, last, d)
  {
    AssembledIs(c.parse(last), HexSum(body), ScanLines(c, Scan(None, 0, []), Split(body)), d);
    BodyTells(c, Split(body), d);
  }

  /**
   A file decodes exactly if its last line is a trailer with the checksum of the body before it and the non-empty lines
   of the body are one header and as many messages as it declares; the result is that session and those messages.
   */
  lemma DecodesExactly(c: Codec, raw: Bytes, d: DecodedArchive)
    ensures Decoded(c, raw) == Ok(d) <==> exists body, last :: CutsInto(raw, body, last) && Holds(c, body, last, d)
  {
    if TrailerCut(raw).Some? {
      var (body, last) := TrailerCut(raw).value;
      CutIs(raw, body, last);
      DecodesCut(c, raw, body, last, d);
    }
    if body, last :| CutsInto(raw, body, last) && Holds(c, body, last, d) {
      CutIs(raw, body, last);
    }
  }

  // ----- Round trip.

  lemma EncodedCut(c: Codec, session: ArchivedSession, messages: seq<ArchivedMessage>)
    ensures var body := Covered(c, session, messages);
            Encoded(c, session, messages) ==
            body + [NEWLINE] + c.print_(Trailer(HexSum(body))) + [NEWLINE]
  {
    var body := BodyOf(session, messages);
    var covered := Covered(c, session, messages);
    LastLine(c, body, Trailer(HexSum(covered)));
    EndsInNewline(c, body);
  }

  lemma EndsInNewline(c: Codec, ls: seq<ArchiveLine>)
    requires ls != []
    ensures var t := Terminated(c, ls); t != [] && t == t[..|t| - 1] + [NEWLINE]
  {
  }

  lemma {:induction false} MessagesScan(c: Codec, s: Scan, messages: seq<ArchivedMessage>)
    requires IsJson(c)
    ensures ScanLines(c, s, Printed(c, MessageLines(messages))) == Ok(s.(messages := s.messages + messages))
    decreases |messages|
  {
    if messages == [] {
      assert s.messages + messages == s.messages;
    } else {
      var line := Message(messages[0]);
      var ls := MessageLines(messages);
      assert IsJsonLine(c, line);
      assert ls[0] == line && ls[1..] == MessageLines(messages[1..]);
      var next := s.(messages := s.messages + [messages[0]]);
      MessagesScan(c, next, messages[1..]);
      var texts := Printed(c, ls);
      assert texts[0] == c.print_(line) && texts[1..] == Printed(c, ls[1..]);
      assert next.messages + messages[1..] == s.messages + messages;
    }
  }

  lemma BodyScan(c: Codec, session: ArchivedSession, messages: seq<ArchivedMessage>)
    requires IsJson(c)
    ensures ScanLines(c, Scan(None, 0, []), Split(Covered(c, session, messages))) ==
            Ok(Scan(Some(session), |messages|, messages))
  {
    var ls := BodyOf(session, messages);
    var head := Header(session, |messages|);
    SplitTerminated(c, ls);
    assert IsJsonLine(c, head);
    assert ls[0] == head && ls[1..] == MessageLines(messages);
    var texts := Printed(c, ls);
    assert texts[0] == c.print_(head) && texts[1..] == Printed(c, ls[1..]);
    MessagesScan(c, Scan(Some(session), |messages|, []), messages);
    assert [] + messages == messages;
  }

  /** Decoding undoes encoding. */
  lemma RoundTrip(c: Codec, session: ArchivedSession, messages: seq<ArchivedMessage>)
    requires IsJson(c)
    ensures Decoded(c, Encoded(c, session, messages)) == Ok(DecodedArchive(session, messages))
  {
    var body := Covered(c, session, messages);
    EncodedCut(c, session, messages);
    CutAfterBody(c, body, Trailer(HexSum(body)));
    BodyScan(c, session, messages);
  }

  lemma CutAfterBody(c: Codec, body: Bytes, trailer: ArchiveLine)
    requires IsJson(c)
    ensures TrailerCut(body + [NEWLINE] + c.print_(trailer) + [NEWLINE]) == Some((body, c.print_(trailer)))
    ensures c.parse(c.print_(trailer)) == Some(trailer)
  {
    assert IsJsonLine(c, trailer);
    var last := c.print_(trailer);
    var text := body + [NEWLINE] + last;
    assert StripNewline(text + [NEWLINE]) == text;
    RFindUnique(body, last);
    assert text[..|body|] == body && text[|body| + 1..] == last;
  }

  // ----- Damage is rejected.

  /** A file whose body has one byte replaced by a different one does not decode. */
  lemma CorruptByteRejected(c: Codec, session: ArchivedSession, messages: seq<ArchivedMessage>, i: nat, b: Byte)
    requires IsJson(c)
    requires i < |Covered(c, session, messages)| && b != Covered(c, session, messages)[i]
    ensures i < |Encoded(c, session, messages)|
    ensures Decoded(c, Encoded(c, session, messages)[i := b]) == Err(ChecksumMismatch)
  {
    var body := Covered(c, session, messages);
    var trailer := Trailer(HexSum(body));
    EncodedCut(c, session, messages);
    var damaged := body[i := b];
    assert Encoded(c, session, messages)[i := b] == damaged + [NEWLINE] + c.print_(trailer) + [NEWLINE];
    CutAfterBody(c, damaged, trailer);
    ChecksumDetectsChange(body, i, b);
  }

  lemma {:induction false} MessageLinesAreMessages(messages: seq<ArchivedMessage>, k: nat)
    requires k < |MessageLines(messages)|
    ensures MessageLines(messages)[k].Message?
  {
    if k > 0 {
      MessageLinesAreMessages(messages[1..], k - 1);
    }
  }

  /**
   Of all proper prefixes of an archive file exactly one still decodes: the one that only misses
   the final line break.  In particular every truncation at a line boundary is rejected.
   */
  lemma TruncationRejected(c: Codec, session: ArchivedSession, messages: seq<ArchivedMessage>, n: nat)
    requires IsJson(c)
    requires n < |Encoded(c, session, messages)|
    ensures Decoded(c, Encoded(c, session, messages)[..n]).Ok? <==> n == |Encoded(c, session, messages)| - 1
  {
    var ls := AllLines(c, session, messages);
    var file := Encoded(c, session, messages);
    if n == |file| - 1 {
      RoundTrip(c, session, messages);
      EncodedCut(c, session, messages);
      assert StripNewline(file) == file[..n];
      assert IsJsonLine(c, ls[|ls| - 1]);
      assert file[..n][n - 1] != NEWLINE;
      assert StripNewline(file[..n]) == file[..n];
    } else {
      var i, k := PrefixEnds(c, ls, n);
      LastLineIsNoTrailer(c, session, messages, i, k);
    }
  }

  lemma LastLineIsNoTrailer(c: Codec, session: ArchivedSession, messages: seq<ArchivedMessage>, i: nat, k: nat)
    requires IsJson(c)
    requires var ls := AllLines(c, session, messages);
             i < |ls| && k <= |c.print_(ls[i])| && (i == |ls| - 1 ==> k < |c.print_(ls[i])|)
    ensures var ls := AllLines(c, session, messages);
            Decoded(c, Terminated(c, ls[..i]) + c.print_(ls[i])[..k]).Err?
  {
    var ls := AllLines(c, session, messages);
    NotTrailer(c, session, messages);
    LineIsNoTrailer(c, ls, i, k);
  }

  lemma LineIsNoTrailer(c: Codec, ls: seq<ArchiveLine>, i: nat, k: nat)
    requires IsJson(c) && i < |ls| && k <= |c.print_(ls[i])| && (i == |ls| - 1 ==> k < |c.print_(ls[i])|)
    requires forall j :: 0 <= j < |ls| - 1 ==> !ls[j].Trailer?
    ensures Decoded(c, Terminated(c, ls[..i]) + c.print_(ls[i])[..k]).Err?
  {
    if k == 0 && i == 0 {
      assert Terminated(c, ls[..i]) + c.print_(ls[i])[..k] == [];
    } else if k == 0 {
      CutBetweenLines(c, ls[..i - 1], ls[i - 1]);
      assert ls[..i] == ls[..i - 1] + [ls[i - 1]];
      assert Terminated(c, ls[..i]) + c.print_(ls[i])[..k] == Terminated(c, ls[..i]);
    } else {
      CutInsideLine(c, ls[..i], ls[i], k);
    }
  }

  /** A file that ends with an ordinary line has no trailer. */
  lemma CutBetweenLines(c: Codec, front: seq<ArchiveLine>, last: ArchiveLine)
    requires IsJson(c) && !last.Trailer?
    ensures Decoded(c, Terminated(c, front + [last])).Err?
  {
    assert IsJsonLine(c, last);
    LastLine(c, front, last);
    assert StripNewline(Terminated(c, front + [last])) == Terminated(c, front) + c.print_(last);
    PartialLine(c, front, c.print_(last));
  }

  /** Neither has one that ends inside a line, or just before the line break of an ordinary one. */
  lemma CutInsideLine(c: Codec, front: seq<ArchiveLine>, l: ArchiveLine, k: nat)
    requires IsJson(c) && 0 < k <= |c.print_(l)| && (l.Trailer? ==> k < |c.print_(l)|)
    ensures Decoded(c, Terminated(c, front) + c.print_(l)[..k]).Err?
  {
    assert IsJsonLine(c, l);
    var line := c.print_(l);
    var raw := Terminated(c, front) + line[..k];
    assert raw[|raw| - 1] == line[k - 1];
    assert StripNewline(raw) == raw;
    PartialLine(c, front, line[..k]);
    if k == |line| {
      assert line[..k] == line;
    }
  }

  lemma NotTrailer(c: Codec, session: ArchivedSession, messages: seq<ArchivedMessage>)
    ensures var ls := AllLines(c, session, messages);
            forall j :: 0 <= j < |ls| - 1 ==> !ls[j].Trailer?
  {
    var ls := AllLines(c, session, messages);
    forall j | 0 <= j < |ls| - 1 ensures !ls[j].Trailer? {
      if j > 0 {
        MessageLinesAreMessages(messages, j - 1);
      }
    }
  }

  /** After stripping, the last line is `last`, or there is no line break at all. */
  lemma PartialLine(c: Codec, front: seq<ArchiveLine>, last: Bytes)
    requires NEWLINE !in last
    ensures var text := Terminated(c, front) + last;
            if front == [] then RFind(text) == None
            else RFind(text).Some? && text[RFind(text).value + 1..] == last
  {
    if front != [] {
      EndsInNewline(c, front);
      var t := Terminated(c, front);
      assert t + last == t[..|t| - 1] + [NEWLINE] + last;
      RFindUnique(t[..|t| - 1], last);
    }
  }
}
