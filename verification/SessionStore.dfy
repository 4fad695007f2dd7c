/**
 What the session store holds, seen as transcripts: for every live session its messages in
 order, for every archived one the decoded archive, and the rewind backups.
 */
module SessionStore {
  import opened Wrappers
  import opened Archive
  import opened Text

  type Id = string

  datatype Role = User | Assistant | System | Tool

  function RoleName(r: Role): string {
    match r
    case User => "user"
    case Assistant => "assistant"
    case System => "system"
    case Tool => "tool"
  }

  /** `SessionRole::parse`, from any case. */
  function ParseRole(s: string): Option<Role> {
    var l := Lower(s);
    if l == "user" then Some(User)
    else if l == "assistant" then Some(Assistant)
    else if l == "system" then Some(System)
    else if l == "tool" then Some(Tool)
    else None
  }

  lemma RoleRoundTrip(r: Role)
    ensures ParseRole(RoleName(r)) == Some(r)
  {
    LowerKeeps(RoleName(r));
  }

  datatype SessionMessage = SessionMessage(role: Role, text: string, created_at: int, attachments: Option<string>,
                                           tool_calls: Option<string>)

  datatype Meta = Meta(title: string, parent_id: Option<string>, created_at: int, updated_at: int, turn_log: string,
                       last_access_ms: int)

  datatype LiveSession = LiveSession(meta: Meta, messages: seq<SessionMessage>)

  /** One row of the rewind backup. */
  datatype Backup = Backup(session_id: Id, seq_: int, message: SessionMessage)

  datatype Store = Store(live: map<Id, LiveSession>, archived: map<Id, DecodedArchive>, backups: seq<Backup>)

  // ----- The archived form of a transcript: everything but the tool calls.

  function ArchivedMessageOf(m: SessionMessage, number: int): ArchivedMessage {
    ArchivedMessage(number, RoleName(m.role), m.text, m.created_at, m.attachments)
  }

  function ArchivedForm(ms: seq<SessionMessage>): (r: seq<ArchivedMessage>)
    ensures |r| == |ms|
    ensures forall i :: 0 <= i < |ms| ==> r[i] == ArchivedMessageOf(ms[i], i + 1)
  {
    if ms == [] then [] else ArchivedForm(ms[..|ms| - 1]) + [ArchivedMessageOf(ms[|ms| - 1], |ms|)]
  }

  function RestoredMessage(a: ArchivedMessage): SessionMessage
    requires ParseRole(a.role).Some?
  {
    SessionMessage(ParseRole(a.role).value, a.text, a.created_at, a.attachments, None)
  }

  /** Numbered 1, 2, ... */
  ghost predicate Numbered(ms: seq<ArchivedMessage>) {
    forall i :: 0 <= i < |ms| ==> ms[i].seq_ == i + 1
  }

  predicate RolesKnown(ms: seq<ArchivedMessage>) {
    forall i :: 0 <= i < |ms| ==> ParseRole(ms[i].role).Some?
  }

  /** As this program writes them: numbered from one, with the roles in their stored spelling. */
  ghost predicate WellNumbered(ms: seq<ArchivedMessage>) {
    && Numbered(ms) && RolesKnown(ms)
    && forall i :: 0 <= i < |ms| ==> RoleName(ParseRole(ms[i].role).value) == ms[i].role
  }

  function RestoredMessages(ms: seq<ArchivedMessage>): (r: seq<SessionMessage>)
    requires RolesKnown(ms)
    ensures |r| == |ms|
    ensures forall i :: 0 <= i < |ms| ==> r[i] == RestoredMessage(ms[i])
  {
    if ms == [] then [] else RestoredMessages(ms[..|ms| - 1]) + [RestoredMessage(ms[|ms| - 1])]
  }

  lemma ArchivedFormWellNumbered(ms: seq<SessionMessage>)
    ensures WellNumbered(ArchivedForm(ms))
  {
    forall i | 0 <= i < |ms| ensures ParseRole(RoleName(ms[i].role)) == Some(ms[i].role) {
      RoleRoundTrip(ms[i].role);
    }
  }

  /** Restoring and archiving again gives the same archive. */
  lemma RestoredFormIsSame(ms: seq<ArchivedMessage>)
    requires WellNumbered(ms)
    ensures ArchivedForm(RestoredMessages(ms)) == ms
  {
  }

  // ----- The operations.

  /** How many messages a cut at `from` leaves of `n`. */
  function Kept(from: int, n: nat): nat {
    if from <= 1 then 0 else if from - 1 <= n then from - 1 else n
  }

  function Ensured(st: Store, id: Id, title: string, parent: Option<string>, now: int): Store {
    var session := if id in st.live then st.live[id] else LiveSession(Meta(title, parent, now, now, "", 0), []);
    st.(live := st.live[id := session.(meta := session.meta.(updated_at := now))])
  }

  function Appended(st: Store, id: Id, m: SessionMessage, now: int): Store {
    var st' := Ensured(st, id, id, None, now);
    var session := st'.live[id];
    st'.(live := st'.live[id := session.(messages := session.messages + [m])])
  }

  function Truncated(st: Store, id: Id, from: int): Store {
    if id !in st.live then st
    else
      var session := st.live[id];
      st.(live := st.live[id := session.(messages := session.messages[..Kept(from, |session.messages|)])])
  }

  /** The messages numbered below `from`. */
  function MessagesBelow(ms: seq<SessionMessage>, from: int): seq<SessionMessage> {
    if ms == [] then []
    else MessagesBelow(ms[..|ms| - 1], from) + (if |ms| < from then [ms[|ms| - 1]] else [])
  }

  /** The messages numbered `from` and up, as backup rows. */
  function BackupRows(id: Id, ms: seq<SessionMessage>, from: int): seq<Backup> {
    if ms == [] then []
    else BackupRows(id, ms[..|ms| - 1], from) + (if |ms| >= from then [Backup(id, |ms|, ms[|ms| - 1])] else [])
  }

  /** The rows from `from` on are copied to the backup, then deleted. */
  function Rewound(st: Store, id: Id, from: int): Store {
    if id !in st.live then st
    else
      var session := st.live[id];
      Store(st.live[id := session.(messages := MessagesBelow(session.messages, from))], st.archived,
            st.backups + BackupRows(id, session.messages, from))
  }

  lemma {:induction false} BelowIsPrefix(ms: seq<SessionMessage>, from: int)
    ensures MessagesBelow(ms, from) == ms[..Kept(from, |ms|)]
  {
    if ms != [] {
      BelowIsPrefix(ms[..|ms| - 1], from);
    }
  }

  lemma {:induction false} BackupRowsAre(id: Id, ms: seq<SessionMessage>, from: int)
    ensures |BackupRows(id, ms, from)| == |ms| - Kept(from, |ms|)
    ensures forall i :: 0 <= i < |BackupRows(id, ms, from)| ==>
              BackupRows(id, ms, from)[i] == Backup(id, Kept(from, |ms|) + i + 1, ms[Kept(from, |ms|) + i])
  {
    if ms != [] {
      BackupRowsAre(id, ms[..|ms| - 1], from);
    }
  }

  function BackupsWithout(backups: seq<Backup>, id: Id): seq<Backup> {
    if backups == [] then []
    else BackupsWithout(backups[..|backups| - 1], id) +
         (if backups[|backups| - 1].session_id == id then [] else [backups[|backups| - 1]])
  }

  /** Deleting the session row takes its messages and its backups with it. */
  function Deleted(st: Store, id: Id): Store {
    if id !in st.live then st else Store(st.live - {id}, st.archived, BackupsWithout(st.backups, id))
  }

  function ArchivedSessionOf(id: Id, m: Meta): ArchivedSession {
    ArchivedSession(id, m.title, m.parent_id, m.created_at, m.updated_at, m.turn_log, m.last_access_ms)
  }

  /** The guard of `archive_session`: an existing archive must not hold more messages. */
  predicate CanArchive(st: Store, id: Id) {
    id in st.live && (id in st.archived ==> |st.archived[id].messages| <= |st.live[id].messages|)
  }

  /** The archive file is written, the rows are still there. */
  function ArchiveWritten(st: Store, id: Id): Store {
    if !CanArchive(st, id) then st
    else st.(archived := st.archived[id :=
               DecodedArchive(ArchivedSessionOf(id, st.live[id].meta), ArchivedForm(st.live[id].messages))])
  }

  function ArchivedAway(st: Store, id: Id): Store {
    if !CanArchive(st, id) then st else Deleted(ArchiveWritten(st, id), id)
  }

  predicate CanRestore(st: Store, id: Id) {
    id in st.archived && id !in st.live && st.archived[id].session.id == id && RolesKnown(st.archived[id].messages)
  }

  function Restored(st: Store, id: Id, now: int): Store {
    if !CanRestore(st, id) then st
    else
      var a := st.archived[id];
      var s := a.session;
      st.(live := st.live[id := LiveSession(Meta(s.title, s.parent_id, s.created_at, s.updated_at, s.turn_log, now),
                                            RestoredMessages(a.messages))])
  }

  function Touched(st: Store, id: Id, now: int): Store {
    if id !in st.live then st
    else st.(live := st.live[id := st.live[id].(meta := st.live[id].meta.(last_access_ms := now))])
  }

  /**
   Rewind and truncate leave the same live sessions; rewind adds exactly the dropped messages to the backup, in
   order and with their numbers.
   */
  lemma RewindIsTruncateWithBackup(st: Store, id: Id, from: int)
    requires id in st.live
    ensures Rewound(st, id, from).live == Truncated(st, id, from).live
    ensures var ms := st.live[id].messages;
            var kept := Truncated(st, id, from).live[id].messages;
            var added := Rewound(st, id, from).backups[|st.backups|..];
            Rewound(st, id, from).backups[..|st.backups|] == st.backups &&
            |added| == |ms| - |kept| &&
            forall i :: 0 <= i < |added| ==> added[i] == Backup(id, |kept| + i + 1, ms[|kept| + i])
  {
    var ms := st.live[id].messages;
    BelowIsPrefix(ms, from);
    BackupRowsAre(id, ms, from);
    assert Rewound(st, id, from).backups[|st.backups|..] == BackupRows(id, ms, from);
  }

  /** The row and the messages of an archive, the access time renewed and the roles parsed; there are no tool calls. */
  ghost predicate RestoredFrom(session: LiveSession, a: DecodedArchive, now: int) {
    && session.meta == Meta(a.session.title, a.session.parent_id, a.session.created_at, a.session.updated_at,
                            a.session.turn_log, now)
    && |session.messages| == |a.messages|
    && forall i :: 0 <= i < |a.messages| ==>
         session.messages[i].text == a.messages[i].text && session.messages[i].created_at == a.messages[i].created_at &&
         session.messages[i].attachments == a.messages[i].attachments && session.messages[i].tool_calls == None &&
         ParseRole(a.messages[i].role) == Some(session.messages[i].role)
  }

  lemma RestoredIsFrom(st: Store, id: Id, now: int)
    requires CanRestore(st, id)
    ensures RestoredFrom(Restored(st, id, now).live[id], st.archived[id], now)
  {
  }

  /**
   Restoring what archiving wrote gives the session back: title, parent, times and run log as they were, the access time
   renewed, and the messages in order without their tool calls; no other session changes.
   */
  lemma ArchiveRestoreRoundTrip(st: Store, id: Id, now: int)
    requires CanArchive(st, id)
    ensures var st' := Restored(ArchivedAway(st, id), id, now);
            var before := st.live[id];
            && st'.live.Keys == st.live.Keys && (forall x :: x in st.live && x != id ==> st'.live[x] == st.live[x])
            && st'.live[id].meta == before.meta.(last_access_ms := now)
            && |st'.live[id].messages| == |before.messages|
            && forall i :: 0 <= i < |before.messages| ==>
                 st'.live[id].messages[i] == before.messages[i].(tool_calls := None)
  {
    var ms := st.live[id].messages;
    ArchivedFormWellNumbered(ms);
    forall i | 0 <= i < |ms| ensures RestoredMessage(ArchivedForm(ms)[i]) == ms[i].(tool_calls := None) {
      RoleRoundTrip(ms[i].role);
    }
  }

  // ----- Runs.

  datatype Event =
    | Ensure(id: Id, title: string, parent: Option<string>, now: int)
    | Append(id: Id, message: SessionMessage, now: int)
    | Truncate(id: Id, from: int)
    | Rewind(id: Id, from: int)
    | Delete(id: Id)
    | ArchiveOp(id: Id)
    | ArchiveCrash(id: Id)
    | Restore(id: Id, now: int)
    | Touch(id: Id, now: int)

  function Step(st: Store, e: Event): Store {
    match e
    case Ensure(id, title, parent, now) => Ensured(st, id, title, parent, now)
    case Append(id, m, now) => Appended(st, id, m, now)
    case Truncate(id, from) => Truncated(st, id, from)
    case Rewind(id, from) => Rewound(st, id, from)
    case Delete(id) => Deleted(st, id)
    case ArchiveOp(id) => ArchivedAway(st, id)
    case ArchiveCrash(id) => ArchiveWritten(st, id)
    case Restore(id, now) => Restored(st, id, now)
    case Touch(id, now) => Touched(st, id, now)
  }

  function After(st: Store, run: seq<Event>): Store {
    if run == [] then st else Step(After(st, run[..|run| - 1]), run[|run| - 1])
  }

  /** The archive, where one exists beside the live session, is a prefix of it. */
  ghost predicate ArchivesArePrefixes(st: Store) {
    && (forall id :: id in st.archived ==> st.archived[id].session.id == id && WellNumbered(st.archived[id].messages))
    && (forall id :: id in st.live && id in st.archived ==>
          st.archived[id].messages <= ArchivedForm(st.live[id].messages))
  }

  /** A cut that does not reach into the archived messages. */
  predicate ShallowCut(st: Store, id: Id, from: int) {
    id !in st.live || id !in st.archived || st.archived[id].messages == [] || from > |st.archived[id].messages|
  }

  /** Rows for a session that is archived only start it over; the archive must be a prefix of the new rows. */
  predicate StartsWith(st: Store, id: Id, rows: seq<SessionMessage>) {
    id in st.live || id !in st.archived || st.archived[id].messages <= ArchivedForm(rows)
  }

  /** What keeps archives prefixes; the opening of a session inserts no row, an append one. */
  predicate Guarded(st: Store, e: Event) {
    match e
    case Ensure(id, _, _, _) => StartsWith(st, id, [])
    case Append(id, m, _) => StartsWith(st, id, [m])
    case Truncate(id, from) => ShallowCut(st, id, from)
    case Rewind(id, from) => ShallowCut(st, id, from)
    case _ => true
  }

  ghost predicate GuardedRun(st: Store, run: seq<Event>) {
    run == [] || (GuardedRun(st, run[..|run| - 1]) && Guarded(After(st, run[..|run| - 1]), run[|run| - 1]))
  }

  /** Everything known of a session: its live transcript, else its archive. */
  function History(st: Store, id: Id): seq<ArchivedMessage> {
    if id in st.live then ArchivedForm(st.live[id].messages)
    else if id in st.archived then st.archived[id].messages
    else []
  }

  lemma CutForm(ms: seq<SessionMessage>, k: nat)
    requires k <= |ms|
    ensures ArchivedForm(ms[..k]) == ArchivedForm(ms)[..k]
  {
  }

  lemma TruncateKeepsIffShallow(st: Store, id: Id, from: int)
    requires ArchivesArePrefixes(st)
    ensures ArchivesArePrefixes(Truncated(st, id, from)) <==> ShallowCut(st, id, from)
  {
    if id in st.live {
      var ms := st.live[id].messages;
      CutForm(ms, Kept(from, |ms|));
      assert Truncated(st, id, from).live[id].messages == ms[..Kept(from, |ms|)];
    }
  }

  lemma BackupsDoNotMatter(a: Store, b: Store)
    requires a.live == b.live && a.archived == b.archived
    ensures ArchivesArePrefixes(a) <==> ArchivesArePrefixes(b)
  {
  }

  /** A cut leaves the archive a prefix of the live messages exactly when it does not reach into it. */
  lemma CutKeepsPrefixIffShallow(st: Store, id: Id, from: int)
    requires ArchivesArePrefixes(st)
    ensures ArchivesArePrefixes(Truncated(st, id, from)) <==> ShallowCut(st, id, from)
    ensures ArchivesArePrefixes(Rewound(st, id, from)) <==> ShallowCut(st, id, from)
  {
    TruncateKeepsIffShallow(st, id, from);
    if id in st.live {
      RewindIsTruncateWithBackup(st, id, from);
    }
    BackupsDoNotMatter(Truncated(st, id, from), Rewound(st, id, from));
  }

  predicate Known(st: Store, id: Id) { id in st.live || id in st.archived }

  /** Archives stay prefixes, no session disappears and no history shrinks. */
  ghost predicate Grows(st: Store, st': Store) {
    ArchivesArePrefixes(st') &&
    forall id :: (Known(st, id) ==> Known(st', id)) && History(st, id) <= History(st', id)
  }

  ghost predicate SameElsewhere(st: Store, st': Store, id: Id) {
    && (forall x :: x != id ==> (x in st.live <==> x in st'.live) && (x in st.archived <==> x in st'.archived))
    && (forall x :: x != id && x in st.live ==> st.live[x] == st'.live[x])
    && (forall x :: x != id && x in st.archived ==> st.archived[x] == st'.archived[x])
  }

  ghost predicate PrefixAt(st: Store, id: Id) {
    && (id in st.archived ==> st.archived[id].session.id == id && WellNumbered(st.archived[id].messages))
    && (id in st.live && id in st.archived ==> st.archived[id].messages <= ArchivedForm(st.live[id].messages))
  }

  lemma GrowsAtOne(st: Store, st': Store, id: Id)
    requires ArchivesArePrefixes(st) && SameElsewhere(st, st', id)
    requires PrefixAt(st', id) && (Known(st, id) ==> Known(st', id)) && History(st, id) <= History(st', id)
    ensures Grows(st, st')
  {
    forall x ensures PrefixAt(st', x) && (Known(st, x) ==> Known(st', x)) && History(st, x) <= History(st', x) {
      assert PrefixAt(st, x);
    }
    assert forall x :: PrefixAt(st', x);
  }

  /** A session with the rows `ms` that is archived only stays a prefix store exactly when its archive agrees. */
  lemma FreshRows(st: Store, st': Store, id: Id, ms: seq<SessionMessage>)
    requires ArchivesArePrefixes(st) && SameElsewhere(st, st', id) && st'.archived == st.archived
    requires id !in st.live && id in st'.live && st'.live[id].messages == ms
    ensures ArchivesArePrefixes(st') <==> StartsWith(st, id, ms)
    ensures StartsWith(st, id, ms) ==> Grows(st, st')
  {
    assert PrefixAt(st, id);
    if StartsWith(st, id, ms) {
      GrowsAtOne(st, st', id);
    }
  }

  lemma MoreRows(st: Store, st': Store, id: Id, more: seq<SessionMessage>)
    requires ArchivesArePrefixes(st) && SameElsewhere(st, st', id) && st'.archived == st.archived
    requires id in st.live && id in st'.live && st'.live[id].messages == st.live[id].messages + more
    ensures Grows(st, st')
  {
    assert PrefixAt(st, id);
    GrowsAtOne(st, st', id);
  }

  lemma RowsGrow(st: Store, e: Event)
    requires ArchivesArePrefixes(st) && (e.Ensure? || e.Append?)
    ensures ArchivesArePrefixes(Step(st, e)) <==> Guarded(st, e)
    ensures Guarded(st, e) ==> Grows(st, Step(st, e))
  {
    var rows := if e.Append? then [e.message] else [];
    if e.id in st.live {
      MoreRows(st, Step(st, e), e.id, rows);
    } else {
      FreshRows(st, Step(st, e), e.id, rows);
    }
  }

  lemma ArchiveGrows(st: Store, id: Id)
    requires ArchivesArePrefixes(st)
    ensures id in st.live ==> CanArchive(st, id)
    ensures Grows(st, ArchiveWritten(st, id)) && Grows(st, ArchivedAway(st, id))
  {
    if id in st.live {
      assert PrefixAt(st, id);
      ArchivedFormWellNumbered(st.live[id].messages);
      assert CanArchive(st, id);
      GrowsAtOne(st, ArchiveWritten(st, id), id);
      GrowsAtOne(st, ArchivedAway(st, id), id);
    }
  }

  lemma RestoreGrows(st: Store, id: Id, now: int)
    requires ArchivesArePrefixes(st)
    ensures Grows(st, Restored(st, id, now))
    ensures id in st.archived && id !in st.live ==> CanRestore(st, id)
  {
    if CanRestore(st, id) {
      assert PrefixAt(st, id);
      RestoredFormIsSame(st.archived[id].messages);
      GrowsAtOne(st, Restored(st, id, now), id);
    }
  }

  /** The events that take messages away on purpose. */
  predicate Drops(e: Event) { e.Truncate? || e.Rewind? || e.Delete? }

  /** An event keeps archives prefixes exactly when it is guarded; one that drops nothing then keeps every history. */
  lemma StepGrows(st: Store, e: Event)
    requires ArchivesArePrefixes(st)
    ensures ArchivesArePrefixes(Step(st, e)) <==> Guarded(st, e)
    ensures Guarded(st, e) && !Drops(e) ==> Grows(st, Step(st, e))
  {
    match e
    case Ensure(id, _, _, _) => RowsGrow(st, e);
    case Append(id, _, _) => RowsGrow(st, e);
    case Truncate(id, from) => CutKeepsPrefixIffShallow(st, id, from);
    case Rewind(id, from) => CutKeepsPrefixIffShallow(st, id, from);
    case Delete(id) =>
    case ArchiveOp(id) => ArchiveGrows(st, id);
    case ArchiveCrash(id) => ArchiveGrows(st, id);
    case Restore(id, now) => RestoreGrows(st, id, now);
    case Touch(id, now) =>
  }

  /** The archives are prefixes in every state of the run. */
  ghost predicate PrefixesThroughout(st: Store, run: seq<Event>) {
    ArchivesArePrefixes(After(st, run)) && (run == [] || PrefixesThroughout(st, run[..|run| - 1]))
  }

  lemma {:induction false} PrefixesThroughoutIffGuarded(st: Store, run: seq<Event>)
    requires ArchivesArePrefixes(st)
    ensures PrefixesThroughout(st, run) <==> GuardedRun(st, run)
  {
    if run != [] {
      var front := run[..|run| - 1];
      PrefixesThroughoutIffGuarded(st, front);
      if PrefixesThroughout(st, front) {
        StepGrows(After(st, front), run[|run| - 1]);
      }
    }
  }

  /**
   Over every guarded run (archiving, crashing halfway, restoring, deleting, appending to live sessions, shallow cuts)
   archives are prefixes of the live sessions beside them, so archiving is never refused.
   */
  lemma {:induction false} ArchivingNeverRefused(st: Store, run: seq<Event>, id: Id)
    requires ArchivesArePrefixes(st) && GuardedRun(st, run)
    ensures ArchivesArePrefixes(After(st, run))
    ensures id in After(st, run).live ==> CanArchive(After(st, run), id)
    ensures id in After(st, run).archived && id !in After(st, run).live ==> CanRestore(After(st, run), id)
  {
    if run != [] {
      ArchivingNeverRefused(st, run[..|run| - 1], id);
      StepGrows(After(st, run[..|run| - 1]), run[|run| - 1]);
    }
    ArchiveGrows(After(st, run), id);
    RestoreGrows(After(st, run), id, 0);
  }

  ghost predicate DropsNothing(run: seq<Event>) {
    forall e :: e in run ==> !Drops(e)
  }

  /** Over a guarded run without cuts and deletions no session is ever lost, and its history only grows. */
  lemma {:induction false} HistoryNeverLost(st: Store, run: seq<Event>, id: Id)
    requires ArchivesArePrefixes(st) && GuardedRun(st, run) && DropsNothing(run)
    ensures Known(st, id) ==> Known(After(st, run), id)
    ensures History(st, id) <= History(After(st, run), id)
  {
    if run != [] {
      var front, last := run[..|run| - 1], run[|run| - 1];
      HistoryNeverLost(st, front, id);
      ArchivingNeverRefused(st, front, id);
      StepGrows(After(st, front), last);
    }
  }

  /**
   A deep cut is not caught by the guard, which compares lengths only: after restoring, rewinding into the
   archived messages and appending as many again, archiving replaces the archive and the old message is
   nowhere any more, not even in the rewind backup.
   */
  lemma GuardMissesDivergence(id: Id, a: SessionMessage, b: SessionMessage)
    requires a.text != b.text
    ensures var st := ArchivedAway(Appended(Store(map[], map[], []), id, a, 1), id);
            var cut := Appended(Rewound(Restored(st, id, 2), id, 1), id, b, 3);
            History(st, id) == [ArchivedMessageOf(a, 1)] && CanArchive(cut, id) &&
            History(ArchivedAway(cut, id), id) == [ArchivedMessageOf(b, 1)] && ArchivedAway(cut, id).backups == []
  {
    var st := FirstArchived(id, a);
    RestoreOne(st, id, a, 2);
    CutAllAndAppend(Restored(st, id, 2), id, b, 3);
  }

  /**
   Nor does it take a cut: an append to a session that exists only in its archive starts it over, the guard sees as
   many messages as before, and archiving replaces the archived message by the new one.
   */
  lemma GuardMissesStartingOver(id: Id, a: SessionMessage, b: SessionMessage)
    requires a.text != b.text
    ensures var st := ArchivedAway(Appended(Store(map[], map[], []), id, a, 1), id);
            var again := Appended(st, id, b, 2);
            History(st, id) == [ArchivedMessageOf(a, 1)] && !Guarded(st, Append(id, b, 2)) && CanArchive(again, id) &&
            History(ArchivedAway(again, id), id) == [ArchivedMessageOf(b, 1)] && ArchivedAway(again, id).backups == []
  {
    var st := FirstArchived(id, a);
    var again := Appended(st, id, b, 2);
    assert again.live[id].messages == [b];
  }

  /** A restored session that is rewound into its archive holds fewer messages than it, so it cannot be archived. */
  lemma RewoundIsRefused(id: Id, a: SessionMessage) returns (st: Store)
    ensures st == Rewound(Restored(ArchivedAway(Appended(Store(map[], map[], []), id, a, 1), id), id, 2), id, 1)
    ensures st.live.Keys == {id} && id in st.archived && !CanArchive(st, id)
    ensures st.live[id].meta.updated_at == 1 && st.live[id].meta.last_access_ms == 2
  {
    var archived := FirstArchived(id, a);
    RestoreOne(archived, id, a, 2);
    st := Rewound(Restored(archived, id, 2), id, 1);
    RewindIsTruncateWithBackup(Restored(archived, id, 2), id, 1);
  }

  lemma FirstArchived(id: Id, a: SessionMessage) returns (st: Store)
    ensures st == ArchivedAway(Appended(Store(map[], map[], []), id, a, 1), id)
    ensures st.live == map[] && st.archived.Keys == {id} && st.backups == []
    ensures st.archived[id].session.id == id && st.archived[id].session.updated_at == 1
    ensures st.archived[id].messages == ArchivedForm([a]) == [ArchivedMessageOf(a, 1)]
  {
    var live := Appended(Store(map[], map[], []), id, a, 1);
    assert live.live[id].messages == [a];
    st := ArchivedAway(live, id);
  }

  lemma RestoreOne(st: Store, id: Id, a: SessionMessage, now: int)
    requires id !in st.live && id in st.archived && st.archived[id].session.id == id
    requires st.archived[id].messages == ArchivedForm([a])
    ensures var st' := Restored(st, id, now);
            st'.live.Keys == st.live.Keys + {id} && st'.archived == st.archived && st'.backups == st.backups &&
            st'.live[id].meta.updated_at == st.archived[id].session.updated_at &&
            st'.live[id].meta.last_access_ms == now
  {
    RoleRoundTrip(a.role);
  }

  /** A rewind to the first message backs everything up, then the append starts over; archiving drops the backups. */
  lemma CutAllAndAppend(st: Store, id: Id, b: SessionMessage, now: int)
    requires id in st.live && st.backups == []
    ensures var st' := Appended(Rewound(st, id, 1), id, b, now);
            id in st'.live && st'.live[id].messages == [b] && st'.archived == st.archived &&
            BackupsWithout(st'.backups, id) == []
  {
    RewindIsTruncateWithBackup(st, id, 1);
    NoneWithout(Rewound(st, id, 1).backups, id);
  }

  lemma {:induction false} NoneWithout(backups: seq<Backup>, id: Id)
    requires forall i :: 0 <= i < |backups| ==> backups[i].session_id == id
    ensures BackupsWithout(backups, id) == []
  {
    if backups != [] {
      NoneWithout(backups[..|backups| - 1], id);
    }
  }
}
