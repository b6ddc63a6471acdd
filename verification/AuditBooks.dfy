/** What the tables of the audit trail hold, told stream by stream: the full
    history of a stream, how much of it is archived, and which archive is under
    way. */
module AuditBooks {
  import opened Common
  import opened Sorting
  import opened Audit

  datatype AuditTables = AuditTables(logs: map<nat, Event>, nextLog: nat, streams: map<StreamKey, StreamRow>,
                                     archives: map<string, Archive>)

  datatype Book = Book(history: seq<Event>, done: seq<Archive>, pending: Option<Archive>)

  const BLANK_BOOK := Book([], [], None)

  function BookOf(books: map<StreamKey, Book>, k: StreamKey): Book {
    if k in books then books[k] else BLANK_BOOK
  }

  predicate IsBlank(s: string) {
    forall c :: c in s ==> c == ' ' || c == '\t' || c == '\n' || c == '\r'
  }

  /** auditActorType. */
  function ActorOf(b: Body): string {
    if b.user == 0 && b.username == "external_share" then "external_share"
    else if b.user == 0 then "system"
    else "user"
  }

  function ActorFilled(e: Event): string {
    if IsBlank(e.actorType) then ActorOf(e.body) else e.actorType
  }

  /** The classification check of a completed event. */
  predicate Classified(h: Digests, e: Event) {
    ActorFilled(e) in {"user", "system", "external_share"} && h.classified(e.body)
  }

  // ----- what is true of a book -----------------------------------------------------

  ghost predicate EventOk(k: StreamKey, e: Event) {
    e.stream == k && KeyOf(e.ws) == k && e.created >= MILLISECOND && !IsBlank(e.actorType)
  }

  /** Archive `a` stands for the events numbered a.from to a.to. */
  ghost predicate Covers(h: Digests, k: StreamKey, history: seq<Event>, a: Archive) {
    && a.stream == k && KeyOf(a.ws) == k && 1 <= a.from <= a.to <= |history| && a.count == a.to - a.from + 1
    && (if a.from == 1 then a.firstPrev == "" else history[a.from - 2].current == Some(a.firstPrev))
    && history[a.to - 1].current == Some(a.last)
    && a.digest == h.events(history[a.from - 1..a.to]) && ManifestValid(h, a)
  }

  /** Rows are inserted with rising ids. */
  predicate Before(history: seq<Event>, i: nat, j: nat)
    requires i < j < |history|
  {
    history[i].id < history[j].id
  }

  ghost predicate HistoryOk(h: Digests, k: StreamKey, history: seq<Event>) {
    && IsChain(h, history, 1, None)
    && (forall i :: 0 <= i < |history| ==> EventOk(k, history[i]))
    && (forall i, j :: 0 <= i < j < |history| ==> Before(history, i, j))
  }

  /** Archive number `i` of the finished ones continues its predecessor. */
  ghost predicate DoneAt(h: Digests, k: StreamKey, history: seq<Event>, done: seq<Archive>, i: nat)
    requires i < |done|
  {
    && done[i].from == FromAt(done, i) && Covers(h, k, history, done[i])
    && done[i].status == ArchiveCompleted && done[i].verified && done[i].objectHash != ""
  }

  ghost predicate DoneOk(h: Digests, k: StreamKey, history: seq<Event>, done: seq<Archive>) {
    forall i :: 0 <= i < |done| ==> DoneAt(h, k, history, done, i)
  }

  ghost predicate PendingOk(h: Digests, k: StreamKey, history: seq<Event>, done: seq<Archive>, pending: Option<Archive>) {
    pending.Some? ==>
      && pending.value.from == NextFrom(done) && Covers(h, k, history, pending.value)
      && pending.value.status != ArchiveCompleted
  }

  ghost predicate BookOk(h: Digests, k: StreamKey, b: Book) {
    && HistoryOk(h, k, b.history) && DoneOk(h, k, b.history, b.done)
    && PendingOk(h, k, b.history, b.done, b.pending)
  }

  // ----- how the tables hold it -----------------------------------------------------

  /** The part of the history that no completed archive took over. */
  function Hot(b: Book): seq<Event> {
    if NextFrom(b.done) - 1 <= |b.history| then b.history[NextFrom(b.done) - 1..] else []
  }

  /** The table holds exactly the hot events of the stream. */
  ghost predicate LogsOk(k: StreamKey, hot: seq<Event>, logs: map<nat, Event>) {
    && (forall id :: id in logs && logs[id].stream == k ==> logs[id].id == id && logs[id] in hot)
    && (forall e :: e in hot ==> e.id in logs && logs[e.id] == e && e.stream == k)
  }

  ghost predicate IdsBelow(history: seq<Event>, nextLog: nat) {
    forall i :: 0 <= i < |history| ==> history[i].id < nextLog
  }

  /** The stream row continues the history; before the first event it may be missing. */
  ghost predicate StreamRowOk(k: StreamKey, history: seq<Event>, streams: map<StreamKey, StreamRow>) {
    if history == [] then k in streams ==> streams[k] == StreamRow(1, "")
    else
      && k in streams && streams[k].nextSeq == |history| + 1
      && history[|history| - 1].current == Some(streams[k].lastHash)
  }

  /** The archive rows of the stream are the finished ones and the one under way. */
  ghost predicate ArchivesOk(k: StreamKey, done: seq<Archive>, pending: Option<Archive>, archives: map<string, Archive>) {
    && (forall id :: id in archives && archives[id].stream == k ==>
          archives[id].id == id && (pending == Some(archives[id]) || archives[id] in done))
    && (forall a :: a in done ==> a.stream == k && a.id in archives && archives[a.id] == a)
    && (pending.Some? ==>
          && pending.value.stream == k && pending.value.id in archives
          && archives[pending.value.id] == pending.value)
  }

  ghost predicate StreamOk(h: Digests, k: StreamKey, b: Book, t: AuditTables) {
    && BookOk(h, k, b) && LogsOk(k, Hot(b), t.logs) && IdsBelow(b.history, t.nextLog)
    && StreamRowOk(k, b.history, t.streams) && ArchivesOk(k, b.done, b.pending, t.archives)
  }

  /** The rows of stream `k` are the same in both states. */
  ghost predicate SameStream(k: StreamKey, t: AuditTables, t': AuditTables) {
    && t.nextLog <= t'.nextLog
    && (forall id :: id in t.logs && t.logs[id].stream == k ==> id in t'.logs && t'.logs[id] == t.logs[id])
    && (forall id :: id in t'.logs && t'.logs[id].stream == k ==> id in t.logs && t.logs[id] == t'.logs[id])
    && (k in t.streams <==> k in t'.streams) && (k in t.streams ==> t'.streams[k] == t.streams[k])
    && (forall id :: id in t.archives && t.archives[id].stream == k ==> id in t'.archives && t'.archives[id] == t.archives[id])
    && (forall id :: id in t'.archives && t'.archives[id].stream == k ==> id in t.archives && t.archives[id] == t'.archives[id])
  }

  lemma OtherStream(h: Digests, k: StreamKey, b: Book, t: AuditTables, t': AuditTables)
    requires StreamOk(h, k, b, t) && SameStream(k, t, t')
    ensures StreamOk(h, k, b, t')
  {
  }

  // ----- append -----------------------------------------------------------------------

  /** The row to insert for event `e`: defaults filled in, linked, hashed, and its
      JSON as the database will hand it back. */
  function CompletedRow(h: Digests, e: Event, id: nat, next: nat, prev: Option<Hash>, now: nat): Event {
    var row := e.(id := id, stream := KeyOf(e.ws), no := next, actorType := ActorFilled(e),
                  created := NormTime(e.created, now), prev := prev);
    row.(current := Some(HashOf(h, row, prev)), body := row.body.(details := h.reload(row.body.details)))
  }

  /** The row stored for event `e` when the stream holds `history`. */
  function Stored(h: Digests, e: Event, id: nat, history: seq<Event>, now: nat): Event {
    CompletedRow(h, e, id, |history| + 1, PrevAt(history, None, |history|), now)
  }

  lemma ActorNotBlank(e: Event)
    ensures !IsBlank(ActorFilled(e))
  {
    if IsBlank(e.actorType) {
      var s := ActorOf(e.body);
      assert s[0] in s && s[0] != ' ';
    }
  }

  lemma StoredIsLinked(h: Digests, e: Event, id: nat, history: seq<Event>, now: nat)
    requires Sound(h) && now >= MILLISECOND && (e.created == 0 || e.created >= MILLISECOND)
    requires HistoryOk(h, KeyOf(e.ws), history)
    requires forall i :: 0 <= i < |history| ==> history[i].id < id
    ensures HistoryOk(h, KeyOf(e.ws), history + [Stored(h, e, id, history, now)])
  {
    var s := Stored(h, e, id, history, now);
    assert SameMeaning(h, e.body.details);
    assert HashOf(h, s, s.prev) == s.current.value;
    ActorNotBlank(e);
    ChainAppend(h, history, 1, None, s);
    assert EventOk(KeyOf(e.ws), s);
    forall i, j | 0 <= i < j < |history + [s]| ensures Before(history + [s], i, j) {
      assert j < |history| ==> Before(history, i, j);
    }
  }

  /** Row `row` records the given event `e`: who acted, where, what and when. A missing actor
      type is told by the user, a missing time by the clock; times are cut to the millisecond. */
  predicate Records(h: Digests, e: Event, row: Event, now: nat) {
    && row.ws == e.ws && row.body.user == e.body.user && row.body.username == e.body.username
    && row.body.columns == e.body.columns && h.norm(row.body.details) == h.norm(e.body.details)
    && (!IsBlank(e.actorType) ==> row.actorType == e.actorType)
    && (IsBlank(e.actorType) ==>
          row.actorType == if e.body.user != 0 then "user"
                           else if e.body.username == "external_share" then "external_share" else "system")
    && row.created % MILLISECOND == 0
    && row.created / MILLISECOND == (if e.created == 0 then now else e.created) / MILLISECOND
  }

  /** What an append stores records the event, behind the last row of its stream. */
  lemma StoredRecords(h: Digests, e: Event, id: nat, history: seq<Event>, now: nat)
    requires Sound(h)
    ensures var row := Stored(h, e, id, history, now);
            && Records(h, e, row, now) && row.id == id
            && row.no == |history| + 1 && row.prev == PrevAt(history, None, |history|)
            && (match e.ws case None => row.stream == GlobalStream case Some(w) => row.stream == WorkspaceStream(w))
  {
    assert SameMeaning(h, e.body.details);
    CutTime(e.created, now);
  }

  lemma CutTime(t: nat, now: nat)
    ensures NormTime(t, now) % MILLISECOND == 0
    ensures NormTime(t, now) / MILLISECOND == (if t == 0 then now else t) / MILLISECOND
  {
    var x := if t == 0 then now else t;
    assert x - x % MILLISECOND == x / MILLISECOND * MILLISECOND;
  }

  /** The events say the same, as far as the record goes. */
  predicate SameEvent(h: Digests, a: Event, b: Event, now: nat) {
    && a.ws == b.ws && a.body.user == b.body.user && a.body.username == b.body.username && a.body.columns == b.body.columns
    && h.norm(a.body.details) == h.norm(b.body.details) && ActorFilled(a) == ActorFilled(b)
    && (if a.created == 0 then now else a.created) / MILLISECOND == (if b.created == 0 then now else b.created) / MILLISECOND
  }

  /** With a collision-free digest, two events appended at the same place leave the same
      digest exactly when they say the same. */
  lemma DigestTellsEvents(h: Digests, a: Event, b: Event, i: nat, j: nat, history: seq<Event>, now: nat)
    requires Injective(h)
    ensures Stored(h, a, i, history, now).current == Stored(h, b, j, history, now).current <==> SameEvent(h, a, b, now)
  {
    CutTime(a.created, now);
    CutTime(b.created, now);
    var no, prev := |history| + 1, PrevAt(history, None, |history|);
    var x := a.(id := i, stream := KeyOf(a.ws), no := no, actorType := ActorFilled(a), created := NormTime(a.created, now), prev := prev);
    var y := b.(id := j, stream := KeyOf(b.ws), no := no, actorType := ActorFilled(b), created := NormTime(b.created, now), prev := prev);
    assert Stored(h, a, i, history, now).current == Some(h.chain(Payload(h, x, prev)));
    assert Stored(h, b, j, history, now).current == Some(h.chain(Payload(h, y, prev)));
    assert Payload(h, x, prev) == Payload(h, y, prev) <==> SameEvent(h, a, b, now);
  }

  /** Longer history, same archives. */
  lemma CoversLonger(h: Digests, k: StreamKey, history: seq<Event>, e: Event, a: Archive)
    requires Covers(h, k, history, a)
    ensures Covers(h, k, history + [e], a)
  {
    assert (history + [e])[a.from - 1..a.to] == history[a.from - 1..a.to];
  }

  lemma AppendedBook(h: Digests, k: StreamKey, b: Book, e: Event)
    requires BookOk(h, k, b) && HistoryOk(h, k, b.history + [e])
    ensures BookOk(h, k, b.(history := b.history + [e]))
  {
    var longer := b.history + [e];
    forall i | 0 <= i < |b.done| ensures DoneAt(h, k, longer, b.done, i) {
      assert DoneAt(h, k, b.history, b.done, i);
      CoversLonger(h, k, b.history, e, b.done[i]);
    }
    if b.pending.Some? {
      CoversLonger(h, k, b.history, e, b.pending.value);
    }
  }

  lemma AppendedLogs(k: StreamKey, hot: seq<Event>, logs: map<nat, Event>, e: Event)
    requires LogsOk(k, hot, logs) && e.id !in logs && e.stream == k
    ensures LogsOk(k, hot + [e], logs[e.id := e])
  {
  }

  lemma AppendedHot(b: Book, e: Event)
    requires NextFrom(b.done) - 1 <= |b.history|
    ensures Hot(b.(history := b.history + [e])) == Hot(b) + [e]
  {
  }

  /** A book fits the tables if its parts do. */
  lemma Assemble(h: Digests, k: StreamKey, b: Book, t: AuditTables, hot: seq<Event>)
    requires BookOk(h, k, b) && hot == Hot(b) && LogsOk(k, hot, t.logs) && IdsBelow(b.history, t.nextLog)
    requires StreamRowOk(k, b.history, t.streams) && ArchivesOk(k, b.done, b.pending, t.archives)
    ensures StreamOk(h, k, b, t)
  {
  }

  lemma AppendedIds(history: seq<Event>, nextLog: nat, e: Event)
    requires IdsBelow(history, nextLog) && e.id == nextLog
    ensures IdsBelow(history + [e], nextLog + 1)
  {
  }

  lemma AppendedStreamRow(k: StreamKey, history: seq<Event>, streams: map<StreamKey, StreamRow>, e: Event)
    requires e.no == |history| + 1 && e.current.Some?
    ensures StreamRowOk(k, history + [e], streams[k := StreamRow(e.no + 1, e.current.value)])
  {
  }

  lemma AppendedHotLogs(h: Digests, k: StreamKey, b: Book, logs: map<nat, Event>, e: Event)
    requires DoneOk(h, k, b.history, b.done) && LogsOk(k, Hot(b), logs) && e.id !in logs && e.stream == k
    ensures Hot(b.(history := b.history + [e])) == Hot(b) + [e]
    ensures LogsOk(k, Hot(b) + [e], logs[e.id := e])
  {
    CutInside(h, k, b.history, b.done);
    AppendedHot(b, e);
    AppendedLogs(k, Hot(b), logs, e);
  }

  lemma AppendedTables(h: Digests, k: StreamKey, b: Book, t: AuditTables, t': AuditTables, e: Event)
    requires StreamOk(h, k, b, t) && HistoryOk(h, k, b.history + [e])
    requires e.id == t.nextLog && e.id !in t.logs && e.stream == k && e.no == |b.history| + 1 && e.current.Some?
    requires t' == AuditTables(t.logs[e.id := e], t.nextLog + 1, t.streams[k := StreamRow(e.no + 1, e.current.value)], t.archives)
    ensures StreamOk(h, k, b.(history := b.history + [e]), t')
  {
    AppendedBook(h, k, b, e);
    AppendedHotLogs(h, k, b, t.logs, e);
    AppendedIds(b.history, t.nextLog, e);
    AppendedStreamRow(k, b.history, t.streams, e);
    Assemble(h, k, b.(history := b.history + [e]), t', Hot(b) + [e]);
  }

  /** The archived part is not longer than the history. */
  lemma CutInside(h: Digests, k: StreamKey, history: seq<Event>, done: seq<Archive>)
    requires DoneOk(h, k, history, done)
    ensures NextFrom(done) - 1 <= |history|
    ensures PrevAt(history, None, NextFrom(done) - 1) == Anchor(done)
  {
    if done != [] {
      assert DoneAt(h, k, history, done, |done| - 1);
    }
  }

  // ----- the hot rows -----------------------------------------------------------------

  lemma HotChain(h: Digests, k: StreamKey, b: Book)
    requires IsChain(h, b.history, 1, None) && DoneOk(h, k, b.history, b.done)
    ensures NextFrom(b.done) - 1 <= |b.history|
    ensures IsChain(h, Hot(b), NextFrom(b.done), Anchor(b.done))
    ensures PrevAt(Hot(b), Anchor(b.done), |Hot(b)|) == PrevAt(b.history, None, |b.history|)
  {
    CutInside(h, k, b.history, b.done);
    ChainPart(h, b.history, 1, None, NextFrom(b.done) - 1, |b.history|);
    assert b.history[NextFrom(b.done) - 1..|b.history|] == Hot(b);
  }

  function Number(e: Event): nat {
    e.no
  }

  lemma HotNumbers(h: Digests, k: StreamKey, b: Book)
    requires IsChain(h, b.history, 1, None) && DoneOk(h, k, b.history, b.done)
    ensures forall i :: 0 <= i < |Hot(b)| ==> Hot(b)[i].no == NextFrom(b.done) + i
    ensures Rising(Hot(b), Number)
  {
    HotChain(h, k, b);
    forall i | 0 <= i < |Hot(b)| ensures Hot(b)[i].no == NextFrom(b.done) + i {
      assert Linked(h, Hot(b), NextFrom(b.done), Anchor(b.done), i);
    }
  }

  /** In every valid state the record of a stream is intact, and nothing is lost:
      archived and hot events together are the whole history. */
  lemma BookIsIntact(h: Digests, k: StreamKey, b: Book, t: AuditTables)
    requires StreamOk(h, k, b, t)
    ensures Intact(h, b.done, Hot(b), if k in t.streams then Some(t.streams[k]) else None)
    ensures Archived(b.done) + |Hot(b)| == |b.history|
  {
    HotChain(h, k, b);
    forall i | 0 <= i < |b.done| ensures ArchiveInPlace(h, b.done, i) {
      DoneInPlace(h, k, b.history, b.done, i);
    }
    ArchivedCounts(h, b.done);
  }

  lemma DoneInPlace(h: Digests, k: StreamKey, history: seq<Event>, done: seq<Archive>, i: nat)
    requires DoneOk(h, k, history, done) && i < |done|
    ensures ArchiveInPlace(h, done, i)
  {
    assert DoneAt(h, k, history, done, i);
    if i > 0 {
      assert DoneAt(h, k, history, done, i - 1);
    }
  }

  // ----- building an archive --------------------------------------------------------

  function Older(rows: seq<Event>, cutoff: nat): seq<Event> {
    if rows == [] then []
    else (if rows[0].created < cutoff then [rows[0]] else []) + Older(rows[1..], cutoff)
  }

  lemma {:induction false} OlderRows(rows: seq<Event>, cutoff: nat)
    requires Rising(rows, Number)
    ensures forall e :: e in Older(rows, cutoff) <==> e in rows && e.created < cutoff
    ensures Rising(Older(rows, cutoff), Number)
  {
    if rows != [] {
      assert Rising(rows[1..], Number);
      OlderRows(rows[1..], cutoff);
      assert rows == [rows[0]] + rows[1..];
    }
  }

  /** What BuildCandidate reads: the oldest rows below the cutoff, in order. */
  function Picked(b: Book, cutoff: nat, limit: nat): seq<Event> {
    First(Older(Hot(b), cutoff), limit)
  }

  /** `part` are the `limit` oldest of those rows that were created before the cutoff, or all
      of them. */
  ghost predicate OldestRows(part: seq<Event>, rows: seq<Event>, cutoff: nat, limit: nat) {
    && |part| <= limit && Rising(part, Number) && (forall e :: e in part ==> e in rows && e.created < cutoff)
    && forall e :: e in rows && e.created < cutoff && e !in part ==> |part| == limit && AllBefore(part, e)
  }

  predicate AllBefore(part: seq<Event>, e: Event) {
    forall p :: p in part ==> p.no < e.no
  }

  /** What a cut leaves out comes after all it keeps. */
  lemma LeftOutIsLater(rows: seq<Event>, n: nat, e: Event)
    requires Rising(rows, Number) && e in rows && e !in First(rows, n)
    ensures |First(rows, n)| == n && AllBefore(First(rows, n), e)
  {
    var j :| 0 <= j < |rows| && rows[j] == e;
    assert forall i :: 0 <= i < |First(rows, n)| ==> First(rows, n)[i] == rows[i] && First(rows, n)[i] != e;
    forall p | p in First(rows, n) ensures p.no < e.no {
      var i :| 0 <= i < n && First(rows, n)[i] == p;
      assert Number(rows[i]) < Number(rows[j]);
    }
  }

  lemma PickedAreOldest(b: Book, cutoff: nat, limit: nat)
    requires Rising(Hot(b), Number)
    ensures OldestRows(Picked(b, cutoff, limit), Hot(b), cutoff, limit)
  {
    var aged := Older(Hot(b), cutoff);
    OlderRows(Hot(b), cutoff);
    FirstKeeps(aged, limit);
    forall e | e in Hot(b) && e.created < cutoff && e !in First(aged, limit)
      ensures |First(aged, limit)| == limit && AllBefore(First(aged, limit), e)
    {
      LeftOutIsLater(aged, limit, e);
    }
  }

  lemma FirstKeeps(rows: seq<Event>, n: nat)
    requires Rising(rows, Number)
    ensures |First(rows, n)| <= n && Rising(First(rows, n), Number) && forall e :: e in First(rows, n) ==> e in rows
  {
  }

  /** The archive starts at the first hot row and takes the oldest rows below the cutoff. */
  ghost predicate TakesOldest(b: Book, a: Archive, cutoff: nat, limit: nat) {
    a.from == NextFrom(b.done) && 1 <= a.count <= |Hot(b)| && OldestRows(Hot(b)[..a.count], Hot(b), cutoff, limit)
  }

  lemma PrefixTakesOldest(b: Book, a: Archive, events: seq<Event>, cutoff: nat, limit: nat)
    requires OldestRows(events, Hot(b), cutoff, limit) && events <= Hot(b) && a.count == |events| >= 1 && a.from == NextFrom(b.done)
    ensures TakesOldest(b, a, cutoff, limit)
  {
    assert Hot(b)[..|events|] == events;
  }

  function FirstPrevOf(done: seq<Archive>): Hash {
    if done == [] then "" else done[|done| - 1].last
  }

  /** Archive row `a` asks for the next `n` hot events. */
  predicate AsksFor(k: StreamKey, b: Book, a: Archive, n: nat) {
    && a.stream == k && a.from == NextFrom(b.done) && a.to == a.from + n - 1 && a.count == n
    && a.firstPrev == FirstPrevOf(b.done)
  }

  lemma LastIsDigest(h: Digests, k: StreamKey, history: seq<Event>, done: seq<Archive>)
    requires DoneOk(h, k, history, done)
    ensures done != [] ==> |FirstPrevOf(done)| == 64 && Anchor(done) == Some(FirstPrevOf(done)) && NextFrom(done) > 1
    ensures done == [] ==> Anchor(done) == None && NextFrom(done) == 1
  {
    if done != [] {
      assert DoneAt(h, k, history, done, |done| - 1);
    }
  }

  lemma ChainFits(h: Digests, a: Archive, events: seq<Event>)
    requires IsChain(h, events, a.from, ArchiveAnchor(a)) && |events| == a.count && events != []
    requires a.to == a.from + a.count - 1 && (a.from > 1 ==> |a.firstPrev| == 64)
    requires forall i :: 0 <= i < |events| ==> events[i].stream == a.stream
    requires a.last != "" ==> events[|events| - 1].current == Some(a.last)
    ensures EventsFit(h, a, events)
  {
    forall i | 0 <= i < |events| ensures events[i].no == a.from + i {
      assert Linked(h, events, a.from, ArchiveAnchor(a), i);
    }
  }

  /** The next hot events always pass the check of an archive that asks for them. */
  lemma PrefixFits(h: Digests, k: StreamKey, b: Book, a: Archive, n: nat)
    requires IsChain(h, b.history, 1, None) && DoneOk(h, k, b.history, b.done)
    requires 1 <= n <= |Hot(b)| && AsksFor(k, b, a, n)
    requires forall e :: e in Hot(b) ==> e.stream == k
    requires a.last != "" ==> Hot(b)[n - 1].current == Some(a.last)
    ensures EventsFit(h, a, Hot(b)[..n])
  {
    HotChain(h, k, b);
    LastIsDigest(h, k, b.history, b.done);
    FittingPrefix(h, k, Hot(b), a, n, Anchor(b.done));
  }

  lemma FittingPrefix(h: Digests, k: StreamKey, hot: seq<Event>, a: Archive, n: nat, anchor: Option<Hash>)
    requires IsChain(h, hot, a.from, anchor) && anchor == ArchiveAnchor(a) && (a.from > 1 ==> |a.firstPrev| == 64)
    requires 1 <= n <= |hot| && a.stream == k && a.count == n && a.to == a.from + n - 1
    requires forall e :: e in hot ==> e.stream == k
    requires a.last != "" ==> hot[n - 1].current == Some(a.last)
    ensures EventsFit(h, a, hot[..n])
  {
    ChainPart(h, hot, a.from, anchor, 0, n);
    var events := hot[..n];
    assert hot[0..n] == events;
    forall i | 0 <= i < |events| ensures events[i].stream == a.stream {
      assert events[i] in hot;
    }
    ChainFits(h, a, events);
  }

  /** Only the next events pass it. */
  lemma FitIsPrefix(h: Digests, hot: seq<Event>, a: Archive, events: seq<Event>)
    requires EventsFit(h, a, events) && forall i :: 0 <= i < |hot| ==> hot[i].no == a.from + i
    requires forall e :: e in events ==> e in hot
    ensures events <= hot
  {
    forall i | 0 <= i < |events| ensures i < |hot| && events[i] == hot[i] {
      assert Linked(h, events, a.from, ArchiveAnchor(a), i);
      assert events[i] in events;
      var j :| 0 <= j < |hot| && hot[j] == events[i];
    }
  }

  /** The archive row as it is created for the next `n` hot events. */
  ghost predicate BuiltFor(h: Digests, k: StreamKey, b: Book, a: Archive, n: nat) {
    && ManifestValid(h, a) && 1 <= n <= |Hot(b)| && AsksFor(k, b, a, n) && KeyOf(a.ws) == k && a.status == ArchiveQueued
    && Hot(b)[n - 1].current == Some(a.last) && a.digest == h.events(Hot(b)[..n])
  }

  lemma HotPrefix(b: Book, n: nat)
    requires NextFrom(b.done) - 1 <= |b.history| && 1 <= n <= |Hot(b)|
    ensures Hot(b)[..n] == b.history[NextFrom(b.done) - 1..NextFrom(b.done) - 1 + n]
    ensures Hot(b)[n - 1] == b.history[NextFrom(b.done) + n - 2]
  {
  }

  lemma BuiltCovers(h: Digests, k: StreamKey, b: Book, a: Archive, n: nat)
    requires BuiltFor(h, k, b, a, n) && NextFrom(b.done) - 1 <= |b.history|
    requires PrevAt(b.history, None, NextFrom(b.done) - 1) == Anchor(b.done)
    requires b.done != [] ==> Anchor(b.done) == Some(FirstPrevOf(b.done)) && NextFrom(b.done) > 1
    ensures Covers(h, k, b.history, a)
  {
    HotPrefix(b, n);
    CoversFrom(h, k, b.history, a, NextFrom(b.done) - 1, n);
  }

  lemma CoversFrom(h: Digests, k: StreamKey, history: seq<Event>, a: Archive, cut: nat, n: nat)
    requires 1 <= n && cut + n <= |history| && a.stream == k && a.from == cut + 1 && a.to == cut + n && a.count == n
    requires if cut == 0 then a.firstPrev == "" else history[cut - 1].current == Some(a.firstPrev)
    requires history[cut + n - 1].current == Some(a.last) && a.digest == h.events(history[cut..cut + n])
    requires ManifestValid(h, a) && KeyOf(a.ws) == k
    ensures Covers(h, k, history, a)
  {
  }

  lemma DoneAreCompleted(h: Digests, k: StreamKey, history: seq<Event>, done: seq<Archive>)
    requires DoneOk(h, k, history, done)
    ensures forall a :: a in done ==> a.status == ArchiveCompleted
  {
    forall a | a in done ensures a.status == ArchiveCompleted {
      var i :| 0 <= i < |done| && done[i] == a;
      assert DoneAt(h, k, history, done, i);
    }
  }

  /** Writing the row of the archive under way. */
  lemma PendingRow(k: StreamKey, done: seq<Archive>, pending: Option<Archive>, archives: map<string, Archive>, a: Archive)
    requires ArchivesOk(k, done, pending, archives) && a.stream == k
    requires forall d :: d in done ==> d.status == ArchiveCompleted
    requires if pending.Some? then a.id == pending.value.id && pending.value.status != ArchiveCompleted
             else a.id !in archives
    ensures ArchivesOk(k, done, Some(a), archives[a.id := a])
  {
  }

  lemma BuiltTables(h: Digests, k: StreamKey, b: Book, t: AuditTables, a: Archive, n: nat)
    requires StreamOk(h, k, b, t) && b.pending.None? && BuiltFor(h, k, b, a, n)
    requires a.id !in t.archives
    ensures StreamOk(h, k, b.(pending := Some(a)), t.(archives := t.archives[a.id := a]))
  {
    CutInside(h, k, b.history, b.done);
    LastIsDigest(h, k, b.history, b.done);
    BuiltCovers(h, k, b, a, n);
    DoneAreCompleted(h, k, b.history, b.done);
    PendingRow(k, b.done, b.pending, t.archives, a);
    PendingOnly(h, k, b, t, Some(a), t.archives[a.id := a]);
  }

  /** Nothing but the archive under way changed. */
  lemma PendingOnly(h: Digests, k: StreamKey, b: Book, t: AuditTables, p: Option<Archive>, archives: map<string, Archive>)
    requires StreamOk(h, k, b, t) && PendingOk(h, k, b.history, b.done, p) && ArchivesOk(k, b.done, p, archives)
    ensures StreamOk(h, k, b.(pending := p), t.(archives := archives))
  {
    assert Hot(b.(pending := p)) == Hot(b);
  }

  // ----- life of an archive -----------------------------------------------------------

  /** Only the progress columns of an unfinished archive change. */
  predicate Progress(a: Archive, a': Archive) {
    a' == a.(status := a'.status, failures := a'.failures) && a'.status != ArchiveCompleted
  }

  lemma ProgressTables(h: Digests, k: StreamKey, b: Book, t: AuditTables, a': Archive)
    requires StreamOk(h, k, b, t) && b.pending.Some? && Progress(b.pending.value, a')
    ensures StreamOk(h, k, b.(pending := Some(a')), t.(archives := t.archives[a'.id := a']))
  {
    SameCover(h, k, b.history, b.pending.value, a');
    DoneAreCompleted(h, k, b.history, b.done);
    PendingRow(k, b.done, b.pending, t.archives, a');
    PendingOnly(h, k, b, t, Some(a'), t.archives[a'.id := a']);
  }

  /** What an archive covers does not depend on its progress columns. */
  lemma SameCover(h: Digests, k: StreamKey, history: seq<Event>, a: Archive, a': Archive)
    requires Covers(h, k, history, a)
    requires a' == a.(status := a'.status, failures := a'.failures, objectHash := a'.objectHash, verified := a'.verified)
    ensures Covers(h, k, history, a')
  {
    assert ManifestOf(a') == ManifestOf(a);
  }

  function Finished(a: Archive, objectHash: Hash): Archive {
    a.(status := ArchiveCompleted, objectHash := objectHash, verified := true)
  }

  function Closed(b: Book, objectHash: Hash): Book
    requires b.pending.Some?
  {
    Book(b.history, b.done + [Finished(b.pending.value, objectHash)], None)
  }

  lemma ClosedDone(h: Digests, k: StreamKey, b: Book, objectHash: Hash)
    requires DoneOk(h, k, b.history, b.done) && PendingOk(h, k, b.history, b.done, b.pending)
    requires b.pending.Some? && objectHash != ""
    ensures DoneOk(h, k, b.history, Closed(b, objectHash).done)
  {
    var a := b.pending.value;
    var more := Closed(b, objectHash).done;
    SameCover(h, k, b.history, a, Finished(a, objectHash));
    forall i | 0 <= i < |more| ensures DoneAt(h, k, b.history, more, i) {
      if i < |b.done| {
        assert DoneAt(h, k, b.history, b.done, i);
      }
    }
  }

  lemma ClosedHotRows(h: Digests, k: StreamKey, b: Book, objectHash: Hash)
    requires DoneOk(h, k, b.history, b.done) && b.pending.Some?
    requires b.pending.value.from == NextFrom(b.done) && Covers(h, k, b.history, b.pending.value)
    ensures b.pending.value.count <= |Hot(b)| && Hot(Closed(b, objectHash)) == Hot(b)[b.pending.value.count..]
  {
    var a := b.pending.value;
    CutInside(h, k, b.history, b.done);
    assert NextFrom(Closed(b, objectHash).done) == a.to + 1;
  }

  lemma CoveredPrefix(h: Digests, k: StreamKey, b: Book, a: Archive)
    requires DoneOk(h, k, b.history, b.done) && Covers(h, k, b.history, a) && a.from == NextFrom(b.done)
    ensures 1 <= a.count <= |Hot(b)| && AsksFor(k, b, a, a.count)
    ensures a.digest == h.events(Hot(b)[..a.count]) && Hot(b)[a.count - 1].current == Some(a.last)
  {
    CutInside(h, k, b.history, b.done);
    LastIsDigest(h, k, b.history, b.done);
    HotPrefix(b, a.count);
  }

  /** What Finalize reads for the archive under way, and that it passes both checks. */
  lemma PendingEvents(h: Digests, k: StreamKey, b: Book)
    requires BookOk(h, k, b) && b.pending.Some? && forall e :: e in Hot(b) ==> e.stream == k
    ensures 1 <= b.pending.value.count <= |Hot(b)|
    ensures EventsFit(h, b.pending.value, Hot(b)[..b.pending.value.count])
    ensures h.events(Hot(b)[..b.pending.value.count]) == b.pending.value.digest
  {
    CoveredPrefix(h, k, b, b.pending.value);
    PrefixFits(h, k, b, b.pending.value, b.pending.value.count);
  }

  lemma ClosedLogs(k: StreamKey, hot: seq<Event>, logs: map<nat, Event>, n: nat, gone: set<nat>)
    requires LogsOk(k, hot, logs) && n <= |hot|
    requires forall i, j :: 0 <= i < j < |hot| ==> hot[i].id != hot[j].id
    requires forall id :: id in gone <==> id in logs && logs[id] in hot[..n]
    ensures LogsOk(k, hot[n..], logs - gone)
  {
    forall e | e in hot ensures e in hot[n..] <==> e !in hot[..n] {
      var i :| 0 <= i < |hot| && hot[i] == e;
      if i < n {
        assert hot[..n][i] == e;
      } else {
        assert hot[n..][i - n] == e;
      }
    }
  }

  lemma {:induction false} IdsCount(rows: seq<Event>)
    requires forall i, j :: 0 <= i < j < |rows| ==> rows[i].id != rows[j].id
    ensures |set e | e in rows :: e.id| == |rows|
  {
    var ids := set e | e in rows :: e.id;
    if rows != [] {
      var last, before := rows[|rows| - 1], rows[..|rows| - 1];
      IdsCount(before);
      var fewer := set e | e in before :: e.id;
      assert rows == before + [last];
      assert ids == fewer + {last.id};
      assert last.id !in fewer;
    } else {
      assert ids == {};
    }
  }

  lemma ClosedHot(h: Digests, k: StreamKey, b: Book, logs: map<nat, Event>, n: nat, gone: set<nat>)
    requires HistoryOk(h, k, b.history) && LogsOk(k, Hot(b), logs) && n <= |Hot(b)|
    requires forall id :: id in gone <==> id in logs && logs[id] in Hot(b)[..n]
    ensures LogsOk(k, Hot(b)[n..], logs - gone)
  {
    HotIds(h, k, b.history, Hot(b), |b.history| - |Hot(b)|);
    ClosedLogs(k, Hot(b), logs, n, gone);
  }

  lemma ClosedTables(h: Digests, k: StreamKey, b: Book, t: AuditTables, objectHash: Hash, gone: set<nat>)
    requires StreamOk(h, k, b, t) && b.pending.Some? && objectHash != ""
    requires b.pending.value.count <= |Hot(b)|
    requires forall id :: id in gone <==> id in t.logs && t.logs[id] in Hot(b)[..b.pending.value.count]
    ensures var a := Finished(b.pending.value, objectHash);
            StreamOk(h, k, Closed(b, objectHash), t.(logs := t.logs - gone, archives := t.archives[a.id := a]))
  {
    var a := Finished(b.pending.value, objectHash);
    ClosedDone(h, k, b, objectHash);
    ClosedHotRows(h, k, b, objectHash);
    ClosedHot(h, k, b, t.logs, b.pending.value.count, gone);
    DoneAreCompleted(h, k, b.history, b.done);
    ClosedArchives(k, b, t.archives, objectHash);
    Assemble(h, k, Closed(b, objectHash), t.(logs := t.logs - gone, archives := t.archives[a.id := a]),
             Hot(b)[b.pending.value.count..]);
  }

  lemma HotIds(h: Digests, k: StreamKey, history: seq<Event>, hot: seq<Event>, cut: nat)
    requires HistoryOk(h, k, history) && cut <= |history| && (hot == history[cut..] || hot == [])
    ensures forall i, j :: 0 <= i < j < |hot| ==> hot[i].id != hot[j].id
  {
    forall i, j | 0 <= i < j < |hot| ensures hot[i].id != hot[j].id {
      assert Before(history, cut + i, cut + j);
    }
  }

  lemma ClosedArchives(k: StreamKey, b: Book, archives: map<string, Archive>, objectHash: Hash)
    requires ArchivesOk(k, b.done, b.pending, archives) && b.pending.Some? && b.pending.value.status != ArchiveCompleted
    requires forall a :: a in b.done ==> a.status == ArchiveCompleted
    ensures var a := Finished(b.pending.value, objectHash);
            ArchivesOk(k, Closed(b, objectHash).done, None, archives[a.id := a])
  {
  }

  // ----- what the queries return ------------------------------------------------------

  function To(a: Archive): nat {
    a.to
  }

  lemma {:induction false} DoneRising(h: Digests, k: StreamKey, history: seq<Event>, done: seq<Archive>)
    requires DoneOk(h, k, history, done)
    ensures Rising(done, To)
  {
    if done != [] {
      var before, last := done[..|done| - 1], done[|done| - 1];
      forall i | 0 <= i < |before| ensures DoneAt(h, k, history, before, i) {
        assert DoneAt(h, k, history, done, i);
      }
      DoneRising(h, k, history, before);
      assert DoneAt(h, k, history, done, |done| - 1);
      forall i | 0 <= i < |before| ensures To(done[i]) < To(last) {
        assert To(before[i]) <= To(before[|before| - 1]);
      }
    }
  }

  /** The finished archives, listed by their end, are the book's. */
  lemma DoneListed(h: Digests, k: StreamKey, b: Book, t: AuditTables, rows: seq<Archive>)
    requires StreamOk(h, k, b, t) && NoRepeat(rows)
    requires forall a :: a in rows <==>
               exists id :: id in t.archives && t.archives[id] == a && a.stream == k && a.status == ArchiveCompleted
    requires forall i, j :: 0 <= i < j < |rows| ==> To(rows[i]) <= To(rows[j])
    ensures rows == b.done
  {
    DoneRising(h, k, b.history, b.done);
    DoneAreCompleted(h, k, b.history, b.done);
    forall a ensures a in rows <==> a in b.done {
      if a in b.done {
        assert t.archives[a.id] == a;
      }
    }
    ListedIs(rows, b.done, To);
  }

  /** Some archive of the stream is unfinished exactly when one is under way. */
  lemma ActiveIsPending(h: Digests, k: StreamKey, b: Book, t: AuditTables)
    requires StreamOk(h, k, b, t)
    ensures (set id | id in t.archives && t.archives[id].stream == k && t.archives[id].status != ArchiveCompleted) != {}
            <==> b.pending.Some?
  {
    DoneAreCompleted(h, k, b.history, b.done);
    var active := set id | id in t.archives && t.archives[id].stream == k && t.archives[id].status != ArchiveCompleted;
    if b.pending.Some? {
      assert b.pending.value.id in active;
    }
  }

  /** The hot rows of a stream in a range of numbers, below a time, by number. */
  lemma HotListed(h: Digests, k: StreamKey, b: Book, t: AuditTables, rows: seq<Event>, expected: seq<Event>)
    requires StreamOk(h, k, b, t) && NoRepeat(rows) && Rising(expected, Number)
    requires forall i, j :: 0 <= i < j < |rows| ==> Number(rows[i]) <= Number(rows[j])
    requires forall e :: e in rows <==> e in expected
    ensures rows == expected
  {
    ListedIs(rows, expected, Number);
  }

  lemma InLogs(h: Digests, k: StreamKey, b: Book, t: AuditTables, e: Event)
    requires StreamOk(h, k, b, t)
    ensures e in Hot(b) <==> exists id :: id in t.logs && t.logs[id] == e && e.stream == k
  {
    if e in Hot(b) {
      assert t.logs[e.id] == e;
    }
  }

  lemma HotStream(h: Digests, k: StreamKey, b: Book, t: AuditTables)
    requires StreamOk(h, k, b, t)
    ensures forall e :: e in Hot(b) ==> e.stream == k
  {
  }

  lemma PrefixPasses(h: Digests, k: StreamKey, b: Book, a: Archive, n: nat)
    requires IsChain(h, b.history, 1, None) && DoneOk(h, k, b.history, b.done)
    requires forall e :: e in Hot(b) ==> e.stream == k
    requires 1 <= n <= |Hot(b)| && a.to == Hot(b)[n - 1].no
    requires a.stream == k && a.from == NextFrom(b.done) && a.count == n
    requires a.firstPrev == FirstPrevOf(b.done) && a.last == ""
    ensures EventsFit(h, a, Hot(b)[..n])
  {
    HotNumbers(h, k, b);
    PrefixFits(h, k, b, a, n);
  }

  lemma PrefixTaken(events: seq<Event>, hot: seq<Event>)
    requires events <= hot
    ensures |events| <= |hot| && events == hot[..|events|]
  {
  }

  lemma NextRowsPass(h: Digests, k: StreamKey, b: Book, a: Archive, events: seq<Event>)
    requires IsChain(h, b.history, 1, None) && DoneOk(h, k, b.history, b.done)
    requires forall e :: e in Hot(b) ==> e.stream == k
    requires events != [] && events <= Hot(b)
    requires a.stream == k && a.from == NextFrom(b.done) && a.to == events[|events| - 1].no && a.count == |events|
    requires a.firstPrev == FirstPrevOf(b.done) && a.last == ""
    ensures EventsFit(h, a, events)
  {
    PrefixTaken(events, Hot(b));
    PrefixPasses(h, k, b, a, |events|);
  }

  lemma OnlyNextRowsPass(h: Digests, k: StreamKey, b: Book, a: Archive, events: seq<Event>)
    requires IsChain(h, b.history, 1, None) && DoneOk(h, k, b.history, b.done)
    requires a.from == NextFrom(b.done) && EventsFit(h, a, events)
    requires forall e :: e in events ==> e in Hot(b)
    ensures events <= Hot(b)
  {
    HotNumbers(h, k, b);
    FitIsPrefix(h, Hot(b), a, events);
  }

  /** The check of a new archive row succeeds exactly when the rows it was built
      from are the next ones without a gap. */
  lemma BuildDecides(h: Digests, k: StreamKey, b: Book, a: Archive, events: seq<Event>)
    requires IsChain(h, b.history, 1, None) && DoneOk(h, k, b.history, b.done)
    requires forall e :: e in Hot(b) ==> e.stream == k
    requires events != [] && forall e :: e in events ==> e in Hot(b)
    requires a.stream == k && a.from == NextFrom(b.done) && a.to == events[|events| - 1].no && a.count == |events|
    requires a.firstPrev == FirstPrevOf(b.done) && a.last == ""
    ensures EventsFit(h, a, events) <==> events <= Hot(b)
  {
    if events <= Hot(b) {
      NextRowsPass(h, k, b, a, events);
    }
    if EventsFit(h, a, events) {
      OnlyNextRowsPass(h, k, b, a, events);
    }
  }
}
