/** The audit tables and the transactions on them. Every method keeps, for every
    stream, the tables in agreement with one unbroken history. */
module AuditStore {
  import opened Common
  import opened Sorting
  import opened Audit
  import opened AuditBooks
  import opened AuditRebuild

  ghost predicate AllOk(h: Digests, books: map<StreamKey, Book>, t: AuditTables) {
    forall k {:trigger StreamOk(h, k, BookOf(books, k), t)} :: StreamOk(h, k, BookOf(books, k), t)
  }

  /** A step on one stream. */
  lemma OneStream(h: Digests, books: map<StreamKey, Book>, t: AuditTables, t': AuditTables, k: StreamKey, b: Book)
    requires AllOk(h, books, t) && StreamOk(h, k, b, t') && forall j :: j != k ==> SameStream(j, t, t')
    ensures AllOk(h, books[k := b], t')
  {
    var more := books[k := b];
    forall j ensures StreamOk(h, j, BookOf(more, j), t') {
      if j != k {
        OtherStream(h, j, BookOf(books, j), t, t');
      }
    }
  }

  lemma Keyed(h: Digests, books: map<StreamKey, Book>, t: AuditTables)
    requires AllOk(h, books, t)
    ensures forall id :: id in t.logs ==> t.logs[id].id == id
    ensures forall id :: id in t.archives ==> t.archives[id].id == id
  {
    forall id | id in t.logs ensures t.logs[id].id == id {
      assert StreamOk(h, t.logs[id].stream, BookOf(books, t.logs[id].stream), t);
    }
    forall id | id in t.archives ensures t.archives[id].id == id {
      assert StreamOk(h, t.archives[id].stream, BookOf(books, t.archives[id].stream), t);
    }
  }

  lemma LogBelow(h: Digests, books: map<StreamKey, Book>, t: AuditTables, id: nat)
    requires AllOk(h, books, t) && id in t.logs
    ensures id < t.nextLog
  {
    var e := t.logs[id];
    var b := BookOf(books, e.stream);
    assert StreamOk(h, e.stream, b, t);
    var i :| 0 <= i < |Hot(b)| && Hot(b)[i] == e;
    assert b.history[NextFrom(b.done) - 1 + i].id < t.nextLog;
  }

  /** What the stream row tells the next append. */
  lemma StreamEnd(h: Digests, k: StreamKey, history: seq<Event>, streams: map<StreamKey, StreamRow>)
    requires Hexadecimal(h) && IsChain(h, history, 1, None) && StreamRowOk(k, history, streams)
    ensures k in streams ==>
              && streams[k].nextSeq == |history| + 1
              && PrevAt(history, None, |history|) == if streams[k].lastHash != "" then Some(streams[k].lastHash) else None
    ensures k !in streams ==> history == []
  {
    if history != [] {
      assert Linked(h, history, 1, None, |history| - 1);
    }
  }

  lemma StreamTells(h: Digests, books: map<StreamKey, Book>, t: AuditTables, k: StreamKey)
    requires Sound(h) && AllOk(h, books, t)
    ensures var history := BookOf(books, k).history;
            && (k in t.streams ==>
                  && t.streams[k].nextSeq == |history| + 1
                  && PrevAt(history, None, |history|) ==
                     if t.streams[k].lastHash != "" then Some(t.streams[k].lastHash) else None)
            && (k !in t.streams ==> history == [])
  {
    assert StreamOk(h, k, BookOf(books, k), t);
    StreamEnd(h, k, BookOf(books, k).history, t.streams);
  }

  /** The tables after row `row` was appended. */
  function WithRow(t: AuditTables, row: Event): AuditTables
    requires row.current.Some?
  {
    AuditTables(t.logs[row.id := row], t.nextLog + 1,
                t.streams[row.stream := StreamRow(row.no + 1, row.current.value)], t.archives)
  }

  lemma AppendHere(h: Digests, b: Book, t: AuditTables, e: Event, now: nat)
    requires Sound(h) && StreamOk(h, KeyOf(e.ws), b, t) && t.nextLog !in t.logs
    requires now >= MILLISECOND && (e.created == 0 || e.created >= MILLISECOND)
    ensures var row := Stored(h, e, t.nextLog, b.history, now);
            StreamOk(h, KeyOf(e.ws), b.(history := b.history + [row]), WithRow(t, row))
  {
    var row := Stored(h, e, t.nextLog, b.history, now);
    StoredIsLinked(h, e, t.nextLog, b.history, now);
    AppendedTables(h, KeyOf(e.ws), b, t, WithRow(t, row), row);
  }

  lemma RowElsewhere(t: AuditTables, row: Event, j: StreamKey)
    requires row.id !in t.logs && row.current.Some? && j != row.stream
    ensures SameStream(j, t, WithRow(t, row))
  {
  }

  lemma FreshLog(h: Digests, books: map<StreamKey, Book>, t: AuditTables)
    requires AllOk(h, books, t)
    ensures t.nextLog !in t.logs
  {
    assert t.nextLog in t.logs ==> t.nextLog < t.nextLog by {
      if t.nextLog in t.logs {
        LogBelow(h, books, t, t.nextLog);
      }
    }
  }

  /** Appending to one stream keeps every stream in agreement with its book. */
  lemma AppendKeeps(h: Digests, books: map<StreamKey, Book>, t: AuditTables, e: Event, now: nat)
    requires Sound(h) && AllOk(h, books, t) && now >= MILLISECOND && (e.created == 0 || e.created >= MILLISECOND)
    ensures var k := KeyOf(e.ws);
            var b := BookOf(books, k);
            var row := Stored(h, e, t.nextLog, b.history, now);
            AllOk(h, books[k := b.(history := b.history + [row])], WithRow(t, row))
  {
    var k := KeyOf(e.ws);
    var b := BookOf(books, k);
    var row := Stored(h, e, t.nextLog, b.history, now);
    FreshLog(h, books, t);
    assert StreamOk(h, k, b, t);
    AppendHere(h, b, t, e, now);
    forall j | j != k ensures SameStream(j, t, WithRow(t, row)) {
      RowElsewhere(t, row, j);
    }
    OneStream(h, books, t, WithRow(t, row), k, b.(history := b.history + [row]));
  }

  datatype BuildOutcome = BadBatchSize | NoCandidate | SourceBroken | Created

  /** What building an archive comes to: rows that are old enough but not the next
      ones without a gap are refused. */
  function BuildResult(b: Book, cutoff: nat, limit: int): BuildOutcome {
    if limit < 1 || limit > 100000 then BadBatchSize
    else if b.pending.Some? || Picked(b, cutoff, limit) == [] then NoCandidate
    else if Picked(b, cutoff, limit) <= Hot(b) then Created
    else SourceBroken
  }

  lemma PickedRows(h: Digests, k: StreamKey, b: Book, t: AuditTables, cutoff: nat)
    requires StreamOk(h, k, b, t)
    ensures Rising(Older(Hot(b), cutoff), Number)
    ensures forall e :: e in Older(Hot(b), cutoff) <==> e in Hot(b) && e.created < cutoff
    ensures forall e :: e in Hot(b) ==> e.stream == k && e.no >= NextFrom(b.done)
  {
    HotNumbers(h, k, b);
    OlderRows(Hot(b), cutoff);
  }

  /** The archive row for some picked rows, before and after it is sealed. */
  function Draft(id: string, k: StreamKey, from: nat, firstPrev: Hash, events: seq<Event>): Archive
    requires events != []
  {
    Archive(id, k, events[0].ws, ArchiveQueued, from, events[|events| - 1].no, |events|, firstPrev, "", "", "", "", 0, false)
  }

  function Sealed(h: Digests, a: Archive, last: Hash, digest: Hash): Archive {
    var filled := a.(last := last, digest := digest);
    filled.(manifestHash := h.seal(ManifestOf(filled)))
  }

  lemma SealedIsValid(h: Digests, id: string, k: StreamKey, from: nat, firstPrev: Hash, events: seq<Event>, last: Hash)
    requires Hexadecimal(h) && id != "" && from >= 1 && events != [] && |last| == 64
    requires events[|events| - 1].no == from + |events| - 1
    ensures ManifestValid(h, Sealed(h, Draft(id, k, from, firstPrev, events), last, h.events(events)))
  {
    assert |h.events(events)| == 64;
    var a := Sealed(h, Draft(id, k, from, firstPrev, events), last, h.events(events));
    assert ManifestOf(a) == ManifestOf(a.(manifestHash := ""));
    assert |h.seal(ManifestOf(a))| == 64;
  }

  /** The archive row made of the next `n` hot events. */
  function NextArchive(h: Digests, id: string, k: StreamKey, b: Book, n: nat): Archive
    requires 1 <= n <= |Hot(b)| && Hot(b)[n - 1].current.Some?
  {
    Sealed(h, Draft(id, k, NextFrom(b.done), FirstPrevOf(b.done), Hot(b)[..n]), Hot(b)[n - 1].current.value, h.events(Hot(b)[..n]))
  }

  lemma NextIsHashed(h: Digests, k: StreamKey, b: Book, n: nat)
    requires Hexadecimal(h) && IsChain(h, b.history, 1, None) && DoneOk(h, k, b.history, b.done) && 1 <= n <= |Hot(b)|
    ensures Hot(b)[n - 1].current.Some? && |Hot(b)[n - 1].current.value| == 64 && Hot(b)[n - 1].no == NextFrom(b.done) + n - 1
  {
    HotChain(h, k, b);
    assert Linked(h, Hot(b), NextFrom(b.done), Anchor(b.done), n - 1);
  }

  lemma NextIsBuilt(h: Digests, id: string, k: StreamKey, b: Book, n: nat)
    requires Hexadecimal(h) && IsChain(h, b.history, 1, None) && DoneOk(h, k, b.history, b.done)
    requires 1 <= n <= |Hot(b)| && id != "" && Hot(b)[n - 1].current.Some? && KeyOf(Hot(b)[0].ws) == k
    ensures BuiltFor(h, k, b, NextArchive(h, id, k, b, n), n)
  {
    NextIsHashed(h, k, b, n);
    var events := Hot(b)[..n];
    assert events[|events| - 1] == Hot(b)[n - 1];
    SealedIsValid(h, id, k, NextFrom(b.done), FirstPrevOf(b.done), events, Hot(b)[n - 1].current.value);
  }

  lemma HotIsKeyed(h: Digests, k: StreamKey, b: Book)
    requires HistoryOk(h, k, b.history) && DoneOk(h, k, b.history, b.done)
    ensures forall i :: 0 <= i < |Hot(b)| ==> KeyOf(Hot(b)[i].ws) == k
  {
    CutInside(h, k, b.history, b.done);
    forall i | 0 <= i < |Hot(b)| ensures KeyOf(Hot(b)[i].ws) == k {
      assert EventOk(k, b.history[NextFrom(b.done) - 1 + i]);
    }
  }

  /** A draft over the next hot rows, once sealed, fits the book. */
  lemma SealedFits(h: Digests, k: StreamKey, b: Book, t: AuditTables, id: string, n: nat)
    requires Hexadecimal(h) && StreamOk(h, k, b, t) && b.pending.None? && 1 <= n <= |Hot(b)| && id != "" && id !in t.archives
    ensures Hot(b)[n - 1].current.Some?
    ensures var a := NextArchive(h, id, k, b, n);
            StreamOk(h, k, b.(pending := Some(a)), t.(archives := t.archives[id := a]))
  {
    NextIsHashed(h, k, b, n);
    HotIsKeyed(h, k, b);
    NextIsBuilt(h, id, k, b, n);
    BuiltTables(h, k, b, t, NextArchive(h, id, k, b, n), n);
  }

  /** Writing one archive row touches one stream. */
  lemma ArchiveElsewhere(t: AuditTables, a: Archive, j: StreamKey)
    requires j != a.stream && (a.id in t.archives ==> t.archives[a.id].stream == a.stream)
    ensures SameStream(j, t, t.(archives := t.archives[a.id := a]))
  {
  }

  lemma ArchiveStep(h: Digests, books: map<StreamKey, Book>, t: AuditTables, a: Archive, b: Book)
    requires AllOk(h, books, t) && (a.id in t.archives ==> t.archives[a.id].stream == a.stream)
    requires StreamOk(h, a.stream, b, t.(archives := t.archives[a.id := a]))
    ensures AllOk(h, books[a.stream := b], t.(archives := t.archives[a.id := a]))
  {
    var t' := t.(archives := t.archives[a.id := a]);
    forall j | j != a.stream ensures SameStream(j, t, t') {
      ArchiveElsewhere(t, a, j);
    }
    OneStream(h, books, t, t', a.stream, b);
  }

  /** Creating the archive of the next `n` hot rows of one stream. */
  lemma CreateStep(h: Digests, books: map<StreamKey, Book>, t: AuditTables, k: StreamKey, id: string, n: nat)
    requires Sound(h) && AllOk(h, books, t) && BookOf(books, k).pending.None? && 1 <= n <= |Hot(BookOf(books, k))|
    requires id != "" && id !in t.archives
    ensures var b := BookOf(books, k);
            && Hot(b)[n - 1].current.Some?
            && AllOk(h, books[k := b.(pending := Some(NextArchive(h, id, k, b, n)))],
                     t.(archives := t.archives[id := NextArchive(h, id, k, b, n)]))
  {
    var b := BookOf(books, k);
    assert StreamOk(h, k, b, t);
    SealedFits(h, k, b, t, id, n);
    ArchiveStep(h, books, t, NextArchive(h, id, k, b, n), b.(pending := Some(NextArchive(h, id, k, b, n))));
  }

  /** The same for rows that passed the check. */
  lemma CreateStepFor(h: Digests, books: map<StreamKey, Book>, t: AuditTables, k: StreamKey, a: Archive, events: seq<Event>)
    requires Sound(h) && AllOk(h, books, t) && BookOf(books, k).pending.None?
    requires events != [] && events <= Hot(BookOf(books, k)) && events[|events| - 1].current.Some?
    requires a == Sealed(h, Draft(a.id, k, NextFrom(BookOf(books, k).done), FirstPrevOf(BookOf(books, k).done), events),
                         events[|events| - 1].current.value, h.events(events))
    requires a.id != "" && a.id !in t.archives
    ensures AllOk(h, books[k := BookOf(books, k).(pending := Some(a))], t.(archives := t.archives[a.id := a]))
  {
    assert events == Hot(BookOf(books, k))[..|events|];
    CreateStep(h, books, t, k, a.id, |events|);
  }

  lemma DraftDecides(h: Digests, books: map<StreamKey, Book>, t: AuditTables, k: StreamKey, id: string, events: seq<Event>)
    requires AllOk(h, books, t) && events != [] && forall e :: e in events ==> e in Hot(BookOf(books, k))
    ensures var b := BookOf(books, k);
            EventsFit(h, Draft(id, k, NextFrom(b.done), FirstPrevOf(b.done), events), events) <==> events <= Hot(b)
  {
    var b := BookOf(books, k);
    assert StreamOk(h, k, b, t);
    HotStream(h, k, b, t);
    BuildDecides(h, k, b, Draft(id, k, NextFrom(b.done), FirstPrevOf(b.done), events), events);
  }

  lemma BuildFacts(h: Digests, books: map<StreamKey, Book>, t: AuditTables, k: StreamKey, cutoff: nat)
    requires AllOk(h, books, t)
    ensures var b := BookOf(books, k);
            && (b.pending.Some? <==>
                  (set id | id in t.archives && t.archives[id].stream == k && t.archives[id].status != ArchiveCompleted) != {})
            && Rising(Older(Hot(b), cutoff), Number)
            && (forall e :: e in Older(Hot(b), cutoff) <==> e in Hot(b) && e.created < cutoff)
            && (forall e :: e in Hot(b) ==> e.stream == k && e.no >= NextFrom(b.done))
  {
    var b := BookOf(books, k);
    assert StreamOk(h, k, b, t);
    ActiveIsPending(h, k, b, t);
    PickedRows(h, k, b, t, cutoff);
  }

  /** A queued archive of `count` events was added under `id` to stream `k`. */
  ghost predicate QueuedFor(books: map<StreamKey, Book>, books': map<StreamKey, Book>, archives: map<string, Archive>,
                            archives': map<string, Archive>, k: StreamKey, id: string, count: nat) {
    && id in archives' && archives' == archives[id := archives'[id]]
    && archives'[id].count == count && archives'[id].status == ArchiveQueued && archives'[id].failures == 0
    && !archives'[id].verified && archives'[id].objectHash == "" && archives'[id].stream == k
    && books' == books[k := BookOf(books, k).(pending := Some(archives'[id]))]
  }

  // ----- progress of an archive -------------------------------------------------------

  lemma PendingIs(h: Digests, books: map<StreamKey, Book>, t: AuditTables, id: string)
    requires AllOk(h, books, t) && id in t.archives && t.archives[id].status != ArchiveCompleted
    ensures BookOf(books, t.archives[id].stream).pending == Some(t.archives[id]) && t.archives[id].id == id
  {
    var k := t.archives[id].stream;
    assert StreamOk(h, k, BookOf(books, k), t);
    DoneAreCompleted(h, k, BookOf(books, k).history, BookOf(books, k).done);
  }

  lemma ProgressStep(h: Digests, books: map<StreamKey, Book>, t: AuditTables, a': Archive)
    requires AllOk(h, books, t) && a'.id in t.archives && t.archives[a'.id].status != ArchiveCompleted
    requires Progress(t.archives[a'.id], a')
    ensures AllOk(h, books[a'.stream := BookOf(books, a'.stream).(pending := Some(a'))],
                  t.(archives := t.archives[a'.id := a']))
  {
    PendingIs(h, books, t, a'.id);
    var k := a'.stream;
    assert StreamOk(h, k, BookOf(books, k), t);
    ProgressTables(h, k, BookOf(books, k), t, a');
    ArchiveStep(h, books, t, a', BookOf(books, k).(pending := Some(a')));
  }

  function RequeuedArchive(a: Archive): Archive {
    if a.status == ArchiveRunning then a.(status := ArchiveQueued) else a
  }

  function Requeued(b: Book): Book {
    b.(pending := if b.pending.Some? then Some(RequeuedArchive(b.pending.value)) else None)
  }

  function RequeuedRows(archives: map<string, Archive>): map<string, Archive> {
    map id | id in archives :: RequeuedArchive(archives[id])
  }

  lemma RequeuedStream(h: Digests, k: StreamKey, b: Book, t: AuditTables)
    requires StreamOk(h, k, b, t)
    ensures StreamOk(h, k, Requeued(b), t.(archives := RequeuedRows(t.archives)))
  {
    DoneAreCompleted(h, k, b.history, b.done);
    RequeuedListing(k, b.done, b.pending, t.archives);
    if b.pending.Some? {
      SameCover(h, k, b.history, b.pending.value, RequeuedArchive(b.pending.value));
    }
    PendingOnly(h, k, b, t, Requeued(b).pending, RequeuedRows(t.archives));
  }

  lemma RequeuedListing(k: StreamKey, done: seq<Archive>, pending: Option<Archive>, archives: map<string, Archive>)
    requires ArchivesOk(k, done, pending, archives) && forall a :: a in done ==> a.status == ArchiveCompleted
    ensures ArchivesOk(k, done, if pending.Some? then Some(RequeuedArchive(pending.value)) else None, RequeuedRows(archives))
  {
  }

  ghost function RequeuedBooks(books: map<StreamKey, Book>): map<StreamKey, Book> {
    map k | k in books :: Requeued(books[k])
  }

  /** Histories and finished archives are untouched. */
  ghost predicate SameRecord(books: map<StreamKey, Book>, books': map<StreamKey, Book>) {
    forall k :: BookOf(books', k).history == BookOf(books, k).history && BookOf(books', k).done == BookOf(books, k).done
  }

  lemma RequeueStep(h: Digests, books: map<StreamKey, Book>, t: AuditTables)
    requires AllOk(h, books, t)
    ensures AllOk(h, RequeuedBooks(books), t.(archives := RequeuedRows(t.archives)))
    ensures SameRecord(books, RequeuedBooks(books))
  {
    var books' := RequeuedBooks(books);
    var t' := t.(archives := RequeuedRows(t.archives));
    forall k ensures StreamOk(h, k, BookOf(books', k), t') {
      assert StreamOk(h, k, BookOf(books, k), t);
      assert BookOf(books', k) == Requeued(BookOf(books, k));
      RequeuedStream(h, k, BookOf(books, k), t);
    }
  }

  // ----- finishing an archive -----------------------------------------------------------

  predicate InRange(e: Event, a: Archive) {
    e.stream == a.stream && a.from <= e.no <= a.to
  }

  /** The rows of the archive under way are the first hot rows of its stream. */
  lemma RangeRows(h: Digests, k: StreamKey, b: Book, t: AuditTables, a: Archive)
    requires StreamOk(h, k, b, t) && b.pending == Some(a)
    ensures 1 <= a.count <= |Hot(b)| && EventsFit(h, a, Hot(b)[..a.count]) && h.events(Hot(b)[..a.count]) == a.digest
    ensures Rising(Hot(b)[..a.count], Number)
    ensures forall e :: e in Hot(b)[..a.count] <==> e in Hot(b) && InRange(e, a)
  {
    HotStream(h, k, b, t);
    PendingEvents(h, k, b);
    HotNumbers(h, k, b);
    FirstInRange(Hot(b), a);
  }

  lemma FirstInRange(hot: seq<Event>, a: Archive)
    requires a.count <= |hot| && a.to == a.from + a.count - 1
    requires forall i :: 0 <= i < |hot| ==> hot[i].no == a.from + i && hot[i].stream == a.stream
    ensures forall e :: e in hot[..a.count] <==> e in hot && InRange(e, a)
  {
    forall e ensures e in hot[..a.count] <==> e in hot && InRange(e, a) {
      if e in hot && InRange(e, a) {
        var i :| 0 <= i < |hot| && hot[i] == e;
        assert hot[..a.count][i] == e;
      }
      if e in hot[..a.count] {
        var i :| 0 <= i < a.count && hot[..a.count][i] == e;
        assert hot[i] == e;
      }
    }
  }

  function RangeIds(logs: map<nat, Event>, a: Archive): set<nat> {
    set id | id in logs && InRange(logs[id], a)
  }

  lemma RangeIdsOf(k: StreamKey, hot: seq<Event>, logs: map<nat, Event>, a: Archive)
    requires LogsOk(k, hot, logs) && a.stream == k && a.count <= |hot|
    requires forall i, j :: 0 <= i < j < |hot| ==> hot[i].id != hot[j].id
    requires forall e :: e in hot[..a.count] <==> e in hot && InRange(e, a)
    ensures |RangeIds(logs, a)| == a.count
    ensures forall id :: id in RangeIds(logs, a) <==> id in logs && logs[id] in hot[..a.count]
  {
    IdsCount(hot[..a.count]);
    RangeIdsAre(k, hot, logs, hot[..a.count], a);
  }

  lemma HotIdsOf(h: Digests, k: StreamKey, b: Book, t: AuditTables)
    requires StreamOk(h, k, b, t)
    ensures LogsOk(k, Hot(b), t.logs) && forall i, j :: 0 <= i < j < |Hot(b)| ==> Hot(b)[i].id != Hot(b)[j].id
  {
    HotIds(h, k, b.history, Hot(b), |b.history| - |Hot(b)|);
  }

  lemma RangeIdsAre(k: StreamKey, hot: seq<Event>, logs: map<nat, Event>, first: seq<Event>, a: Archive)
    requires LogsOk(k, hot, logs) && a.stream == k && forall e :: e in first <==> e in hot && InRange(e, a)
    ensures RangeIds(logs, a) == set e | e in first :: e.id
    ensures forall id :: id in RangeIds(logs, a) <==> id in logs && logs[id] in first
  {
    var ids := set e | e in first :: e.id;
    forall id ensures id in RangeIds(logs, a) <==> id in ids {
      if id in RangeIds(logs, a) {
        assert logs[id] in first && logs[id].id == id;
      }
    }
  }

  lemma FinishHere(h: Digests, k: StreamKey, b: Book, t: AuditTables, a: Archive, objectHash: Hash)
    requires StreamOk(h, k, b, t) && b.pending == Some(a) && objectHash != ""
    ensures StreamOk(h, k, Closed(b, objectHash),
                     t.(logs := t.logs - RangeIds(t.logs, a), archives := t.archives[a.id := Finished(a, objectHash)]))
  {
    RangeRows(h, k, b, t, a);
    HotIdsOf(h, k, b, t);
    RangeIdsOf(k, Hot(b), t.logs, a);
    ClosedTables(h, k, b, t, objectHash, RangeIds(t.logs, a));
  }

  lemma FinishElsewhere(t: AuditTables, a: Archive, a': Archive, j: StreamKey)
    requires j != a.stream && a'.id == a.id && a'.stream == a.stream
    requires a.id in t.archives ==> t.archives[a.id].stream == a.stream
    ensures SameStream(j, t, t.(logs := t.logs - RangeIds(t.logs, a), archives := t.archives[a.id := a']))
  {
  }

  lemma FinishStep(h: Digests, books: map<StreamKey, Book>, t: AuditTables, id: string, objectHash: Hash)
    requires AllOk(h, books, t) && id in t.archives && t.archives[id].status != ArchiveCompleted && objectHash != ""
    ensures var a := t.archives[id];
            && BookOf(books, a.stream).pending == Some(a)
            && AllOk(h, books[a.stream := Closed(BookOf(books, a.stream), objectHash)],
                     t.(logs := t.logs - RangeIds(t.logs, a), archives := t.archives[id := Finished(a, objectHash)]))
  {
    PendingIs(h, books, t, id);
    var a := t.archives[id];
    var t' := t.(logs := t.logs - RangeIds(t.logs, a), archives := t.archives[id := Finished(a, objectHash)]);
    assert StreamOk(h, a.stream, BookOf(books, a.stream), t);
    FinishHere(h, a.stream, BookOf(books, a.stream), t, a, objectHash);
    forall j | j != a.stream ensures SameStream(j, t, t') {
      FinishElsewhere(t, a, Finished(a, objectHash), j);
    }
    OneStream(h, books, t, t', a.stream, Closed(BookOf(books, a.stream), objectHash));
  }

  lemma FinishFacts(h: Digests, books: map<StreamKey, Book>, t: AuditTables, id: string)
    requires AllOk(h, books, t) && id in t.archives && t.archives[id].status != ArchiveCompleted
    ensures var a := t.archives[id];
            var hot := Hot(BookOf(books, a.stream));
            && 1 <= a.count <= |hot| && EventsFit(h, a, hot[..a.count]) && h.events(hot[..a.count]) == a.digest
            && Rising(hot[..a.count], Number) && |RangeIds(t.logs, a)| == a.count
            && (forall e :: e in hot[..a.count] <==> e in hot && InRange(e, a))
  {
    PendingIs(h, books, t, id);
    var k := t.archives[id].stream;
    assert StreamOk(h, k, BookOf(books, k), t);
    RangeRows(h, k, BookOf(books, k), t, t.archives[id]);
    HotIdsOf(h, k, BookOf(books, k), t);
    RangeIdsOf(k, Hot(BookOf(books, k)), t.logs, t.archives[id]);
  }

  /** Every check of Finalize: the archive is running, its rows are still the ones
      it was built from, and as many rows go as it counts. */
  ghost predicate CanFinish(h: Digests, books: map<StreamKey, Book>, t: AuditTables, id: string) {
    && id in t.archives && t.archives[id].status == ArchiveRunning
    && var a := t.archives[id];
       var hot := Hot(BookOf(books, a.stream));
       && a.count <= |hot| && EventsFit(h, a, hot[..a.count]) && h.events(hot[..a.count]) == a.digest
       && |RangeIds(t.logs, a)| == a.count
  }

  /** The archive moved from under way to finished, and its rows went with it. */
  ghost predicate FinishedFor(books: map<StreamKey, Book>, books': map<StreamKey, Book>, t: AuditTables, t': AuditTables,
                              id: string, objectHash: Hash)
    requires id in t.archives
  {
    var a := t.archives[id];
    && BookOf(books, a.stream).pending == Some(a)
    && books' == books[a.stream := Closed(BookOf(books, a.stream), objectHash)]
    && t' == t.(logs := t.logs - RangeIds(t.logs, a), archives := t.archives[id := Finished(a, objectHash)])
  }

  /** No check of Finalize ever fails for a running archive. */
  lemma FinalizeNeverFails(h: Digests, books: map<StreamKey, Book>, t: AuditTables, id: string)
    requires AllOk(h, books, t)
    ensures CanFinish(h, books, t, id) <==> id in t.archives && t.archives[id].status == ArchiveRunning
  {
    if id in t.archives && t.archives[id].status == ArchiveRunning {
      FinishFacts(h, books, t, id);
    }
  }

  // ----- verification -------------------------------------------------------------------

  lemma IntactFacts(h: Digests, books: map<StreamKey, Book>, t: AuditTables, k: StreamKey)
    requires AllOk(h, books, t)
    ensures var b := BookOf(books, k);
            && Intact(h, b.done, Hot(b), if k in t.streams then Some(t.streams[k]) else None)
            && NextFrom(b.done) - 1 + |Hot(b)| == |b.history| && Rising(Hot(b), Number)
            && (forall e :: e in Hot(b) ==> KeyOf(e.ws) == k && e.stream == k)
            && (k in t.streams ==> t.streams[k].nextSeq == |b.history| + 1) && (k !in t.streams ==> b.history == [])
  {
    var b := BookOf(books, k);
    assert StreamOk(h, k, b, t);
    BookIsIntact(h, k, b, t);
    ArchivedCounts(h, b.done);
    HotNumbers(h, k, b);
    forall e | e in Hot(b) ensures KeyOf(e.ws) == k {
      var i :| 0 <= i < |Hot(b)| && Hot(b)[i] == e;
      assert EventOk(k, b.history[NextFrom(b.done) - 1 + i]);
    }
  }

  /** Rows are stored under the stream of their workspace. */
  lemma RowsKeyed(h: Digests, books: map<StreamKey, Book>, t: AuditTables, id: nat)
    requires AllOk(h, books, t) && id in t.logs
    ensures t.logs[id].stream == KeyOf(t.logs[id].ws)
  {
    var k := t.logs[id].stream;
    assert StreamOk(h, k, BookOf(books, k), t);
    IntactFacts(h, books, t, k);
  }

  // ----- rebuilding -----------------------------------------------------------------------

  /** The rows of a workspace are the hot rows of its stream. */
  lemma WorkspaceRow(h: Digests, books: map<StreamKey, Book>, t: AuditTables, ws: nat, e: Event)
    requires AllOk(h, books, t)
    ensures e in Hot(BookOf(books, WorkspaceStream(ws))) <==> exists id :: id in t.logs && t.logs[id] == e && e.ws == Some(ws)
  {
    var k := WorkspaceStream(ws);
    assert StreamOk(h, k, BookOf(books, k), t);
    InLogs(h, k, BookOf(books, k), t, e);
    IntactFacts(h, books, t, k);
    if id :| id in t.logs && t.logs[id] == e && e.ws == Some(ws) {
      RowsKeyed(h, books, t, id);
    }
    if e in Hot(BookOf(books, k)) {
      assert e.ws == Some(ws);
    }
  }

  /** On a stream written by appends only, with nothing archived, a rebuild changes
      no row and keeps every stream in order. */
  lemma RebuildIsIdle(h: Digests, books: map<StreamKey, Book>, t: AuditTables, ws: nat, order: seq<Event>, logs': map<nat, Event>)
    requires Sound(h) && AllOk(h, books, t) && BookOf(books, WorkspaceStream(ws)).done == []
    requires ByIds(t.logs, ws, order) && Updated(t.logs, logs', Rebuilt(h, WorkspaceStream(ws), order, 1, None))
    ensures logs' == t.logs && order == BookOf(books, WorkspaceStream(ws)).history
    ensures Rebuilt(h, WorkspaceStream(ws), order, 1, None) == order
    ensures AllOk(h, books, t.(streams := t.streams[WorkspaceStream(ws) := StreamRow(|order| + 1, LastHash(order))]))
  {
    var k := WorkspaceStream(ws);
    var b := BookOf(books, k);
    assert StreamOk(h, k, b, t);
    assert Hot(b) == b.history;
    forall e ensures e in order <==> e in b.history {
      WorkspaceRow(h, books, t, ws, e);
    }
    RebuildKeepsHistory(h, k, b.history, order);
    Keyed(h, books, t);
    UpdatedSame(t.logs, logs', ws, order);
    StreamRowStep(h, books, t, k, StreamRow(|order| + 1, LastHash(order)));
  }

  lemma StreamRowStep(h: Digests, books: map<StreamKey, Book>, t: AuditTables, k: StreamKey, row: StreamRow)
    requires Sound(h) && AllOk(h, books, t)
    requires var history := BookOf(books, k).history; row == StreamRow(|history| + 1, LastHash(history))
    ensures AllOk(h, books, t.(streams := t.streams[k := row]))
  {
    var t' := t.(streams := t.streams[k := row]);
    forall j ensures StreamOk(h, j, BookOf(books, j), t') {
      assert StreamOk(h, j, BookOf(books, j), t);
      NewStreamRow(h, j, BookOf(books, j).history, t.streams, k, row);
    }
  }

  lemma NewStreamRow(h: Digests, j: StreamKey, history: seq<Event>, streams: map<StreamKey, StreamRow>, k: StreamKey, row: StreamRow)
    requires IsChain(h, history, 1, None) && StreamRowOk(j, history, streams)
    requires j == k ==> row == StreamRow(|history| + 1, LastHash(history))
    ensures StreamRowOk(j, history, streams[k := row])
  {
    if history != [] {
      assert Linked(h, history, 1, None, |history| - 1);
    }
  }

  class AuditStore {
    const h: Digests
    var logs: map<nat, Event>
    var nextLog: nat
    var streams: map<StreamKey, StreamRow>
    var archives: map<string, Archive>
    ghost var books: map<StreamKey, Book>

    ghost function State(): AuditTables
      reads this
    {
      AuditTables(logs, nextLog, streams, archives)
    }

    ghost predicate Valid()
      reads this
    {
      Sound(h) && AllOk(h, books, State())
    }

    constructor (digests: Digests)
      requires Sound(digests)
      ensures Valid() && books == map[] && h == digests
    {
      h, logs, nextLog, streams, archives, books := digests, map[], 1, map[], map[], map[];
    }

    /** lockAuditStream: the stream's next number and last digest, in a row that is
        created when it is missing. */
    method LockAuditStream(k: StreamKey) returns (next: nat, last: Hash)
      requires Valid()
      modifies this`streams
      ensures Valid() && k in streams
      ensures streams == if k in old(streams) then old(streams) else old(streams)[k := StreamRow(1, "")]
      ensures var history := BookOf(books, k).history;
              next == |history| + 1 && PrevAt(history, None, |history|) == if last != "" then Some(last) else None
    {
      ghost var before := State();
      if k !in streams {
        streams := streams[k := StreamRow(1, "")];
      }
      var stream := streams[k];
      next, last := if stream.nextSeq == 0 then 1 else stream.nextSeq, stream.lastHash;
      StreamTells(h, books, before, k);
      if k !in before.streams {
        StreamRowStep(h, books, before, k, StreamRow(1, ""));
      }
    }

    /** createOperationLogWithTx. A failed classification check rolls back the stream
        row. */
    method Append(e: Event, now: nat) returns (ok: bool)
      requires Valid() && now >= MILLISECOND && (e.created == 0 || e.created >= MILLISECOND)
      modifies this`logs, this`nextLog, this`streams, this`books
      ensures Valid() && ok == Classified(h, e)
      ensures !ok ==> State() == old(State()) && books == old(books)
      ensures ok ==>
                var b := BookOf(old(books), KeyOf(e.ws));
                books == old(books)[KeyOf(e.ws) :=
                  b.(history := b.history + [Stored(h, e, old(nextLog), b.history, now)])]
      ensures ok ==>
                && logs.Keys == old(logs).Keys + {old(nextLog)} && Records(h, e, logs[old(nextLog)], now)
                && forall id :: id in old(logs) ==> logs[id] == old(logs)[id]
    {
      var saved := streams;
      var next, last := LockAuditStream(KeyOf(e.ws));
      var actor := if IsBlank(e.actorType) then ActorOf(e.body) else e.actorType;
      if !((actor == "user" || actor == "system" || actor == "external_share") && h.classified(e.body)) {
        streams := saved;
        return false;
      }
      InsertEvent(e, next, if last != "" then Some(last) else None, now);
      return true;
    }

    method InsertEvent(e: Event, next: nat, prev: Option<Hash>, now: nat)
      requires Valid() && now >= MILLISECOND && (e.created == 0 || e.created >= MILLISECOND)
      requires var history := BookOf(books, KeyOf(e.ws)).history;
               next == |history| + 1 && prev == PrevAt(history, None, |history|)
      modifies this`logs, this`nextLog, this`streams, this`books
      ensures Valid()
      ensures var b := BookOf(old(books), KeyOf(e.ws));
              books == old(books)[KeyOf(e.ws) :=
                b.(history := b.history + [Stored(h, e, old(nextLog), b.history, now)])]
      ensures old(nextLog) !in old(logs) && logs.Keys == old(logs).Keys + {old(nextLog)}
      ensures Records(h, e, logs[old(nextLog)], now) && forall id :: id in old(logs) ==> logs[id] == old(logs)[id]
    {
      ghost var before, b := State(), BookOf(books, KeyOf(e.ws));
      FreshLog(h, books, before);
      StoredRecords(h, e, nextLog, b.history, now);
      AppendKeeps(h, books, before, e, now);
      var row := CompletedRow(h, e, nextLog, next, prev, now);
      WriteRow(row);
      books := books[KeyOf(e.ws) := b.(history := b.history + [row])];
      assert State() == WithRow(before, row);
    }

    method WriteRow(row: Event)
      requires row.id == nextLog && row.current.Some?
      modifies this`logs, this`nextLog, this`streams
      ensures logs == old(logs)[row.id := row] && nextLog == old(nextLog) + 1
      ensures streams == old(streams)[row.stream := StreamRow(row.no + 1, row.current.value)]
    {
      logs := logs[row.id := row];
      nextLog := nextLog + 1;
      streams := streams[row.stream := StreamRow(row.no + 1, row.current.value)];
    }

    /** SELECT the hot rows of a stream that satisfy `p`, by number. */
    method SelectLogs(p: Event -> bool, ghost k: StreamKey, ghost expected: seq<Event>) returns (rows: seq<Event>)
      requires Valid() && Rising(expected, Number)
      requires forall e :: e in expected <==> e in Hot(BookOf(books, k)) && p(e)
      requires forall e :: p(e) ==> e.stream == k
      ensures rows == expected
    {
      Keyed(h, books, State());
      rows := Select(logs, p, Number);
      assert StreamOk(h, k, BookOf(books, k), State());
      forall e ensures e in rows <==> e in expected {
        InLogs(h, k, BookOf(books, k), State(), e);
      }
      HotListed(h, k, BookOf(books, k), State(), rows, expected);
    }

    /** The finished archives of a stream, by their end. */
    method SelectArchives(k: StreamKey) returns (rows: seq<Archive>)
      requires Valid()
      ensures rows == BookOf(books, k).done
    {
      Keyed(h, books, State());
      rows := Select(archives, (a: Archive) => a.stream == k && a.status == ArchiveCompleted, To);
      assert StreamOk(h, k, BookOf(books, k), State());
      DoneListed(h, k, BookOf(books, k), State(), rows);
    }

    /** BuildCandidate, then Create with a fresh id. */
    method BuildAndCreate(k: StreamKey, cutoff: nat, limit: int, id: string) returns (outcome: BuildOutcome)
      requires Valid() && id != "" && id !in archives
      modifies this`archives, this`books
      ensures Valid() && outcome == BuildResult(BookOf(old(books), k), cutoff, limit)
      ensures outcome != Created ==> archives == old(archives) && books == old(books)
      ensures outcome == Created ==>
                QueuedFor(old(books), books, old(archives), archives, k, id, |Picked(BookOf(old(books), k), cutoff, limit)|)
      ensures outcome == Created ==> TakesOldest(BookOf(old(books), k), archives[id], cutoff, limit)
    {
      if limit < 1 || limit > 100000 {
        return BadBatchSize;
      }
      ghost var b := BookOf(books, k);
      var active := HasActive(k);
      if active {
        return NoCandidate;
      }
      var expectedSeq, previousHash := NextBoundary(k);
      var events := PickEvents(k, expectedSeq, cutoff, limit);
      if |events| == 0 {
        return NoCandidate;
      }
      outcome := CreateArchive(k, expectedSeq, previousHash, events, id);
      if outcome == Created {
        PrefixTakesOldest(b, archives[id], events, cutoff, limit);
      }
    }

    /** Where the next archive starts, and the digest it has to link to. */
    method NextBoundary(k: StreamKey) returns (expectedSeq: nat, previousHash: Hash)
      requires Valid()
      ensures expectedSeq == NextFrom(BookOf(books, k).done) && previousHash == FirstPrevOf(BookOf(books, k).done)
    {
      var done := SelectArchives(k);
      expectedSeq, previousHash := 1, "";
      if |done| > 0 {
        expectedSeq, previousHash := done[|done| - 1].to + 1, done[|done| - 1].last;
      }
    }

    method HasActive(k: StreamKey) returns (active: bool)
      requires Valid()
      ensures active == BookOf(books, k).pending.Some?
    {
      var found := set i | i in archives && archives[i].stream == k && archives[i].status != ArchiveCompleted;
      BuildFacts(h, books, State(), k, 0);
      return |found| > 0;
    }

    /** The oldest rows from number `from` on, below the cutoff. */
    method PickEvents(k: StreamKey, from: nat, cutoff: nat, limit: nat) returns (events: seq<Event>)
      requires Valid() && from == NextFrom(BookOf(books, k).done)
      ensures events == Picked(BookOf(books, k), cutoff, limit)
      ensures forall e :: e in events ==> e in Hot(BookOf(books, k))
      ensures OldestRows(events, Hot(BookOf(books, k)), cutoff, limit)
    {
      BuildFacts(h, books, State(), k, cutoff);
      IntactFacts(h, books, State(), k);
      PickedAreOldest(BookOf(books, k), cutoff, limit);
      events := SelectLogs((e: Event) => e.stream == k && e.no >= from && e.created < cutoff, k, Older(Hot(BookOf(books, k)), cutoff));
      events := First(events, limit);
    }

    method CreateArchive(k: StreamKey, from: nat, firstPrev: Hash, events: seq<Event>, id: string) returns (outcome: BuildOutcome)
      requires Valid() && id != "" && id !in archives && BookOf(books, k).pending.None? && events != []
      requires from == NextFrom(BookOf(books, k).done) && firstPrev == FirstPrevOf(BookOf(books, k).done)
      requires forall e :: e in events ==> e in Hot(BookOf(books, k))
      modifies this`archives, this`books
      ensures Valid() && outcome == if events <= Hot(BookOf(old(books), k)) then Created else SourceBroken
      ensures outcome != Created ==> archives == old(archives) && books == old(books)
      ensures outcome == Created ==> QueuedFor(old(books), books, old(archives), archives, k, id, |events|)
      ensures outcome == Created ==> archives[id].from == from
    {
      var archive := Draft(id, k, from, firstPrev, events);
      var ok := ValidateAuditArchiveEvents(h, archive, events);
      DraftDecides(h, books, State(), k, id, events);
      if !ok {
        return SourceBroken;
      }
      assert Linked(h, events, from, ArchiveAnchor(archive), |events| - 1);
      StoreArchive(k, Sealed(h, archive, events[|events| - 1].current.value, h.events(events)), events);
      return Created;
    }

    method StoreArchive(k: StreamKey, archive: Archive, ghost events: seq<Event>)
      requires Valid() && archive.id != "" && archive.id !in archives && BookOf(books, k).pending.None?
      requires events != [] && events <= Hot(BookOf(books, k)) && events[|events| - 1].current.Some?
      requires archive == Sealed(h, Draft(archive.id, k, NextFrom(BookOf(books, k).done), FirstPrevOf(BookOf(books, k).done), events),
                                 events[|events| - 1].current.value, h.events(events))
      modifies this`archives, this`books
      ensures Valid() && QueuedFor(old(books), books, old(archives), archives, k, archive.id, |events|)
      ensures archives[archive.id] == archive
    {
      CreateStepFor(h, books, State(), k, archive, events);
      archives := archives[archive.id := archive];
      books := books[k := BookOf(books, k).(pending := Some(archive))];
    }

    method Claim(id: string) returns (claimed: bool)
      requires Valid()
      modifies this`archives, this`books
      ensures Valid()
      ensures claimed <==> id in old(archives) && old(archives)[id].failures < 10
                           && (old(archives)[id].status == ArchiveQueued || old(archives)[id].status == ArchiveFailed)
      ensures claimed ==> archives == old(archives)[id := old(archives)[id].(status := ArchiveRunning)]
      ensures !claimed ==> archives == old(archives)
      ensures SameRecord(old(books), books)
    {
      claimed := id in archives && archives[id].failures < 10
                 && (archives[id].status == ArchiveQueued || archives[id].status == ArchiveFailed);
      if claimed {
        Advance(id, archives[id].(status := ArchiveRunning));
      }
    }

    method Fail(id: string)
      requires Valid()
      modifies this`archives, this`books
      ensures Valid() && SameRecord(old(books), books)
      ensures archives == if id in old(archives) && old(archives)[id].status == ArchiveRunning
                          then old(archives)[id := old(archives)[id].(status := ArchiveFailed, failures := old(archives)[id].failures + 1)]
                          else old(archives)
    {
      if id in archives && archives[id].status == ArchiveRunning {
        Advance(id, archives[id].(status := ArchiveFailed, failures := archives[id].failures + 1));
      }
    }

    /** Write the progress columns of an unfinished archive. */
    method Advance(id: string, a': Archive)
      requires Valid() && id in archives && archives[id].status != ArchiveCompleted && Progress(archives[id], a')
      modifies this`archives, this`books
      ensures Valid() && archives == old(archives)[id := a'] && SameRecord(old(books), books)
    {
      PendingIs(h, books, State(), id);
      ProgressStep(h, books, State(), a');
      archives := archives[id := a'];
      books := books[a'.stream := BookOf(books, a'.stream).(pending := Some(a'))];
    }

    method RequeueInterrupted()
      requires Valid()
      modifies this`archives, this`books
      ensures Valid() && archives == RequeuedRows(old(archives)) && SameRecord(old(books), books)
      ensures archives.Keys == old(archives).Keys && forall id :: id in archives ==>
                archives[id] == if old(archives)[id].status != ArchiveRunning then old(archives)[id]
                                else old(archives)[id].(status := ArchiveQueued)
    {
      RequeueStep(h, books, State());
      books := RequeuedBooks(books);
      archives := map id | id in archives :: if archives[id].status == ArchiveRunning then archives[id].(status := ArchiveQueued)
                                             else archives[id];
      assert archives == RequeuedRows(old(archives));
    }

    /** Finalize: check the rows again, mark the archive, delete the rows. */
    method Finalize(id: string, objectHash: Hash) returns (ok: bool)
      requires Valid() && objectHash != ""
      modifies this`logs, this`archives, this`books
      ensures Valid() && ok == CanFinish(h, old(books), old(State()), id)
      ensures !ok ==> State() == old(State()) && books == old(books)
      ensures ok ==> FinishedFor(old(books), books, old(State()), State(), id, objectHash)
      ensures ok ==>
                var a := old(archives)[id];
                && archives == old(archives)[id := a.(status := ArchiveCompleted, objectHash := objectHash, verified := true)]
                && (forall log :: log in old(logs) ==>
                      (log !in logs <==> old(logs)[log].stream == a.stream && Spans(a, old(logs)[log].no)))
                && (forall log :: log in logs ==> log in old(logs) && logs[log] == old(logs)[log])
    {
      if !(id in archives && archives[id].status == ArchiveRunning) {
        return false;
      }
      var archive := archives[id];
      var events := LoadEvents(id);
      ok := ValidateAuditArchiveEvents(h, archive, events);
      if !ok {
        return false;
      }
      var digest := h.events(events);
      if digest != archive.digest {
        return false;
      }
      ok := CommitFinalize(id, objectHash);
    }

    method LoadEvents(id: string) returns (events: seq<Event>)
      requires Valid() && id in archives && archives[id].status != ArchiveCompleted
      ensures archives[id].count <= |Hot(BookOf(books, archives[id].stream))|
      ensures events == Hot(BookOf(books, archives[id].stream))[..archives[id].count]
    {
      var archive := archives[id];
      FinishFacts(h, books, State(), id);
      events := SelectLogs((e: Event) => InRange(e, archive), archive.stream, Hot(BookOf(books, archive.stream))[..archive.count]);
    }

    method CommitFinalize(id: string, objectHash: Hash) returns (ok: bool)
      requires Valid() && objectHash != "" && id in archives && archives[id].status == ArchiveRunning
      modifies this`logs, this`archives, this`books
      ensures Valid() && ok == (|RangeIds(old(logs), old(archives)[id])| == old(archives)[id].count)
      ensures !ok ==> State() == old(State()) && books == old(books)
      ensures ok ==> FinishedFor(old(books), books, old(State()), State(), id, objectHash)
    {
      var archive, saved, savedLogs := archives[id], archives, logs;
      ghost var before := State();
      archives := archives[id := archive.(status := ArchiveCompleted, objectHash := objectHash, verified := true)];
      var deleted := set i | i in logs && InRange(logs[i], archive);
      assert deleted == RangeIds(logs, archive);
      logs := logs - deleted;
      if |deleted| != archive.count {
        archives, logs := saved, savedLogs;
        return false;
      }
      FinishStep(h, books, before, id, objectHash);
      books := books[archive.stream := Closed(BookOf(books, archive.stream), objectHash)];
      return true;
    }

    /** VerifyChain finds the record of every workspace intact, and accounts for
        every event ever appended. */
    method VerifyChain(ws: nat) returns (result: Verification)
      requires Valid()
      ensures var b := BookOf(books, WorkspaceStream(ws));
              && result.valid && result.archived == NextFrom(b.done) - 1 && result.checked == |b.history|
              && result.lastSeq == |b.history|
              && (WorkspaceStream(ws) in streams ==> streams[WorkspaceStream(ws)].nextSeq == result.checked + 1)
    {
      var k := WorkspaceStream(ws);
      var done := SelectArchives(k);
      IntactFacts(h, books, State(), k);
      var rows := SelectWorkspaceLogs(ws);
      result := VerifySnapshot(h, done, rows, if k in streams then Some(streams[k]) else None);
    }

    /** The rows of a workspace by number: the query goes by workspace, not by stream. */
    method SelectWorkspaceLogs(ws: nat) returns (rows: seq<Event>)
      requires Valid()
      ensures rows == Hot(BookOf(books, WorkspaceStream(ws)))
    {
      ghost var k := WorkspaceStream(ws);
      ghost var hot := Hot(BookOf(books, k));
      IntactFacts(h, books, State(), k);
      Keyed(h, books, State());
      rows := Select(logs, (e: Event) => e.ws == Some(ws), Number);
      forall e ensures e in rows <==> e in hot {
        WorkspaceRow(h, books, State(), ws, e);
      }
      ListedIs(rows, hot, Number);
    }

    /** RebuildChain. `order` is what the id-ordered query returned; `indexed` tells whether
        the unique index on stream and number exists, as it does but for the migration that
        creates it. An update that meets the index rolls everything back. */
    method RebuildChain(ws: nat, indexed: bool) returns (ok: bool, count: nat, ghost order: seq<Event>)
      requires KeyedById(logs)
      modifies this`logs, this`streams
      ensures ByIds(old(logs), ws, order) && (ok <==> !indexed || Unblocked(old(logs), ws, order))
      ensures !ok ==> logs == old(logs) && streams == old(streams)
      ensures ok ==>
                && count == |order| && Updated(old(logs), logs, Rebuilt(h, WorkspaceStream(ws), order, 1, None))
                && streams == old(streams)[WorkspaceStream(ws) :=
                     StreamRow(count + 1, LastHash(Rebuilt(h, WorkspaceStream(ws), order, 1, None)))]
    {
      var k := WorkspaceStream(ws);
      var rows := SelectById(ws);
      order := rows;
      var saved, previous := logs, None;
      ok, previous := UpdateRows(ws, rows, indexed);
      if !ok {
        logs := saved;
        return false, 0, order;
      }
      count := |rows|;
      streams := streams[k := StreamRow(count + 1, previous.GetOr(""))];
    }

    /** Rebuild, then verify: without a finished archive the verdict after a rebuild that
        commits is valid, whatever the rows held; one that does not commits nothing. */
    method RebuildThenVerify(ws: nat, indexed: bool) returns (ok: bool, count: nat, result: Verification)
      requires KeyedById(logs)
      requires forall id :: id in archives && archives[id].stream == WorkspaceStream(ws) ==> archives[id].status != ArchiveCompleted
      modifies this`logs, this`streams
      ensures KeyedById(logs) && logs.Keys == old(logs).Keys && (!indexed ==> ok)
      ensures ok ==> result.valid && result.archived == 0 && result.checked == count && result.lastSeq == count
      ensures !ok ==> logs == old(logs) && streams == old(streams)
    {
      ghost var before := logs;
      ghost var order;
      ok, count, order := RebuildChain(ws, indexed);
      if !ok {
        return false, 0, Verification(false, 0, Whole, 0, 0, 0);
      }
      RebuiltKeyed(h, WorkspaceStream(ws), before, logs, ws, order);
      var done := set id | id in archives && archives[id].stream == WorkspaceStream(ws) && archives[id].status == ArchiveCompleted;
      assert done == {};
      var rows := Select(logs, (e: Event) => e.ws == Some(ws), Number);
      RebuildMakesValid(h, before, logs, ws, order, rows);
      RebuiltListing(h, before, logs, ws, order, rows);
      RebuiltIsChain(h, WorkspaceStream(ws), order, 1, None);
      result := VerifySnapshot(h, [], rows, Some(streams[WorkspaceStream(ws)]));
    }

    method SelectById(ws: nat) returns (rows: seq<Event>)
      requires KeyedById(logs)
      ensures ByIds(logs, ws, rows) && forall e :: e in rows ==> e.id in logs
    {
      rows := Select(logs, (e: Event) => e.ws == Some(ws), IdOf);
      SelectedByIds(logs, ws, rows);
    }

    method UpdateRows(ws: nat, rows: seq<Event>, indexed: bool) returns (ok: bool, previous: Option<Hash>)
      requires KeyedById(logs) && ByIds(logs, ws, rows) && forall e :: e in rows ==> e.id in logs
      modifies this`logs
      ensures ok <==> !indexed || Unblocked(old(logs), ws, rows)
      ensures ok ==> Updated(old(logs), logs, Rebuilt(h, WorkspaceStream(ws), rows, 1, None))
      ensures ok ==> previous.GetOr("") == LastHash(Rebuilt(h, WorkspaceStream(ws), rows, 1, None))
    {
      var k := WorkspaceStream(ws);
      previous := None;
      ghost var saved, all := logs, Rebuilt(h, k, rows, 1, None);
      StartsRebuilt(h, logs, ws, rows);
      var i := 0;
      while i < |rows|
        invariant 0 <= i <= |rows| && RebuiltTo(h, saved, logs, ws, rows, all, i) && previous == PrevAt(all, None, i)
        invariant indexed ==> UnblockedTo(saved, ws, rows, i)
      {
        ok, previous := UpdateRow(ws, rows, i, previous, indexed, saved, all);
        if !ok {
          return false, None;
        }
        i := i + 1;
      }
      EndsRebuilt(h, saved, logs, ws, rows, all);
      return true, previous;
    }

    /** One update of the loop, which the index may refuse. */
    method UpdateRow(ws: nat, rows: seq<Event>, i: nat, previous: Option<Hash>, indexed: bool,
                     ghost saved: map<nat, Event>, ghost all: seq<Event>) returns (ok: bool, current: Option<Hash>)
      requires KeyedById(saved) && ByIds(saved, ws, rows) && i < |rows|
      requires RebuiltTo(h, saved, logs, ws, rows, all, i) && previous == PrevAt(all, None, i)
      modifies this`logs
      ensures ok <==> !indexed || !Blocked(saved, ws, rows, i)
      ensures ok ==> RebuiltTo(h, saved, logs, ws, rows, all, i + 1) && current == PrevAt(all, None, i + 1)
    {
      var row := RebuiltRow(h, WorkspaceStream(ws), rows[i], i + 1, previous);
      TurnStores(h, saved, logs, ws, rows, all, i);
      ClashIsBlocked(h, saved, logs, ws, rows, all, i);
      var taken := IsTaken(WorkspaceStream(ws), row.id, i + 1);
      if indexed && taken {
        return false, None;
      }
      logs := logs[row.id := row];
      return true, row.current;
    }

    /** The lookup of the unique index. */
    method IsTaken(k: StreamKey, own: nat, no: nat) returns (taken: bool)
      ensures taken <==> Clashes(logs, k, own, no)
    {
      var holders := set id | id in logs && id != own && logs[id].stream == k && logs[id].no == no;
      TakenIsClash(logs, k, own, no, holders);
      return |holders| > 0;
    }
  }

  lemma TakenIsClash(logs: map<nat, Event>, k: StreamKey, own: nat, no: nat, taken: set<nat>)
    requires taken == set id | id in logs && id != own && logs[id].stream == k && logs[id].no == no
    ensures taken != {} <==> Clashes(logs, k, own, no)
  {
    if Clashes(logs, k, own, no) {
      var id :| id in logs && id != own && logs[id].stream == k && logs[id].no == no;
      assert id in taken;
    }
  }

  /** In every valid state, also after archiving, a rebuild meets no taken number. */
  lemma ValidNeverBlocked(h: Digests, books: map<StreamKey, Book>, t: AuditTables, ws: nat, order: seq<Event>)
    requires AllOk(h, books, t) && ByIds(t.logs, ws, order)
    ensures Unblocked(t.logs, ws, order) && order == Hot(BookOf(books, WorkspaceStream(ws)))
  {
    var k := WorkspaceStream(ws);
    var b := BookOf(books, k);
    assert StreamOk(h, k, b, t);
    HotNumbers(h, k, b);
    HotById(h, k, b);
    forall e ensures e in order <==> e in Hot(b) {
      WorkspaceRow(h, books, t, ws, e);
    }
    RisingUnique(order, Hot(b), IdOf);
    forall id | id in t.logs && t.logs[id].ws != Some(ws) ensures t.logs[id].stream != k {
      RowsKeyed(h, books, t, id);
    }
    RisingNeverBlocked(t.logs, ws, order);
  }

  lemma HotById(h: Digests, k: StreamKey, b: Book)
    requires HistoryOk(h, k, b.history) && DoneOk(h, k, b.history, b.done)
    ensures Rising(Hot(b), IdOf)
  {
    CutInside(h, k, b.history, b.done);
    HistoryById(k, h, b.history);
    RisingSuffix(b.history, NextFrom(b.done) - 1);
  }

  lemma RisingSuffix(rows: seq<Event>, cut: nat)
    requires Rising(rows, IdOf) && cut <= |rows|
    ensures Rising(rows[cut..], IdOf)
  {
  }

  lemma SelectedByIds(logs: map<nat, Event>, ws: nat, rows: seq<Event>)
    requires KeyedById(logs) && NoRepeat(rows)
    requires forall e :: e in rows <==> exists id :: id in logs && logs[id] == e && e.ws == Some(ws)
    requires forall i, j :: 0 <= i < j < |rows| ==> IdOf(rows[i]) <= IdOf(rows[j])
    ensures ByIds(logs, ws, rows)
  {
    forall i, j | 0 <= i < j < |rows| ensures IdOf(rows[i]) < IdOf(rows[j]) {
      assert rows[i] in rows && rows[j] in rows && rows[i] != rows[j];
    }
  }
}
