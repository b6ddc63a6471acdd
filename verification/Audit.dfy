/** The audit hash chain: rows linked by digest, a prefix of them possibly moved to
    archives, and what verification of both parts means. */
module Audit {
  import opened Common

  /** The stream of the whole installation, or of one workspace. */
  datatype StreamKey = GlobalStream | WorkspaceStream(id: nat)

  function KeyOf(ws: Option<nat>): StreamKey {
    if ws.None? then GlobalStream else WorkspaceStream(ws.value)
  }

  type Hash = string

  /** The hashed columns that no operation of this model looks into; `details`
      stands for every JSON column. */
  datatype Body = Body(user: nat, username: string, columns: seq<string>, details: string)

  datatype Event = Event(id: nat, stream: StreamKey, no: nat, ws: Option<nat>, actorType: string, body: Body,
                         created: nat, prev: Option<Hash>, current: Option<Hash>)

  /** What goes into the digest of a row. */
  datatype Hashed = Hashed(stream: StreamKey, no: nat, ws: Option<nat>, actorType: string, body: Body, ms: nat,
                           prev: Option<Hash>)

  datatype Manifest = Manifest(id: string, stream: StreamKey, ws: Option<nat>, from: nat, to: nat, count: nat,
                               firstPrev: Hash, last: Hash, digest: Hash)

  /** SHA-256 over the three kinds of payload, JSON normalization, what the database
      hands back for a stored JSON text, and which bodies carry known category,
      severity, result and reason codes. */
  datatype Digests = Digests(chain: Hashed -> Hash, events: seq<Event> -> Hash, seal: Manifest -> Hash,
                             norm: string -> string, reload: string -> string, classified: Body -> bool)

  /** Digests have 64 hexadecimal digits, and the database keeps the meaning of a
      JSON text. */
  ghost predicate Sound(h: Digests) {
    Hexadecimal(h) && forall d :: SameMeaning(h, d)
  }

  ghost predicate Hexadecimal(h: Digests) {
    (forall x :: |h.chain(x)| == 64) && (forall x :: |h.events(x)| == 64) && (forall x :: |h.seal(x)| == 64)
  }

  predicate SameMeaning(h: Digests, d: string) {
    h.norm(h.reload(d)) == h.norm(d)
  }

  const MILLISECOND := 1000000

  /** normalizeAuditTimestamp: a zero time becomes `now`, and both lose what is
      below a millisecond. */
  function NormTime(t: nat, now: nat): nat {
    var x := if t == 0 then now else t;
    x - x % MILLISECOND
  }

  function Payload(h: Digests, e: Event, prev: Option<Hash>): Hashed {
    Hashed(e.stream, e.no, e.ws, e.actorType, e.body.(details := h.norm(e.body.details)), e.created / MILLISECOND, prev)
  }

  /** calculateHash of a row with a time. */
  function HashOf(h: Digests, e: Event, prev: Option<Hash>): Hash {
    h.chain(Payload(h, e, prev))
  }

  // ----- chains -------------------------------------------------------------------

  function PrevAt(rows: seq<Event>, prev: Option<Hash>, i: nat): Option<Hash>
    requires i <= |rows|
  {
    if i == 0 then prev else rows[i - 1].current
  }

  predicate Linked(h: Digests, rows: seq<Event>, from: nat, prev: Option<Hash>, i: nat)
    requires i < |rows|
  {
    && rows[i].no == from + i && rows[i].prev == PrevAt(rows, prev, i)
    && rows[i].current == Some(HashOf(h, rows[i], rows[i].prev))
  }

  /** Consecutive numbers from `from`, each row hashed over its predecessor. */
  ghost predicate IsChain(h: Digests, rows: seq<Event>, from: nat, prev: Option<Hash>) {
    forall i :: 0 <= i < |rows| ==> Linked(h, rows, from, prev, i)
  }

  lemma ChainPart(h: Digests, rows: seq<Event>, from: nat, prev: Option<Hash>, a: nat, b: nat)
    requires IsChain(h, rows, from, prev) && a <= b <= |rows|
    ensures IsChain(h, rows[a..b], from + a, PrevAt(rows, prev, a))
    ensures PrevAt(rows[a..b], PrevAt(rows, prev, a), b - a) == PrevAt(rows, prev, b)
  {
    var part, anchor, start := rows[a..b], PrevAt(rows, prev, a), from + a;
    forall i | 0 <= i < |part| ensures Linked(h, part, start, anchor, i) {
      assert Linked(h, rows, from, prev, a + i);
    }
  }

  lemma ChainAppend(h: Digests, rows: seq<Event>, from: nat, prev: Option<Hash>, e: Event)
    requires IsChain(h, rows, from, prev)
    requires e.no == from + |rows| && e.prev == PrevAt(rows, prev, |rows|) && e.current == Some(HashOf(h, e, e.prev))
    ensures IsChain(h, rows + [e], from, prev)
  {
    var grown := rows + [e];
    forall i | 0 <= i < |grown| ensures Linked(h, grown, from, prev, i) {
      if i < |rows| {
        assert Linked(h, rows, from, prev, i);
      }
    }
  }

  // ----- archives -----------------------------------------------------------------

  datatype ArchiveStatus = ArchiveQueued | ArchiveRunning | ArchiveFailed | ArchiveCompleted

  datatype Archive = Archive(id: string, stream: StreamKey, ws: Option<nat>, status: ArchiveStatus, from: nat, to: nat,
                             count: nat, firstPrev: Hash, last: Hash, digest: Hash, manifestHash: Hash,
                             objectHash: Hash, failures: nat, verified: bool)

  function ManifestOf(a: Archive): Manifest {
    Manifest(a.id, a.stream, a.ws, a.from, a.to, a.count, a.firstPrev, a.last, a.digest)
  }

  /** AuditArchiveManifest.Validate; the version is a constant. */
  predicate ManifestValid(h: Digests, a: Archive) {
    && a.manifestHash != "" && a.manifestHash == h.seal(ManifestOf(a))
    && a.id != "" && a.from != 0 && a.to >= a.from && a.count == a.to - a.from + 1
    && |a.last| == 64 && |a.digest| == 64
  }

  datatype StreamRow = StreamRow(nextSeq: nat, lastHash: Hash)

  function FromAt(archives: seq<Archive>, i: nat): nat
    requires i <= |archives|
  {
    if i == 0 then 1 else archives[i - 1].to + 1
  }

  function LastAt(archives: seq<Archive>, i: nat): Option<Hash>
    requires i <= |archives|
  {
    if i == 0 then None else Some(archives[i - 1].last)
  }

  predicate ArchiveInPlace(h: Digests, archives: seq<Archive>, i: nat)
    requires i < |archives|
  {
    var a := archives[i];
    && a.from == FromAt(archives, i) && a.to >= a.from && a.count == a.to - a.from + 1
    && a.verified && a.objectHash != "" && ManifestValid(h, a)
    && (if a.from == 1 then a.firstPrev == "" else LastAt(archives, i) == Some(a.firstPrev))
  }

  function Archived(archives: seq<Archive>): nat {
    if archives == [] then 0 else Archived(archives[..|archives| - 1]) + archives[|archives| - 1].count
  }

  /** Where the hot rows must take over. */
  function Anchor(archives: seq<Archive>): Option<Hash> {
    LastAt(archives, |archives|)
  }

  function NextFrom(archives: seq<Archive>): nat {
    FromAt(archives, |archives|)
  }

  /** The whole record hangs together: archives side by side from 1, hot rows
      chained on to them, and the stream row agreeing with the end. The end is
      compared only when there is anything to check. */
  ghost predicate Intact(h: Digests, archives: seq<Archive>, rows: seq<Event>, stream: Option<StreamRow>) {
    && (forall i :: 0 <= i < |archives| ==> ArchiveInPlace(h, archives, i))
    && IsChain(h, rows, NextFrom(archives), Anchor(archives))
    && (Archived(archives) + |rows| > 0 ==>
          && stream.Some? && stream.value.nextSeq == NextFrom(archives) + |rows|
          && PrevAt(rows, Anchor(archives), |rows|) == Some(stream.value.lastHash))
  }

  /** Archives side by side hold as many events as the last number says. */
  lemma {:induction false} ArchivedCounts(h: Digests, archives: seq<Archive>)
    requires forall i :: 0 <= i < |archives| ==> ArchiveInPlace(h, archives, i)
    ensures Archived(archives) == NextFrom(archives) - 1
  {
    if archives != [] {
      var before := archives[..|archives| - 1];
      forall i | 0 <= i < |before| ensures ArchiveInPlace(h, before, i) {
        assert ArchiveInPlace(h, archives, i);
      }
      ArchivedCounts(h, before);
      assert ArchiveInPlace(h, archives, |archives| - 1);
    }
  }

  // ----- verification -------------------------------------------------------------

  datatype Broken = Whole | ArchiveSequence | ArchiveManifest | ArchivePrevious | StreamSequence | PreviousHash
                  | CurrentHash | StreamTail | StreamMissing

  datatype Verification = Verification(valid: bool, brokenId: nat, broken: Broken, archived: nat, checked: nat, lastSeq: nat)

  function SameHash(left: Option<Hash>, right: Option<Hash>): bool {
    if left.None? || right.None? then left.None? && right.None? else left.value == right.value
  }

  /** The archive loop of verifyAuditChainSnapshot. */
  method VerifyArchives(h: Digests, archives: seq<Archive>)
    returns (broken: Broken, previous: Option<Hash>, expectedSeq: nat, archived: nat, lastSeq: nat)
    ensures broken.Whole? <==> forall i :: 0 <= i < |archives| ==> ArchiveInPlace(h, archives, i)
    ensures broken.Whole? ==> previous == Anchor(archives) && expectedSeq == NextFrom(archives)
    ensures broken.Whole? ==> archived == Archived(archives) && lastSeq == NextFrom(archives) - 1
  {
    broken, previous, expectedSeq, archived, lastSeq := Whole, None, 1, 0, 0;
    var i := 0;
    while i < |archives|
      invariant 0 <= i <= |archives| && broken.Whole?
      invariant forall j :: 0 <= j < i ==> ArchiveInPlace(h, archives, j)
      invariant previous == LastAt(archives, i) && expectedSeq == FromAt(archives, i)
      invariant archived == Archived(archives[..i]) && lastSeq == FromAt(archives, i) - 1
    {
      var archive := archives[i];
      if archive.from != expectedSeq || archive.to < archive.from || archive.count != archive.to - archive.from + 1
         || !archive.verified || archive.objectHash == "" {
        assert !ArchiveInPlace(h, archives, i);
        broken := ArchiveSequence;
        return;
      }
      if !ManifestValid(h, archive) {
        assert !ArchiveInPlace(h, archives, i);
        broken := ArchiveManifest;
        return;
      }
      if archive.from == 1 {
        if archive.firstPrev != "" {
          assert !ArchiveInPlace(h, archives, i);
          broken := ArchivePrevious;
          return;
        }
      } else if previous.None? || archive.firstPrev != previous.value {
        assert !ArchiveInPlace(h, archives, i);
        broken := ArchivePrevious;
        return;
      }
      assert archives[..i + 1][..i] == archives[..i];
      previous, expectedSeq := Some(archive.last), archive.to + 1;
      archived, lastSeq := archived + archive.count, archive.to;
      i := i + 1;
    }
    assert archives[..i] == archives;
  }

  /** The row loop of verifyAuditChainSnapshot. */
  method VerifyRows(h: Digests, rows: seq<Event>, from: nat, anchor: Option<Hash>)
    returns (broken: Broken, brokenId: nat, previous: Option<Hash>, expectedSeq: nat)
    ensures broken.Whole? <==> IsChain(h, rows, from, anchor)
    ensures broken.Whole? ==> previous == PrevAt(rows, anchor, |rows|) && expectedSeq == from + |rows|
    ensures !broken.Whole? ==>
              exists i :: 0 <= i < |rows| && IsChain(h, rows[..i], from, anchor) && !Linked(h, rows, from, anchor, i)
                && brokenId == rows[i].id
  {
    broken, brokenId, previous, expectedSeq := Whole, 0, anchor, from;
    var i := 0;
    while i < |rows|
      invariant 0 <= i <= |rows| && broken.Whole?
      invariant forall j :: 0 <= j < i ==> Linked(h, rows, from, anchor, j)
      invariant previous == PrevAt(rows, anchor, i) && expectedSeq == from + i
    {
      var log := rows[i];
      if log.no != expectedSeq || !SameHash(previous, log.prev) || log.current != Some(HashOf(h, log, previous)) {
        assert !Linked(h, rows, from, anchor, i);
        FirstBreak(h, rows, from, anchor, i);
        broken := if log.no != expectedSeq then StreamSequence
                  else if !SameHash(previous, log.prev) then PreviousHash else CurrentHash;
        brokenId := log.id;
        return;
      }
      previous, expectedSeq := log.current, expectedSeq + 1;
      i := i + 1;
    }
  }

  lemma FirstBreak(h: Digests, rows: seq<Event>, from: nat, anchor: Option<Hash>, i: nat)
    requires i < |rows| && forall j :: 0 <= j < i ==> Linked(h, rows, from, anchor, j)
    ensures IsChain(h, rows[..i], from, anchor)
  {
    forall j | 0 <= j < i ensures Linked(h, rows[..i], from, anchor, j) {
      assert Linked(h, rows, from, anchor, j);
    }
  }

  /** verifyAuditChainSnapshot over what its three queries return: valid exactly
      when the record is intact. */
  method VerifySnapshot(h: Digests, archives: seq<Archive>, rows: seq<Event>, stream: Option<StreamRow>)
    returns (result: Verification)
    ensures result.valid <==> Intact(h, archives, rows, stream)
    ensures result.valid <==> result.broken.Whole?
    ensures result.valid ==> result.archived == NextFrom(archives) - 1 && result.checked == result.archived + |rows|
    ensures result.valid ==> result.lastSeq == NextFrom(archives) + |rows| - 1
  {
    var broken, previous, expectedSeq, archived, lastSeq := VerifyArchives(h, archives);
    if !broken.Whole? {
      return Verification(false, 0, broken, archived, 0, lastSeq);
    }
    ArchivedCounts(h, archives);
    var brokenId;
    broken, brokenId, previous, expectedSeq := VerifyRows(h, rows, expectedSeq, previous);
    if !broken.Whole? {
      return Verification(false, brokenId, broken, archived, 0, lastSeq);
    }
    if |rows| > 0 {
      assert Linked(h, rows, NextFrom(archives), Anchor(archives), |rows| - 1);
      lastSeq := rows[|rows| - 1].no;
    }
    var checked := archived + |rows|;
    var tail := if |rows| > 0 then rows[|rows| - 1].id else 0;
    if stream.Some? && checked > 0 {
      if stream.value.nextSeq != expectedSeq || previous.None? || stream.value.lastHash != previous.value {
        return Verification(false, tail, StreamTail, archived, checked, lastSeq);
      }
    } else if stream.None? && checked > 0 {
      return Verification(false, tail, StreamMissing, archived, checked, lastSeq);
    }
    return Verification(true, 0, Whole, archived, checked, lastSeq);
  }

  /** ValidateAuditArchiveEvents, as a property of the archive row and its events. */
  ghost predicate EventsFit(h: Digests, a: Archive, events: seq<Event>) {
    && |events| == a.count && events != []
    && (a.from > 1 ==> |a.firstPrev| == 64)
    && IsChain(h, events, a.from, ArchiveAnchor(a))
    && (forall i :: 0 <= i < |events| ==> events[i].stream == a.stream && events[i].no <= a.to)
    && events[|events| - 1].no == a.to
    && (a.last != "" ==> events[|events| - 1].current == Some(a.last))
  }

  function ArchiveAnchor(a: Archive): Option<Hash> {
    if a.from > 1 then Some(a.firstPrev) else None
  }

  method ValidateAuditArchiveEvents(h: Digests, a: Archive, events: seq<Event>) returns (ok: bool)
    ensures ok <==> EventsFit(h, a, events)
  {
    if |events| != a.count || |events| == 0 {
      return false;
    }
    var previous: Option<Hash> := None;
    if a.from > 1 {
      if |a.firstPrev| != 64 {
        return false;
      }
      previous := Some(a.firstPrev);
    }
    var i := 0;
    while i < |events|
      invariant 0 <= i <= |events|
      invariant forall j :: 0 <= j < i ==> Linked(h, events, a.from, ArchiveAnchor(a), j)
      invariant forall j :: 0 <= j < i ==> events[j].stream == a.stream && events[j].no <= a.to
      invariant previous == PrevAt(events, ArchiveAnchor(a), i)
    {
      var event := events[i];
      if event.stream != a.stream || event.no != a.from + i || event.no > a.to {
        assert !Linked(h, events, a.from, ArchiveAnchor(a), i) || event.stream != a.stream || event.no > a.to;
        return false;
      }
      if !SameHash(previous, event.prev) || event.current != Some(HashOf(h, event, previous)) {
        assert !Linked(h, events, a.from, ArchiveAnchor(a), i);
        return false;
      }
      previous := event.current;
      i := i + 1;
    }
    if events[|events| - 1].no != a.to {
      return false;
    }
    if a.last != "" && (previous.None? || previous.value != a.last) {
      return false;
    }
    return true;
  }

  // ----- verification determines the log --------------------------------------------

  ghost predicate Injective(h: Digests) {
    forall x, y :: h.chain(x) == h.chain(y) ==> x == y
  }

  /** Two chains with the same end agree row by row, from the end backwards. */
  lemma {:induction false} SameEndSameRows(h: Digests, a: seq<Event>, b: seq<Event>, from: nat, prev: Option<Hash>)
    requires Injective(h) && IsChain(h, a, from, prev) && IsChain(h, b, from, prev) && |a| == |b|
    requires PrevAt(a, prev, |a|) == PrevAt(b, prev, |b|)
    ensures forall i :: 0 <= i < |a| ==> Payload(h, a[i], a[i].prev) == Payload(h, b[i], b[i].prev) && a[i].current == b[i].current
  {
    if a != [] {
      var n := |a| - 1;
      assert Linked(h, a, from, prev, n) && Linked(h, b, from, prev, n);
      assert Payload(h, a[n], a[n].prev) == Payload(h, b[n], b[n].prev);
      ChainPart(h, a, from, prev, 0, n);
      ChainPart(h, b, from, prev, 0, n);
      SameEndSameRows(h, a[..n], b[..n], from, prev);
      forall i | 0 <= i < n
        ensures Payload(h, a[i], a[i].prev) == Payload(h, b[i], b[i].prev) && a[i].current == b[i].current
      {
        assert a[i] == a[..n][i] && b[i] == b[..n][i];
      }
    }
  }

  /** The rows agree in everything the record is meant to protect, named column by column;
      JSON columns up to their normal form, times to the millisecond. */
  predicate SameFields(h: Digests, a: Event, b: Event) {
    && a.stream == b.stream && a.no == b.no && a.ws == b.ws && a.actorType == b.actorType
    && a.body.user == b.body.user && a.body.username == b.body.username && a.body.columns == b.body.columns
    && h.norm(a.body.details) == h.norm(b.body.details) && a.created / MILLISECOND == b.created / MILLISECOND
    && a.prev == b.prev && a.current == b.current
  }

  /** With a collision-free digest, two hot logs that verify against the same
      archives and the same stream row are the same log in every protected column. */
  lemma VerificationDeterminesTheLog(
    h: Digests, archives: seq<Archive>, a: seq<Event>, b: seq<Event>, stream: Option<StreamRow>)
    requires Injective(h) && Intact(h, archives, a, stream) && Intact(h, archives, b, stream)
    requires Archived(archives) + |a| > 0 && Archived(archives) + |b| > 0
    ensures |a| == |b| && forall i :: 0 <= i < |a| ==> SameFields(h, a[i], b[i])
  {
    SameEndSameRows(h, a, b, NextFrom(archives), Anchor(archives));
    forall i | 0 <= i < |a| ensures SameFields(h, a[i], b[i]) {
      SamePayloadSameFields(h, a[i], b[i]);
    }
  }

  lemma SamePayloadSameFields(h: Digests, a: Event, b: Event)
    requires Payload(h, a, a.prev) == Payload(h, b, b.prev) && a.current == b.current
    ensures SameFields(h, a, b)
  {
  }

  // ----- what the archive rows bind -------------------------------------------------

  /** No two manifests have the same seal. */
  ghost predicate InjectiveSeal(h: Digests) {
    forall x, y :: h.seal(x) == h.seal(y) ==> x == y
  }

  /** With a collision-free seal, no sealed column of a valid archive row can be changed. */
  lemma SealBinds(h: Digests, a: Archive, b: Archive)
    requires InjectiveSeal(h) && ManifestValid(h, a) && ManifestValid(h, b) && a.manifestHash == b.manifestHash
    ensures a.id == b.id && a.stream == b.stream && a.ws == b.ws && a.from == b.from && a.to == b.to && a.count == b.count
    ensures a.firstPrev == b.firstPrev && a.last == b.last && a.digest == b.digest
  {
    assert h.seal(ManifestOf(a)) == h.seal(ManifestOf(b));
    assert ManifestOf(a) == ManifestOf(b);
  }

  predicate Spans(a: Archive, no: nat) {
    a.from <= no <= a.to
  }

  predicate Spanned(archives: seq<Archive>, no: nat) {
    exists i :: 0 <= i < |archives| && Spans(archives[i], no)
  }

  /** Archives side by side hold every number up to the last one exactly once, each linked
      to the one before it. */
  lemma ArchivesTile(h: Digests, archives: seq<Archive>)
    requires forall i :: 0 <= i < |archives| ==> ArchiveInPlace(h, archives, i)
    ensures forall no :: 1 <= no < NextFrom(archives) ==> Spanned(archives, no)
    ensures forall i, j, no :: 0 <= i < j < |archives| && Spans(archives[i], no) ==> !Spans(archives[j], no)
    ensures forall i :: 0 < i < |archives| ==> archives[i].firstPrev == archives[i - 1].last && archives[i].from == archives[i - 1].to + 1
    ensures archives != [] ==> archives[0].from == 1 && archives[0].firstPrev == ""
  {
    forall no | 1 <= no < NextFrom(archives) ensures Spanned(archives, no) {
      TileOf(h, archives, |archives|, no);
    }
    forall i, j, no | 0 <= i < j < |archives| && Spans(archives[i], no) ensures !Spans(archives[j], no) {
      LaterTile(h, archives, i, j);
    }
    forall i | 0 < i < |archives|
      ensures archives[i].firstPrev == archives[i - 1].last && archives[i].from == archives[i - 1].to + 1
    {
      assert ArchiveInPlace(h, archives, i) && ArchiveInPlace(h, archives, i - 1);
    }
    assert archives != [] ==> ArchiveInPlace(h, archives, 0);
  }

  lemma {:induction false} TileOf(h: Digests, archives: seq<Archive>, n: nat, no: nat)
    requires n <= |archives| && forall i :: 0 <= i < |archives| ==> ArchiveInPlace(h, archives, i)
    requires 1 <= no < FromAt(archives, n)
    ensures exists i :: 0 <= i < n && Spans(archives[i], no)
  {
    assert ArchiveInPlace(h, archives, n - 1);
    if no < archives[n - 1].from {
      TileOf(h, archives, n - 1, no);
    } else {
      assert Spans(archives[n - 1], no);
    }
  }

  lemma {:induction false} LaterTile(h: Digests, archives: seq<Archive>, i: nat, j: nat)
    requires i < j < |archives| && forall k :: 0 <= k < |archives| ==> ArchiveInPlace(h, archives, k)
    ensures archives[j].from > archives[i].to
  {
    assert ArchiveInPlace(h, archives, j) && ArchiveInPlace(h, archives, j - 1);
    if i < j - 1 {
      LaterTile(h, archives, i, j - 1);
    }
  }
}
