/** When an object goes to cold storage: what a touch and a restore do to that
    decision, and a run that archives a version restored a moment ago. */
module ColdStorage {
  import opened Common
  import opened Chunks
  import opened Tables
  import opened UploadSteps
  import opened ObjectSteps
  import opened Runs
  import opened UploadSafety
  import opened ObjectSafety
  import opened StoreLemmas
  import opened LateUpload

  /** The version with number `no` is unique, so the copy is a copy of it. */
  lemma RestoredCopy(db: Db, ws: WsId, m: NodeId, no: int, actor: UserId, now: Time, v: VersionId)
    requires VersionsOk(db) && IsVersion(db, ws, m, no, v) && RestoreVersion(db, ws, m, no, actor, now).Done?
    ensures RestoreVersion(db, ws, m, no, actor, now).db.versions ==
            db.versions[db.nextVersion := db.versions[v].(
              no := Latest(db.versions, ws, m) + 1, createdBy := actor, createdAt := now)]
  {
    OnlyVersion(db, ws, m, no, v);
    RestoredWhole(db, db.(
      nodes := db.nodes[m := db.nodes[m].(activeVersion := Some(db.nextVersion), updatedBy := actor)],
      versions := db.versions[db.nextVersion := db.versions[v].(
        no := Latest(db.versions, ws, m) + 1, createdBy := actor, createdAt := now)],
      nextVersion := db.nextVersion + 1), ws, m, no, v, actor, now);
  }

  lemma OnlyVersion(db: Db, ws: WsId, m: NodeId, no: int, v: VersionId)
    requires VersionsOk(db) && IsVersion(db, ws, m, no, v)
    ensures forall w :: IsVersion(db, ws, m, no, w) ==> w == v
  {
    assert v in SourceRows(db, ws, m, no);
    SourceIsUnique(db, ws, m, no, v);
  }

  /** Every version over the object is in standard storage and was left alone since
      the cutoff. */
  ghost predicate AllCold(versions: map<VersionId, FileVersion>, ws: WsId, key: StorageKey, cutoff: Time) {
    && (exists v :: v in versions && versions[v].ws == ws && versions[v].key == key)
    && (forall v :: v in versions && versions[v].ws == ws && versions[v].key == key ==>
          Standardish(versions[v].class_) && LastUse(versions[v]) <= cutoff)
  }

  lemma ArchivedWhenCold(db: Db, ws: WsId, key: StorageKey, cutoff: Time)
    requires ClassOk(db)
    ensures CompleteArchive(db, ws, key, cutoff).Done? <==> AllCold(db.versions, ws, key, cutoff)
  {
    ArchiveCoversTheKey(db, ws, key, cutoff);
  }

  lemma OneMoreCopy(versions: map<VersionId, FileVersion>, v: VersionId, nv: VersionId, copy: FileVersion, cutoff: Time)
    requires v in versions && nv !in versions && copy.ws == versions[v].ws && copy.key == versions[v].key
    requires copy.class_ == versions[v].class_
    ensures AllCold(versions[nv := copy], copy.ws, copy.key, cutoff) <==>
            AllCold(versions, copy.ws, copy.key, cutoff) && LastUse(copy) <= cutoff
  {
    var more := versions[nv := copy];
    if AllCold(more, copy.ws, copy.key, cutoff) {
      forall w | w in versions && versions[w].ws == copy.ws && versions[w].key == copy.key
        ensures Standardish(versions[w].class_) && LastUse(versions[w]) <= cutoff
      {
        assert w in more && more[w] == versions[w];
      }
      assert nv in more;
    }
    if AllCold(versions, copy.ws, copy.key, cutoff) && LastUse(copy) <= cutoff {
      assert v in versions && nv in more;
    }
  }

  /** A restore does not by itself keep the object warm: it inherits the access time of
      its source. The object may be archived right after the restore exactly when it
      might have been right before, unless the source was never accessed and the
      restore is younger than the cutoff. */
  lemma RestoreNeedNotWarm(
    db: Db, ws: WsId, m: NodeId, no: int, actor: UserId, now: Time, v: VersionId, cutoff: Time, db': Db)
    requires Inv(db) && IsVersion(db, ws, m, no, v) && RestoreVersion(db, ws, m, no, actor, now) == Done(db')
    ensures var key := db.versions[v].key;
            CompleteArchive(db', ws, key, cutoff).Done? <==>
            CompleteArchive(db, ws, key, cutoff).Done? && (db.versions[v].lastAccessed.Some? || now <= cutoff)
  {
    var key := db.versions[v].key;
    RestoredCopy(db, ws, m, no, actor, now, v);
    RestoreVersionKeeps(db, ws, m, no, actor, now, db');
    FreshVersionId(db);
    ArchivedWhenCold(db, ws, key, cutoff);
    ArchivedWhenCold(db', ws, key, cutoff);
    var copy := db.versions[v].(no := Latest(db.versions, ws, m) + 1, createdBy := actor, createdAt := now);
    OneMoreCopy(db.versions, v, db.nextVersion, copy, cutoff);
    assert AllCold(db.versions, ws, key, cutoff) ==> LastUse(db.versions[v]) <= cutoff;
  }

  /** A touched object is archived exactly when the touch itself is old enough; the
      decision about any other object is unchanged. */
  lemma TouchKeepsWarm(db: Db, key: StorageKey, at: Time, ws: WsId, other: StorageKey, cutoff: Time)
    requires ClassOk(db)
    ensures CompleteArchive(TouchKey(db, key, at), ws, key, cutoff).Done? <==>
            StandardVersions(db, ws, key) != {} && at <= cutoff
    ensures other != key ==>
              (CompleteArchive(TouchKey(db, key, at), ws, other, cutoff).Done? <==>
               CompleteArchive(db, ws, other, cutoff).Done?)
  {
    var db' := TouchKey(db, key, at);
    assert StandardVersions(db', ws, key) == StandardVersions(db, ws, key);
    assert StandardVersions(db', ws, other) == StandardVersions(db, ws, other);
    if v :| v in StandardVersions(db, ws, key) {
      assert v in StandardVersions(db', ws, key) && LastUse(db'.versions[v]) == at;
    }
  }

  // ----- a run ----------------------------------------------------------------------

  const FILED := REPORT.(activeVersion := Some(1))
  const FIRST := Placed(VERSION, 1, 2, 1)

  /** The upload is finalized into its folder. */
  function Uploaded(): Db {
    Prepared().(nodes := map[1 := FOLDER, 2 := FILED], nextNode := 3,
                workspaces := map[1 := Workspace(None, 5, 0)],
                versions := map[1 := FIRST], nextVersion := 2,
                sessions := map[7 := UPLOAD.(received := Json([0]), status := Completed)],
                origin := map["object" := Origin(1, 2)])
  }

  function Touched(): Db {
    Uploaded().(versions := map[1 := FIRST.(lastAccessed := Some(30))])
  }

  /** Number 1 is restored at time 100. */
  function Restored(): Db {
    Touched().(nodes := map[1 := FOLDER, 2 := FILED.(activeVersion := Some(2))], nextVersion := 3,
               versions := map[1 := FIRST.(lastAccessed := Some(30)),
                               2 := FIRST.(lastAccessed := Some(30), no := 2, createdAt := 100)])
  }

  const RESTORE := OpRestoreVersion(1, 2, 1, 9, 100)
  const ARCHIVE := OpCompleteArchive(1, "object", 50)
  const COLD_RUN: seq<Op> :=
    [OpFinalize(7, 1, 9, VERSION, REPORT), OpTouchKey("object", 30), RESTORE, ARCHIVE]

  lemma ThenUploaded()
    ensures Guard(Prepared(), COLD_RUN[0]) && Step(Prepared(), COLD_RUN[0]) == Uploaded()
  {
    SortedStays([0]);
  }

  lemma ThenTouched()
    ensures Step(Uploaded(), COLD_RUN[1]) == Touched()
  {
  }

  lemma OnlyNumber(versions: map<VersionId, FileVersion>, a: FileVersion)
    requires versions == map[1 := a] && a.no == 1
    ensures Latest(versions, a.ws, a.node) == 1
  {
    assert versions[1].no == 1;
    assert Numbers(versions, a.ws, a.node) == {1};
  }

  /** Restoring the only version of a file. */
  lemma RestoreOnly(db: Db, a: FileVersion, actor: UserId, now: Time)
    requires db.versions == map[1 := a] && a.no == 1 && db.nextVersion == 2 && IsActiveFile(db, a.ws, a.node)
    ensures RestoreVersion(db, a.ws, a.node, 1, actor, now) == Done(db.(
              nodes := db.nodes[a.node := db.nodes[a.node].(activeVersion := Some(2), updatedBy := actor)],
              versions := map[1 := a, 2 := a.(no := 2, createdBy := actor, createdAt := now)],
              nextVersion := 3))
  {
    OnlyNumber(db.versions, a);
    RestoredWhole(db, db.(
      nodes := db.nodes[a.node := db.nodes[a.node].(activeVersion := Some(2), updatedBy := actor)],
      versions := map[1 := a, 2 := a.(no := 2, createdBy := actor, createdAt := now)],
      nextVersion := 3), a.ws, a.node, 1, 1, actor, now);
  }

  lemma RestoreStep(db: Db, ws: WsId, m: NodeId, no: int, actor: UserId, now: Time)
    ensures Step(db, OpRestoreVersion(ws, m, no, actor, now)) == RestoreVersion(db, ws, m, no, actor, now).After(db)
  {
  }

  lemma ThenRestored()
    ensures IsRun(Touched(), [RESTORE]) && Final(Touched(), [RESTORE]) == Restored()
  {
    RestoreOnly(Touched(), FIRST.(lastAccessed := Some(30)), 9, 100);
    RestoreStep(Touched(), 1, 2, 1, 9, 100);
    OneStep(Touched(), Restored(), RESTORE);
  }

  /** Archiving an object with two cold versions and no other holder. */
  lemma ArchivePair(db: Db, a: FileVersion, b: FileVersion, cutoff: Time)
    requires db.versions == map[1 := a, 2 := b] && a.ws == b.ws && a.key == b.key
    requires Standardish(a.class_) && Standardish(b.class_) && LastUse(a) <= cutoff && LastUse(b) <= cutoff
    requires db.shareItems == map[] && db.jobItems == map[]
    ensures CompleteArchive(db, a.ws, a.key, cutoff) ==
            Done(db.(versions := map[1 := a.(class_ := Archive), 2 := b.(class_ := Archive)]))
  {
    assert StandardVersions(db, a.ws, a.key) == {1, 2};
    assert Relabelled(db, a.ws, a.key).versions == map[1 := a.(class_ := Archive), 2 := b.(class_ := Archive)];
  }

  function Archived(): Db {
    Restored().(versions := map[1 := FIRST.(lastAccessed := Some(30), class_ := Archive),
                                2 := FIRST.(lastAccessed := Some(30), no := 2, createdAt := 100, class_ := Archive)])
  }

  const COLD_FIRST := FIRST.(lastAccessed := Some(30))
  const COLD_COPY := COLD_FIRST.(no := 2, createdAt := 100)

  lemma NoHolders()
    ensures Restored().shareItems == map[] && Restored().jobItems == map[]
    ensures Restored().versions == map[1 := COLD_FIRST, 2 := COLD_COPY]
  {
  }

  lemma PairArchived()
    ensures CompleteArchive(Restored(), 1, "object", 50) == Done(Archived())
  {
    NoHolders();
    ArchivePair(Restored(), COLD_FIRST, COLD_COPY, 50);
  }

  lemma ArchiveStep(db: Db, ws: WsId, key: StorageKey, cutoff: Time)
    ensures Step(db, OpCompleteArchive(ws, key, cutoff)) == CompleteArchive(db, ws, key, cutoff).After(db)
  {
  }

  lemma ThenArchived()
    ensures IsRun(Restored(), [ARCHIVE]) && Final(Restored(), [ARCHIVE]) == Archived()
  {
    PairArchived();
    ArchiveStep(Restored(), 1, "object", 50);
    OneStep(Restored(), Archived(), ARCHIVE);
  }

  lemma ColdStart()
    ensures IsRun(Prepared(), COLD_RUN[..2]) && Final(Prepared(), COLD_RUN[..2]) == Touched()
  {
    ThenUploaded();
    ThenTouched();
    OneStep(Prepared(), Uploaded(), COLD_RUN[0]);
    OneStep(Uploaded(), Touched(), COLD_RUN[1]);
    RunJoin(Prepared(), [COLD_RUN[0]], [COLD_RUN[1]]);
    assert [COLD_RUN[0]] + [COLD_RUN[1]] == COLD_RUN[..2];
  }

  lemma ColdEnd()
    ensures IsRun(Touched(), COLD_RUN[2..]) && Final(Touched(), COLD_RUN[2..]) == Archived()
  {
    ThenRestored();
    ThenArchived();
    RunJoin(Touched(), [RESTORE], [ARCHIVE]);
    assert [RESTORE] + [ARCHIVE] == COLD_RUN[2..];
  }

  lemma ColdRun()
    ensures IsRun(Prepared(), COLD_RUN) && Final(Prepared(), COLD_RUN) == Archived()
  {
    ColdStart();
    ColdEnd();
    RunJoin(Prepared(), COLD_RUN[..2], COLD_RUN[2..]);
    assert COLD_RUN[..2] + COLD_RUN[2..] == COLD_RUN;
  }

  /** The version restored at time 100 is archived although the cutoff is 50. */
  lemma FreshRestoreIsArchived()
    ensures IsRun(EMPTY, RUN()[..4] + COLD_RUN) && Final(EMPTY, RUN()[..4] + COLD_RUN) == Archived()
    ensures Archived().versions[2].createdAt == 100 && Archived().versions[2].class_ == Archive
  {
    ColdRun();
    UntilUploaded(COLD_RUN);
  }
}
