/** What a committed transaction on versions, shares, batch downloads and cold storage leaves,
    row by row, and exactly when it commits. */
module ObjectLaws {
  import opened Common
  import opened Tables
  import opened UploadSteps
  import opened ObjectSteps
  import opened Runs
  import opened StoreLemmas
  import opened UploadLaws

  // ----- versions -----------------------------------------------------------------------

  /** An old version can be restored exactly while its file is active and has a version of
      that number. */
  lemma VersionReturns(db: Db, ws: WsId, m: NodeId, no: int, actor: UserId, now: Time)
    ensures RestoreVersion(db, ws, m, no, actor, now).Done? <==>
            && m in db.nodes && db.nodes[m].ws == ws && db.nodes[m].kind == File && db.nodes[m].status == Active
            && exists v :: IsVersion(db, ws, m, no, v)
  {
  }

  /** The file then shows the old object again, under a number one above all others; the old
      version and every other row stay. */
  lemma VersionCopied(db: Db, ws: WsId, m: NodeId, no: int, actor: UserId, now: Time, source: VersionId)
    requires VersionsOk(db) && RestoreVersion(db, ws, m, no, actor, now).Done?
    requires IsVersion(db, ws, m, no, source)
    ensures Copied(db, RestoreVersion(db, ws, m, no, actor, now).db, ws, m, source, actor, now)
  {
    VersionReturns(db, ws, m, no, actor, now);
    SourceOnly(db, ws, m, no, source);
    RestoredIsCopy(db, ws, m, no, actor, now, source);
    CopyFacts(db, ws, m, source, actor, now);
  }

  lemma RestoredIsCopy(db: Db, ws: WsId, m: NodeId, no: int, actor: UserId, now: Time, source: VersionId)
    requires IsActiveFile(db, ws, m) && IsVersion(db, ws, m, no, source)
    requires forall v :: IsVersion(db, ws, m, no, v) ==> v == source
    ensures RestoreVersion(db, ws, m, no, actor, now) == Done(WithCopy(db, ws, m, source, actor, now))
  {
    RestoredWhole(db, WithCopy(db, ws, m, source, actor, now), ws, m, no, source, actor, now);
  }

  ghost predicate Copied(db: Db, after: Db, ws: WsId, m: NodeId, source: VersionId, actor: UserId, now: Time) {
    && source in db.versions
    && after == db.(nodes := after.nodes, versions := after.versions, nextVersion := after.nextVersion)
    && OneVersion(db, after) && CopyOf(db, after, ws, m, source, actor, now) && ShowsNewest(db, after, m, actor)
  }

  /** The new version is over the object of `source`, with its size, class and last access,
      numbered one above all others. */
  ghost predicate CopyOf(db: Db, after: Db, ws: WsId, m: NodeId, source: VersionId, actor: UserId, now: Time)
    requires source in db.versions
  {
    Stores(after, db.nextVersion, db.versions[source].(createdBy := actor, createdAt := now), ws, m, Latest(db.versions, ws, m) + 1)
  }

  /** Among the directory rows only `m` changed: it shows the newest version. */
  ghost predicate ShowsNewest(db: Db, after: Db, m: NodeId, actor: UserId) {
    && m in db.nodes && after.nodes.Keys == db.nodes.Keys
    && after.nodes[m] == db.nodes[m].(activeVersion := Some(db.nextVersion), updatedBy := actor)
    && forall d :: d in db.nodes && d != m ==> after.nodes[d] == db.nodes[d]
  }

  ghost function WithCopy(db: Db, ws: WsId, m: NodeId, source: VersionId, actor: UserId, now: Time): Db
    requires m in db.nodes && source in db.versions
  {
    db.(nodes := db.nodes[m := db.nodes[m].(activeVersion := Some(db.nextVersion), updatedBy := actor)],
        versions := db.versions[db.nextVersion := db.versions[source].(
          no := Latest(db.versions, ws, m) + 1, createdBy := actor, createdAt := now)],
        nextVersion := db.nextVersion + 1)
  }

  lemma CopyFacts(db: Db, ws: WsId, m: NodeId, source: VersionId, actor: UserId, now: Time)
    requires m in db.nodes && source in db.versions && db.versions[source].ws == ws && db.versions[source].node == m
    ensures var after := WithCopy(db, ws, m, source, actor, now);
            Copied(db, after, ws, m, source, actor, now)
  {
  }

  lemma SourceOnly(db: Db, ws: WsId, m: NodeId, no: int, source: VersionId)
    requires VersionsOk(db) && IsVersion(db, ws, m, no, source)
    ensures forall v :: IsVersion(db, ws, m, no, v) ==> v == source
  {
  }

  /** A download marks every version over the object, in any workspace, and nothing else. */
  lemma KeyIsTouched(db: Db, key: StorageKey, at: Time)
    ensures var after := TouchKey(db, key, at);
            && after == db.(versions := after.versions) && after.versions.Keys == db.versions.Keys
            && forall v :: v in db.versions ==>
                 after.versions[v] == if db.versions[v].key != key then db.versions[v]
                                      else db.versions[v].(lastAccessed := Some(at))
  {
  }

  // ----- shares -------------------------------------------------------------------------

  /** Nothing but share `id` changed. */
  ghost predicate OneShare(db: Db, db': Db, id: ShareId) {
    && db' == db.(shares := db'.shares) && id in db.shares && db'.shares.Keys == db.shares.Keys
    && forall s :: s in db.shares && s != id ==> db'.shares[s] == db.shares[s]
  }

  lemma ShareIsCreated(db: Db, id: ShareId, s: Share, items: map<ItemId, ShareItem>)
    requires id !in db.shares && items.Keys !! db.shareItems.Keys
    ensures var after := CreateShare(db, id, s, items);
            && after == db.(shares := after.shares, shareItems := after.shareItems)
            && after.shares.Keys == db.shares.Keys + {id} && after.shares[id] == s
            && after.shareItems.Keys == db.shareItems.Keys + items.Keys
            && (forall i :: i in items ==> after.shareItems[i] == items[i])
            && (forall i :: i in db.shareItems ==> after.shareItems[i] == db.shareItems[i])
            && (forall j :: j in db.shares ==> after.shares[j] == db.shares[j])
  {
  }

  /** Exactly an active share of the workspace can be revoked, and no claim on it succeeds
      afterwards. */
  lemma ShareIsRevoked(db: Db, ws: WsId, id: ShareId, item: Option<ItemId>, now: Time)
    ensures RevokeShare(db, ws, id).Done? <==>
            id in db.shares && db.shares[id].ws == ws && db.shares[id].status == ShareActive
    ensures RevokeShare(db, ws, id).Done? ==>
              var after := RevokeShare(db, ws, id).db;
              && OneShare(db, after, id) && after.shares[id] == db.shares[id].(status := ShareRevoked)
              && ClaimDownload(after, id, item, now) == Failed(RevokedShare)
  {
  }

  /** The sweep expires exactly the active shares past their time. */
  lemma SharesAreSwept(db: Db, now: Time)
    ensures var after := ExpireShares(db, now);
            && after == db.(shares := after.shares) && after.shares.Keys == db.shares.Keys
            && forall s :: s in db.shares ==>
                 after.shares[s] == if db.shares[s].status == ShareActive && db.shares[s].expiresAt <= now
                                    then db.shares[s].(status := ShareExpired) else db.shares[s]
  {
  }

  /** The share is active, in time, and has downloads left. */
  predicate Serves(db: Db, id: ShareId, now: Time) {
    && id in db.shares && db.shares[id].status == ShareActive && now < db.shares[id].expiresAt
    && (db.shares[id].maxDownloads.Some? ==> db.shares[id].downloads < db.shares[id].maxDownloads.value)
  }

  /** The item belongs to the share, is scanned clean, and its object is at hand. */
  predicate Served(db: Db, id: ShareId, item: Option<ItemId>) {
    && item.Some? && item.value in db.shareItems && db.shareItems[item.value].share == id && db.shareItems[item.value].clean
    && db.shareItems[item.value].class_ != Glacier && db.shareItems[item.value].class_ != Restoring
  }

  /** A download is granted exactly when a live share serves a clean item of its own that need
      not be thawed first; it takes one slot and changes nothing else. */
  lemma DownloadIsClaimed(db: Db, id: ShareId, item: Option<ItemId>, now: Time)
    ensures ClaimDownload(db, id, item, now).Done? <==> Serves(db, id, now) && Served(db, id, item)
    ensures ClaimDownload(db, id, item, now).Done? ==>
              var after := ClaimDownload(db, id, item, now).db;
              OneShare(db, after, id) && after.shares[id] == db.shares[id].(downloads := db.shares[id].downloads + 1)
  {
  }

  /** A refused claim tells why: a revoked share from an ended one, a used-up share from a
      missing item, an unsafe item from one in cold storage. */
  lemma ClaimRefusals(db: Db, id: ShareId, item: Option<ItemId>, now: Time)
    ensures var o := ClaimDownload(db, id, item, now);
            && (o == Failed(ShareNotFound) <==> id !in db.shares)
            && (id in db.shares ==>
                  var s := db.shares[id];
                  && (o == Failed(RevokedShare) <==> s.status == ShareRevoked)
                  && (o == Failed(ExpiredShare) <==> s.status == ShareExpired || (s.status == ShareActive && s.expiresAt <= now))
                  && (o == Failed(ShareLimit) <==>
                        s.status == ShareActive && now < s.expiresAt && !Serves(db, id, now)))
            && (Serves(db, id, now) ==>
                  && (o == Failed(ShareItemMissing) <==>
                        !(item.Some? && item.value in db.shareItems && db.shareItems[item.value].share == id))
                  && (item.Some? && item.value in db.shareItems && db.shareItems[item.value].share == id ==>
                        && (o == Failed(ShareUnsafe) <==> !db.shareItems[item.value].clean)
                        && (o == Failed(RestoreRequired) <==> db.shareItems[item.value].clean && !Served(db, id, item))))
  {
  }

  // ----- batch downloads ----------------------------------------------------------------

  /** Nothing but job `id` changed. */
  ghost predicate OneJob(db: Db, db': Db, id: JobId) {
    && db' == db.(jobs := db'.jobs) && id in db.jobs && db'.jobs.Keys == db.jobs.Keys
    && forall j :: j in db.jobs && j != id ==> db'.jobs[j] == db.jobs[j]
  }

  lemma JobIsCreated(db: Db, id: JobId, j: Job, items: map<ItemId, JobItem>)
    requires id !in db.jobs && items.Keys !! db.jobItems.Keys
    ensures var after := CreateJob(db, id, j, items);
            && after == db.(jobs := after.jobs, jobItems := after.jobItems)
            && after.jobs.Keys == db.jobs.Keys + {id} && after.jobs[id] == j
            && after.jobItems.Keys == db.jobItems.Keys + items.Keys
            && (forall i :: i in items ==> after.jobItems[i] == items[i])
            && (forall i :: i in db.jobItems ==> after.jobItems[i] == db.jobItems[i])
            && (forall k :: k in db.jobs ==> after.jobs[k] == db.jobs[k])
  {
  }

  /** Exactly a queued job is taken up, exactly a running one completes or fails. */
  lemma JobAdvances(db: Db, id: JobId, expiresAt: Time)
    ensures var taken, ended, failed := ClaimJob(db, id), CompleteJob(db, id, expiresAt), FailJob(db, id);
            && (if id in db.jobs && db.jobs[id].status == Queued
                then OneJob(db, taken, id) && taken.jobs[id] == db.jobs[id].(status := Running) else taken == db)
            && (ended.Done? <==> id in db.jobs && db.jobs[id].status == Running)
            && (ended.Failed? ==> ended == Failed(BatchState))
            && (ended.Done? ==>
                  && OneJob(db, ended.db, id)
                  && ended.db.jobs[id] == db.jobs[id].(status := JobCompleted, expiresAt := Some(expiresAt))
                  && OneJob(db, failed, id) && failed.jobs[id] == db.jobs[id].(status := JobFailed))
            && (ended.Failed? ==> failed == db)
  {
  }

  /** Exactly the owner queues a failed job again. */
  lemma JobIsRetried(db: Db, ws: WsId, user: UserId, id: JobId)
    ensures var o := RetryJob(db, ws, user, id);
            && (o.Done? <==>
                  id in db.jobs && db.jobs[id].status == JobFailed && db.jobs[id].ws == ws && db.jobs[id].createdBy == user)
            && (o.Failed? ==> o == Failed(BatchState))
            && (o.Done? ==> OneJob(db, o.db, id) && o.db.jobs[id] == db.jobs[id].(status := Queued, expiresAt := None))
  {
  }

  /** A restart queues the running jobs again; the sweep expires the completed ones past their
      time. */
  lemma JobsAreSwept(db: Db, now: Time)
    ensures var restarted, swept := RequeueJobs(db), ExpireJobs(db, now);
            && restarted == db.(jobs := restarted.jobs) && restarted.jobs.Keys == db.jobs.Keys
            && swept == db.(jobs := swept.jobs) && swept.jobs.Keys == db.jobs.Keys
            && (forall j :: j in db.jobs ==>
                  restarted.jobs[j] == if db.jobs[j].status == Running then db.jobs[j].(status := Queued) else db.jobs[j])
            && (forall j :: j in db.jobs ==>
                  swept.jobs[j] == if db.jobs[j].status == JobCompleted && db.jobs[j].expiresAt.Some?
                                      && db.jobs[j].expiresAt.value <= now
                                   then db.jobs[j].(status := JobExpired) else db.jobs[j])
  {
  }

  // ----- cold storage -------------------------------------------------------------------

  /** A version of the workspace over the object that is still in standard storage. */
  predicate StillWarm(db: Db, ws: WsId, key: StorageKey, v: VersionId) {
    && v in db.versions && db.versions[v].ws == ws && db.versions[v].key == key
    && (db.versions[v].class_ == Blank || db.versions[v].class_ == Standard)
  }

  /** The last access, or else the creation, lies at or before the cutoff. */
  predicate UnusedSince(r: FileVersion, cutoff: Time) {
    if r.lastAccessed.Some? then r.lastAccessed.value <= cutoff else r.createdAt <= cutoff
  }

  /** An object is archived exactly when the workspace still has it in standard storage and no
      such version was used after the cutoff. */
  lemma ArchiveCommits(db: Db, ws: WsId, key: StorageKey, cutoff: Time)
    ensures CompleteArchive(db, ws, key, cutoff).Done? <==>
            && (exists v :: StillWarm(db, ws, key, v))
            && forall v :: StillWarm(db, ws, key, v) ==> UnusedSince(db.versions[v], cutoff)
    ensures CompleteArchive(db, ws, key, cutoff).Failed? ==>
              CompleteArchive(db, ws, key, cutoff) == Failed(ArchiveCandidateChanged)
  {
    var vs := StandardVersions(db, ws, key);
    forall v ensures v in vs <==> StillWarm(db, ws, key, v) {
    }
    if v :| StillWarm(db, ws, key, v) {
      assert v in vs;
    }
  }

  /** In a valid state an archived object is archived wherever it is named, in version, share
      item or batch item, and no other object is touched. */
  lemma ArchiveReachesAll(db: Db, ws: WsId, key: StorageKey, cutoff: Time)
    requires KeysOk(db) && CompleteArchive(db, ws, key, cutoff).Done?
    ensures var after := CompleteArchive(db, ws, key, cutoff).db;
            && after == db.(versions := after.versions, shareItems := after.shareItems, jobItems := after.jobItems)
            && after.versions.Keys == db.versions.Keys && after.shareItems.Keys == db.shareItems.Keys
            && after.jobItems.Keys == db.jobItems.Keys
            && (forall v :: v in db.versions ==>
                  after.versions[v] == if db.versions[v].key != key then db.versions[v] else db.versions[v].(class_ := Archive))
            && (forall i :: i in db.shareItems ==>
                  after.shareItems[i] == if db.shareItems[i].key != key then db.shareItems[i]
                                         else db.shareItems[i].(class_ := Archive))
            && (forall i :: i in db.jobItems ==>
                  after.jobItems[i] == if db.jobItems[i].key != key then db.jobItems[i] else db.jobItems[i].(class_ := Archive))
  {
    ArchiveCommits(db, ws, key, cutoff);
    var v :| StillWarm(db, ws, key, v);
    assert db.origin[key].ws == ws;
    ArchivedRows(db, ws, key, cutoff);
  }

  lemma ArchivedRows(db: Db, ws: WsId, key: StorageKey, cutoff: Time)
    requires CompleteArchive(db, ws, key, cutoff).Done?
    ensures var after := CompleteArchive(db, ws, key, cutoff).db;
            && after == db.(versions := after.versions, shareItems := after.shareItems, jobItems := after.jobItems)
            && after.versions.Keys == db.versions.Keys && after.shareItems.Keys == db.shareItems.Keys
            && after.jobItems.Keys == db.jobItems.Keys
            && (forall v :: v in db.versions ==>
                  after.versions[v] == if db.versions[v].ws == ws && db.versions[v].key == key
                                       then db.versions[v].(class_ := Archive) else db.versions[v])
            && (forall i :: i in db.shareItems ==>
                  after.shareItems[i] == if db.shareItems[i].key == key && db.shareItems[i].share in db.shares
                                            && db.shares[db.shareItems[i].share].ws == ws
                                         then db.shareItems[i].(class_ := Archive) else db.shareItems[i])
            && (forall i :: i in db.jobItems ==>
                  after.jobItems[i] == if db.jobItems[i].key == key && db.jobItems[i].job in db.jobs
                                          && db.jobs[db.jobItems[i].job].ws == ws
                                       then db.jobItems[i].(class_ := Archive) else db.jobItems[i])
  {
  }
}
