/** What the transactions on versions, shares, batch downloads and cold storage
    mean: everything that makes, uses or drops a reference to a stored object. */
module ObjectSteps {
  import opened Common
  import opened Tables
  import opened UploadSteps

  // ----- versions ---------------------------------------------------------------

  predicate IsVersion(db: Db, ws: WsId, m: NodeId, no: int, v: VersionId) {
    v in db.versions && db.versions[v].ws == ws && db.versions[v].node == m && db.versions[v].no == no
  }

  /** A copy of an old version becomes the new highest one, over the same object. */
  ghost function RestoreVersion(db: Db, ws: WsId, m: NodeId, no: int, actor: UserId, now: Time): Outcome {
    if !IsActiveFile(db, ws, m) then Failed(NotFound)
    else if !exists v :: IsVersion(db, ws, m, no, v) then Failed(NotFound)
    else
      var v :| IsVersion(db, ws, m, no, v);
      Done(db.(
        nodes := db.nodes[m := db.nodes[m].(activeVersion := Some(db.nextVersion), updatedBy := actor)],
        versions := db.versions[db.nextVersion := db.versions[v].(
          no := Latest(db.versions, ws, m) + 1, createdBy := actor, createdAt := now)],
        nextVersion := db.nextVersion + 1))
  }

  /** TouchAccessByStorageKey. */
  function TouchKey(db: Db, key: StorageKey, at: Time): Db {
    db.(versions := map v | v in db.versions ::
      if db.versions[v].key == key then db.versions[v].(lastAccessed := Some(at)) else db.versions[v])
  }

  // ----- shares -----------------------------------------------------------------

  function CreateShare(db: Db, id: ShareId, s: Share, items: map<ItemId, ShareItem>): Db {
    db.(shares := db.shares[id := s], shareItems := db.shareItems + items)
  }

  function RevokeShare(db: Db, ws: WsId, id: ShareId): Outcome {
    if id !in db.shares || db.shares[id].ws != ws || db.shares[id].status != ShareActive then Failed(NotFound)
    else Done(db.(shares := db.shares[id := db.shares[id].(status := ShareRevoked)]))
  }

  function ExpireShares(db: Db, now: Time): Db {
    db.(shares := map s | s in db.shares ::
      if db.shares[s].status == ShareActive && db.shares[s].expiresAt <= now then db.shares[s].(status := ShareExpired)
      else db.shares[s])
  }

  /** One download slot. `item` is the row the item query returned, if any. */
  function ClaimDownload(db: Db, id: ShareId, item: Option<ItemId>, now: Time): Outcome {
    if id !in db.shares then Failed(ShareNotFound)
    else
      var s := db.shares[id];
      if s.status == ShareRevoked then Failed(RevokedShare)
      else if s.status != ShareActive || now >= s.expiresAt then Failed(ExpiredShare)
      else if s.maxDownloads.Some? && s.downloads >= s.maxDownloads.value then Failed(ShareLimit)
      else if item.None? || item.value !in db.shareItems || db.shareItems[item.value].share != id then
        Failed(ShareItemMissing)
      else if !db.shareItems[item.value].clean then Failed(ShareUnsafe)
      else if db.shareItems[item.value].class_ == Glacier || db.shareItems[item.value].class_ == Restoring then
        Failed(RestoreRequired)
      else Done(db.(shares := db.shares[id := s.(downloads := s.downloads + 1)]))
  }

  // ----- batch downloads --------------------------------------------------------

  function CreateJob(db: Db, id: JobId, j: Job, items: map<ItemId, JobItem>): Db {
    db.(jobs := db.jobs[id := j], jobItems := db.jobItems + items)
  }

  function SetJob(db: Db, id: JobId, j: Job): Db {
    db.(jobs := db.jobs[id := j])
  }

  predicate JobIs(db: Db, id: JobId, status: JobStatus) {
    id in db.jobs && db.jobs[id].status == status
  }

  function ClaimJob(db: Db, id: JobId): Db {
    if JobIs(db, id, Queued) then SetJob(db, id, db.jobs[id].(status := Running)) else db
  }

  function CompleteJob(db: Db, id: JobId, expiresAt: Time): Outcome {
    if !JobIs(db, id, Running) then Failed(BatchState)
    else Done(SetJob(db, id, db.jobs[id].(status := JobCompleted, expiresAt := Some(expiresAt))))
  }

  function FailJob(db: Db, id: JobId): Db {
    if JobIs(db, id, Running) then SetJob(db, id, db.jobs[id].(status := JobFailed)) else db
  }

  function RetryJob(db: Db, ws: WsId, user: UserId, id: JobId): Outcome {
    if !JobIs(db, id, JobFailed) || db.jobs[id].ws != ws || db.jobs[id].createdBy != user then Failed(BatchState)
    else Done(SetJob(db, id, db.jobs[id].(status := Queued, expiresAt := None)))
  }

  function RequeueJobs(db: Db): Db {
    db.(jobs := map j | j in db.jobs ::
      if db.jobs[j].status == Running then db.jobs[j].(status := Queued) else db.jobs[j])
  }

  function ExpireJobs(db: Db, now: Time): Db {
    db.(jobs := map j | j in db.jobs ::
      if db.jobs[j].status == JobCompleted && db.jobs[j].expiresAt.Some? && db.jobs[j].expiresAt.value <= now
      then db.jobs[j].(status := JobExpired) else db.jobs[j])
  }

  // ----- cold storage -----------------------------------------------------------

  function LastUse(v: FileVersion): Time {
    v.lastAccessed.GetOr(v.createdAt)
  }

  /** The rows Complete locks and rechecks: those still in standard storage. */
  function StandardVersions(db: Db, ws: WsId, key: StorageKey): set<VersionId> {
    set v | v in db.versions && db.versions[v].ws == ws && db.versions[v].key == key && Standardish(db.versions[v].class_)
  }

  function CompleteArchive(db: Db, ws: WsId, key: StorageKey, cutoff: Time): Outcome {
    var vs := StandardVersions(db, ws, key);
    if vs == {} || exists v :: v in vs && LastUse(db.versions[v]) > cutoff then Failed(ArchiveCandidateChanged)
    else Done(Relabelled(db, ws, key))
  }

  /** The object is marked archived on every row of the workspace that names it. */
  function Relabelled(db: Db, ws: WsId, key: StorageKey): Db {
    db.(
      versions := map v | v in db.versions ::
        if db.versions[v].ws == ws && db.versions[v].key == key then db.versions[v].(class_ := Archive)
        else db.versions[v],
      shareItems := map i | i in db.shareItems ::
        if db.shareItems[i].key == key && db.shareItems[i].share in db.shares && db.shares[db.shareItems[i].share].ws == ws
        then db.shareItems[i].(class_ := Archive) else db.shareItems[i],
      jobItems := map i | i in db.jobItems ::
        if db.jobItems[i].key == key && db.jobItems[i].job in db.jobs && db.jobs[db.jobItems[i].job].ws == ws
        then db.jobItems[i].(class_ := Archive) else db.jobItems[i])
  }
}
