/** A purged object is dead for good. */
module PurgeSafety {
  import opened Common
  import opened Tables
  import opened NodeSteps
  import opened UploadSteps
  import opened ObjectSteps
  import opened Runs
  import opened NodeSafety
  import opened UploadSafety
  import opened ObjectSafety
  import opened Safety

  /** No version holds the object, and no live share or batch download lists it. */
  ghost predicate Dead(db: Db, key: StorageKey, now: Time) {
    && key in db.origin
    && (forall v :: v in db.versions ==> db.versions[v].key != key)
    && (forall i :: i in db.shareItems && db.shareItems[i].key == key && db.shareItems[i].share in db.shares ==>
          !ShareLive(db.shares[db.shareItems[i].share], now))
    && (forall i :: i in db.jobItems && db.jobItems[i].key == key && db.jobItems[i].job in db.jobs ==>
          !JobLive(db.jobs[db.jobItems[i].job], now))
  }

  lemma DeadLater(db: Db, key: StorageKey, now: Time, later: Time)
    requires Dead(db, key, now) && now <= later
    ensures Dead(db, key, later)
  {
  }

  /** The objects of an unretained subtree are dead once it is purged. */
  lemma PurgeKills(db: Db, ws: WsId, ns: set<NodeId>, now: Time, v: VersionId)
    requires KeysOk(db) && !Retained(db, ws, ns, now) && v in VersionsOn(db.versions, ws, ns)
    ensures Dead(Purged(db, ws, ns, now), db.versions[v].key, now)
  {
    var db' := Purged(db, ws, ns, now);
    var key := db.versions[v].key;
    assert key in KeysOf(db.versions, VersionsOn(db.versions, ws, ns));
    forall w | w in db'.versions ensures db'.versions[w].key != key {
      assert w in db.versions && w !in VersionsOn(db.versions, ws, ns);
    }
    forall i | i in db'.shareItems ensures db'.shareItems[i].key != key {
      assert i in db.shareItems && db.shareItems[i].share in db.shares;
      assert i !in LiveShareItemsOver(db, ws, KeysOf(db.versions, VersionsOn(db.versions, ws, ns)), now);
    }
    forall i | i in db'.jobItems ensures db'.jobItems[i].key != key {
      assert i in db.jobItems && db.jobItems[i].job in db.jobs;
      assert i !in LiveJobItemsOn(db, ws, ns, now);
    }
  }

  /** Rows only disappear, and live holders only come to an end. */
  ghost predicate NothingRevived(db: Db, db': Db, now: Time) {
    && db.origin.Keys <= db'.origin.Keys
    && (forall v :: v in db'.versions ==>
          || db'.versions[v].key !in db.origin
          || exists w :: w in db.versions && db.versions[w].key == db'.versions[v].key)
    && (forall i :: i in db'.shareItems ==> ShareItemOld(db, db', i, now) || HasVersion(db, db'.shareItems[i].key))
    && (forall i :: i in db'.jobItems ==> JobItemOld(db, db', i, now) || HasVersion(db, db'.jobItems[i].key))
  }

  ghost predicate HasVersion(db: Db, key: StorageKey) {
    exists w :: w in db.versions && db.versions[w].key == key
  }

  ghost predicate ShareItemOld(db: Db, db': Db, i: ItemId, now: Time)
    requires i in db'.shareItems
  {
    && i in db.shareItems && db.shareItems[i].key == db'.shareItems[i].key
    && db.shareItems[i].share == db'.shareItems[i].share
    && (db'.shareItems[i].share in db'.shares ==>
          && db'.shareItems[i].share in db.shares
          && (ShareLive(db'.shares[db'.shareItems[i].share], now) ==>
                ShareLive(db.shares[db'.shareItems[i].share], now)))
  }

  ghost predicate JobItemOld(db: Db, db': Db, i: ItemId, now: Time)
    requires i in db'.jobItems
  {
    && i in db.jobItems && db.jobItems[i].key == db'.jobItems[i].key && db.jobItems[i].job == db'.jobItems[i].job
    && (db'.jobItems[i].job in db'.jobs ==>
          && db'.jobItems[i].job in db.jobs
          && (JobLive(db'.jobs[db'.jobItems[i].job], now) ==> JobLive(db.jobs[db'.jobItems[i].job], now)))
  }

  lemma DeadWhenNothingRevived(db: Db, db': Db, key: StorageKey, now: Time)
    requires Dead(db, key, now) && NothingRevived(db, db', now)
    ensures Dead(db', key, now)
  {
    assert !HasVersion(db, key);
    forall i | i in db'.shareItems && db'.shareItems[i].key == key && db'.shareItems[i].share in db'.shares
      ensures !ShareLive(db'.shares[db'.shareItems[i].share], now)
    {
      assert ShareItemOld(db, db', i, now);
    }
    forall i | i in db'.jobItems && db'.jobItems[i].key == key && db'.jobItems[i].job in db'.jobs
      ensures !JobLive(db'.jobs[db'.jobItems[i].job], now)
    {
      assert JobItemOld(db, db', i, now);
    }
  }

  // ----- no step revives anything -------------------------------------------------

  /** Versions and every reference to an object are as before. */
  ghost predicate Untouched(db: Db, db': Db) {
    && db'.versions == db.versions && db'.origin == db.origin
    && db'.shareItems == db.shareItems && db'.jobItems == db.jobItems
    && db'.shares == db.shares && db'.jobs == db.jobs
  }

  lemma QuietStep(db: Db, db': Db, now: Time)
    requires KeysOk(db) && Untouched(db, db')
    ensures NothingRevived(db, db', now)
  {
    forall i | i in db'.shareItems ensures ShareItemOld(db, db', i, now) {
    }
    forall i | i in db'.jobItems ensures JobItemOld(db, db', i, now) {
    }
  }

  /** Holders of objects may change, but not from ended to live. */
  ghost predicate HoldersEnd(db: Db, db': Db, now: Time) {
    && (forall s :: s in db'.shares && ShareLive(db'.shares[s], now) ==> s in db.shares ==> ShareLive(db.shares[s], now))
    && (forall j :: j in db'.jobs && JobLive(db'.jobs[j], now) ==> j in db.jobs ==> JobLive(db.jobs[j], now))
  }

  lemma HolderStep(db: Db, db': Db, now: Time)
    requires KeysOk(db) && HoldersEnd(db, db', now)
    requires db'.versions == db.versions && db'.origin == db.origin
    requires db'.shareItems == db.shareItems && db'.jobItems == db.jobItems
    ensures NothingRevived(db, db', now)
  {
    forall i | i in db'.shareItems ensures ShareItemOld(db, db', i, now) {
    }
    forall i | i in db'.jobItems ensures JobItemOld(db, db', i, now) {
    }
  }

  lemma ShareOpEnds(db: Db, op: Op, now: Time)
    requires IsShareOp(op)
    ensures HoldersEnd(db, ExecShare(db, op).After(db), now)
  {
  }

  lemma JobOpEnds(db: Db, op: Op, now: Time)
    requires IsJobOp(op)
    ensures HoldersEnd(db, ExecJob(db, op).After(db), now)
  {
    match op
    case OpClaimJob(id) => OneJobEnds(db, id, Running, None, now);
    case OpCompleteJob(id, expiresAt) => OneJobEnds(db, id, JobCompleted, Some(expiresAt), now);
    case OpFailJob(id) => OneJobEnds(db, id, JobFailed, None, now);
    case OpRetryJob(ws, user, id) => OneJobEnds(db, id, Queued, None, now);
    case OpRequeueJobs =>
    case OpExpireJobs(at) =>
  }

  /** A live job may move between the live states. */
  lemma OneJobEnds(db: Db, id: JobId, status: JobStatus, expiresAt: Option<Time>, now: Time)
    ensures id in db.jobs && JobLive(db.jobs[id], now) ==>
              HoldersEnd(db, SetJob(db, id, db.jobs[id].(status := status)), now)
              && HoldersEnd(db, SetJob(db, id, db.jobs[id].(status := status, expiresAt := expiresAt)), now)
  {
  }

  lemma NewShareStep(db: Db, id: ShareId, s: Share, items: map<ItemId, ShareItem>, now: Time)
    requires KeysOk(db) && Guard(db, OpCreateShare(id, s, items))
    ensures NothingRevived(db, CreateShare(db, id, s, items), now)
  {
    var db' := CreateShare(db, id, s, items);
    forall i | i in db'.shareItems ensures ShareItemOld(db, db', i, now) || HasVersion(db, db'.shareItems[i].key) {
      if i in items {
        assert IsStored(db, s.ws, items[i].key);
      }
    }
    forall i | i in db'.jobItems ensures JobItemOld(db, db', i, now) {
    }
  }

  lemma NewJobStep(db: Db, id: JobId, j: Job, items: map<ItemId, JobItem>, now: Time)
    requires KeysOk(db) && Guard(db, OpCreateJob(id, j, items))
    ensures NothingRevived(db, CreateJob(db, id, j, items), now)
  {
    var db' := CreateJob(db, id, j, items);
    forall i | i in db'.shareItems ensures ShareItemOld(db, db', i, now) {
    }
    forall i | i in db'.jobItems ensures JobItemOld(db, db', i, now) || HasVersion(db, db'.jobItems[i].key) {
      if i in items {
        assert IsStoredAt(db, j.ws, items[i].key, items[i].node);
      }
    }
  }

  lemma PurgedStep(db: Db, ws: WsId, ns: set<NodeId>, at: Time, now: Time)
    requires KeysOk(db)
    ensures NothingRevived(db, Purged(db, ws, ns, at), now)
  {
    var db' := Purged(db, ws, ns, at);
    forall i | i in db'.shareItems ensures ShareItemOld(db, db', i, now) {
    }
    forall i | i in db'.jobItems ensures JobItemOld(db, db', i, now) {
    }
  }

  /** One more version, over a fresh object or over one that has a version. */
  lemma VersionStep(db: Db, db': Db, r: FileVersion, nv: VersionId, now: Time)
    requires KeysOk(db) && (r.key !in db.origin || HasVersion(db, r.key))
    requires db'.versions == db.versions[nv := r] && db.origin.Keys <= db'.origin.Keys
    requires db'.shareItems == db.shareItems && db'.jobItems == db.jobItems
    requires db'.shares == db.shares && db'.jobs == db.jobs
    ensures NothingRevived(db, db', now)
  {
    forall i | i in db'.shareItems ensures ShareItemOld(db, db', i, now) {
    }
    forall i | i in db'.jobItems ensures JobItemOld(db, db', i, now) {
    }
  }

  lemma RelabelStep(db: Db, db': Db, now: Time)
    requires KeysOk(db) && SameVersions(db, db') && SameItems(db, db')
    ensures NothingRevived(db, db', now)
  {
    forall v | v in db'.versions ensures db'.versions[v].key == db.versions[v].key {
    }
    forall i | i in db'.shareItems ensures ShareItemOld(db, db', i, now) {
    }
    forall i | i in db'.jobItems ensures JobItemOld(db, db', i, now) {
    }
  }

  lemma RestoreStep(db: Db, ws: WsId, m: NodeId, no: int, actor: UserId, at: Time, now: Time)
    requires KeysOk(db)
    ensures NothingRevived(db, RestoreVersion(db, ws, m, no, actor, at).After(db), now)
  {
    var o := RestoreVersion(db, ws, m, no, actor, at);
    if o.Done? {
      RestoredVersionShape(db, ws, m, no, actor, at);
      VersionStep(db, o.db, o.db.versions[db.nextVersion], db.nextVersion, now);
    } else {
      QuietStep(db, db, now);
    }
  }

  /** A committed finalize stores one version over its own object. */
  ghost predicate StoresFresh(db: Db, db': Db, key: StorageKey) {
    && db.nextVersion in db'.versions && db'.versions[db.nextVersion].key == key
    && db'.versions == db.versions[db.nextVersion := db'.versions[db.nextVersion]]
    && db.origin.Keys <= db'.origin.Keys
    && db'.shareItems == db.shareItems && db'.jobItems == db.jobItems
    && db'.shares == db.shares && db'.jobs == db.jobs
  }

  lemma FinalizeStores(db: Db, sid: SessionId, ws: WsId, user: UserId, v: FileVersion, n: Node)
    requires FinalizeSession(db, sid, ws, user, v, n).Done?
    ensures StoresFresh(db, FinalizeSession(db, sid, ws, user, v, n).db, v.key)
  {
    FinalizeCases(db, sid, ws, user, v, n);
    if db.sessions[sid].node.Some? {
      OverwriteShape(db, sid, ws, user, v);
    } else {
      NewFileStores(db, sid, ws, user, v, n);
    }
  }

  lemma NewFileStores(db: Db, sid: SessionId, ws: WsId, user: UserId, v: FileVersion, n: Node)
    requires sid in db.sessions
    ensures StoresFresh(db, NewFile(db, sid, ws, user, v, n), v.key)
  {
  }

  lemma FinalizeStep(db: Db, sid: SessionId, ws: WsId, user: UserId, v: FileVersion, n: Node, now: Time)
    requires KeysOk(db) && v.key !in db.origin
    ensures NothingRevived(db, FinalizeSession(db, sid, ws, user, v, n).After(db), now)
  {
    var o := FinalizeSession(db, sid, ws, user, v, n);
    if o.Done? {
      FinalizeStores(db, sid, ws, user, v, n);
      VersionStep(db, o.db, o.db.versions[db.nextVersion], db.nextVersion, now);
    } else {
      QuietStep(db, db, now);
    }
  }

  lemma TouchStep(db: Db, key: StorageKey, at: Time, now: Time)
    requires KeysOk(db)
    ensures NothingRevived(db, TouchKey(db, key, at), now)
  {
    TouchRows(db, key, at);
    RelabelStep(db, TouchKey(db, key, at), now);
  }

  lemma ArchiveStep(db: Db, ws: WsId, key: StorageKey, cutoff: Time, now: Time)
    requires KeysOk(db)
    ensures NothingRevived(db, CompleteArchive(db, ws, key, cutoff).After(db), now)
  {
    ArchiveVersionRows(db, ws, key, cutoff);
    ArchiveItemRows(db, ws, key, cutoff);
    RelabelStep(db, CompleteArchive(db, ws, key, cutoff).After(db), now);
  }

  lemma ObjectStep(db: Db, op: Op, now: Time)
    requires KeysOk(db) && ClassOk(db) && Guard(db, op) && IsObjectOp(op)
    ensures NothingRevived(db, ExecObject(db, op).After(db), now)
  {
    match op
    case OpRestoreVersion(ws, m, no, actor, at) => RestoreStep(db, ws, m, no, actor, at, now);
    case OpTouchKey(key, at) => TouchStep(db, key, at, now);
    case OpCreateShare(id, s, items) => NewShareStep(db, id, s, items, now);
    case OpCreateJob(id, j, items) => NewJobStep(db, id, j, items, now);
    case OpCompleteArchive(ws, key, cutoff) => ArchiveStep(db, ws, key, cutoff, now);
  }

  lemma QuietNodeOp(db: Db, op: Op)
    requires IsNodeOp(op) && !op.OpPurge?
    ensures Untouched(db, ExecNode(db, op).After(db))
  {
  }

  lemma QuietSessionOp(db: Db, op: Op)
    requires IsSessionOp(op) && !op.OpFinalize?
    ensures Untouched(db, ExecSession(db, op).After(db))
  {
  }

  lemma QuietQuotaOp(db: Db, op: Op)
    requires IsQuotaOp(op)
    ensures Untouched(db, ExecQuota(db, op).After(db))
  {
  }

  lemma {:induction false} PurgeStaysDead(
    db: Db, snapshot: map<NodeId, Node>, order: seq<NodeId>, at: Time, key: StorageKey, now: Time)
    requires KeysOk(db) && ClassOk(db) && Dead(db, key, now)
    ensures Dead(PurgeRoots(db, snapshot, order, at), key, now)
    decreases |order|
  {
    if order != [] {
      var next := if order[0] in snapshot then PurgeRoot(db, snapshot[order[0]].ws, order[0], at) else db;
      if next != db {
        var ws := snapshot[order[0]].ws;
        var ns := Scope(db.nodes, ws, order[0]);
        PurgeObjects(db, ws, ns, at);
        PurgedStep(db, ws, ns, at, now);
        DeadWhenNothingRevived(db, next, key, now);
      }
      PurgeStaysDead(next, snapshot, order[1..], at, key, now);
    }
  }

  lemma QuietOp(db: Db, op: Op, now: Time)
    requires KeysOk(db)
    requires (IsNodeOp(op) && !op.OpPurge?) || (IsSessionOp(op) && !op.OpFinalize?) || IsQuotaOp(op)
    ensures NothingRevived(db, Step(db, op), now)
  {
    if IsNodeOp(op) {
      QuietNodeOp(db, op);
    } else if IsSessionOp(op) {
      QuietSessionOp(db, op);
    } else {
      QuietQuotaOp(db, op);
    }
    QuietStep(db, Step(db, op), now);
  }

  lemma ShareOpRevivesNothing(db: Db, op: Op, now: Time)
    requires KeysOk(db) && IsShareOp(op)
    ensures NothingRevived(db, ExecShare(db, op).After(db), now)
  {
    ShareShape(db, op);
    ShareOpEnds(db, op, now);
    HolderStep(db, ExecShare(db, op).After(db), now);
  }

  lemma JobOpRevivesNothing(db: Db, op: Op, now: Time)
    requires KeysOk(db) && IsJobOp(op)
    ensures NothingRevived(db, ExecJob(db, op).After(db), now)
  {
    JobOpShape(db, op);
    JobOpEnds(db, op, now);
    HolderStep(db, ExecJob(db, op).After(db), now);
  }

  lemma NothingIsRevived(db: Db, op: Op, now: Time)
    requires KeysOk(db) && ClassOk(db) && Guard(db, op) && !op.OpPurge?
    ensures NothingRevived(db, Step(db, op), now)
  {
    if op.OpFinalize? {
      FinalizeStep(db, op.sid, op.ws, op.user, op.v, op.n, now);
    } else if IsNodeOp(op) || IsSessionOp(op) || IsQuotaOp(op) {
      QuietOp(db, op, now);
    } else if IsShareOp(op) {
      ShareOpRevivesNothing(db, op, now);
    } else if IsJobOp(op) {
      JobOpRevivesNothing(db, op, now);
    } else {
      ObjectStep(db, op, now);
    }
  }

  /** No transaction brings a dead object back. */
  lemma DeadStays(db: Db, op: Op, key: StorageKey, now: Time)
    requires KeysOk(db) && ClassOk(db) && Guard(db, op) && Dead(db, key, now)
    ensures Dead(Step(db, op), key, now)
  {
    if op.OpPurge? {
      PurgeStaysDead(db, db.nodes, op.order, op.now, key, now);
    } else {
      NothingIsRevived(db, op, now);
      DeadWhenNothingRevived(db, Step(db, op), key, now);
    }
  }

  lemma {:induction false} DeadForever(db: Db, ops: seq<Op>, key: StorageKey, now: Time)
    requires Inv(db) && IsRun(db, ops) && Dead(db, key, now)
    ensures Dead(Final(db, ops), key, now)
    decreases |ops|
  {
    if ops != [] {
      StepKeeps(db, ops[0]);
      DeadStays(db, ops[0], key, now);
      DeadForever(Step(db, ops[0]), ops[1..], key, now);
    }
  }

  /** Whatever version a purge drops, its object is dead right afterwards. */
  lemma {:induction false} PurgeRootsKill(
    db: Db, snapshot: map<NodeId, Node>, order: seq<NodeId>, now: Time, v: VersionId)
    requires KeysOk(db) && ClassOk(db) && v in db.versions && v !in PurgeRoots(db, snapshot, order, now).versions
    ensures Dead(PurgeRoots(db, snapshot, order, now), db.versions[v].key, now)
    decreases |order|
  {
    var next := if order[0] in snapshot then PurgeRoot(db, snapshot[order[0]].ws, order[0], now) else db;
    var key := db.versions[v].key;
    if next == db {
      PurgeRootsKill(db, snapshot, order[1..], now, v);
    } else {
      var ws := snapshot[order[0]].ws;
      var ns := Scope(db.nodes, ws, order[0]);
      PurgeObjects(db, ws, ns, now);
      if v in next.versions {
        PurgeRootsKill(next, snapshot, order[1..], now, v);
      } else {
        PurgeKills(db, ws, ns, now, v);
        PurgeStaysDead(next, snapshot, order[1..], now, key, now);
      }
    }
  }

  /** PurgeExpiredTrash hands an object to the storage cleaner only when nothing
      refers to it, and no later run of any transactions refers to it again. */
  lemma PurgeIsFinal(db: Db, cutoff: Time, now: Time, order: seq<NodeId>, ops: seq<Op>, v: VersionId, later: Time)
    requires Inv(db) && Guard(db, OpPurge(cutoff, now, order))
    requires v in db.versions && v !in Step(db, OpPurge(cutoff, now, order)).versions
    requires IsRun(Step(db, OpPurge(cutoff, now, order)), ops) && now <= later
    ensures Dead(Final(Step(db, OpPurge(cutoff, now, order)), ops), db.versions[v].key, later)
  {
    var db' := Step(db, OpPurge(cutoff, now, order));
    StepKeeps(db, OpPurge(cutoff, now, order));
    PurgeRootsKill(db, db.nodes, order, now, v);
    DeadForever(db', ops, db.versions[v].key, now);
    DeadLater(Final(db', ops), db.versions[v].key, now, later);
  }
}
