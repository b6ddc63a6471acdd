/** The life of a batch download: which transaction may change its status and how,
    told for single steps and for whole runs. */
module JobLife {
  import opened Common
  import opened Tables
  import opened NodeSteps
  import opened UploadSteps
  import opened ObjectSteps
  import opened Runs
  import opened PurgeSafety

  /** The only ways in which the row of job `id` may change. */
  ghost predicate JobMove(op: Op, id: JobId, a: Job, b: Job) {
    || b == a
    || (op == OpClaimJob(id) && a.status == Queued && b == a.(status := Running))
    || (op.OpCompleteJob? && op.job == id && a.status == Running
        && b == a.(status := JobCompleted, expiresAt := Some(op.expiresAt)))
    || (op == OpFailJob(id) && a.status == Running && b == a.(status := JobFailed))
    || (op == OpRetryJob(a.ws, a.createdBy, id) && a.status == JobFailed && b == a.(status := Queued, expiresAt := None))
    || (op.OpRequeueJobs? && a.status == Running && b == a.(status := Queued))
    || (op.OpExpireJobs? && a.status == JobCompleted && a.expiresAt.Some? && a.expiresAt.value <= op.now
        && b == a.(status := JobExpired))
    || (op.OpPurge? && b == a.(status := JobExpired))
  }

  lemma JobOpMoves(db: Db, op: Op, id: JobId)
    requires IsJobOp(op) && id in db.jobs
    ensures id in ExecJob(db, op).After(db).jobs && JobMove(op, id, db.jobs[id], ExecJob(db, op).After(db).jobs[id])
  {
  }

  /** Job rows stay, and a changed one is expired. */
  ghost predicate JobsStayOrExpire(before: map<JobId, Job>, after: map<JobId, Job>) {
    && after.Keys == before.Keys
    && forall j :: j in before ==> after[j] == before[j] || after[j] == before[j].(status := JobExpired)
  }

  lemma {:induction false} PurgeExpiresOnly(db: Db, snapshot: map<NodeId, Node>, order: seq<NodeId>, now: Time)
    ensures JobsStayOrExpire(db.jobs, PurgeRoots(db, snapshot, order, now).jobs)
    decreases |order|
  {
    if order != [] {
      var next := if order[0] in snapshot then PurgeRoot(db, snapshot[order[0]].ws, order[0], now) else db;
      PurgeExpiresOnly(next, snapshot, order[1..], now);
    }
  }

  lemma FinalizeKeepsHolders(db: Db, sid: SessionId, ws: WsId, user: UserId, v: FileVersion, n: Node)
    ensures FinalizeSession(db, sid, ws, user, v, n).After(db).jobs == db.jobs
    ensures FinalizeSession(db, sid, ws, user, v, n).After(db).shares == db.shares
  {
    if FinalizeSession(db, sid, ws, user, v, n).Done? {
      FinalizeStores(db, sid, ws, user, v, n);
    }
  }

  /** An object transaction other than the two that create a holder. */
  predicate IsQuietObjectOp(op: Op) {
    op.OpRestoreVersion? || op.OpTouchKey? || op.OpCompleteArchive?
  }

  lemma HoldersUntouched(db: Db, op: Op)
    requires IsQuietObjectOp(op)
    ensures ExecObject(db, op).After(db).jobs == db.jobs && ExecObject(db, op).After(db).shares == db.shares
  {
    match op
    case OpRestoreVersion(ws, m, no, actor, now) => RestoreKeepsHolders(db, ws, m, no, actor, now);
    case OpCompleteArchive(ws, key, cutoff) => ArchiveKeepsHolders(db, ws, key, cutoff);
    case OpTouchKey(key, now) =>
  }

  lemma RestoreKeepsHolders(db: Db, ws: WsId, m: NodeId, no: int, actor: UserId, now: Time)
    ensures RestoreVersion(db, ws, m, no, actor, now).After(db).jobs == db.jobs
    ensures RestoreVersion(db, ws, m, no, actor, now).After(db).shares == db.shares
  {
  }

  lemma ArchiveKeepsHolders(db: Db, ws: WsId, key: StorageKey, cutoff: Time)
    ensures CompleteArchive(db, ws, key, cutoff).After(db).jobs == db.jobs
    ensures CompleteArchive(db, ws, key, cutoff).After(db).shares == db.shares
  {
  }

  lemma ShareOpKeepsJobs(db: Db, op: Op)
    requires IsShareOp(op)
    ensures ExecShare(db, op).After(db).jobs == db.jobs
  {
  }

  lemma QuietKeepsHolders(db: Db, op: Op)
    requires (IsNodeOp(op) && !op.OpPurge?) || (IsSessionOp(op) && !op.OpFinalize?) || IsQuotaOp(op)
    ensures Step(db, op).jobs == db.jobs && Step(db, op).shares == db.shares
  {
    if IsNodeOp(op) {
      QuietNodeOp(db, op);
    } else if IsSessionOp(op) {
      QuietSessionOp(db, op);
    } else {
      QuietQuotaOp(db, op);
    }
  }

  /** A transaction that works on neither kind of holder. */
  predicate IsOtherOp(op: Op) {
    !op.OpPurge? && !IsShareOp(op) && !IsJobOp(op) && !op.OpCreateShare? && !op.OpCreateJob?
  }

  lemma OthersKeepHolders(db: Db, op: Op)
    requires IsOtherOp(op)
    ensures Step(db, op).jobs == db.jobs && Step(db, op).shares == db.shares
  {
    if op.OpFinalize? {
      FinalizeKeepsHolders(db, op.sid, op.ws, op.user, op.v, op.n);
    } else if IsQuietObjectOp(op) {
      HoldersUntouched(db, op);
    } else {
      QuietKeepsHolders(db, op);
    }
  }

  lemma NewHolderRows(db: Db, op: Op)
    requires op.OpCreateShare? || op.OpCreateJob?
    ensures Step(db, op).jobs == if op.OpCreateJob? then db.jobs[op.job := op.jb] else db.jobs
    ensures Step(db, op).shares == if op.OpCreateShare? then db.shares[op.share := op.sh] else db.shares
  {
  }

  lemma PurgeStep(db: Db, op: Op)
    requires op.OpPurge?
    ensures JobsStayOrExpire(db.jobs, Step(db, op).jobs)
  {
    PurgeExpiresOnly(db, db.nodes, op.order, op.now);
  }

  lemma ShareStep(db: Db, op: Op)
    requires IsShareOp(op)
    ensures Step(db, op).jobs == db.jobs
  {
    ShareOpKeepsJobs(db, op);
  }

  lemma JobStep(db: Db, op: Op, id: JobId)
    requires IsJobOp(op) && id in db.jobs
    ensures id in Step(db, op).jobs && JobMove(op, id, db.jobs[id], Step(db, op).jobs[id])
  {
    JobOpMoves(db, op, id);
  }

  /** A job row never disappears, and every transaction changes it along the table of
      moves only. */
  lemma JobSteps(db: Db, op: Op, id: JobId)
    requires id in db.jobs && Guard(db, op)
    ensures id in Step(db, op).jobs && JobMove(op, id, db.jobs[id], Step(db, op).jobs[id])
  {
    if op.OpPurge? {
      PurgeStep(db, op);
    } else if IsOtherOp(op) {
      OthersKeepHolders(db, op);
    } else if IsShareOp(op) {
      ShareStep(db, op);
    } else if IsJobOp(op) {
      JobStep(db, op, id);
    } else {
      NewHolderRows(db, op);
    }
  }

  // ----- over runs ------------------------------------------------------------------

  lemma {:induction false} ExpiredForever(db: Db, ops: seq<Op>, id: JobId)
    requires IsRun(db, ops) && id in db.jobs && db.jobs[id].status == JobExpired
    ensures id in Final(db, ops).jobs && Final(db, ops).jobs[id] == db.jobs[id]
    decreases |ops|
  {
    if ops != [] {
      JobSteps(db, ops[0], id);
      ExpiredForever(Step(db, ops[0]), ops[1..], id);
    }
  }

  /** A completed job keeps its result until it expires: it is never claimed, failed,
      retried or completed again. */
  lemma {:induction false} CompletedForever(db: Db, ops: seq<Op>, id: JobId)
    requires IsRun(db, ops) && id in db.jobs && db.jobs[id].status == JobCompleted
    ensures id in Final(db, ops).jobs
    ensures Final(db, ops).jobs[id] == db.jobs[id] || Final(db, ops).jobs[id] == db.jobs[id].(status := JobExpired)
    decreases |ops|
  {
    if ops != [] {
      JobSteps(db, ops[0], id);
      if Step(db, ops[0]).jobs[id].status == JobExpired {
        ExpiredForever(Step(db, ops[0]), ops[1..], id);
      } else {
        CompletedForever(Step(db, ops[0]), ops[1..], id);
      }
    }
  }

  /** The run neither restarts the service nor retries job `id`. */
  predicate NoSecondChance(ops: seq<Op>, id: JobId) {
    forall i :: 0 <= i < |ops| ==> !ops[i].OpRequeueJobs? && !(ops[i].OpRetryJob? && ops[i].job == id)
  }

  /** A job is handed out once: after a claim it is not queued again, and a second claim
      gets nothing, until a restart or the owner's retry. */
  lemma {:induction false} ClaimedOnce(db: Db, ops: seq<Op>, id: JobId)
    requires IsRun(db, ops) && id in db.jobs && db.jobs[id].status != Queued && NoSecondChance(ops, id)
    ensures id in Final(db, ops).jobs && Final(db, ops).jobs[id].status != Queued
    ensures ClaimJob(Final(db, ops), id) == Final(db, ops)
    decreases |ops|
  {
    if ops != [] {
      assert !ops[0].OpRequeueJobs? && !(ops[0].OpRetryJob? && ops[0].job == id);
      JobSteps(db, ops[0], id);
      assert forall i :: 0 <= i < |ops[1..]| ==> ops[1..][i] == ops[i + 1];
      ClaimedOnce(Step(db, ops[0]), ops[1..], id);
    }
  }

  /** A failure undone: the owner's retry puts the job back where a claim finds it; a
      stranger's retry, or one without a failure, is refused. */
  lemma RetryAfterFail(db: Db, ws: WsId, user: UserId, id: JobId)
    requires JobIs(db, id, Running)
    ensures var failed := FailJob(db, id);
            && RetryJob(db, ws, user, id).Failed?
            && (RetryJob(failed, ws, user, id).Done? <==> db.jobs[id].ws == ws && db.jobs[id].createdBy == user)
            && (RetryJob(failed, ws, user, id).Done? ==>
                  ClaimJob(RetryJob(failed, ws, user, id).db, id) ==
                  db.(jobs := db.jobs[id := db.jobs[id].(expiresAt := None)]))
  {
    var failed := FailJob(db, id);
    if RetryJob(failed, ws, user, id).Done? {
      var again := ClaimJob(RetryJob(failed, ws, user, id).db, id);
      assert again.jobs == db.jobs[id := db.jobs[id].(expiresAt := None)];
    }
  }

  /** After a restart nothing is running, what was running can be claimed, and no job
      became live or ceased to be. */
  lemma RestartRequeues(db: Db, id: JobId, now: Time)
    requires id in db.jobs
    ensures var after := RequeueJobs(db);
            && id in after.jobs && after.jobs[id].status != Running
            && (JobIs(after, id, Queued) <==> JobIs(db, id, Queued) || JobIs(db, id, Running))
            && (JobLive(after.jobs[id], now) <==> JobLive(db.jobs[id], now))
            && RequeueJobs(after) == after
  {
  }

  /** After the expiry sweep the status tells whether a job still holds objects. */
  lemma SweepMakesStatusLiveness(db: Db, id: JobId, now: Time)
    requires id in db.jobs
    ensures var after := ExpireJobs(db, now);
            && id in after.jobs && (JobLive(after.jobs[id], now) <==> after.jobs[id].status != JobExpired)
            && (JobLive(after.jobs[id], now) <==> JobLive(db.jobs[id], now))
  {
  }

  // ----- jobs and the purge -----------------------------------------------------------

  /** A live new job keeps every subtree that holds one of its files. */
  lemma JobRetains(db: Db, id: JobId, j: Job, items: map<ItemId, JobItem>, root: NodeId, now: Time, i: ItemId)
    requires Guard(db, OpCreateJob(id, j, items)) && JobLive(j, now)
    requires i in items && items[i].node in Scope(db.nodes, j.ws, root)
    ensures PurgeRoot(CreateJob(db, id, j, items), j.ws, root, now) == CreateJob(db, id, j, items)
  {
    var db' := CreateJob(db, id, j, items);
    assert i in LiveJobItemsOn(db', j.ws, Scope(db.nodes, j.ws, root), now);
  }

  /** The purge takes jobs whole: a job of the workspace with an item on a purged node
      loses all items and expires, every other job keeps its row and all items. */
  lemma PurgeTakesWholeJobs(jobs: map<JobId, Job>, items: map<ItemId, JobItem>, ws: WsId, ns: set<NodeId>, id: JobId)
    requires id in jobs
    ensures var js := JobsOn(jobs, items, ws, ns);
            var hit := jobs[id].ws == ws && exists i :: i in items && items[i].job == id && items[i].node in ns;
            && (hit ==> WithExpired(jobs, js)[id].status == JobExpired
                        && forall i :: i in KeptJobItems(items, js) ==> items[i].job != id)
            && (!hit ==> WithExpired(jobs, js)[id] == jobs[id]
                         && forall i :: i in items && items[i].job == id ==> i in KeptJobItems(items, js))
  {
    var js := JobsOn(jobs, items, ws, ns);
    if i :| i in items && items[i].job == id && items[i].node in ns && jobs[id].ws == ws {
      assert id in js;
    }
  }
}
