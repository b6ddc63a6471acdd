/** The main safety theorem: every invariant holds in every reachable state. */
module Safety {
  import opened Common
  import opened Forest
  import opened Tables
  import opened ObjectSteps
  import opened Runs
  import opened NodeSafety
  import opened UploadSafety
  import opened ObjectSafety

  lemma NodeStepKeeps(db: Db, op: Op)
    requires Inv(db) && Guard(db, op)
    requires IsNodeOp(op)
    ensures Inv(ExecNode(db, op).After(db))
  {
    match op
    case OpCreateNode(n) => CreateNodeKeeps(db, n);
    case OpMove(ws, id, actor, q) => MoveKeeps(db, ws, id, actor, q);
    case OpTrash(ws, id, actor, now) => TrashKeeps(db, ws, id, actor, now);
    case OpRestore(ws, id, actor) => RestoreKeeps(db, ws, id, actor);
    case OpPurge(cutoff, now, order) => PurgeRootsKeep(db, db.nodes, order, now);
  }

  lemma SessionStepKeeps(db: Db, op: Op)
    requires Inv(db) && Guard(db, op)
    requires IsSessionOp(op)
    ensures Inv(ExecSession(db, op).After(db))
  {
    match op
    case OpCreateSession(sid, s) => CreateSessionKeeps(db, sid, s);
    case OpExpireSession(sid, ws, user) => ExpireOrCancelKeeps(db, sid, ws, user);
    case OpCancel(sid, ws, user) => ExpireOrCancelKeeps(db, sid, ws, user);
    case OpMarkPart(sid, ws, user, part) => MarkPartKeeps(db, sid, ws, user, part);
    case OpExpireSessions(now) => ExpireSessionsKeeps(db, now);
    case OpFinalize(sid, ws, user, v, n) => FinalizeKeeps(db, sid, ws, user, v, n);
  }

  lemma QuotaStepKeeps(db: Db, op: Op)
    requires Inv(db) && Guard(db, op)
    requires IsQuotaOp(op)
    ensures Inv(ExecQuota(db, op).After(db))
  {
    match op
    case OpUpdateQuota(ws, quota) => UpdateQuotaKeeps(db, ws, quota);
    case OpUpdateMemberQuota(ws, user, quota) => MemberStepsKeep(db, ws, user, PlainMember, quota);
    case OpUpsertMember(ws, user, role, quota) => MemberStepsKeep(db, ws, user, role, quota);
    case OpRemoveMember(ws, user) => MemberStepsKeep(db, ws, user, PlainMember, None);
    case OpCreateWorkspace(ws, owner, quota) => CreateWorkspaceKeeps(db, ws, owner, quota);
  }

  lemma ObjectStepKeeps(db: Db, op: Op)
    requires Inv(db) && Guard(db, op)
    requires IsObjectOp(op)
    ensures Inv(ExecObject(db, op).After(db))
  {
    match op
    case OpRestoreVersion(ws, id, no, actor, now) =>
      if RestoreVersion(db, ws, id, no, actor, now).Done? {
        RestoreVersionKeeps(db, ws, id, no, actor, now, RestoreVersion(db, ws, id, no, actor, now).db);
      }
    case OpTouchKey(key, now) => TouchKeyKeeps(db, key, now);
    case OpCreateShare(id, s, items) => CreateShareKeeps(db, id, s, items);
    case OpCreateJob(id, j, items) => CreateJobKeeps(db, id, j, items);
    case OpCompleteArchive(ws, key, cutoff) => CompleteArchiveKeeps(db, ws, key, cutoff);
  }

  lemma ShareShape(db: Db, op: Op)
    requires IsShareOp(op)
    ensures HoldersOnly(db, ExecShare(db, op).After(db))
  {
    match op
    case OpRevokeShare(ws, id) => RevokeShape(db, ws, id);
    case OpExpireShares(now) => ExpireSharesShape(db, now);
    case OpClaimDownload(id, item, now) => ClaimShape(db, id, item, now);
  }

  lemma JobOpShape(db: Db, op: Op)
    requires IsJobOp(op)
    ensures HoldersOnly(db, ExecJob(db, op).After(db))
  {
    match op
    case OpRequeueJobs => RequeueShape(db);
    case OpExpireJobs(now) => ExpireJobsShape(db, now);
    case OpRetryJob(ws, user, id) => RetryShape(db, ws, user, id);
    case OpClaimJob(id) => JobShape(db, id, 0);
    case OpCompleteJob(id, expiresAt) => JobShape(db, id, expiresAt);
    case OpFailJob(id) => JobShape(db, id, 0);
  }

  lemma ShareStepKeeps(db: Db, op: Op)
    requires Inv(db) && IsShareOp(op)
    ensures Inv(ExecShare(db, op).After(db))
  {
    ShareShape(db, op);
    HoldersKeep(db, ExecShare(db, op).After(db));
  }

  lemma JobStepKeeps(db: Db, op: Op)
    requires Inv(db) && IsJobOp(op)
    ensures Inv(ExecJob(db, op).After(db))
  {
    JobOpShape(db, op);
    HoldersKeep(db, ExecJob(db, op).After(db));
  }

  /** Every transaction, committed or rolled back, keeps every invariant. */
  lemma StepKeeps(db: Db, op: Op)
    requires Inv(db) && Guard(db, op)
    ensures Inv(Step(db, op))
  {
    if IsNodeOp(op) {
      NodeStepKeeps(db, op);
    } else if IsSessionOp(op) {
      SessionStepKeeps(db, op);
    } else if IsQuotaOp(op) {
      QuotaStepKeeps(db, op);
    } else if IsShareOp(op) {
      ShareStepKeeps(db, op);
    } else if IsJobOp(op) {
      JobStepKeeps(db, op);
    } else {
      ObjectStepKeeps(db, op);
    }
  }

  lemma EmptyIsSafe()
    ensures Inv(EMPTY)
  {
    RankedIsAcyclic(ParentsOf(EMPTY.nodes), map[]);
  }

  lemma {:induction false} RunKeeps(db: Db, ops: seq<Op>)
    requires Inv(db) && IsRun(db, ops)
    ensures Inv(Final(db, ops))
    decreases |ops|
  {
    if ops != [] {
      StepKeeps(db, ops[0]);
      RunKeeps(Step(db, ops[0]), ops[1..]);
    }
  }

  /** Every state reachable from the empty database is safe. */
  lemma EveryReachableStateIsSafe(ops: seq<Op>)
    requires IsRun(EMPTY, ops)
    ensures Inv(Final(EMPTY, ops))
  {
    EmptyIsSafe();
    RunKeeps(EMPTY, ops);
  }
}
