/** Whole runs: the transactions as one alphabet, the guards their callers
    establish, and the invariants every reachable state satisfies. */
module Runs {
  import opened Common
  import opened Forest
  import opened Chunks
  import opened Tables
  import opened NodeSteps
  import opened UploadSteps
  import opened ObjectSteps

  datatype Op =
    | OpCreateNode(n: Node)
    | OpMove(ws: WsId, id: NodeId, actor: UserId, q: Option<NodeId>)
    | OpTrash(ws: WsId, id: NodeId, actor: UserId, now: Time)
    | OpRestore(ws: WsId, id: NodeId, actor: UserId)
    | OpPurge(cutoff: Time, now: Time, order: seq<NodeId>)
    | OpCreateSession(sid: SessionId, s: Session)
    | OpExpireSession(sid: SessionId, ws: WsId, user: UserId)
    | OpCancel(sid: SessionId, ws: WsId, user: UserId)
    | OpMarkPart(sid: SessionId, ws: WsId, user: UserId, part: int)
    | OpExpireSessions(now: Time)
    | OpFinalize(sid: SessionId, ws: WsId, user: UserId, v: FileVersion, n: Node)
    | OpUpdateQuota(ws: WsId, quota: Option<int>)
    | OpUpdateMemberQuota(ws: WsId, user: UserId, quota: Option<int>)
    | OpUpsertMember(ws: WsId, user: UserId, role: Role, quota: Option<int>)
    | OpRemoveMember(ws: WsId, user: UserId)
    | OpCreateWorkspace(ws: WsId, owner: UserId, quota: Option<int>)
    | OpRestoreVersion(ws: WsId, id: NodeId, no: int, actor: UserId, now: Time)
    | OpTouchKey(key: StorageKey, now: Time)
    | OpCreateShare(share: ShareId, sh: Share, shItems: map<ItemId, ShareItem>)
    | OpRevokeShare(ws: WsId, share: ShareId)
    | OpExpireShares(now: Time)
    | OpClaimDownload(share: ShareId, item: Option<ItemId>, now: Time)
    | OpCreateJob(job: JobId, jb: Job, jbItems: map<ItemId, JobItem>)
    | OpClaimJob(job: JobId)
    | OpCompleteJob(job: JobId, expiresAt: Time)
    | OpFailJob(job: JobId)
    | OpRetryJob(ws: WsId, user: UserId, job: JobId)
    | OpRequeueJobs
    | OpExpireJobs(now: Time)
    | OpCompleteArchive(ws: WsId, key: StorageKey, cutoff: Time)

  predicate IsNodeOp(op: Op) {
    op.OpCreateNode? || op.OpMove? || op.OpTrash? || op.OpRestore? || op.OpPurge?
  }

  predicate IsSessionOp(op: Op) {
    || op.OpCreateSession? || op.OpExpireSession? || op.OpCancel? || op.OpMarkPart? || op.OpExpireSessions?
    || op.OpFinalize?
  }

  predicate IsQuotaOp(op: Op) {
    || op.OpUpdateQuota? || op.OpUpdateMemberQuota? || op.OpUpsertMember? || op.OpRemoveMember?
    || op.OpCreateWorkspace?
  }

  predicate IsShareOp(op: Op) {
    op.OpRevokeShare? || op.OpExpireShares? || op.OpClaimDownload?
  }

  predicate IsJobOp(op: Op) {
    || op.OpClaimJob? || op.OpCompleteJob? || op.OpFailJob? || op.OpRetryJob? || op.OpRequeueJobs?
    || op.OpExpireJobs?
  }

  predicate IsObjectOp(op: Op) {
    op.OpRestoreVersion? || op.OpTouchKey? || op.OpCreateShare? || op.OpCreateJob? || op.OpCompleteArchive?
  }

  ghost function ExecNode(db: Db, op: Op): Outcome
    requires IsNodeOp(op)
  {
    match op
    case OpCreateNode(n) => CreateNode(db, n)
    case OpMove(ws, id, actor, q) => Move(db, ws, id, actor, q)
    case OpTrash(ws, id, actor, now) => TrashSubtree(db, ws, id, actor, now)
    case OpRestore(ws, id, actor) => RestoreSubtree(db, ws, id, actor)
    case OpPurge(cutoff, now, order) => Done(PurgeRoots(db, db.nodes, order, now))
  }

  ghost function ExecSession(db: Db, op: Op): Outcome
    requires IsSessionOp(op)
  {
    match op
    case OpCreateSession(sid, s) => CreateSession(db, sid, s)
    case OpExpireSession(sid, ws, user) => ExpireSession(db, sid, ws, user)
    case OpCancel(sid, ws, user) => Cancel(db, sid, ws, user)
    case OpMarkPart(sid, ws, user, part) => MarkPart(db, sid, ws, user, part)
    case OpExpireSessions(now) => Done(ExpireSessions(db, now))
    case OpFinalize(sid, ws, user, v, n) => FinalizeSession(db, sid, ws, user, v, n)
  }

  function ExecQuota(db: Db, op: Op): Outcome
    requires IsQuotaOp(op)
  {
    match op
    case OpUpdateQuota(ws, quota) => UpdateQuota(db, ws, quota)
    case OpUpdateMemberQuota(ws, user, quota) => UpdateMemberQuota(db, ws, user, quota)
    case OpUpsertMember(ws, user, role, quota) => UpsertMember(db, ws, user, role, quota)
    case OpRemoveMember(ws, user) => RemoveMember(db, ws, user)
    case OpCreateWorkspace(ws, owner, quota) => CreateWorkspace(db, ws, owner, quota)
  }

  function ExecShare(db: Db, op: Op): Outcome
    requires IsShareOp(op)
  {
    match op
    case OpRevokeShare(ws, id) => RevokeShare(db, ws, id)
    case OpExpireShares(now) => Done(ExpireShares(db, now))
    case OpClaimDownload(id, item, now) => ClaimDownload(db, id, item, now)
  }

  function ExecJob(db: Db, op: Op): Outcome
    requires IsJobOp(op)
  {
    match op
    case OpClaimJob(id) => Done(ClaimJob(db, id))
    case OpCompleteJob(id, expiresAt) => CompleteJob(db, id, expiresAt)
    case OpFailJob(id) => Done(FailJob(db, id))
    case OpRetryJob(ws, user, id) => RetryJob(db, ws, user, id)
    case OpRequeueJobs => Done(RequeueJobs(db))
    case OpExpireJobs(now) => Done(ExpireJobs(db, now))
  }

  ghost function ExecObject(db: Db, op: Op): Outcome
    requires IsObjectOp(op)
  {
    match op
    case OpRestoreVersion(ws, id, no, actor, now) => RestoreVersion(db, ws, id, no, actor, now)
    case OpTouchKey(key, now) => Done(TouchKey(db, key, now))
    case OpCreateShare(id, s, items) => Done(CreateShare(db, id, s, items))
    case OpCreateJob(id, j, items) => Done(CreateJob(db, id, j, items))
    case OpCompleteArchive(ws, key, cutoff) => CompleteArchive(db, ws, key, cutoff)
  }

  ghost function Exec(db: Db, op: Op): Outcome {
    if IsNodeOp(op) then ExecNode(db, op)
    else if IsSessionOp(op) then ExecSession(db, op)
    else if IsQuotaOp(op) then ExecQuota(db, op)
    else if IsShareOp(op) then ExecShare(db, op)
    else if IsJobOp(op) then ExecJob(db, op)
    else ExecObject(db, op)
  }

  predicate ParentInPlace(db: Db, ws: WsId, q: Option<NodeId>) {
    q.Some? ==> q.value in db.nodes && db.nodes[q.value].ws == ws
  }

  /** Some version of the workspace holds this object. */
  ghost predicate IsStored(db: Db, ws: WsId, key: StorageKey) {
    exists v :: v in db.versions && db.versions[v].ws == ws && db.versions[v].key == key
  }

  ghost predicate IsStoredAt(db: Db, ws: WsId, key: StorageKey, n: NodeId) {
    exists v :: v in db.versions && db.versions[v].ws == ws && db.versions[v].key == key && db.versions[v].node == n
  }

  /** What the handlers have checked, or the engine guarantees, when the
      transaction starts. */
  ghost predicate Guard(db: Db, op: Op) {
    match op
    case OpCreateNode(n) =>
      n.kind == Folder && n.activeVersion.None? && n.status == Active && n.trashedAt.None? && ParentInPlace(db, n.ws, n.parent)
    case OpPurge(cutoff, now, order) => ListsExpiredRoots(db.nodes, cutoff, order)
    case OpCreateSession(sid, s) =>
      && s.status == Initialized && s.received == Json([])
      && (if s.node.Some? then s.node.value in db.nodes else ParentInPlace(db, s.ws, s.target))
    case OpMarkPart(sid, ws, user, part) =>
      sid in db.sessions ==> 0 <= part < db.sessions[sid].totalChunks
    case OpFinalize(sid, ws, user, v, n) =>
      && v.key !in db.origin && Standardish(v.class_)
      && (sid in db.sessions ==> n.parent == db.sessions[sid].target)
      && n.kind == File && n.status == Active && n.trashedAt.None?
    case OpCreateWorkspace(ws, owner, quota) =>
      ws !in db.workspaces && (quota.Some? ==> quota.value >= 0)
    case OpCreateShare(id, s, items) =>
      && id !in db.shares && items.Keys !! db.shareItems.Keys
      && (forall i :: i in items ==> items[i].share == id && IsStored(db, s.ws, items[i].key))
    case OpCreateJob(id, j, items) =>
      && id !in db.jobs && items.Keys !! db.jobItems.Keys
      && (forall i :: i in items ==> items[i].job == id && IsStoredAt(db, j.ws, items[i].key, items[i].node))
    case _ => true
  }

  ghost function Step(db: Db, op: Op): Db {
    Exec(db, op).After(db)
  }

  // ----- the invariants ---------------------------------------------------------

  /** The directory rows form a forest inside each workspace. */
  ghost predicate TreeOk(db: Db) {
    && IsForest(ParentsOf(db.nodes))
    && (forall n :: n in db.nodes && db.nodes[n].parent.Some? && db.nodes[n].parent.value in db.nodes ==>
          db.nodes[db.nodes[n].parent.value].ws == db.nodes[n].ws)
    && (forall n :: n in db.nodes ==> n < db.nextNode)
  }

  ghost predicate SessionOk(db: Db, s: Session) {
    && s.ws in db.workspaces
    && (s.node.None? ==> ParentInPlace(db, s.ws, s.target))
    && (s.node.Some? ==> s.node.value < db.nextNode)
    && s.received.Json? && StrictlyAscending(s.received.chunks)
    && (forall x :: x in s.received.chunks ==> 0 <= x < s.totalChunks)
  }

  ghost predicate SessionsOk(db: Db) {
    forall s :: s in db.sessions ==> SessionOk(db, db.sessions[s])
  }

  /** Reserved bytes are the sizes of the open sessions, and usage stays within
      a set quota. */
  ghost predicate QuotaOk(db: Db) {
    forall w :: w in db.workspaces ==>
      && db.workspaces[w].reserved == Sum(OpenSizes(db.sessions, w))
      && Fits(db.workspaces[w].quota, db.workspaces[w].used, db.workspaces[w].reserved, 0)
  }

  ghost predicate VersionRowOk(db: Db, v: VersionId)
    requires v in db.versions
  {
    var r := db.versions[v];
    v < db.nextVersion && r.no >= 1 && r.node in db.nodes && db.nodes[r.node].ws == r.ws && db.nodes[r.node].kind == File
  }

  /** The versions of a node are numbered 1..n and the highest is active. */
  ghost predicate NumberingOk(db: Db, n: NodeId)
    requires n in db.nodes
  {
    var ws := db.nodes[n].ws;
    var top := Latest(db.versions, ws, n);
    && (forall k :: 1 <= k <= top ==> k in Numbers(db.versions, ws, n))
    && (top == 0 ==> db.nodes[n].activeVersion == None)
    && (top > 0 ==> db.nodes[n].activeVersion.Some? && IsVersion(db, ws, n, top, db.nodes[n].activeVersion.value))
  }

  ghost predicate VersionsOk(db: Db) {
    && (forall v :: v in db.versions ==> VersionRowOk(db, v))
    && (forall v, w | v in db.versions && w in db.versions && db.versions[v].node == db.versions[w].node
          && db.versions[v].no == db.versions[w].no :: v == w)
    && (forall n :: n in db.nodes ==> NumberingOk(db, n))
  }

  /** Every reference to an object agrees with where its key was issued. */
  ghost predicate KeysOk(db: Db) {
    && (forall v :: v in db.versions ==>
          db.versions[v].key in db.origin
          && db.origin[db.versions[v].key] == Origin(db.versions[v].ws, db.versions[v].node))
    && (forall i :: i in db.shareItems ==>
          db.shareItems[i].share in db.shares && db.shareItems[i].key in db.origin
          && db.origin[db.shareItems[i].key].ws == db.shares[db.shareItems[i].share].ws)
    && (forall i :: i in db.jobItems ==>
          db.jobItems[i].job in db.jobs && db.jobItems[i].key in db.origin
          && db.origin[db.jobItems[i].key] == Origin(db.jobs[db.jobItems[i].job].ws, db.jobItems[i].node))
  }

  /** All versions over one object are in the same storage class. */
  ghost predicate ClassOk(db: Db) {
    forall v, w | v in db.versions && w in db.versions && db.versions[v].ws == db.versions[w].ws
      && db.versions[v].key == db.versions[w].key ::
      Standardish(db.versions[v].class_) == Standardish(db.versions[w].class_)
  }

  ghost predicate Inv(db: Db) {
    TreeOk(db) && SessionsOk(db) && QuotaOk(db) && VersionsOk(db) && KeysOk(db) && ClassOk(db)
  }

  // ----- runs -------------------------------------------------------------------

  /** A run: each transaction starts in the state its predecessors left. */
  ghost predicate IsRun(db: Db, ops: seq<Op>)
    decreases |ops|
  {
    ops != [] ==> Guard(db, ops[0]) && IsRun(Step(db, ops[0]), ops[1..])
  }

  ghost function Final(db: Db, ops: seq<Op>): Db
    decreases |ops|
  {
    if ops == [] then db else Final(Step(db, ops[0]), ops[1..])
  }

  /** Runs one after the other make a run. */
  lemma {:induction false} RunJoin(db: Db, first: seq<Op>, second: seq<Op>)
    requires IsRun(db, first) && IsRun(Final(db, first), second)
    ensures IsRun(db, first + second) && Final(db, first + second) == Final(Final(db, first), second)
    decreases |first|
  {
    if first == [] {
      assert first + second == second;
    } else {
      assert (first + second)[1..] == first[1..] + second;
      RunJoin(Step(db, first[0]), first[1..], second);
    }
  }

  lemma OneStep(db: Db, db': Db, op: Op)
    requires Guard(db, op) && Step(db, op) == db'
    ensures IsRun(db, [op]) && Final(db, [op]) == db'
  {
    assert [op][1..] == [];
  }
}
