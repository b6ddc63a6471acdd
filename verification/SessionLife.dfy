/** A closed upload session never reopens and is never settled again. */
module SessionLife {
  import opened Common
  import opened Tables
  import opened NodeSteps
  import opened UploadSteps
  import opened ObjectSteps
  import opened Runs
  import opened UploadSafety
  import opened Safety

  /** Completed and expired rows are left alone, and no row but `created` is new. */
  ghost predicate ClosedStay(before: map<SessionId, Session>, after: map<SessionId, Session>, created: Option<SessionId>) {
    && (forall s :: s in before && s in after && !Open(before[s]) ==> after[s] == before[s])
    && (forall s :: s in after && s !in before ==> created == Some(s))
  }

  function CreatedBy(op: Op): Option<SessionId> {
    if op.OpCreateSession? then Some(op.sid) else None
  }

  ghost predicate Fewer(before: map<SessionId, Session>, after: map<SessionId, Session>) {
    forall s :: s in after ==> s in before && after[s] == before[s]
  }

  lemma {:induction false} PurgeDropsSessions(db: Db, snapshot: map<NodeId, Node>, order: seq<NodeId>, now: Time)
    ensures Fewer(db.sessions, PurgeRoots(db, snapshot, order, now).sessions)
    decreases |order|
  {
    if order != [] {
      var next := if order[0] in snapshot then PurgeRoot(db, snapshot[order[0]].ws, order[0], now) else db;
      PurgeDropsSessions(next, snapshot, order[1..], now);
    }
  }

  lemma NodeOpsStay(db: Db, op: Op)
    requires IsNodeOp(op)
    ensures ClosedStay(db.sessions, ExecNode(db, op).After(db).sessions, None)
  {
    if op.OpPurge? {
      PurgeDropsSessions(db, db.nodes, op.order, op.now);
    } else {
      assert ExecNode(db, op).After(db).sessions == db.sessions;
    }
  }

  lemma FinalizeStays(db: Db, sid: SessionId, ws: WsId, user: UserId, v: FileVersion, n: Node)
    ensures ClosedStay(db.sessions, FinalizeSession(db, sid, ws, user, v, n).After(db).sessions, None)
  {
    if FinalizeSession(db, sid, ws, user, v, n).Done? {
      FinalizeCases(db, sid, ws, user, v, n);
    }
  }

  lemma CreateStays(db: Db, sid: SessionId, s: Session)
    ensures ClosedStay(db.sessions, CreateSession(db, sid, s).After(db).sessions, Some(sid))
  {
  }

  lemma CloseStays(db: Db, sid: SessionId, ws: WsId, user: UserId)
    ensures ClosedStay(db.sessions, ExpireSession(db, sid, ws, user).After(db).sessions, None)
    ensures ClosedStay(db.sessions, Cancel(db, sid, ws, user).After(db).sessions, None)
  {
  }

  lemma MarkStays(db: Db, sid: SessionId, ws: WsId, user: UserId, part: int)
    ensures ClosedStay(db.sessions, MarkPart(db, sid, ws, user, part).After(db).sessions, None)
  {
  }

  lemma ExpireAllStays(db: Db, now: Time)
    ensures ClosedStay(db.sessions, ExpireSessions(db, now).sessions, None)
  {
  }

  lemma SessionOpsStay(db: Db, op: Op)
    requires IsSessionOp(op)
    ensures ClosedStay(db.sessions, ExecSession(db, op).After(db).sessions, CreatedBy(op))
  {
    match op
    case OpCreateSession(sid, s) => CreateStays(db, sid, s);
    case OpExpireSession(sid, ws, user) => CloseStays(db, sid, ws, user);
    case OpCancel(sid, ws, user) => CloseStays(db, sid, ws, user);
    case OpMarkPart(sid, ws, user, part) => MarkStays(db, sid, ws, user, part);
    case OpExpireSessions(now) => ExpireAllStays(db, now);
    case OpFinalize(sid, ws, user, v, n) => FinalizeStays(db, sid, ws, user, v, n);
  }

  lemma QuotasStay(db: Db, ws: WsId, user: UserId, quota: Option<int>)
    ensures UpdateQuota(db, ws, quota).After(db).sessions == db.sessions
    ensures UpdateMemberQuota(db, ws, user, quota).After(db).sessions == db.sessions
  {
  }

  lemma UpsertStays(db: Db, ws: WsId, user: UserId, role: Role, quota: Option<int>)
    ensures UpsertMember(db, ws, user, role, quota).After(db).sessions == db.sessions
  {
  }

  lemma RemoveStays(db: Db, ws: WsId, user: UserId)
    ensures RemoveMember(db, ws, user).After(db).sessions == db.sessions
  {
  }

  lemma QuotaOpsStay(db: Db, op: Op)
    requires IsQuotaOp(op)
    ensures ExecQuota(db, op).After(db).sessions == db.sessions
  {
    match op
    case OpUpdateQuota(ws, quota) => QuotasStay(db, ws, 0, quota);
    case OpUpdateMemberQuota(ws, user, quota) => QuotasStay(db, ws, user, quota);
    case OpUpsertMember(ws, user, role, quota) => UpsertStays(db, ws, user, role, quota);
    case OpRemoveMember(ws, user) => RemoveStays(db, ws, user);
    case OpCreateWorkspace(ws, owner, quota) =>
  }

  lemma RestoreVersionStays(db: Db, ws: WsId, id: NodeId, no: int, actor: UserId, now: Time)
    ensures RestoreVersion(db, ws, id, no, actor, now).After(db).sessions == db.sessions
  {
  }

  lemma ArchiveStays(db: Db, ws: WsId, key: StorageKey, cutoff: Time)
    ensures CompleteArchive(db, ws, key, cutoff).After(db).sessions == db.sessions
  {
  }

  lemma ObjectOpsStay(db: Db, op: Op)
    requires IsObjectOp(op)
    ensures ExecObject(db, op).After(db).sessions == db.sessions
  {
    if op.OpRestoreVersion? {
      RestoreVersionStays(db, op.ws, op.id, op.no, op.actor, op.now);
    } else if op.OpCompleteArchive? {
      ArchiveStays(db, op.ws, op.key, op.cutoff);
    }
  }

  lemma ShareOpsStay(db: Db, op: Op)
    requires IsShareOp(op)
    ensures ExecShare(db, op).After(db).sessions == db.sessions
  {
    ShareShape(db, op);
  }

  lemma JobOpsStay(db: Db, op: Op)
    requires IsJobOp(op)
    ensures ExecJob(db, op).After(db).sessions == db.sessions
  {
    JobOpShape(db, op);
  }

  /** Whatever transaction runs, a session that was completed or expired keeps its
      row or is purged: its reservation is settled once only. */
  lemma ClosedSessionsStay(db: Db, op: Op)
    ensures ClosedStay(db.sessions, Step(db, op).sessions, CreatedBy(op))
  {
    if IsNodeOp(op) {
      NodeOpsStay(db, op);
    } else if IsSessionOp(op) {
      SessionOpsStay(db, op);
    } else if IsQuotaOp(op) {
      QuotaOpsStay(db, op);
    } else if IsShareOp(op) {
      ShareOpsStay(db, op);
    } else if IsJobOp(op) {
      JobOpsStay(db, op);
    } else {
      ObjectOpsStay(db, op);
    }
  }

  // ----- over runs ------------------------------------------------------------------

  /** Session ids are random: no transaction of the run uses `sid` for another session. */
  predicate NotReused(ops: seq<Op>, sid: SessionId) {
    forall i :: 0 <= i < |ops| ==> CreatedBy(ops[i]) != Some(sid)
  }

  /** Once completed, expired or gone, a session is never settled again, whatever runs:
      a cancel and a finalize are refused, an expiry changes nothing. */
  lemma {:induction false} SettledOnce(
    db: Db, ops: seq<Op>, sid: SessionId, ws: WsId, user: UserId, v: FileVersion, n: Node)
    requires IsRun(db, ops) && NotReused(ops, sid) && (sid in db.sessions ==> !Open(db.sessions[sid]))
    ensures var end := Final(db, ops);
            && (sid in end.sessions ==> sid in db.sessions && end.sessions[sid] == db.sessions[sid])
            && Cancel(end, sid, ws, user).Failed? && FinalizeSession(end, sid, ws, user, v, n).Failed?
            && ExpireSession(end, sid, ws, user).After(end) == end
    decreases |ops|
  {
    if ops != [] {
      assert CreatedBy(ops[0]) != Some(sid);
      assert forall i :: 0 <= i < |ops[1..]| ==> ops[1..][i] == ops[i + 1];
      ClosedSessionsStay(db, ops[0]);
      SettledOnce(Step(db, ops[0]), ops[1..], sid, ws, user, v, n);
    }
  }

  // ----- what a reservation comes to ------------------------------------------------------

  /** Opening a session and cancelling it, or letting it expire, restores both quota rows. */
  lemma CreateThenCancel(db: Db, sid: SessionId, s: Session)
    requires Open(s) && CreateSession(db, sid, s).Done?
    ensures var begun := CreateSession(db, sid, s).db;
            && Cancel(begun, sid, s.ws, s.createdBy).Done?
            && ExpireSession(begun, sid, s.ws, s.createdBy) == Cancel(begun, sid, s.ws, s.createdBy)
            && Cancel(begun, sid, s.ws, s.createdBy).db == db.(sessions := db.sessions[sid := s.(status := Expired)])
  {
    var begun := CreateSession(db, sid, s).db;
    var closed := Closed(begun, sid);
    assert closed.workspaces == db.workspaces;
    assert closed.members == db.members;
    assert closed.sessions == db.sessions[sid := s.(status := Expired)];
  }

  /** In a valid state the release of an open session takes exactly its size off. */
  lemma ReleaseIsExact(db: Db, sid: SessionId)
    requires SessionsOk(db) && QuotaOk(db) && sid in db.sessions && Open(db.sessions[sid])
    ensures var s := db.sessions[sid];
            && s.ws in db.workspaces && s.size <= db.workspaces[s.ws].reserved
            && ReleaseRow(db.workspaces, s.ws, s.size) ==
               db.workspaces[s.ws := db.workspaces[s.ws].(reserved := db.workspaces[s.ws].reserved - s.size)]
  {
    ClampNeverFires(db, sid);
  }

  /** In a valid state a committed finalize moves exactly the session's size from reserved
      to used bytes of its workspace: their sum changes in no workspace. */
  lemma FinalizeConserves(db: Db, sid: SessionId, ws: WsId, user: UserId, v: FileVersion, n: Node, w: WsId)
    requires SessionsOk(db) && QuotaOk(db) && FinalizeSession(db, sid, ws, user, v, n).Done? && w in db.workspaces
    ensures var after := FinalizeSession(db, sid, ws, user, v, n).db.workspaces;
            && w in after && after[w].used + after[w].reserved == db.workspaces[w].used + db.workspaces[w].reserved
            && after[w].used == db.workspaces[w].used + if w == ws then db.sessions[sid].size else 0
  {
    FinalizeCases(db, sid, ws, user, v, n);
    ClampNeverFires(db, sid);
    FinalizeConsumes(db, sid, ws, user, v, n);
  }

  lemma FinalizeConsumes(db: Db, sid: SessionId, ws: WsId, user: UserId, v: FileVersion, n: Node)
    requires FinalizeSession(db, sid, ws, user, v, n).Done?
    ensures FinalizeSession(db, sid, ws, user, v, n).db.workspaces == ConsumeRow(db.workspaces, ws, db.sessions[sid].size)
    ensures FinalizeSession(db, sid, ws, user, v, n).db.members ==
            ConsumeRowBy(db.members, MemberKey(ws, user), db.sessions[sid].size)
  {
    FinalizeCases(db, sid, ws, user, v, n);
    if db.sessions[sid].node.Some? {
      OverwriteConsumes(db, sid, ws, user, v);
    } else {
      NewFileConsumes(db, sid, ws, user, v, n);
    }
  }

  lemma OverwriteConsumes(db: Db, sid: SessionId, ws: WsId, user: UserId, v: FileVersion)
    requires sid in db.sessions && db.sessions[sid].node.Some? && Overwrite(db, sid, ws, user, v).Done?
    ensures Overwrite(db, sid, ws, user, v).db.workspaces == ConsumeRow(db.workspaces, ws, db.sessions[sid].size)
    ensures Overwrite(db, sid, ws, user, v).db.members == ConsumeRowBy(db.members, MemberKey(ws, user), db.sessions[sid].size)
  {
  }

  lemma NewFileConsumes(db: Db, sid: SessionId, ws: WsId, user: UserId, v: FileVersion, n: Node)
    requires sid in db.sessions
    ensures NewFile(db, sid, ws, user, v, n).workspaces == ConsumeRow(db.workspaces, ws, db.sessions[sid].size)
    ensures NewFile(db, sid, ws, user, v, n).members == ConsumeRowBy(db.members, MemberKey(ws, user), db.sessions[sid].size)
  {
  }

  // ----- what a quota comes to -----------------------------------------------------------

  /** Both quotas of a user are set anew, or kept where the new one is refused. Each is
      accepted exactly when it covers what is used and reserved, and then the next session
      opens exactly when it fits under the quota of the workspace and, for a member, under
      his own. */
  lemma QuotasGovern(
    db: Db, ws: WsId, user: UserId, wq: Option<int>, mq: Option<int>, sid: SessionId, s: Session)
    requires ws in db.workspaces && s.ws == ws && s.createdBy == user && sid !in db.sessions
    ensures var w, k := db.workspaces[ws], MemberKey(ws, user);
            var first := UpdateQuota(db, ws, wq);
            var second := UpdateMemberQuota(first.After(db), ws, user, mq);
            && (first.Done? <==> wq.None? || wq.value >= w.used + w.reserved)
            && (second.Done? <==> k in db.members && (mq.None? || mq.value >= db.members[k].used + db.members[k].reserved))
            && (CreateSession(second.After(first.After(db)), sid, s).Done? <==>
                  && Fits(if first.Done? then wq else w.quota, w.used, w.reserved, s.size)
                  && (k in db.members ==>
                        Fits(if second.Done? then mq else db.members[k].quota,
                               db.members[k].used, db.members[k].reserved, s.size)))
  {
    WorkspaceQuotaSet(db, ws, wq);
    MemberQuotaSet(UpdateQuota(db, ws, wq).After(db), ws, user, mq);
    OpensWhenItFits(UpdateMemberQuota(UpdateQuota(db, ws, wq).After(db), ws, user, mq)
                      .After(UpdateQuota(db, ws, wq).After(db)), sid, s);
  }

  lemma WorkspaceQuotaSet(db: Db, ws: WsId, quota: Option<int>)
    requires ws in db.workspaces
    ensures var w, o := db.workspaces[ws], UpdateQuota(db, ws, quota);
            && (o.Done? <==> quota.None? || quota.value >= w.used + w.reserved)
            && ws in o.After(db).workspaces
            && o.After(db).workspaces[ws] == w.(quota := if o.Done? then quota else w.quota)
            && o.After(db).members == db.members && o.After(db).sessions == db.sessions
  {
  }

  lemma MemberQuotaSet(db: Db, ws: WsId, user: UserId, quota: Option<int>)
    ensures var k, o := MemberKey(ws, user), UpdateMemberQuota(db, ws, user, quota);
            && (o.Done? <==> k in db.members && (quota.None? || quota.value >= db.members[k].used + db.members[k].reserved))
            && (k in o.After(db).members <==> k in db.members)
            && (k in db.members ==>
                  o.After(db).members[k] == db.members[k].(quota := if o.Done? then quota else db.members[k].quota))
            && o.After(db).workspaces == db.workspaces && o.After(db).sessions == db.sessions
  {
  }

  lemma OpensWhenItFits(db: Db, sid: SessionId, s: Session)
    requires s.ws in db.workspaces && sid !in db.sessions
    ensures var w, k := db.workspaces[s.ws], MemberKey(s.ws, s.createdBy);
            CreateSession(db, sid, s).Done? <==>
              && Fits(w.quota, w.used, w.reserved, s.size)
              && (k in db.members ==> Fits(db.members[k].quota, db.members[k].used, db.members[k].reserved, s.size))
  {
  }
}
