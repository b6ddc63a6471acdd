/** Membership over whole runs: a workspace keeps an administrator, and what makes a
    member exceed his quota. */
module MemberSafety {
  import opened Common
  import opened Tables
  import opened NodeSteps
  import opened UploadSteps
  import opened ObjectSteps
  import opened Runs
  import opened UploadSafety
  import opened Safety
  import opened SessionLife
  import opened LateUpload
  import opened Chunks

  // ----- what a step does to member rows ------------------------------------------------

  /** The same members in the same roles with the same quotas, none charged more. */
  ghost predicate NoneCharged(before: map<MemberKey, Member>, after: map<MemberKey, Member>) {
    && after.Keys == before.Keys
    && forall k :: k in before ==>
         && after[k].role == before[k].role && after[k].quota == before[k].quota
         && after[k].used + after[k].reserved <= before[k].used + before[k].reserved
  }

  lemma ReleasesCharge(rows: map<MemberKey, Member>, ws: WsId, closing: map<SessionId, Session>,
                       dropped: map<VersionId, FileVersion>)
    ensures NoneCharged(rows, LessReservedBy(rows, closing))
    ensures NoneCharged(rows, LessUsedBy(LessReservedBy(rows, closing), ws, dropped))
  {
  }

  lemma PurgeRootCharges(db: Db, ws: WsId, root: NodeId, now: Time)
    ensures NoneCharged(db.members, PurgeRoot(db, ws, root, now).members)
  {
    var ns := Scope(db.nodes, ws, root);
    ReleasesCharge(db.members, ws, Pick(db.sessions, SessionsOn(db.sessions, ws, ns)),
                   Pick(db.versions, VersionsOn(db.versions, ws, ns)));
  }

  lemma {:induction false} PurgeCharges(db: Db, snapshot: map<NodeId, Node>, order: seq<NodeId>, now: Time)
    ensures NoneCharged(db.members, PurgeRoots(db, snapshot, order, now).members)
    decreases |order|
  {
    if order != [] {
      var next := if order[0] in snapshot then PurgeRoot(db, snapshot[order[0]].ws, order[0], now) else db;
      if order[0] in snapshot {
        PurgeRootCharges(db, snapshot[order[0]].ws, order[0], now);
      }
      PurgeCharges(next, snapshot, order[1..], now);
    }
  }

  lemma NodeCharges(db: Db, op: Op)
    requires IsNodeOp(op)
    ensures NoneCharged(db.members, Step(db, op).members)
  {
    if op.OpPurge? {
      PurgeCharges(db, db.nodes, op.order, op.now);
    } else {
      assert ExecNode(db, op).After(db).members == db.members;
    }
  }

  lemma ObjectMembers(db: Db, op: Op)
    requires IsObjectOp(op)
    ensures ExecObject(db, op).After(db).members == db.members
  {
    match op
    case OpRestoreVersion(ws, id, no, actor, now) => RestoreMembers(db, ws, id, no, actor, now);
    case OpCompleteArchive(ws, key, cutoff) => ArchiveMembers(db, ws, key, cutoff);
    case _ =>
  }

  lemma ObjectStepMembers(db: Db, op: Op)
    requires IsObjectOp(op)
    ensures Step(db, op).members == db.members
  {
    ObjectMembers(db, op);
  }

  lemma RestoreMembers(db: Db, ws: WsId, id: NodeId, no: int, actor: UserId, now: Time)
    ensures RestoreVersion(db, ws, id, no, actor, now).After(db).members == db.members
  {
  }

  lemma ArchiveMembers(db: Db, ws: WsId, key: StorageKey, cutoff: Time)
    ensures CompleteArchive(db, ws, key, cutoff).After(db).members == db.members
  {
  }

  lemma HolderMembers(db: Db, op: Op)
    requires IsShareOp(op) || IsJobOp(op)
    ensures Step(db, op).members == db.members
  {
    if IsShareOp(op) {
      ShareShape(db, op);
    } else {
      JobOpShape(db, op);
    }
  }

  lemma CloseCharges(db: Db, sid: SessionId, ws: WsId, user: UserId)
    ensures NoneCharged(db.members, ExpireSession(db, sid, ws, user).After(db).members)
    ensures NoneCharged(db.members, Cancel(db, sid, ws, user).After(db).members)
  {
  }

  lemma QuietSessionCharges(db: Db, op: Op)
    requires IsSessionOp(op) && !op.OpCreateSession? && !op.OpFinalize?
    ensures NoneCharged(db.members, Step(db, op).members)
  {
    match op
    case OpExpireSession(sid, ws, user) => CloseCharges(db, sid, ws, user);
    case OpCancel(sid, ws, user) => CloseCharges(db, sid, ws, user);
    case OpMarkPart(sid, ws, user, part) => MarkMembers(db, sid, ws, user, part);
    case OpExpireSessions(now) => ReleasesCharge(db.members, 0, Pick(db.sessions, StaleSessions(db.sessions, now)), map[]);
  }

  lemma MarkMembers(db: Db, sid: SessionId, ws: WsId, user: UserId, part: int)
    ensures MarkPart(db, sid, ws, user, part).After(db).members == db.members
  {
  }

  /** A transaction that neither charges a member nor writes a membership. */
  predicate IsChargeless(op: Op) {
    !op.OpCreateSession? && !op.OpFinalize? && !op.OpUpdateMemberQuota? && !op.OpUpsertMember? && !op.OpRemoveMember?
    && !op.OpCreateWorkspace?
  }

  lemma ChargelessSteps(db: Db, op: Op)
    requires IsChargeless(op)
    ensures NoneCharged(db.members, Step(db, op).members)
  {
    if IsNodeOp(op) {
      NodeCharges(db, op);
    } else if IsSessionOp(op) {
      QuietSessionCharges(db, op);
    } else if IsQuotaOp(op) {
      WorkspaceMembers(db, op);
    } else if IsShareOp(op) || IsJobOp(op) {
      HolderMembers(db, op);
    } else {
      ObjectStepMembers(db, op);
    }
  }

  lemma WorkspaceMembers(db: Db, op: Op)
    requires op.OpUpdateQuota?
    ensures Step(db, op).members == db.members
  {
  }

  // ----- administrators -----------------------------------------------------------------

  /** The same members in the same roles. */
  ghost predicate SameRoles(before: map<MemberKey, Member>, after: map<MemberKey, Member>) {
    after.Keys == before.Keys && forall k :: k in before ==> after[k].role == before[k].role
  }

  lemma SameAdmins(db: Db, db': Db, ws: WsId)
    requires SameRoles(db.members, db'.members)
    ensures Admins(db', ws) == Admins(db, ws)
  {
  }

  lemma ChargesKeepRoles(db: Db, op: Op)
    requires op.OpCreateSession? || op.OpFinalize? || op.OpUpdateMemberQuota?
    ensures SameRoles(db.members, Step(db, op).members)
  {
    if op.OpFinalize? {
      if FinalizeSession(db, op.sid, op.ws, op.user, op.v, op.n).Done? {
        FinalizeConsumes(db, op.sid, op.ws, op.user, op.v, op.n);
      }
    } else if op.OpCreateSession? {
      CreateRoles(db, op.sid, op.s);
    } else {
      QuotaRoles(db, op.ws, op.user, op.quota);
    }
  }

  lemma CreateRoles(db: Db, sid: SessionId, s: Session)
    ensures SameRoles(db.members, CreateSession(db, sid, s).After(db).members)
  {
  }

  lemma QuotaRoles(db: Db, ws: WsId, user: UserId, quota: Option<int>)
    ensures SameRoles(db.members, UpdateMemberQuota(db, ws, user, quota).After(db).members)
  {
  }

  lemma OnlyOne(admins: set<MemberKey>, k: MemberKey)
    requires k in admins
    ensures admins == {k} <==> |admins| <= 1
  {
    assert |admins - {k}| == |admins| - 1;
    assert admins == admins - {k} + {k};
    assert |admins - {k}| == 0 <==> admins - {k} == {};
  }

  /** A member leaves, or steps down, exactly when another administrator remains or he was
      none; the refusal names the reason. */
  lemma LastAdminStays(db: Db, ws: WsId, user: UserId)
    requires MemberKey(ws, user) in Admins(db, ws) && ws in db.workspaces
    ensures RemoveMember(db, ws, user) == Failed(LastAdmin) <==> Admins(db, ws) == {MemberKey(ws, user)}
    ensures UpsertMember(db, ws, user, PlainMember, None) == Failed(LastAdmin) <==> Admins(db, ws) == {MemberKey(ws, user)}
  {
    OnlyOne(Admins(db, ws), MemberKey(ws, user));
  }

  /** What an upsert writes: nothing, or one row that fits its own quota and does not take
      the role from the last administrator. */
  ghost predicate Written(db: Db, after: map<MemberKey, Member>, k: MemberKey) {
    || after == db.members
    || (&& k in after && after == db.members[k := after[k]]
        && Fits(after[k].quota, after[k].used, after[k].reserved, 0)
        && (k in Admins(db, k.ws) && after[k].role != WorkspaceAdmin ==> |Admins(db, k.ws)| > 1))
  }

  lemma UpsertWrites(db: Db, ws: WsId, user: UserId, role: Role, quota: Option<int>)
    ensures Written(db, UpsertMember(db, ws, user, role, quota).After(db).members, MemberKey(ws, user))
  {
    var k := MemberKey(ws, user);
    if UpsertMember(db, ws, user, role, quota).Done? {
      if k in db.members {
        UpsertOld(db, ws, user, role, quota);
      } else {
        UpsertNew(db, ws, user, role, quota);
      }
    }
  }

  lemma UpsertNew(db: Db, ws: WsId, user: UserId, role: Role, quota: Option<int>)
    requires MemberKey(ws, user) !in db.members && UpsertMember(db, ws, user, role, quota).Done?
    ensures UpsertMember(db, ws, user, role, quota).db.members ==
            db.members[MemberKey(ws, user) := Member(role, quota, 0, 0)]
    ensures Fits(quota, 0, 0, 0)
  {
  }

  lemma UpsertOld(db: Db, ws: WsId, user: UserId, role: Role, quota: Option<int>)
    requires MemberKey(ws, user) in db.members && UpsertMember(db, ws, user, role, quota).Done?
    ensures var k := MemberKey(ws, user);
            var m := db.members[k];
            && UpsertMember(db, ws, user, role, quota).db.members == db.members[k := m.(role := role, quota := quota)]
            && Fits(quota, m.used, m.reserved, 0)
            && (m.role == WorkspaceAdmin && role != WorkspaceAdmin ==> |Admins(db, ws)| > 1)
  {
  }

  lemma QuotaWrites(db: Db, ws: WsId, user: UserId, quota: Option<int>)
    ensures Written(db, UpdateMemberQuota(db, ws, user, quota).After(db).members, MemberKey(ws, user))
  {
  }

  lemma WriteLeavesAdmin(db: Db, db': Db, k: MemberKey, w: WsId)
    requires Admins(db, w) != {} && Written(db, db'.members, k)
    ensures Admins(db', w) != {}
  {
    if k in Admins(db, w) && k in Admins(db', w) {
    } else if k in Admins(db, w) {
      AnotherAdmin(db, db', k, w);
    } else {
      var a :| a in Admins(db, w);
      assert a in Admins(db', w);
    }
  }

  lemma AnotherAdmin(db: Db, db': Db, k: MemberKey, w: WsId)
    requires k in Admins(db, w) && |Admins(db, w)| > 1
    requires forall a :: a in Admins(db, w) && a != k ==> a in Admins(db', w)
    ensures Admins(db', w) != {}
  {
    OnlyOne(Admins(db, w), k);
    assert Admins(db, w) - {k} != {} by {
      assert Admins(db, w) == Admins(db, w) - {k} + {k};
    }
    var a :| a in Admins(db, w) - {k};
  }

  lemma RemoveLeavesAdmin(db: Db, ws: WsId, user: UserId, w: WsId)
    requires Admins(db, w) != {}
    ensures Admins(RemoveMember(db, ws, user).After(db), w) != {}
  {
    var o, k := RemoveMember(db, ws, user), MemberKey(ws, user);
    if o.Done? {
      RemoveRow(db, ws, user);
      if k in Admins(db, w) {
        AnotherAdmin(db, o.db, k, w);
      } else {
        var a :| a in Admins(db, w);
        assert a in Admins(o.db, w);
      }
    }
  }

  lemma RemoveRow(db: Db, ws: WsId, user: UserId)
    requires RemoveMember(db, ws, user).Done?
    ensures RemoveMember(db, ws, user).db.members == db.members - {MemberKey(ws, user)}
    ensures MemberKey(ws, user) in Admins(db, ws) ==> |Admins(db, ws)| > 1
  {
  }

  lemma CreateWrites(db: Db, ws: WsId, owner: UserId, quota: Option<int>)
    ensures Written(db, CreateWorkspace(db, ws, owner, quota).After(db).members, MemberKey(ws, owner))
  {
  }

  lemma StepLeavesAdmin(db: Db, op: Op, w: WsId)
    requires Admins(db, w) != {}
    ensures Admins(Step(db, op), w) != {}
  {
    if op.OpUpsertMember? {
      UpsertWrites(db, op.ws, op.user, op.role, op.quota);
      WriteLeavesAdmin(db, Step(db, op), MemberKey(op.ws, op.user), w);
    } else if op.OpRemoveMember? {
      RemoveLeavesAdmin(db, op.ws, op.user, w);
    } else if op.OpCreateWorkspace? {
      CreateWrites(db, op.ws, op.owner, op.quota);
      WriteLeavesAdmin(db, Step(db, op), MemberKey(op.ws, op.owner), w);
    } else {
      if IsChargeless(op) {
        ChargelessSteps(db, op);
      } else {
        ChargesKeepRoles(db, op);
      }
      SameAdmins(db, Step(db, op), w);
    }
  }

  /** A workspace that has an administrator has one after any run of any transactions. */
  lemma {:induction false} AdminsRemain(db: Db, ops: seq<Op>, w: WsId)
    requires Admins(db, w) != {}
    ensures Admins(Final(db, ops), w) != {}
    decreases |ops|
  {
    if ops != [] {
      StepLeavesAdmin(db, ops[0], w);
      AdminsRemain(Step(db, ops[0]), ops[1..], w);
    }
  }

  // ----- every workspace has an administrator -----------------------------------------------

  lemma PurgeRootWorkspaces(db: Db, ws: WsId, root: NodeId, now: Time)
    ensures PurgeRoot(db, ws, root, now).workspaces.Keys == db.workspaces.Keys
  {
  }

  lemma {:induction false} PurgeWorkspaces(db: Db, snapshot: map<NodeId, Node>, order: seq<NodeId>, now: Time)
    ensures PurgeRoots(db, snapshot, order, now).workspaces.Keys == db.workspaces.Keys
    decreases |order|
  {
    if order != [] {
      var next := if order[0] in snapshot then PurgeRoot(db, snapshot[order[0]].ws, order[0], now) else db;
      if order[0] in snapshot {
        PurgeRootWorkspaces(db, snapshot[order[0]].ws, order[0], now);
      }
      PurgeWorkspaces(next, snapshot, order[1..], now);
    }
  }

  lemma NodeWorkspaces(db: Db, op: Op)
    requires IsNodeOp(op)
    ensures Step(db, op).workspaces.Keys == db.workspaces.Keys
  {
    if op.OpPurge? {
      PurgeWorkspaces(db, db.nodes, op.order, op.now);
    } else {
      assert ExecNode(db, op).After(db).workspaces == db.workspaces;
    }
  }

  lemma CreateSessionWorkspaces(db: Db, sid: SessionId, s: Session)
    ensures CreateSession(db, sid, s).After(db).workspaces.Keys == db.workspaces.Keys
  {
  }

  lemma CloseWorkspaces(db: Db, sid: SessionId, ws: WsId, user: UserId)
    ensures ExpireSession(db, sid, ws, user).After(db).workspaces.Keys == db.workspaces.Keys
    ensures Cancel(db, sid, ws, user).After(db).workspaces.Keys == db.workspaces.Keys
  {
  }

  lemma MarkWorkspaces(db: Db, sid: SessionId, ws: WsId, user: UserId, part: int)
    ensures MarkPart(db, sid, ws, user, part).After(db).workspaces == db.workspaces
  {
  }

  lemma FinalizeWorkspaces(db: Db, sid: SessionId, ws: WsId, user: UserId, v: FileVersion, n: Node)
    ensures FinalizeSession(db, sid, ws, user, v, n).After(db).workspaces.Keys == db.workspaces.Keys
  {
    if FinalizeSession(db, sid, ws, user, v, n).Done? {
      FinalizeConsumes(db, sid, ws, user, v, n);
    }
  }

  lemma SessionWorkspaces(db: Db, op: Op)
    requires IsSessionOp(op)
    ensures Step(db, op).workspaces.Keys == db.workspaces.Keys
  {
    match op
    case OpCreateSession(sid, s) => CreateSessionWorkspaces(db, sid, s);
    case OpExpireSession(sid, ws, user) => CloseWorkspaces(db, sid, ws, user);
    case OpCancel(sid, ws, user) => CloseWorkspaces(db, sid, ws, user);
    case OpMarkPart(sid, ws, user, part) => MarkWorkspaces(db, sid, ws, user, part);
    case OpExpireSessions(now) =>
    case OpFinalize(sid, ws, user, v, n) => FinalizeWorkspaces(db, sid, ws, user, v, n);
  }

  lemma UpdateQuotaWorkspaces(db: Db, ws: WsId, quota: Option<int>)
    ensures UpdateQuota(db, ws, quota).After(db).workspaces.Keys == db.workspaces.Keys
  {
    if UpdateQuota(db, ws, quota).Done? {
      QuotaRow(db, ws, quota);
      SameKeys(db.workspaces, ws, db.workspaces[ws].(quota := quota));
    }
  }

  lemma QuotaRow(db: Db, ws: WsId, quota: Option<int>)
    requires UpdateQuota(db, ws, quota).Done?
    ensures ws in db.workspaces
    ensures UpdateQuota(db, ws, quota).db.workspaces == db.workspaces[ws := db.workspaces[ws].(quota := quota)]
  {
  }

  lemma SameKeys<K, V>(m: map<K, V>, k: K, v: V)
    requires k in m
    ensures m[k := v].Keys == m.Keys
  {
  }

  lemma MemberOpWorkspaces(db: Db, ws: WsId, user: UserId, role: Role, quota: Option<int>)
    ensures UpdateMemberQuota(db, ws, user, quota).After(db).workspaces == db.workspaces
    ensures UpsertMember(db, ws, user, role, quota).After(db).workspaces == db.workspaces
    ensures RemoveMember(db, ws, user).After(db).workspaces == db.workspaces
  {
    MembersOnly(db, ws, user, role, quota);
    MembersOnlyWorkspaces(db, UpdateMemberQuota(db, ws, user, quota));
    MembersOnlyWorkspaces(db, UpsertMember(db, ws, user, role, quota));
    MembersOnlyWorkspaces(db, RemoveMember(db, ws, user));
  }

  lemma MembersOnlyWorkspaces(db: Db, o: Outcome)
    requires MembersChange(db, o)
    ensures o.After(db).workspaces == db.workspaces
  {
  }

  lemma MembershipWorkspaces(db: Db, op: Op)
    requires IsQuotaOp(op) && !op.OpCreateWorkspace?
    ensures ExecQuota(db, op).After(db).workspaces.Keys == db.workspaces.Keys
  {
    match op
    case OpUpdateQuota(ws, quota) => UpdateQuotaWorkspaces(db, ws, quota);
    case OpUpdateMemberQuota(ws, user, quota) => MemberOpWorkspaces(db, ws, user, UnknownRole, quota);
    case OpUpsertMember(ws, user, role, quota) => MemberOpWorkspaces(db, ws, user, role, quota);
    case OpRemoveMember(ws, user) => MemberOpWorkspaces(db, ws, user, UnknownRole, None);
  }

  lemma MembershipStepWorkspaces(db: Db, op: Op)
    requires IsQuotaOp(op) && !op.OpCreateWorkspace?
    ensures Step(db, op).workspaces.Keys == db.workspaces.Keys
  {
    MembershipWorkspaces(db, op);
  }

  lemma HolderWorkspaces(db: Db, op: Op)
    requires IsShareOp(op) || IsJobOp(op)
    ensures Step(db, op).workspaces == db.workspaces
  {
    if IsShareOp(op) {
      ShareShape(db, op);
    } else {
      JobOpShape(db, op);
    }
  }

  lemma ObjectWorkspaces(db: Db, op: Op)
    requires IsObjectOp(op)
    ensures ExecObject(db, op).After(db).workspaces == db.workspaces
  {
    match op
    case OpRestoreVersion(ws, id, no, actor, now) => RestoreWorkspaces(db, ws, id, no, actor, now);
    case OpCompleteArchive(ws, key, cutoff) => ArchiveWorkspaces(db, ws, key, cutoff);
    case _ =>
  }

  lemma RestoreWorkspaces(db: Db, ws: WsId, id: NodeId, no: int, actor: UserId, now: Time)
    ensures RestoreVersion(db, ws, id, no, actor, now).After(db).workspaces == db.workspaces
  {
  }

  lemma ArchiveWorkspaces(db: Db, ws: WsId, key: StorageKey, cutoff: Time)
    ensures CompleteArchive(db, ws, key, cutoff).After(db).workspaces == db.workspaces
  {
  }

  lemma ObjectStepWorkspaces(db: Db, op: Op)
    requires IsObjectOp(op)
    ensures Step(db, op).workspaces == db.workspaces
  {
    ObjectWorkspaces(db, op);
  }

  /** Only CreateWorkspace makes a workspace, and none is ever deleted. */
  lemma WorkspacesStay(db: Db, op: Op)
    requires !op.OpCreateWorkspace?
    ensures Step(db, op).workspaces.Keys == db.workspaces.Keys
  {
    if IsNodeOp(op) {
      NodeWorkspaces(db, op);
    } else if IsSessionOp(op) {
      SessionWorkspaces(db, op);
    } else if IsQuotaOp(op) {
      MembershipStepWorkspaces(db, op);
    } else if IsShareOp(op) || IsJobOp(op) {
      HolderWorkspaces(db, op);
    } else {
      ObjectStepWorkspaces(db, op);
    }
  }

  ghost predicate Staffed(db: Db) {
    forall w :: w in db.workspaces ==> Admins(db, w) != {}
  }

  lemma NewWorkspaceStaffed(db: Db, ws: WsId, owner: UserId, quota: Option<int>)
    ensures var after := CreateWorkspace(db, ws, owner, quota).After(db);
            && (forall w :: w in after.workspaces ==> w in db.workspaces || w == ws)
            && (after == db || Admins(after, ws) != {})
  {
    var o := CreateWorkspace(db, ws, owner, quota);
    if o.Done? {
      assert MemberKey(ws, owner) in Admins(o.db, ws);
    }
  }

  lemma StepStaffed(db: Db, op: Op)
    requires Staffed(db)
    ensures Staffed(Step(db, op))
  {
    if op.OpCreateWorkspace? {
      NewWorkspaceStaffed(db, op.ws, op.owner, op.quota);
    } else {
      WorkspacesStay(db, op);
    }
    forall w | w in Step(db, op).workspaces && w in db.workspaces ensures Admins(Step(db, op), w) != {} {
      StepLeavesAdmin(db, op, w);
    }
  }

  lemma {:induction false} RunStaffed(db: Db, ops: seq<Op>)
    requires Staffed(db)
    ensures Staffed(Final(db, ops))
    decreases |ops|
  {
    if ops != [] {
      StepStaffed(db, ops[0]);
      RunStaffed(Step(db, ops[0]), ops[1..]);
    }
  }

  /** In every state reachable from the empty database every workspace has an
      administrator. */
  lemma EveryWorkspaceHasAdmin(ops: seq<Op>, w: WsId)
    requires w in Final(EMPTY, ops).workspaces
    ensures Admins(Final(EMPTY, ops), w) != {}
  {
    RunStaffed(EMPTY, ops);
  }

  // ----- the quota of a member ------------------------------------------------------------

  /** Member `k`, if there is one, is within his quota. */
  predicate WithinQuota(db: Db, k: MemberKey) {
    k in db.members ==> Fits(db.members[k].quota, db.members[k].used, db.members[k].reserved, 0)
  }

  /** A finalize of the session would be committed. */
  ghost predicate WillFinalize(db: Db, sid: SessionId, ws: WsId, user: UserId) {
    && ReadyToFinalize(db, sid, ws, user)
    && (db.sessions[sid].node.Some? ==>
          && IsActiveFile(db, ws, db.sessions[sid].node.value)
          && db.sessions[sid].base == Some(Latest(db.versions, ws, db.sessions[sid].node.value)))
  }

  lemma FinalizeDecided(db: Db, sid: SessionId, ws: WsId, user: UserId, v: FileVersion, n: Node)
    ensures FinalizeSession(db, sid, ws, user, v, n).Done? <==> WillFinalize(db, sid, ws, user)
  {
  }

  /** The one way past a member's quota: an upload is finalized whose bytes the row never
      reserved, because the user joined or joined again after opening it. */
  ghost predicate Overruns(db: Db, op: Op, k: MemberKey) {
    && op.OpFinalize? && k == MemberKey(op.ws, op.user) && k in db.members && db.members[k].quota.Some?
    && WillFinalize(db, op.sid, op.ws, op.user)
    && db.members[k].reserved < db.sessions[op.sid].size
    && db.members[k].used + db.sessions[op.sid].size > db.members[k].quota.value
  }

  lemma FinalizeWithin(db: Db, op: Op, k: MemberKey)
    requires op.OpFinalize? && WithinQuota(db, k)
    ensures WithinQuota(Step(db, op), k) <==> !Overruns(db, op, k)
  {
    FinalizeDecided(db, op.sid, op.ws, op.user, op.v, op.n);
    if FinalizeSession(db, op.sid, op.ws, op.user, op.v, op.n).Done? {
      FinalizeConsumes(db, op.sid, op.ws, op.user, op.v, op.n);
    }
  }

  lemma CreateWithin(db: Db, sid: SessionId, s: Session, k: MemberKey)
    requires WithinQuota(db, k)
    ensures WithinQuota(CreateSession(db, sid, s).After(db), k)
  {
  }

  lemma WriteWithin(db: Db, db': Db, j: MemberKey, k: MemberKey)
    requires WithinQuota(db, k) && Written(db, db'.members, j)
    ensures WithinQuota(db', k)
  {
  }

  lemma RemoveWithin(db: Db, ws: WsId, user: UserId, k: MemberKey)
    requires WithinQuota(db, k)
    ensures WithinQuota(RemoveMember(db, ws, user).After(db), k)
  {
  }

  lemma MembershipWithin(db: Db, op: Op, k: MemberKey)
    requires WithinQuota(db, k)
    requires op.OpUpsertMember? || op.OpUpdateMemberQuota? || op.OpCreateWorkspace? || op.OpRemoveMember?
    ensures WithinQuota(Step(db, op), k) <==> !Overruns(db, op, k)
  {
    if op.OpUpsertMember? {
      UpsertWrites(db, op.ws, op.user, op.role, op.quota);
      WriteWithin(db, Step(db, op), MemberKey(op.ws, op.user), k);
    } else if op.OpUpdateMemberQuota? {
      QuotaWrites(db, op.ws, op.user, op.quota);
      WriteWithin(db, Step(db, op), MemberKey(op.ws, op.user), k);
    } else if op.OpCreateWorkspace? {
      CreateWrites(db, op.ws, op.owner, op.quota);
      WriteWithin(db, Step(db, op), MemberKey(op.ws, op.owner), k);
    } else {
      RemoveWithin(db, op.ws, op.user, k);
    }
  }

  /** A transaction keeps a member within his quota exactly when it does not finalize an
      unreserved upload that no longer fits. */
  lemma StepWithinQuota(db: Db, op: Op, k: MemberKey)
    requires WithinQuota(db, k)
    ensures WithinQuota(Step(db, op), k) <==> !Overruns(db, op, k)
  {
    if op.OpFinalize? {
      FinalizeWithin(db, op, k);
    } else if IsChargeless(op) {
      ChargelessSteps(db, op);
    } else if op.OpCreateSession? {
      CreateWithin(db, op.sid, op.s, k);
    } else {
      MembershipWithin(db, op, k);
    }
  }

  /** Member `k` is within his quota in every state of the run. */
  ghost predicate AlwaysWithin(db: Db, ops: seq<Op>, k: MemberKey)
    decreases |ops|
  {
    WithinQuota(db, k) && (ops != [] ==> AlwaysWithin(Step(db, ops[0]), ops[1..], k))
  }

  ghost predicate NeverOverruns(db: Db, ops: seq<Op>, k: MemberKey)
    decreases |ops|
  {
    ops != [] ==> !Overruns(db, ops[0], k) && NeverOverruns(Step(db, ops[0]), ops[1..], k)
  }

  /** Over a run, a member stays within his quota exactly when no transaction overruns it. */
  lemma {:induction false} WithinWhileNoneOverruns(db: Db, ops: seq<Op>, k: MemberKey)
    requires WithinQuota(db, k)
    ensures AlwaysWithin(db, ops, k) <==> NeverOverruns(db, ops, k)
    decreases |ops|
  {
    if ops != [] {
      StepWithinQuota(db, ops[0], k);
      if WithinQuota(Step(db, ops[0]), k) {
        WithinWhileNoneOverruns(Step(db, ops[0]), ops[1..], k);
      }
    }
  }

  // ----- a run ------------------------------------------------------------------------

  const JOINED := Member(PlainMember, Some(1), 0, 0)
  const JOIN_RUN: seq<Op> := [OpUpsertMember(1, 9, PlainMember, Some(1)), OpFinalize(7, 1, 9, VERSION, REPORT)]

  function WithMember(): Db {
    Prepared().(members := OWNER[MemberKey(1, 9) := JOINED])
  }

  lemma ThenJoined()
    ensures Step(Prepared(), JOIN_RUN[0]) == WithMember()
  {
  }

  lemma ThenOverrun()
    ensures Guard(WithMember(), JOIN_RUN[1])
    ensures MemberKey(1, 9) in Step(WithMember(), JOIN_RUN[1]).members
    ensures Step(WithMember(), JOIN_RUN[1]).members[MemberKey(1, 9)] == JOINED.(used := 5)
  {
    SortedStays([0]);
  }

  /** User 9 joins with a quota of one byte while an upload of five bytes is open, and
      finalizes it: five bytes are used. */
  lemma JoinThenOverrun()
    ensures IsRun(EMPTY, RUN()[..4] + JOIN_RUN)
    ensures WithinQuota(WithMember(), MemberKey(1, 9))
    ensures !WithinQuota(Final(EMPTY, RUN()[..4] + JOIN_RUN), MemberKey(1, 9))
  {
    ThenJoined();
    ThenOverrun();
    OneStep(Prepared(), WithMember(), JOIN_RUN[0]);
    OneStep(WithMember(), Step(WithMember(), JOIN_RUN[1]), JOIN_RUN[1]);
    RunJoin(Prepared(), [JOIN_RUN[0]], [JOIN_RUN[1]]);
    assert [JOIN_RUN[0]] + [JOIN_RUN[1]] == JOIN_RUN;
    UntilUploaded(JOIN_RUN);
  }
}
