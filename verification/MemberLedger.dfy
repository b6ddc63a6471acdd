/** What the membership transactions leave, and when the reserved bytes of a member are the
    sizes of his open uploads. */
module MemberLedger {
  import opened Common
  import opened Tables
  import opened NodeSteps
  import opened UploadSteps
  import opened Runs
  import opened StoreLemmas
  import opened UploadSafety
  import opened Safety
  import opened SessionLife
  import opened PurgeBytes
  import opened UploadLaws
  import opened MemberSafety

  // ----- what a membership transaction leaves --------------------------------------------

  /** Nothing but member rows changed, and among them only that of `k`. */
  ghost predicate OneMember(db: Db, db': Db, k: MemberKey) {
    && db' == db.(members := db'.members)
    && (forall m :: m != k ==> (m in db'.members <==> m in db.members))
    && (forall m :: m in db.members && m != k ==> db'.members[m] == db.members[m])
  }

  /** Nobody else administers the workspace. */
  predicate OnlyAdmin(db: Db, k: MemberKey) {
    && k in db.members && db.members[k].role == WorkspaceAdmin
    && forall a :: a in db.members && a.ws == k.ws && db.members[a].role == WorkspaceAdmin ==> a == k
  }

  lemma OnlyAdminIsLast(db: Db, k: MemberKey)
    requires k in db.members && db.members[k].role == WorkspaceAdmin
    ensures |Admins(db, k.ws)| <= 1 <==> OnlyAdmin(db, k)
  {
    assert k in Admins(db, k.ws);
    OnlyOne(Admins(db, k.ws), k);
    if OnlyAdmin(db, k) {
      assert Admins(db, k.ws) == {k};
    }
    forall a | a in db.members && a.ws == k.ws && db.members[a].role == WorkspaceAdmin ensures a in Admins(db, k.ws) {
    }
  }

  predicate MayUpsert(db: Db, ws: WsId, user: UserId, role: Role, quota: Option<int>) {
    var k := MemberKey(ws, user);
    && ws in db.workspaces && (role == WorkspaceAdmin || role == PlainMember) && (quota.Some? ==> quota.value >= 0)
    && (k in db.members ==>
          && (role != WorkspaceAdmin ==> !OnlyAdmin(db, k))
          && (quota.Some? ==> db.members[k].used + db.members[k].reserved <= quota.value))
  }

  /** A membership is written exactly when the role is known, the quota covers what the member
      uses and reserves, and an administrator remains; a known member keeps his bytes, a new
      one starts with none. */
  lemma MemberIsWritten(db: Db, ws: WsId, user: UserId, role: Role, quota: Option<int>)
    ensures UpsertMember(db, ws, user, role, quota).Done? <==> MayUpsert(db, ws, user, role, quota)
    ensures MayUpsert(db, ws, user, role, quota) ==>
              var after, k := UpsertMember(db, ws, user, role, quota).db, MemberKey(ws, user);
              && OneMember(db, after, k) && k in after.members
              && after.members[k].role == role && after.members[k].quota == quota
              && after.members[k].used == (if k in db.members then db.members[k].used else 0)
              && after.members[k].reserved == (if k in db.members then db.members[k].reserved else 0)
  {
    UpsertDecided(db, ws, user, role, quota);
    if UpsertMember(db, ws, user, role, quota).Done? {
      MembersOnly(db, ws, user, role, quota);
      if MemberKey(ws, user) in db.members {
        UpsertOld(db, ws, user, role, quota);
      } else {
        UpsertNew(db, ws, user, role, quota);
      }
    }
  }

  lemma UpsertDecided(db: Db, ws: WsId, user: UserId, role: Role, quota: Option<int>)
    ensures UpsertMember(db, ws, user, role, quota).Done? <==> MayUpsert(db, ws, user, role, quota)
  {
    var k := MemberKey(ws, user);
    if k in db.members && db.members[k].role == WorkspaceAdmin {
      OnlyAdminIsLast(db, k);
    }
  }

  /** A member leaves exactly when he is not the only administrator; his row goes. */
  lemma MemberIsRemoved(db: Db, ws: WsId, user: UserId)
    ensures RemoveMember(db, ws, user).Done? <==>
            ws in db.workspaces && MemberKey(ws, user) in db.members && !OnlyAdmin(db, MemberKey(ws, user))
    ensures RemoveMember(db, ws, user).Done? ==>
              var after, k := RemoveMember(db, ws, user).db, MemberKey(ws, user);
              OneMember(db, after, k) && k !in after.members
  {
    RemoveDecided(db, ws, user);
    if RemoveMember(db, ws, user).Done? {
      MembersOnly(db, ws, user, UnknownRole, None);
      RemoveRow(db, ws, user);
    }
  }

  lemma RemoveDecided(db: Db, ws: WsId, user: UserId)
    ensures RemoveMember(db, ws, user).Done? <==>
            ws in db.workspaces && MemberKey(ws, user) in db.members && !OnlyAdmin(db, MemberKey(ws, user))
  {
    var k := MemberKey(ws, user);
    if k in db.members && db.members[k].role == WorkspaceAdmin {
      OnlyAdminIsLast(db, k);
    }
  }

  /** A new workspace is empty, and its owner is its administrator without a quota. */
  lemma WorkspaceIsCreated(db: Db, ws: WsId, owner: UserId, quota: Option<int>)
    requires ws !in db.workspaces
    ensures CreateWorkspace(db, ws, owner, quota).Done? <==> MemberKey(ws, owner) !in db.members
    ensures CreateWorkspace(db, ws, owner, quota).Done? ==>
              var after, k := CreateWorkspace(db, ws, owner, quota).db, MemberKey(ws, owner);
              && after == db.(workspaces := after.workspaces, members := after.members)
              && after.workspaces.Keys == db.workspaces.Keys + {ws} && after.members.Keys == db.members.Keys + {k}
              && (forall w :: w in db.workspaces ==> after.workspaces[w] == db.workspaces[w])
              && (forall m :: m in db.members ==> after.members[m] == db.members[m])
              && after.workspaces[ws].quota == quota && after.workspaces[ws].used == 0 && after.workspaces[ws].reserved == 0
              && after.members[k].role == WorkspaceAdmin && after.members[k].quota.None?
              && after.members[k].used == 0 && after.members[k].reserved == 0
  {
  }

  // ----- reserved bytes are open sizes ----------------------------------------------------

  /** What the open uploads of a member come to. */
  ghost function OpenBytes(db: Db, k: MemberKey): nat {
    Sum(OpenSizesBy(db.sessions, k))
  }

  ghost predicate Booked(db: Db, k: MemberKey) {
    k in db.members ==> db.members[k].reserved == OpenBytes(db, k)
  }

  /** A user joins the workspace while an upload of his is open there. */
  ghost predicate JoinsLate(db: Db, op: Op, k: MemberKey) {
    && op.OpUpsertMember? && k == MemberKey(op.ws, op.user) && k !in db.members
    && MayUpsert(db, op.ws, op.user, op.role, op.quota) && OpenBytes(db, k) > 0
  }

  lemma SameBooks(db: Db, db': Db, k: MemberKey)
    requires Booked(db, k) && db'.sessions == db.sessions && db'.members == db.members
    ensures Booked(db', k)
  {
  }

  lemma OpenedBooks(db: Db, sid: SessionId, s: Session, k: MemberKey)
    requires Booked(db, k) && Open(s)
    ensures Booked(CreateSession(db, sid, s).After(db), k)
  {
    SessionOpens(db, sid, s);
    var after := CreateSession(db, sid, s).After(db);
    if CreateSession(db, sid, s).Done? {
      assert after.sessions == db.sessions[sid := s];
      OpenOneMoreBy(db.sessions, sid, s, k);
    }
  }

  /** Closing one open session takes its size out of the sum of its creator. */
  lemma ClosedSum(db: Db, db': Db, sid: SessionId, k: MemberKey)
    requires sid in db.sessions && Open(db.sessions[sid]) && OneSession(db, db', sid) && !Open(db'.sessions[sid])
    ensures var s := db.sessions[sid];
            OpenBytes(db, k) == OpenBytes(db', k) + if k == MemberKey(s.ws, s.createdBy) then s.size else 0
  {
    var s := db.sessions[sid];
    var m := OpenSizesBy(db.sessions, k);
    if k == MemberKey(s.ws, s.createdBy) {
      SumRemove(m, sid);
      assert m - {sid} == OpenSizesBy(db'.sessions, k);
    } else {
      assert m == OpenSizesBy(db'.sessions, k);
    }
  }

  lemma ClosedBooks(db: Db, db': Db, sid: SessionId, used: int, k: MemberKey)
    requires Booked(db, k) && sid in db.sessions && Open(db.sessions[sid])
    requires OneSession(db, db', sid) && !Open(db'.sessions[sid])
    requires Charged(db, db', db.sessions[sid].ws, db.sessions[sid].createdBy, used, 0 - db.sessions[sid].size)
    ensures Booked(db', k)
  {
    ClosedSum(db, db', sid, k);
  }

  lemma MarkedBooks(db: Db, sid: SessionId, ws: WsId, user: UserId, part: int, k: MemberKey)
    requires Booked(db, k)
    ensures Booked(MarkPart(db, sid, ws, user, part).After(db), k)
  {
    var o := MarkPart(db, sid, ws, user, part);
    if o.Done? {
      MarkedRow(db, sid, ws, user, part);
      assert OpenSizesBy(o.db.sessions, k) == OpenSizesBy(db.sessions, k);
    }
  }

  lemma MarkedRow(db: Db, sid: SessionId, ws: WsId, user: UserId, part: int)
    requires MarkPart(db, sid, ws, user, part).Done?
    ensures var after := MarkPart(db, sid, ws, user, part).db;
            && sid in db.sessions && after.members == db.members && after.sessions == db.sessions[sid := after.sessions[sid]]
            && Open(db.sessions[sid]) && Open(after.sessions[sid]) && after.sessions[sid].size == db.sessions[sid].size
            && after.sessions[sid].ws == db.sessions[sid].ws && after.sessions[sid].createdBy == db.sessions[sid].createdBy
  {
  }

  lemma GivenBackRow(db: Db, db': Db, dropped: map<VersionId, FileVersion>, closed: map<SessionId, Session>, k: MemberKey)
    requires GivenBack(db, db', dropped, closed)
    ensures k in db'.members <==> k in db.members
    ensures k in db.members ==>
              db'.members[k].reserved == Monus(db.members[k].reserved, Sum(OpenSizesBy(closed, k)))
  {
    if k in db.members {
      assert MemberGivesBack(db.members[k], db'.members[k], Sum(SizesOf(dropped, k)), Sum(OpenSizesBy(closed, k)));
    }
  }

  lemma SweptBooks(db: Db, now: Time, k: MemberKey)
    requires Booked(db, k)
    ensures Booked(ExpireSessions(db, now), k)
  {
    var closed := map s | s in db.sessions && Overdue(db.sessions[s], now) :: db.sessions[s];
    SweepCloses(db, now);
    GivenBackBooks(db, ExpireSessions(db, now), map[], closed, now, k);
  }

  lemma GivenBackBooks(db: Db, after: Db, dropped: map<VersionId, FileVersion>, closed: map<SessionId, Session>,
                       now: Time, k: MemberKey)
    requires Booked(db, k) && GivenBack(db, after, dropped, closed) && after.sessions.Keys == db.sessions.Keys
    requires closed == map s | s in db.sessions && Overdue(db.sessions[s], now) :: db.sessions[s]
    requires forall s :: s in db.sessions ==>
               after.sessions[s] == if Overdue(db.sessions[s], now) then db.sessions[s].(status := Expired) else db.sessions[s]
    ensures Booked(after, k)
  {
    GivenBackRow(db, after, dropped, closed, k);
    SweptOpen(db.sessions, after.sessions, closed, now, k);
  }

  lemma SweptOpen(before: map<SessionId, Session>, after: map<SessionId, Session>, closed: map<SessionId, Session>,
                  now: Time, k: MemberKey)
    requires after.Keys == before.Keys && closed == map s | s in before && Overdue(before[s], now) :: before[s]
    requires forall s :: s in before ==> after[s] == if Overdue(before[s], now) then before[s].(status := Expired) else before[s]
    ensures Sum(OpenSizesBy(before, k)) == Sum(OpenSizesBy(closed, k)) + Sum(OpenSizesBy(after, k))
  {
    assert OpenSizesBy(before, k) == OpenSizesBy(closed, k) + OpenSizesBy(after, k);
    SumJoin(OpenSizesBy(closed, k), OpenSizesBy(after, k));
  }

  lemma PurgedBooks(db: Db, snapshot: map<NodeId, Node>, order: seq<NodeId>, now: Time, k: MemberKey)
    requires Booked(db, k)
    ensures Booked(PurgeRoots(db, snapshot, order, now), k)
  {
    var after := PurgeRoots(db, snapshot, order, now);
    PurgeGivesBack(db, snapshot, order, now);
    GivenBackRow(db, after, db.versions - after.versions.Keys, db.sessions - after.sessions.Keys, k);
    PurgedOpen(db.sessions, after.sessions, k);
  }

  lemma PurgedOpen(before: map<SessionId, Session>, after: map<SessionId, Session>, k: MemberKey)
    requires after == before - (before - after.Keys).Keys
    ensures Sum(OpenSizesBy(before, k)) == Sum(OpenSizesBy(before - after.Keys, k)) + Sum(OpenSizesBy(after, k))
  {
    var lost := before - after.Keys;
    assert OpenSizesBy(before, k) == OpenSizesBy(lost, k) + OpenSizesBy(after, k);
    SumJoin(OpenSizesBy(lost, k), OpenSizesBy(after, k));
  }

  lemma NodeBooks(db: Db, op: Op, k: MemberKey)
    requires IsNodeOp(op) && Booked(db, k)
    ensures Booked(Step(db, op), k)
  {
    if op.OpPurge? {
      PurgedBooks(db, db.nodes, op.order, op.now, k);
    } else {
      assert ExecNode(db, op).After(db).members == db.members && ExecNode(db, op).After(db).sessions == db.sessions;
    }
  }

  lemma SessionBooks(db: Db, op: Op, k: MemberKey)
    requires IsSessionOp(op) && Booked(db, k) && Guard(db, op)
    ensures Booked(ExecSession(db, op).After(db), k)
  {
    match op
    case OpCreateSession(sid, s) => OpenedBooks(db, sid, s, k);
    case OpExpireSession(sid, ws, user) => CloseBooks(db, sid, ws, user, k);
    case OpCancel(sid, ws, user) => CloseBooks(db, sid, ws, user, k);
    case OpMarkPart(sid, ws, user, part) => MarkedBooks(db, sid, ws, user, part, k);
    case OpExpireSessions(now) => SweptBooks(db, now, k);
    case OpFinalize(sid, ws, user, v, n) => FinalizedBooks(db, sid, ws, user, v, n, k);
  }

  lemma CloseBooks(db: Db, sid: SessionId, ws: WsId, user: UserId, k: MemberKey)
    requires Booked(db, k)
    ensures Booked(ExpireSession(db, sid, ws, user).After(db), k) && Booked(Cancel(db, sid, ws, user).After(db), k)
  {
    SessionCloses(db, sid, ws, user);
    if MineAndOpen(db, sid, ws, user) {
      ClosedBooks(db, Cancel(db, sid, ws, user).db, sid, 0, k);
    }
  }

  lemma FinalizedBooks(db: Db, sid: SessionId, ws: WsId, user: UserId, v: FileVersion, n: Node, k: MemberKey)
    requires Booked(db, k)
    ensures Booked(FinalizeSession(db, sid, ws, user, v, n).After(db), k)
  {
    if FinalizeSession(db, sid, ws, user, v, n).Done? {
      FinalizeSettles(db, sid, ws, user, v, n);
      FinalizeCases(db, sid, ws, user, v, n);
      ClosedBooks(db, FinalizeSession(db, sid, ws, user, v, n).db, sid, db.sessions[sid].size, k);
    }
  }

  lemma QuotaBooks(db: Db, ws: WsId, user: UserId, quota: Option<int>, k: MemberKey)
    requires Booked(db, k)
    ensures Booked(UpdateQuota(db, ws, quota).After(db), k) && Booked(UpdateMemberQuota(db, ws, user, quota).After(db), k)
  {
  }

  lemma RemovedBooks(db: Db, ws: WsId, user: UserId, k: MemberKey)
    requires Booked(db, k)
    ensures Booked(RemoveMember(db, ws, user).After(db), k)
  {
    MemberIsRemoved(db, ws, user);
  }

  lemma WrittenBooks(db: Db, op: Op, k: MemberKey)
    requires op.OpUpsertMember? && Booked(db, k)
    ensures Booked(UpsertMember(db, op.ws, op.user, op.role, op.quota).After(db), k) <==> !JoinsLate(db, op, k)
  {
    MemberIsWritten(db, op.ws, op.user, op.role, op.quota);
  }

  lemma CreatedBooks(db: Db, ws: WsId, owner: UserId, quota: Option<int>, k: MemberKey)
    requires SessionsOk(db) && ws !in db.workspaces && Booked(db, k)
    ensures Booked(CreateWorkspace(db, ws, owner, quota).After(db), k)
  {
    if k.ws == ws {
      forall s | s in db.sessions ensures db.sessions[s].ws != ws {
        assert SessionOk(db, db.sessions[s]);
      }
      assert OpenSizesBy(db.sessions, k) == map[];
    }
  }

  lemma MembershipBooks(db: Db, op: Op, k: MemberKey)
    requires IsQuotaOp(op) && SessionsOk(db) && Booked(db, k) && Guard(db, op)
    ensures Booked(ExecQuota(db, op).After(db), k) <==> !JoinsLate(db, op, k)
  {
    match op
    case OpUpdateQuota(ws, quota) => QuotaBooks(db, ws, 0, quota, k);
    case OpUpdateMemberQuota(ws, user, quota) => QuotaBooks(db, ws, user, quota, k);
    case OpUpsertMember(ws, user, role, quota) => WrittenBooks(db, op, k);
    case OpRemoveMember(ws, user) => RemovedBooks(db, ws, user, k);
    case OpCreateWorkspace(ws, owner, quota) => CreatedBooks(db, ws, owner, quota, k);
  }

  lemma SessionStepBooks(db: Db, op: Op, k: MemberKey)
    requires IsSessionOp(op) && Booked(db, k) && Guard(db, op)
    ensures Booked(Step(db, op), k)
  {
    SessionBooks(db, op, k);
  }

  lemma MembershipStepBooks(db: Db, op: Op, k: MemberKey)
    requires IsQuotaOp(op) && SessionsOk(db) && Booked(db, k) && Guard(db, op)
    ensures Booked(Step(db, op), k) <==> !JoinsLate(db, op, k)
  {
    MembershipBooks(db, op, k);
  }

  lemma ObjectStepBooks(db: Db, op: Op, k: MemberKey)
    requires IsObjectOp(op) && Booked(db, k)
    ensures Booked(Step(db, op), k)
  {
    ObjectStepSessions(db, op);
    ObjectStepMembers(db, op);
    SameBooks(db, Step(db, op), k);
  }

  lemma ObjectStepSessions(db: Db, op: Op)
    requires IsObjectOp(op)
    ensures Step(db, op).sessions == db.sessions
  {
    ObjectOpsStay(db, op);
  }

  lemma HolderSessions(db: Db, op: Op)
    requires IsShareOp(op) || IsJobOp(op)
    ensures Step(db, op).sessions == db.sessions
  {
    if IsShareOp(op) {
      ShareShape(db, op);
    } else {
      JobOpShape(db, op);
    }
  }

  lemma HolderStepBooks(db: Db, op: Op, k: MemberKey)
    requires (IsShareOp(op) || IsJobOp(op)) && Booked(db, k)
    ensures Booked(Step(db, op), k)
  {
    HolderMembers(db, op);
    HolderSessions(db, op);
    SameBooks(db, Step(db, op), k);
  }

  /** A transaction keeps the reserved bytes of a member equal to the sizes of his open uploads
      if and only if it does not let him join while one of them is open. */
  lemma StepKeepsBooks(db: Db, op: Op, k: MemberKey)
    requires SessionsOk(db) && Booked(db, k) && Guard(db, op)
    ensures Booked(Step(db, op), k) <==> !JoinsLate(db, op, k)
  {
    if IsNodeOp(op) {
      NodeBooks(db, op, k);
    } else if IsSessionOp(op) {
      SessionStepBooks(db, op, k);
    } else if IsQuotaOp(op) {
      MembershipStepBooks(db, op, k);
    } else if IsShareOp(op) || IsJobOp(op) {
      HolderStepBooks(db, op, k);
    } else {
      ObjectStepBooks(db, op, k);
    }
  }

  /** The books of `k` agree in every state of the run. */
  ghost predicate AlwaysBooked(db: Db, ops: seq<Op>, k: MemberKey)
    decreases |ops|
  {
    Booked(db, k) && (ops != [] ==> AlwaysBooked(Step(db, ops[0]), ops[1..], k))
  }

  ghost predicate NeverJoinsLate(db: Db, ops: seq<Op>, k: MemberKey)
    decreases |ops|
  {
    ops != [] ==> !JoinsLate(db, ops[0], k) && NeverJoinsLate(Step(db, ops[0]), ops[1..], k)
  }

  /** Over any run, they agree throughout if and only if the member never joins late. */
  lemma {:induction false} BookedWhileNoneJoinsLate(db: Db, ops: seq<Op>, k: MemberKey)
    requires Inv(db) && Booked(db, k) && IsRun(db, ops)
    ensures AlwaysBooked(db, ops, k) <==> NeverJoinsLate(db, ops, k)
    decreases |ops|
  {
    if ops != [] {
      StepKeepsBooks(db, ops[0], k);
      StepKeeps(db, ops[0]);
      if Booked(Step(db, ops[0]), k) {
        BookedWhileNoneJoinsLate(Step(db, ops[0]), ops[1..], k);
      }
    }
  }
}
