/** What each upload, quota and membership transaction means. */
module UploadSteps {
  import opened Common
  import opened Chunks
  import opened Tables
  import opened NodeSteps

  // ----- quota arithmetic -------------------------------------------------------

  /** UPDATE ... SET reserved_bytes = GREATEST(reserved_bytes - bytes, 0); a
      missing row is left alone. */
  function ReleaseRow(rows: map<WsId, Workspace>, ws: WsId, bytes: nat): map<WsId, Workspace> {
    if ws !in rows then rows else rows[ws := rows[ws].(reserved := Monus(rows[ws].reserved, bytes))]
  }

  function ReleaseRowBy(rows: map<MemberKey, Member>, k: MemberKey, bytes: nat): map<MemberKey, Member> {
    if k !in rows then rows else rows[k := rows[k].(reserved := Monus(rows[k].reserved, bytes))]
  }

  function Release(db: Db, ws: WsId, user: UserId, bytes: nat): Db {
    db.(workspaces := ReleaseRow(db.workspaces, ws, bytes),
        members := ReleaseRowBy(db.members, MemberKey(ws, user), bytes))
  }

  function ConsumeRow(rows: map<WsId, Workspace>, ws: WsId, bytes: nat): map<WsId, Workspace> {
    if ws !in rows then rows
    else rows[ws := rows[ws].(used := rows[ws].used + bytes, reserved := Monus(rows[ws].reserved, bytes))]
  }

  function ConsumeRowBy(rows: map<MemberKey, Member>, k: MemberKey, bytes: nat): map<MemberKey, Member> {
    if k !in rows then rows
    else rows[k := rows[k].(used := rows[k].used + bytes, reserved := Monus(rows[k].reserved, bytes))]
  }

  function Consume(db: Db, ws: WsId, user: UserId, bytes: nat): Db {
    db.(workspaces := ConsumeRow(db.workspaces, ws, bytes),
        members := ConsumeRowBy(db.members, MemberKey(ws, user), bytes))
  }

  predicate Fits(quota: Option<int>, used: nat, reserved: nat, bytes: nat) {
    quota.Some? ==> used + reserved + bytes <= quota.value
  }

  function CreateSession(db: Db, id: SessionId, s: Session): Outcome {
    var k := MemberKey(s.ws, s.createdBy);
    if s.ws !in db.workspaces then Failed(NotFound)
    else
      var w := db.workspaces[s.ws];
      if !Fits(w.quota, w.used, w.reserved, s.size) then Failed(QuotaExceeded)
      else if k in db.members && !Fits(db.members[k].quota, db.members[k].used, db.members[k].reserved, s.size) then
        Failed(QuotaExceeded)
      else if id in db.sessions then Failed(DuplicatedKey)
      else Done(db.(
        workspaces := db.workspaces[s.ws := w.(reserved := w.reserved + s.size)],
        members := if k !in db.members then db.members
          else db.members[k := db.members[k].(reserved := db.members[k].reserved + s.size)],
        sessions := db.sessions[id := s]))
  }

  // ----- the life of a session --------------------------------------------------

  predicate Mine(db: Db, id: SessionId, ws: WsId, user: UserId) {
    id in db.sessions && db.sessions[id].ws == ws && db.sessions[id].createdBy == user
  }

  /** Close an open session and give its reservation back. */
  function Closed(db: Db, id: SessionId): Db
    requires id in db.sessions
  {
    var s := db.sessions[id];
    Release(db, s.ws, s.createdBy, s.size).(sessions := db.sessions[id := s.(status := Expired)])
  }

  function ExpireSession(db: Db, id: SessionId, ws: WsId, user: UserId): Outcome {
    if !Mine(db, id, ws, user) then Failed(NotFound)
    else if !Open(db.sessions[id]) then Done(db)
    else Done(Closed(db, id))
  }

  function Cancel(db: Db, id: SessionId, ws: WsId, user: UserId): Outcome {
    if !Mine(db, id, ws, user) then Failed(UploadNotFound)
    else if !Open(db.sessions[id]) then Failed(UploadState)
    else Done(Closed(db, id))
  }

  function MarkPart(db: Db, id: SessionId, ws: WsId, user: UserId, part: int): Outcome {
    if !Mine(db, id, ws, user) then Failed(UploadNotFound)
    else
      var s := db.sessions[id];
      if s.status != Initialized && s.status != Uploading then Failed(UploadState)
      else match Decode(s.received)
        case None => Failed(BadChunks)
        case Some(list) => Done(db.(sessions := db.sessions[id :=
          s.(received := Json(Marked(list, part)), status := Uploading)]))
  }

  predicate Stale(s: Session, now: Time) {
    Open(s) && s.expiresAt <= now
  }

  function StaleSessions(sessions: map<SessionId, Session>, now: Time): set<SessionId> {
    set s | s in sessions && Stale(sessions[s], now)
  }

  /** ExpireSessions in one stroke: every stale session closes, and each quota
      row loses the sum of the reservations it carried for them. */
  ghost function ExpireSessions(db: Db, now: Time): Db {
    var stale := StaleSessions(db.sessions, now);
    db.(
      sessions := AllExpired(db.sessions, stale),
      workspaces := LessReserved(db.workspaces, Pick(db.sessions, stale)),
      members := LessReservedBy(db.members, Pick(db.sessions, stale)))
  }

  ghost function AllExpired(sessions: map<SessionId, Session>, ss: set<SessionId>): map<SessionId, Session> {
    map s | s in sessions :: if s in ss then sessions[s].(status := Expired) else sessions[s]
  }

  /** The version row a finalized upload brings along; its node, number and
      workspace are filled in by the transaction. */
  function Placed(v: FileVersion, ws: WsId, n: NodeId, no: nat): FileVersion {
    v.(ws := ws, node := n, no := no)
  }

  ghost function FinalizeSession(db: Db, id: SessionId, ws: WsId, user: UserId, v: FileVersion, n: Node): Outcome {
    if !Mine(db, id, ws, user) then Failed(UploadNotFound)
    else
      var s := db.sessions[id];
      if s.status != Uploading && s.status != Initialized then Failed(UploadState)
      else match Decode(s.received)
        case None => Failed(BadChunks)
        case Some(list) =>
          if |list| != s.totalChunks then Failed(UploadIncomplete)
          else if s.node.Some? then Overwrite(db, id, ws, user, v)
          else Done(NewFile(db, id, ws, user, v, n))
  }

  /** The session may be finalized as far as its own row tells. */
  predicate ReadyToFinalize(db: Db, id: SessionId, ws: WsId, user: UserId) {
    && Mine(db, id, ws, user) && (db.sessions[id].status == Uploading || db.sessions[id].status == Initialized)
    && Decode(db.sessions[id].received).Some?
    && |Decode(db.sessions[id].received).value| == db.sessions[id].totalChunks
  }

  /** A new file node with its first version. */
  function NewFile(db: Db, id: SessionId, ws: WsId, user: UserId, v: FileVersion, n: Node): Db
    requires id in db.sessions
  {
    var s := db.sessions[id];
    Consume(db, ws, user, s.size).(
      nodes := db.nodes[db.nextNode := n.(ws := ws, activeVersion := Some(db.nextVersion))],
      nextNode := db.nextNode + 1,
      versions := db.versions[db.nextVersion := Placed(v, ws, db.nextNode, 1)],
      nextVersion := db.nextVersion + 1,
      sessions := db.sessions[id := s.(status := Completed)],
      origin := db.origin[v.key := Origin(ws, db.nextNode)])
  }

  ghost function Overwrite(db: Db, id: SessionId, ws: WsId, user: UserId, v: FileVersion): Outcome
    requires id in db.sessions && db.sessions[id].node.Some?
  {
    var s := db.sessions[id];
    var m := s.node.value;
    if !IsActiveFile(db, ws, m) then Failed(UploadNotFound)
    else
      var current := Latest(db.versions, ws, m);
      if s.base.None? || s.base.value != current then Failed(VersionConflict)
      else
        Done(Consume(db, ws, user, s.size).(
          nodes := db.nodes[m := db.nodes[m].(activeVersion := Some(db.nextVersion))],
          versions := db.versions[db.nextVersion := Placed(v, ws, m, current + 1)],
          nextVersion := db.nextVersion + 1,
          sessions := db.sessions[id := s.(status := Completed)],
          origin := db.origin[v.key := Origin(ws, m)]))
  }

  predicate IsActiveFile(db: Db, ws: WsId, m: NodeId) {
    m in db.nodes && db.nodes[m].ws == ws && db.nodes[m].kind == File && db.nodes[m].status == Active
  }

  // ----- quotas and members -----------------------------------------------------

  /** A workspace comes with its owner as administrator. */
  function CreateWorkspace(db: Db, ws: WsId, owner: UserId, quota: Option<int>): Outcome {
    var k := MemberKey(ws, owner);
    if k in db.members then Failed(DuplicatedKey)
    else Done(db.(
      workspaces := db.workspaces[ws := Workspace(quota, 0, 0)],
      members := db.members[k := Member(WorkspaceAdmin, None, 0, 0)]))
  }

  function UpdateQuota(db: Db, ws: WsId, quota: Option<int>): Outcome {
    if quota.Some? && quota.value < 0 then Failed(InvalidQuota)
    else if ws !in db.workspaces then Failed(NotFound)
    else
      var w := db.workspaces[ws];
      if !Fits(quota, w.used, w.reserved, 0) then Failed(QuotaBelowUsage)
      else Done(db.(workspaces := db.workspaces[ws := w.(quota := quota)]))
  }

  function UpdateMemberQuota(db: Db, ws: WsId, user: UserId, quota: Option<int>): Outcome {
    var k := MemberKey(ws, user);
    if quota.Some? && quota.value < 0 then Failed(InvalidQuota)
    else if k !in db.members then Failed(NotFound)
    else
      var m := db.members[k];
      if !Fits(quota, m.used, m.reserved, 0) then Failed(QuotaBelowUsage)
      else Done(db.(members := db.members[k := m.(quota := quota)]))
  }

  function Admins(db: Db, ws: WsId): set<MemberKey> {
    set k | k in db.members && k.ws == ws && db.members[k].role == WorkspaceAdmin
  }

  function UpsertMember(db: Db, ws: WsId, user: UserId, role: Role, quota: Option<int>): Outcome {
    var k := MemberKey(ws, user);
    if ws !in db.workspaces then Failed(NotFound)
    else if role == UnknownRole then Failed(InvalidRole)
    else if quota.Some? && quota.value < 0 then Failed(InvalidQuota)
    else if k !in db.members then Done(db.(members := db.members[k := Member(role, quota, 0, 0)]))
    else
      var m := db.members[k];
      if m.role == WorkspaceAdmin && role != WorkspaceAdmin && |Admins(db, ws)| <= 1 then Failed(LastAdmin)
      else if !Fits(quota, m.used, m.reserved, 0) then Failed(QuotaBelowUsage)
      else Done(db.(members := db.members[k := m.(role := role, quota := quota)]))
  }

  function RemoveMember(db: Db, ws: WsId, user: UserId): Outcome {
    var k := MemberKey(ws, user);
    if ws !in db.workspaces || k !in db.members then Failed(NotFound)
    else if db.members[k].role == WorkspaceAdmin && |Admins(db, ws)| <= 1 then Failed(LastAdmin)
    else Done(db.(members := db.members - {k}))
  }
}
