/** What a committed upload transaction leaves, column by column: the session row, the two
    quota rows, and the file it writes. */
module UploadLaws {
  import opened Common
  import opened Forest
  import opened Chunks
  import opened Tables
  import opened NodeSteps
  import opened UploadSteps
  import opened Runs
  import opened UploadSafety
  import opened PurgeBytes
  import opened StoreLemmas
  import opened DirectoryLaws

  /** `b` is `a` after `moved` was added, floored at zero. */
  predicate MovedBy(a: nat, b: nat, moved: int) {
    b == if a + moved < 0 then 0 else a + moved
  }

  /** The workspace row and the member row of the user, where they exist, move their used and
      reserved bytes by these amounts; quotas, roles and all other rows stay. */
  ghost predicate Charged(db: Db, db': Db, ws: WsId, user: UserId, used: int, reserved: int) {
    var k := MemberKey(ws, user);
    && db'.workspaces.Keys == db.workspaces.Keys && db'.members.Keys == db.members.Keys
    && (forall w :: w in db.workspaces && w != ws ==> db'.workspaces[w] == db.workspaces[w])
    && (forall m :: m in db.members && m != k ==> db'.members[m] == db.members[m])
    && (ws in db.workspaces ==>
          && db'.workspaces[ws].quota == db.workspaces[ws].quota
          && MovedBy(db.workspaces[ws].used, db'.workspaces[ws].used, used)
          && MovedBy(db.workspaces[ws].reserved, db'.workspaces[ws].reserved, reserved))
    && (k in db.members ==>
          && db'.members[k].role == db.members[k].role && db'.members[k].quota == db.members[k].quota
          && MovedBy(db.members[k].used, db'.members[k].used, used)
          && MovedBy(db.members[k].reserved, db'.members[k].reserved, reserved))
  }

  /** Nothing but session `sid` and the quota rows changed. */
  ghost predicate SessionOnly(db: Db, db': Db, sid: SessionId) {
    && db' == db.(sessions := db'.sessions, workspaces := db'.workspaces, members := db'.members)
    && OneSession(db, db', sid)
  }

  /** Among the sessions, only `sid` may differ. */
  ghost predicate OneSession(db: Db, db': Db, sid: SessionId) {
    db'.sessions.Keys == db.sessions.Keys + {sid}
    && forall s :: s in db.sessions && s != sid ==> db'.sessions[s] == db.sessions[s]
  }

  predicate HasRoom(quota: Option<int>, used: nat, reserved: nat, bytes: nat) {
    quota.None? || used + reserved + bytes <= quota.value
  }

  /** A session opens exactly when its id is free and its size fits under the quota of the
      workspace and of a member; the size is then reserved on both rows. */
  lemma SessionOpens(db: Db, sid: SessionId, s: Session)
    ensures CreateSession(db, sid, s).Done? <==>
              && s.ws in db.workspaces && sid !in db.sessions
              && var w, k := db.workspaces[s.ws], MemberKey(s.ws, s.createdBy);
                 && HasRoom(w.quota, w.used, w.reserved, s.size)
                 && (k in db.members ==> HasRoom(db.members[k].quota, db.members[k].used, db.members[k].reserved, s.size))
    ensures CreateSession(db, sid, s).Done? ==>
              var after := CreateSession(db, sid, s).db;
              && SessionOnly(db, after, sid) && after.sessions[sid] == s
              && Charged(db, after, s.ws, s.createdBy, 0, s.size)
  {
  }

  /** The session is the user's, and neither completed nor expired. */
  predicate MineAndOpen(db: Db, sid: SessionId, ws: WsId, user: UserId) {
    && sid in db.sessions && db.sessions[sid].ws == ws && db.sessions[sid].createdBy == user
    && db.sessions[sid].status != Completed && db.sessions[sid].status != Expired
  }

  /** Cancelling commits exactly for an open session of the user. Like the expiry of one, it
      closes the session and gives its reservation back. */
  lemma SessionCloses(db: Db, sid: SessionId, ws: WsId, user: UserId)
    ensures Cancel(db, sid, ws, user).Done? <==> MineAndOpen(db, sid, ws, user)
    ensures MineAndOpen(db, sid, ws, user) ==>
              var after := Cancel(db, sid, ws, user).db;
              && ExpireSession(db, sid, ws, user) == Done(after)
              && SessionOnly(db, after, sid) && after.sessions[sid] == db.sessions[sid].(status := Expired)
              && Charged(db, after, ws, user, 0, 0 - db.sessions[sid].size)
    ensures !MineAndOpen(db, sid, ws, user) ==> ExpireSession(db, sid, ws, user).After(db) == db
  {
  }

  /** A part is accepted for a started, not yet closed session of the user whose list can be
      read; the list then holds that part as well, without repeat and in order. */
  lemma PartIsMarked(db: Db, sid: SessionId, ws: WsId, user: UserId, part: int)
    requires SessionsOk(db) && part >= 0
    ensures MarkPart(db, sid, ws, user, part).Done? <==> MineAndOpen(db, sid, ws, user)
    ensures MineAndOpen(db, sid, ws, user) ==>
              var after := MarkPart(db, sid, ws, user, part).db;
              && after == db.(sessions := after.sessions) && OneSession(db, after, sid)
              && after.sessions[sid] == db.sessions[sid].(received := after.sessions[sid].received, status := Uploading)
              && db.sessions[sid].received.Json? && after.sessions[sid].received.Json?
              && StrictlyAscending(after.sessions[sid].received.chunks)
              && forall x :: x in after.sessions[sid].received.chunks <==> x in db.sessions[sid].received.chunks || x == part
  {
    if MineAndOpen(db, sid, ws, user) {
      assert SessionOk(db, db.sessions[sid]);
      DecodeKept(db, db.sessions[sid]);
      MarkedKeeps(db.sessions[sid].received.chunks, part);
    }
  }

  /** The sweep closes exactly the open sessions past their time, and every quota row gives
      back the sum of its own among them. */
  lemma SweepCloses(db: Db, now: Time)
    ensures var after := ExpireSessions(db, now);
            && after == db.(sessions := after.sessions, workspaces := after.workspaces, members := after.members)
            && after.sessions.Keys == db.sessions.Keys
            && (forall s :: s in db.sessions ==>
                  after.sessions[s] == if Overdue(db.sessions[s], now) then db.sessions[s].(status := Expired) else db.sessions[s])
            && GivenBack(db, after, map[], map s | s in db.sessions && Overdue(db.sessions[s], now) :: db.sessions[s])
  {
    var closed := map s | s in db.sessions && Overdue(db.sessions[s], now) :: db.sessions[s];
    assert closed == Pick(db.sessions, StaleSessions(db.sessions, now));
    SweepGivesBack(db, closed);
  }

  predicate Overdue(s: Session, now: Time) {
    s.status != Completed && s.status != Expired && s.expiresAt <= now
  }

  lemma SweepGivesBack(db: Db, closed: map<SessionId, Session>)
    ensures RowsGivenBack(db.workspaces, LessReserved(db.workspaces, closed), map[], closed)
    ensures MembersGivenBack(db.members, LessReservedBy(db.members, closed), map[], closed)
  {
    SweptRows(db.workspaces, closed);
    SweptMembers(db.members, closed);
  }

  lemma SweptRows(rows: map<WsId, Workspace>, closed: map<SessionId, Session>)
    ensures RowsGivenBack(rows, LessReserved(rows, closed), map[], closed)
  {
    forall w | w in rows
      ensures RowGivesBack(rows[w], LessReserved(rows, closed)[w], Sum(SizesIn(map[], w)), Sum(OpenSizes(closed, w)))
    {
      assert SizesIn(map[], w) == map[];
      LessAt(rows, closed, w);
    }
  }

  lemma SweptMembers(rows: map<MemberKey, Member>, closed: map<SessionId, Session>)
    ensures MembersGivenBack(rows, LessReservedBy(rows, closed), map[], closed)
  {
    forall k | k in rows
      ensures MemberGivesBack(rows[k], LessReservedBy(rows, closed)[k], Sum(SizesOf(map[], k)), Sum(OpenSizesBy(closed, k)))
    {
      assert SizesOf(map[], k) == map[];
      LessAtBy(rows, closed, k);
    }
  }

  // ----- finalize -----------------------------------------------------------------------

  /** The new version row is the one brought along, placed at node `m` under number `no`. */
  predicate Stores(db': Db, nv: VersionId, v: FileVersion, ws: WsId, m: NodeId, no: nat) {
    && nv in db'.versions
    && var r := db'.versions[nv];
       && r.key == v.key && r.class_ == v.class_ && r.size == v.size && r.lastAccessed == v.lastAccessed
       && r.createdBy == v.createdBy && r.createdAt == v.createdAt
       && r.ws == ws && r.node == m && r.no == no
  }

  /** One version was added under the next id; the others are untouched. */
  ghost predicate OneVersion(db: Db, db': Db) {
    && db'.versions.Keys == db.versions.Keys + {db.nextVersion} && db'.nextVersion == db.nextVersion + 1
    && forall v :: v in db.versions && v != db.nextVersion ==> db'.versions[v] == db.versions[v]
  }

  ghost predicate HoldersUntouched(db: Db, db': Db) {
    db'.shares == db.shares && db'.shareItems == db.shareItems && db'.jobs == db.jobs && db'.jobItems == db.jobItems
  }

  /** The upload is the user's and open, and all its parts are there. */
  ghost predicate Uploaded(db: Db, sid: SessionId, ws: WsId, user: UserId) {
    && MineAndOpen(db, sid, ws, user)
    && db.sessions[sid].received.Json? && forall x :: 0 <= x < db.sessions[sid].totalChunks ==> x in db.sessions[sid].received.chunks
  }

  /** The session's file is still there, and its highest version is the one the upload was
      based on. */
  ghost predicate BaseIsCurrent(db: Db, ws: WsId, s: Session) {
    s.node.Some? ==>
      && s.node.value in db.nodes && db.nodes[s.node.value].ws == ws && db.nodes[s.node.value].kind == File
      && db.nodes[s.node.value].status == Active
      && s.base.Some? && s.base.value == Latest(db.versions, ws, s.node.value)
  }

  lemma UploadedIsReady(db: Db, sid: SessionId, ws: WsId, user: UserId)
    requires SessionsOk(db)
    ensures ReadyToFinalize(db, sid, ws, user) <==> Uploaded(db, sid, ws, user)
  {
    if MineAndOpen(db, sid, ws, user) {
      var s := db.sessions[sid];
      assert SessionOk(db, s);
      DecodeKept(db, s);
      FullWhenLong(s.received.chunks, s.totalChunks);
    }
  }

  /** A finalize commits exactly for a complete upload whose base is current. */
  lemma FinalizeCommits(db: Db, sid: SessionId, ws: WsId, user: UserId, v: FileVersion, n: Node)
    requires SessionsOk(db)
    ensures FinalizeSession(db, sid, ws, user, v, n).Done? <==>
            Uploaded(db, sid, ws, user) && BaseIsCurrent(db, ws, db.sessions[sid])
  {
    UploadedIsReady(db, sid, ws, user);
  }

  /** A refused finalize names the reason: an open upload is incomplete exactly while a part
      is missing, and conflicts exactly when its file is there but has moved on. */
  lemma FinalizeRefusals(db: Db, sid: SessionId, ws: WsId, user: UserId, v: FileVersion, n: Node)
    requires SessionsOk(db)
    ensures var o := FinalizeSession(db, sid, ws, user, v, n);
            && (o == Failed(UploadIncomplete) <==> MineAndOpen(db, sid, ws, user) && !Uploaded(db, sid, ws, user))
            && (o == Failed(VersionConflict) <==>
                  && Uploaded(db, sid, ws, user) && db.sessions[sid].node.Some?
                  && IsActiveFile(db, ws, db.sessions[sid].node.value) && !BaseIsCurrent(db, ws, db.sessions[sid]))
            && (o == Failed(UploadState) <==>
                  sid in db.sessions && db.sessions[sid].ws == ws && db.sessions[sid].createdBy == user
                  && !MineAndOpen(db, sid, ws, user))
            && o != Failed(BadChunks)
  {
    if MineAndOpen(db, sid, ws, user) {
      UploadedIsReady(db, sid, ws, user);
      assert SessionOk(db, db.sessions[sid]);
      DecodeKept(db, db.sessions[sid]);
    }
  }

  /** It completes the session and moves its size from reserved to used bytes. */
  lemma FinalizeSettles(db: Db, sid: SessionId, ws: WsId, user: UserId, v: FileVersion, n: Node)
    requires FinalizeSession(db, sid, ws, user, v, n).Done?
    ensures var after := FinalizeSession(db, sid, ws, user, v, n).db;
            && OneSession(db, after, sid) && after.sessions[sid] == db.sessions[sid].(status := Completed)
            && Charged(db, after, ws, user, db.sessions[sid].size, 0 - db.sessions[sid].size)
            && HoldersUntouched(db, after)
  {
    FinalizeCases(db, sid, ws, user, v, n);
    if db.sessions[sid].node.Some? {
      OverwriteSettles(db, sid, ws, user, v);
    } else {
      NewFileSettles(db, sid, ws, user, v, n);
    }
  }

  lemma OverwriteSettles(db: Db, sid: SessionId, ws: WsId, user: UserId, v: FileVersion)
    requires sid in db.sessions && db.sessions[sid].node.Some? && Overwrite(db, sid, ws, user, v).Done?
    ensures var after := Overwrite(db, sid, ws, user, v).db;
            && OneSession(db, after, sid) && after.sessions[sid] == db.sessions[sid].(status := Completed)
            && Charged(db, after, ws, user, db.sessions[sid].size, 0 - db.sessions[sid].size)
            && HoldersUntouched(db, after)
  {
  }

  lemma NewFileSettles(db: Db, sid: SessionId, ws: WsId, user: UserId, v: FileVersion, n: Node)
    requires sid in db.sessions
    ensures var after := NewFile(db, sid, ws, user, v, n);
            && OneSession(db, after, sid) && after.sessions[sid] == db.sessions[sid].(status := Completed)
            && Charged(db, after, ws, user, db.sessions[sid].size, 0 - db.sessions[sid].size)
            && HoldersUntouched(db, after)
  {
  }

  /** An overwrite adds the version one above the highest and makes it the active one; the
      file stays where it was, and no other row changes. */
  lemma OverwriteStores(db: Db, sid: SessionId, ws: WsId, user: UserId, v: FileVersion, n: Node)
    requires FinalizeSession(db, sid, ws, user, v, n).Done? && db.sessions[sid].node.Some?
    ensures var after, m := FinalizeSession(db, sid, ws, user, v, n).db, db.sessions[sid].node.value;
            && Stores(after, db.nextVersion, v, ws, m, Latest(db.versions, ws, m) + 1) && OneVersion(db, after)
            && after.nodes.Keys == db.nodes.Keys && after.nextNode == db.nextNode && m in db.nodes
            && after.nodes[m] == db.nodes[m].(activeVersion := Some(db.nextVersion))
            && (forall d :: d in db.nodes && d != m ==> after.nodes[d] == db.nodes[d])
  {
    FinalizeCases(db, sid, ws, user, v, n);
  }

  /** A new file gets version 1 as its active one and stands one step below the parent it was
      given; every other row is where it was. */
  lemma NewFileStores(db: Db, sid: SessionId, ws: WsId, user: UserId, v: FileVersion, n: Node)
    requires TreeOk(db) && FinalizeSession(db, sid, ws, user, v, n).Done? && db.sessions[sid].node.None?
    requires ParentInPlace(db, ws, n.parent)
    ensures var after, m := FinalizeSession(db, sid, ws, user, v, n).db, db.nextNode;
            var p, p' := ParentsOf(db.nodes), ParentsOf(after.nodes);
            && Stores(after, db.nextVersion, v, ws, m, 1) && OneVersion(db, after)
            && m !in db.nodes && after.nodes.Keys == db.nodes.Keys + {m} && after.nextNode == m + 1
            && after.nodes[m] == n.(ws := ws, activeVersion := Some(db.nextVersion))
            && (forall d :: d in db.nodes ==> after.nodes[d] == db.nodes[d])
            && (forall k: nat :: Up(p', m, k + 1) == UpFrom(p, n.parent, k))
            && (forall d: NodeId, k: nat :: d != m ==> Up(p', d, k) == Up(p, d, k))
  {
    FinalizeCases(db, sid, ws, user, v, n);
    var file := n.(ws := ws, activeVersion := Some(db.nextVersion));
    CreatePlaces(db, file);
    NewFileRow(db, sid, ws, user, v, n);
  }

  lemma NewFileRow(db: Db, sid: SessionId, ws: WsId, user: UserId, v: FileVersion, n: Node)
    requires sid in db.sessions
    ensures var after := NewFile(db, sid, ws, user, v, n);
            && after.nodes == CreateNode(db, n.(ws := ws, activeVersion := Some(db.nextVersion))).db.nodes
            && after.nextNode == db.nextNode + 1
            && Stores(after, db.nextVersion, v, ws, db.nextNode, 1) && OneVersion(db, after)
  {
  }
}
