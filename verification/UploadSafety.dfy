/** The upload, version and quota transactions keep every invariant. */
module UploadSafety {
  import opened Common
  import opened Chunks
  import opened Tables
  import opened NodeSteps
  import opened UploadSteps
  import opened ObjectSteps
  import opened Runs
  import opened Frames
  import opened NodeSafety

  // ----- reservations -----------------------------------------------------------

  lemma OpenGrows(sessions: map<SessionId, Session>, id: SessionId, s: Session, w: WsId)
    requires id !in sessions && Open(s)
    ensures Sum(OpenSizes(sessions[id := s], w)) == Sum(OpenSizes(sessions, w)) + if s.ws == w then s.size else 0
  {
    var m := OpenSizes(sessions[id := s], w);
    if s.ws == w {
      SumRemove(m, id);
      assert m - {id} == OpenSizes(sessions, w);
    } else {
      assert m == OpenSizes(sessions, w);
    }
  }

  /** Closing an open session takes exactly its size out of the sum. */
  lemma OpenShrinks(sessions: map<SessionId, Session>, id: SessionId, s: Session, w: WsId)
    requires id in sessions && Open(sessions[id]) && !Open(s)
    ensures Sum(OpenSizes(sessions, w)) ==
            Sum(OpenSizes(sessions[id := s], w)) + if sessions[id].ws == w then sessions[id].size else 0
  {
    var m := OpenSizes(sessions, w);
    if sessions[id].ws == w {
      SumRemove(m, id);
      assert m - {id} == OpenSizes(sessions[id := s], w);
    } else {
      assert m == OpenSizes(sessions[id := s], w);
    }
  }

  /** The reservation of an open session is still inside reserved_bytes, so the
      clamp at zero never changes the result. */
  lemma ClampNeverFires(db: Db, id: SessionId)
    requires SessionsOk(db) && QuotaOk(db) && id in db.sessions && Open(db.sessions[id])
    ensures db.sessions[id].ws in db.workspaces
    ensures db.sessions[id].size <= db.workspaces[db.sessions[id].ws].reserved
  {
    var w := db.sessions[id].ws;
    assert SessionOk(db, db.sessions[id]);
    SumRemove(OpenSizes(db.sessions, w), id);
  }

  lemma CreateSessionQuota(db: Db, id: SessionId, s: Session)
    requires QuotaOk(db) && Open(s)
    ensures QuotaOk(CreateSession(db, id, s).After(db))
  {
    var o := CreateSession(db, id, s);
    if o.Done? {
      forall w | w in o.db.workspaces ensures o.db.workspaces[w].reserved == Sum(OpenSizes(o.db.sessions, w)) {
        OpenGrows(db.sessions, id, s, w);
      }
    }
  }

  /** A session leaves the open ones and its workspace row settles the size. */
  lemma SettleQuota(db: Db, db': Db, id: SessionId, s: Session)
    requires SessionsOk(db) && QuotaOk(db) && id in db.sessions && Open(db.sessions[id]) && !Open(s)
    requires db'.sessions == db.sessions[id := s]
    requires db'.workspaces == Release(db, db.sessions[id].ws, db.sessions[id].createdBy, db.sessions[id].size).workspaces
          || db'.workspaces == Consume(db, db.sessions[id].ws, db.sessions[id].createdBy, db.sessions[id].size).workspaces
    ensures QuotaOk(db')
  {
    ClampNeverFires(db, id);
    forall w | w in db'.workspaces ensures db'.workspaces[w].reserved == Sum(OpenSizes(db'.sessions, w)) {
      OpenShrinks(db.sessions, id, s, w);
    }
  }

  lemma ExpiredLeaveOpen(sessions: map<SessionId, Session>, ss: set<SessionId>, w: WsId)
    ensures OpenSizes(AllExpired(sessions, ss), w) == OpenSizes(sessions - ss, w)
  {
  }

  lemma ExpireSessionsQuota(db: Db, now: Time)
    requires QuotaOk(db)
    ensures QuotaOk(ExpireSessions(db, now))
  {
    var stale := StaleSessions(db.sessions, now);
    forall w | w in db.workspaces
      ensures Sum(OpenSizes(AllExpired(db.sessions, stale), w)) ==
              Monus(db.workspaces[w].reserved, Sum(OpenSizes(Pick(db.sessions, stale), w)))
    {
      OpenSplit(db.sessions, stale, w);
      ExpiredLeaveOpen(db.sessions, stale, w);
    }
  }

  // ----- sessions ---------------------------------------------------------------

  /** Replacing the row of one session by another good one. */
  lemma SessionsUpdate(db: Db, db': Db, id: SessionId, s: Session)
    requires SessionsOk(db) && SessionOk(db, s)
    requires db'.sessions == db.sessions[id := s]
    requires NodesStay(db, db') && db.workspaces.Keys <= db'.workspaces.Keys
    ensures SessionsOk(db')
  {
    forall j | j in db'.sessions ensures SessionOk(db', db'.sessions[j]) {
      SessionFrame(db, db', db'.sessions[j]);
    }
  }

  lemma CreateSessionKeeps(db: Db, id: SessionId, s: Session)
    requires Inv(db) && Guard(db, OpCreateSession(id, s))
    ensures Inv(CreateSession(db, id, s).After(db))
  {
    var o := CreateSession(db, id, s);
    CreateSessionQuota(db, id, s);
    if o.Done? {
      TreeFrame(db, o.db);
      SessionsUpdate(db, o.db, id, s);
      VersionsFrame(db, o.db);
      ObjectsFrame(db, o.db);
    }
  }

  lemma ClosedKeeps(db: Db, id: SessionId)
    requires Inv(db) && id in db.sessions && Open(db.sessions[id])
    ensures Inv(UploadSteps.Closed(db, id))
  {
    var db' := UploadSteps.Closed(db, id);
    var s := db.sessions[id].(status := Expired);
    TreeFrame(db, db');
    assert SessionOk(db, db.sessions[id]);
    SessionsUpdate(db, db', id, s);
    SettleQuota(db, db', id, s);
    VersionsFrame(db, db');
    ObjectsFrame(db, db');
  }

  /** Expire and cancel leave the state alone or close an open session. */
  lemma ClosesOne(db: Db, id: SessionId, ws: WsId, user: UserId)
    ensures ExpireSession(db, id, ws, user).After(db) == db ||
            (id in db.sessions && Open(db.sessions[id]) && ExpireSession(db, id, ws, user).After(db) == UploadSteps.Closed(db, id))
    ensures Cancel(db, id, ws, user).After(db) == db ||
            (id in db.sessions && Open(db.sessions[id]) && Cancel(db, id, ws, user).After(db) == UploadSteps.Closed(db, id))
  {
  }

  lemma ExpireOrCancelKeeps(db: Db, id: SessionId, ws: WsId, user: UserId)
    requires Inv(db)
    ensures Inv(ExpireSession(db, id, ws, user).After(db))
    ensures Inv(Cancel(db, id, ws, user).After(db))
  {
    ClosesOne(db, id, ws, user);
    if id in db.sessions && Open(db.sessions[id]) {
      ClosedKeeps(db, id);
    }
  }

  lemma ExpireSessionsRows(db: Db, now: Time)
    requires SessionsOk(db)
    ensures SessionsOk(ExpireSessions(db, now))
  {
    var db' := ExpireSessions(db, now);
    forall j | j in db'.sessions ensures SessionOk(db', db'.sessions[j]) {
      assert SessionOk(db, db.sessions[j]);
    }
  }

  lemma ExpireSessionsKeeps(db: Db, now: Time)
    requires Inv(db)
    ensures Inv(ExpireSessions(db, now))
  {
    var db' := ExpireSessions(db, now);
    TreeFrame(db, db');
    ExpireSessionsRows(db, now);
    ExpireSessionsQuota(db, now);
    VersionsFrame(db, db');
    ObjectsFrame(db, db');
  }

  /** Decoding a list kept by the invariant returns it unchanged. */
  lemma DecodeKept(db: Db, s: Session)
    requires SessionOk(db, s)
    ensures Decode(s.received) == Some(s.received.chunks)
  {
    var list := s.received.chunks;
    forall i | 0 <= i < |list| ensures list[i] >= 0 {
      assert list[i] in list;
    }
    SortedStays(list);
  }

  lemma MarkPartKeeps(db: Db, id: SessionId, ws: WsId, user: UserId, part: int)
    requires Inv(db) && Guard(db, OpMarkPart(id, ws, user, part))
    ensures Inv(MarkPart(db, id, ws, user, part).After(db))
  {
    var o := MarkPart(db, id, ws, user, part);
    if o.Done? {
      var s := db.sessions[id];
      var list := s.received.chunks;
      assert SessionOk(db, s);
      DecodeKept(db, s);
      MarkedKeeps(list, part);
      TreeFrame(db, o.db);
      SessionsUpdate(db, o.db, id, s.(received := Json(Marked(list, part)), status := Uploading));
      MarkQuota(db, o.db, id);
      VersionsFrame(db, o.db);
      ObjectsFrame(db, o.db);
    }
  }

  lemma MarkQuota(db: Db, db': Db, id: SessionId)
    requires QuotaOk(db) && id in db.sessions && id in db'.sessions && db'.workspaces == db.workspaces
    requires db'.sessions == db.sessions[id := db'.sessions[id]]
    requires Open(db.sessions[id]) && Open(db'.sessions[id])
    requires db'.sessions[id].ws == db.sessions[id].ws && db'.sessions[id].size == db.sessions[id].size
    ensures QuotaOk(db')
  {
    forall w | w in db.workspaces ensures OpenSizes(db'.sessions, w) == OpenSizes(db.sessions, w) {
      SameOpen(db.sessions, db'.sessions, id, w);
    }
  }

  lemma SameOpen(a: map<SessionId, Session>, b: map<SessionId, Session>, id: SessionId, w: WsId)
    requires id in a && id in b && b == a[id := b[id]] && Open(a[id]) && Open(b[id])
    requires b[id].ws == a[id].ws && b[id].size == a[id].size
    ensures OpenSizes(b, w) == OpenSizes(a, w)
  {
  }

  // ----- versions ---------------------------------------------------------------

  lemma NumbersGrow(versions: map<VersionId, FileVersion>, nv: VersionId, r: FileVersion, ws: WsId, n: NodeId)
    requires nv !in versions
    ensures Numbers(versions[nv := r], ws, n) ==
            Numbers(versions, ws, n) + if r.ws == ws && r.node == n then {r.no} else {}
  {
    var after := versions[nv := r];
    forall k | k in Numbers(versions, ws, n) ensures k in Numbers(after, ws, n) {
      var v :| v in versions && versions[v].ws == ws && versions[v].node == n && versions[v].no == k;
      assert v in after && after[v] == versions[v];
    }
    if r.ws == ws && r.node == n {
      assert nv in after && after[nv] == r;
    }
  }

  lemma LargestGrows(s: set<nat>)
    ensures Largest(s + {Largest(s) + 1}) == Largest(s) + 1
  {
    var t := s + {Largest(s) + 1};
    assert Largest(s) + 1 in t;
    assert Largest(t) in t;
  }

  /** The new row `r` is one more version of node `m`, numbered one above the
      highest, and the node points at it. */
  ghost predicate Appended(db: Db, db': Db, m: NodeId, r: FileVersion) {
    && m in db.nodes && db.nodes[m].kind == File
    && r.ws == db.nodes[m].ws && r.node == m && r.no == Latest(db.versions, r.ws, m) + 1
    && db'.versions == db.versions[db.nextVersion := r] && db'.nextVersion == db.nextVersion + 1
    && m in db'.nodes && db'.nodes == db.nodes[m := db'.nodes[m]]
    && db'.nodes[m].ws == db.nodes[m].ws && db'.nodes[m].kind == File
    && db'.nodes[m].activeVersion == Some(db.nextVersion)
  }

  lemma AppendedRows(db: Db, db': Db, m: NodeId, r: FileVersion)
    requires Appended(db, db', m, r) && forall v :: v in db.versions ==> VersionRowOk(db, v)
    ensures forall v :: v in db'.versions ==> VersionRowOk(db', v)
  {
    forall v | v in db'.versions ensures VersionRowOk(db', v) {
      if v in db.versions {
        assert VersionRowOk(db, v);
      }
    }
  }

  lemma BelowLatest(db: Db, v: VersionId)
    requires v in db.versions
    ensures db.versions[v].no <= Latest(db.versions, db.versions[v].ws, db.versions[v].node)
  {
    assert db.versions[v].no in Numbers(db.versions, db.versions[v].ws, db.versions[v].node);
  }

  lemma AppendedUnique(db: Db, db': Db, m: NodeId, r: FileVersion)
    requires VersionsOk(db) && Appended(db, db', m, r)
    ensures forall v, w | v in db'.versions && w in db'.versions && db'.versions[v].node == db'.versions[w].node
              && db'.versions[v].no == db'.versions[w].no :: v == w
  {
    forall v | v in db.versions && db.versions[v].node == m ensures db.versions[v].no < r.no {
      assert VersionRowOk(db, v);
      BelowLatest(db, v);
    }
  }

  lemma AppendedElsewhere(db: Db, db': Db, m: NodeId, r: FileVersion, n: NodeId)
    requires Appended(db, db', m, r) && db.nextVersion !in db.versions
    requires n in db.nodes && n != m && NumberingOk(db, n)
    ensures NumberingOk(db', n)
  {
    NumbersGrow(db.versions, db.nextVersion, r, db.nodes[n].ws, n);
  }

  lemma AppendedHere(db: Db, db': Db, m: NodeId, r: FileVersion)
    requires Appended(db, db', m, r) && db.nextVersion !in db.versions
    requires NumberingOk(db, m)
    ensures Latest(db'.versions, r.ws, m) == Latest(db.versions, r.ws, m) + 1
    ensures NumberingOk(db', m)
  {
    NumbersGrow(db.versions, db.nextVersion, r, r.ws, m);
    LargestGrows(Numbers(db.versions, r.ws, m));
    assert IsVersion(db', r.ws, m, r.no, db.nextVersion);
  }

  lemma AddVersionKeeps(db: Db, db': Db, m: NodeId, r: FileVersion)
    requires VersionsOk(db) && Appended(db, db', m, r)
    ensures VersionsOk(db')
  {
    FreshVersionId(db);
    AppendedRows(db, db', m, r);
    AppendedUnique(db, db', m, r);
    forall n | n in db'.nodes ensures NumberingOk(db', n) {
      assert NumberingOk(db, n);
      if n == m {
        AppendedHere(db, db', m, r);
      } else {
        AppendedElsewhere(db, db', m, r, n);
      }
    }
  }

  lemma FreshKeyKeeps(db: Db, db': Db, r: FileVersion, nv: VersionId)
    requires KeysOk(db) && ClassOk(db) && r.key !in db.origin
    requires db'.versions == db.versions[nv := r] && nv !in db.versions
    requires db'.origin == db.origin[r.key := Origin(r.ws, r.node)]
    requires db'.shareItems == db.shareItems && db'.jobItems == db.jobItems
    requires db'.shares == db.shares && db'.jobs == db.jobs
    ensures KeysOk(db') && ClassOk(db')
  {
  }

  lemma FreshVersionId(db: Db)
    requires VersionsOk(db)
    ensures db.nextVersion !in db.versions
  {
    assert db.nextVersion in db.versions ==> VersionRowOk(db, db.nextVersion);
  }

  /** What a committed finalize does to its session, its quota rows and the
      tables it must not touch. */
  ghost predicate Settled(db: Db, db': Db, id: SessionId) {
    && id in db.sessions && Open(db.sessions[id])
    && db'.sessions == db.sessions[id := db.sessions[id].(status := Completed)]
    && db'.workspaces == Consume(db, db.sessions[id].ws, db.sessions[id].createdBy, db.sessions[id].size).workspaces
    && db'.shareItems == db.shareItems && db'.jobItems == db.jobItems
    && db'.shares == db.shares && db'.jobs == db.jobs
  }

  lemma SettledKeeps(db: Db, db': Db, id: SessionId)
    requires SessionsOk(db) && QuotaOk(db) && Settled(db, db', id) && NodesStay(db, db')
    ensures SessionsOk(db') && QuotaOk(db')
  {
    var s := db.sessions[id].(status := Completed);
    assert SessionOk(db, db.sessions[id]);
    SessionsUpdate(db, db', id, s);
    SettleQuota(db, db', id, s);
  }

  lemma OverwriteShape(db: Db, id: SessionId, ws: WsId, user: UserId, v: FileVersion)
    requires Mine(db, id, ws, user) && Open(db.sessions[id]) && db.sessions[id].node.Some?
    requires Overwrite(db, id, ws, user, v).Done?
    ensures var db' := Overwrite(db, id, ws, user, v).db;
            var m := db.sessions[id].node.value;
            var r := Placed(v, ws, m, Latest(db.versions, ws, m) + 1);
            && Settled(db, db', id) && SameNodes(db, db') && Appended(db, db', m, r)
            && db'.origin == db.origin[v.key := Origin(ws, m)]
  {
  }

  lemma OverwriteKeeps(db: Db, id: SessionId, ws: WsId, user: UserId, v: FileVersion, db': Db)
    requires Inv(db) && Mine(db, id, ws, user) && Open(db.sessions[id]) && db.sessions[id].node.Some?
    requires v.key !in db.origin && Overwrite(db, id, ws, user, v) == Done(db')
    ensures Inv(db')
  {
    var m := db.sessions[id].node.value;
    var r := Placed(v, ws, m, Latest(db.versions, ws, m) + 1);
    OverwriteShape(db, id, ws, user, v);
    TreeFrame(db, db');
    SettledKeeps(db, db', id);
    AddVersionKeeps(db, db', m, r);
    FreshVersionId(db);
    FreshKeyKeeps(db, db', r, db.nextVersion);
  }

  /** The state between creating the file node and adding its first version. */
  function BareNode(db: Db, ws: WsId, n: Node): Db {
    db.(nodes := db.nodes[db.nextNode := n.(ws := ws, activeVersion := None)], nextNode := db.nextNode + 1)
  }

  lemma NewFileShape(db: Db, id: SessionId, ws: WsId, user: UserId, v: FileVersion, n: Node)
    requires Mine(db, id, ws, user) && Open(db.sessions[id]) && db.sessions[id].node.None?
    requires n.kind == File && Latest(db.versions, ws, db.nextNode) == 0 && db.nextNode !in db.nodes
    ensures var db' := NewFile(db, id, ws, user, v, n);
            var mid := BareNode(db, ws, n);
            && Settled(db, db', id) && NodesStay(db, db') && SameNodes(mid, db')
            && Appended(mid, db', db.nextNode, Placed(v, ws, db.nextNode, 1))
            && db'.origin == db.origin[v.key := Origin(ws, db.nextNode)]
  {
  }

  /** A finalized new file is a created node followed by its first version. */
  lemma NewFileKeeps(db: Db, id: SessionId, ws: WsId, user: UserId, v: FileVersion, n: Node)
    requires Inv(db) && Mine(db, id, ws, user) && Open(db.sessions[id]) && db.sessions[id].node.None?
    requires v.key !in db.origin && n.kind == File && n.parent == db.sessions[id].target
    ensures Inv(NewFile(db, id, ws, user, v, n))
  {
    var db' := NewFile(db, id, ws, user, v, n);
    var mid := BareNode(db, ws, n);
    var r := Placed(v, ws, db.nextNode, 1);
    NoVersionsYet(db, ws);
    NewFileShape(db, id, ws, user, v, n);
    assert SessionOk(db, db.sessions[id]);
    NewNodeTree(db, mid, mid.nodes[db.nextNode]);
    TreeFrame(mid, db');
    SettledKeeps(db, db', id);
    NewNodeVersions(db, mid, mid.nodes[db.nextNode]);
    AddVersionKeeps(mid, db', db.nextNode, r);
    FreshVersionId(db);
    FreshKeyKeeps(db, db', r, db.nextVersion);
  }

  lemma NoVersionsYet(db: Db, ws: WsId)
    requires TreeOk(db) && VersionsOk(db)
    ensures Latest(db.versions, ws, db.nextNode) == 0
  {
    forall v | v in db.versions ensures db.versions[v].node != db.nextNode {
      assert VersionRowOk(db, v);
    }
    assert Numbers(db.versions, ws, db.nextNode) == {};
  }

  /** The two ways to commit a finalize. */
  lemma FinalizeCases(db: Db, id: SessionId, ws: WsId, user: UserId, v: FileVersion, n: Node)
    requires FinalizeSession(db, id, ws, user, v, n).Done?
    ensures Mine(db, id, ws, user) && Open(db.sessions[id])
    ensures FinalizeSession(db, id, ws, user, v, n) ==
            if db.sessions[id].node.Some? then Overwrite(db, id, ws, user, v) else Done(NewFile(db, id, ws, user, v, n))
  {
  }

  lemma FinalizeKeeps(db: Db, id: SessionId, ws: WsId, user: UserId, v: FileVersion, n: Node)
    requires Inv(db) && Guard(db, OpFinalize(id, ws, user, v, n))
    ensures Inv(FinalizeSession(db, id, ws, user, v, n).After(db))
  {
    if FinalizeSession(db, id, ws, user, v, n).Done? {
      FinalizeCases(db, id, ws, user, v, n);
      if db.sessions[id].node.Some? {
        OverwriteKeeps(db, id, ws, user, v, FinalizeSession(db, id, ws, user, v, n).db);
      } else {
        NewFileKeeps(db, id, ws, user, v, n);
      }
    }
  }

  lemma RestoredVersionShape(db: Db, ws: WsId, m: NodeId, no: int, actor: UserId, now: Time)
    requires RestoreVersion(db, ws, m, no, actor, now).Done?
    ensures var db' := RestoreVersion(db, ws, m, no, actor, now).db;
            && SameNodes(db, db') && db'.origin == db.origin
            && db'.sessions == db.sessions && db'.workspaces == db.workspaces
            && db'.shareItems == db.shareItems && db'.jobItems == db.jobItems
            && db'.shares == db.shares && db'.jobs == db.jobs
            && db.nextVersion in db'.versions && Appended(db, db', m, db'.versions[db.nextVersion])
            && exists v :: v in db.versions && SameObject(db.versions[v], db'.versions[db.nextVersion])
  {
    var v :| IsVersion(db, ws, m, no, v)
          && RestoreVersion(db, ws, m, no, actor, now).db.versions[db.nextVersion] ==
             db.versions[v].(no := Latest(db.versions, ws, m) + 1, createdBy := actor, createdAt := now);
    assert SameObject(db.versions[v], RestoreVersion(db, ws, m, no, actor, now).db.versions[db.nextVersion]);
  }

  predicate SameObject(a: FileVersion, b: FileVersion) {
    a.ws == b.ws && a.node == b.node && a.key == b.key && a.class_ == b.class_ && a.lastAccessed == b.lastAccessed
  }

  lemma RestoreVersionKeeps(db: Db, ws: WsId, m: NodeId, no: int, actor: UserId, now: Time, db': Db)
    requires Inv(db) && RestoreVersion(db, ws, m, no, actor, now) == Done(db')
    ensures Inv(db')
  {
    RestoredVersionShape(db, ws, m, no, actor, now);
    var r := db'.versions[db.nextVersion];
    FreshVersionId(db);
    TreeFrame(db, db');
    SessionsFrame(db, db');
    QuotaFrame(db, db');
    AddVersionKeeps(db, db', m, r);
    CopyKeeps(db, db', r, db.nextVersion);
  }

  /** A copy over the same object agrees with its source on key and class. */
  lemma CopyKeeps(db: Db, db': Db, r: FileVersion, nv: VersionId)
    requires KeysOk(db) && ClassOk(db) && nv !in db.versions
    requires exists v :: v in db.versions && SameObject(db.versions[v], r)
    requires db'.versions == db.versions[nv := r] && db'.origin == db.origin
    requires db'.shareItems == db.shareItems && db'.jobItems == db.jobItems
    requires db'.shares == db.shares && db'.jobs == db.jobs
    ensures KeysOk(db') && ClassOk(db')
  {
  }

  // ----- quotas and members -----------------------------------------------------

  lemma MemberStepsKeep(db: Db, ws: WsId, user: UserId, role: Role, quota: Option<int>)
    requires Inv(db)
    ensures Inv(UpdateMemberQuota(db, ws, user, quota).After(db))
    ensures Inv(UpsertMember(db, ws, user, role, quota).After(db))
    ensures Inv(RemoveMember(db, ws, user).After(db))
  {
    MembersOnly(db, ws, user, role, quota);
    MembersKeep(db, UpdateMemberQuota(db, ws, user, quota));
    MembersKeep(db, UpsertMember(db, ws, user, role, quota));
    MembersKeep(db, RemoveMember(db, ws, user));
  }

  lemma MembersOnly(db: Db, ws: WsId, user: UserId, role: Role, quota: Option<int>)
    ensures MembersChange(db, UpdateMemberQuota(db, ws, user, quota))
    ensures MembersChange(db, UpsertMember(db, ws, user, role, quota))
    ensures MembersChange(db, RemoveMember(db, ws, user))
  {
  }

  ghost predicate MembersChange(db: Db, o: Outcome) {
    o.Done? ==> o.db == db.(members := o.db.members)
  }

  lemma UpdateQuotaKeeps(db: Db, ws: WsId, quota: Option<int>)
    requires Inv(db)
    ensures Inv(UpdateQuota(db, ws, quota).After(db))
  {
    if UpdateQuota(db, ws, quota).Done? {
      WorkspaceRowKeeps(db, ws, db.workspaces[ws].(quota := quota));
    }
  }

  lemma MembersKeep(db: Db, o: Outcome)
    requires Inv(db) && MembersChange(db, o)
    ensures Inv(o.After(db))
  {
    if o.Done? {
      TreeFrame(db, o.db);
      SessionsFrame(db, o.db);
      QuotaFrame(db, o.db);
      VersionsFrame(db, o.db);
      ObjectsFrame(db, o.db);
    }
  }

  lemma NoSessionsYet(db: Db, ws: WsId)
    requires SessionsOk(db) && ws !in db.workspaces
    ensures OpenSizes(db.sessions, ws) == map[]
  {
    forall s | s in db.sessions ensures db.sessions[s].ws != ws {
      assert SessionOk(db, db.sessions[s]);
    }
  }

  lemma WorkspaceRowKeeps(db: Db, ws: WsId, w: Workspace)
    requires Inv(db)
    requires if ws in db.workspaces then w.reserved == db.workspaces[ws].reserved else w.reserved == 0
    requires Fits(w.quota, w.used, w.reserved, 0)
    ensures Inv(db.(workspaces := db.workspaces[ws := w]))
  {
    var db' := db.(workspaces := db.workspaces[ws := w]);
    TreeFrame(db, db');
    SessionsFrame(db, db');
    if ws !in db.workspaces {
      NoSessionsYet(db, ws);
    }
    WorkspaceQuota(db, db', ws, w);
    VersionsFrame(db, db');
    ObjectsFrame(db, db');
  }

  lemma CreateWorkspaceKeeps(db: Db, ws: WsId, owner: UserId, quota: Option<int>)
    requires Inv(db) && ws !in db.workspaces && (quota.Some? ==> quota.value >= 0)
    ensures Inv(CreateWorkspace(db, ws, owner, quota).After(db))
  {
    if CreateWorkspace(db, ws, owner, quota).Done? {
      WorkspaceRowKeeps(db, ws, Workspace(quota, 0, 0));
      MembersKeep(db.(workspaces := db.workspaces[ws := Workspace(quota, 0, 0)]), CreateWorkspace(db, ws, owner, quota));
    }
  }

  lemma WorkspaceQuota(db: Db, db': Db, ws: WsId, w: Workspace)
    requires QuotaOk(db) && Fits(w.quota, w.used, w.reserved, 0)
    requires w.reserved == Sum(OpenSizes(db.sessions, ws))
    requires db'.workspaces == db.workspaces[ws := w] && db'.sessions == db.sessions
    ensures QuotaOk(db')
  {
  }
}
