/** The directory transactions keep every invariant. */
module NodeSafety {
  import opened Common
  import opened Forest
  import opened Tables
  import opened NodeSteps
  import UploadSteps
  import opened Runs
  import opened Frames

  lemma CreateNodeKeeps(db: Db, n: Node)
    requires Inv(db) && Guard(db, OpCreateNode(n))
    ensures Inv(CreateNode(db, n).db)
  {
    var db' := CreateNode(db, n).db;
    NewNodeTree(db, db', n);
    SessionsFrame(db, db');
    QuotaFrame(db, db');
    NewNodeVersions(db, db', n);
    ObjectsFrame(db, db');
  }

  lemma NewNodeTree(db: Db, db': Db, n: Node)
    requires TreeOk(db) && ParentInPlace(db, n.ws, n.parent)
    requires db'.nodes == db.nodes[db.nextNode := n] && db'.nextNode == db.nextNode + 1
    ensures TreeOk(db')
  {
    assert ParentsOf(db'.nodes) == ParentsOf(db.nodes)[db.nextNode := n.parent];
    CreateKeepsForest(ParentsOf(db.nodes), db.nextNode, n.parent);
    forall m | m in db.nodes && db.nodes[m].parent.Some? ensures db.nodes[m].parent.value in db.nodes {
      assert ParentsOf(db.nodes)[m].value in ParentsOf(db.nodes);
    }
  }

  lemma NewNodeVersions(db: Db, db': Db, n: Node)
    requires VersionsOk(db) && db.nextNode !in db.nodes && n.activeVersion.None?
    requires db'.nodes == db.nodes[db.nextNode := n]
    requires db'.versions == db.versions && db'.nextVersion == db.nextVersion
    ensures VersionsOk(db')
  {
    forall v | v in db'.versions ensures VersionRowOk(db', v) {
      assert VersionRowOk(db, v);
    }
    forall m | m in db'.nodes ensures NumberingOk(db', m) {
      if m != db.nextNode {
        assert NumberingOk(db, m);
      } else {
        forall v | v in db.versions ensures db.versions[v].node != m {
          assert VersionRowOk(db, v);
        }
        assert Numbers(db'.versions, n.ws, m) == {};
      }
    }
  }

  lemma MoveKeeps(db: Db, ws: WsId, id: NodeId, actor: UserId, q: Option<NodeId>)
    requires Inv(db)
    ensures Inv(Move(db, ws, id, actor, q).After(db))
  {
    var o := Move(db, ws, id, actor, q);
    if o.Done? {
      MoveTree(db, ws, id, actor, q);
      MoveShape(db, ws, id, actor, q);
      MovedKeeps(db, o.db);
    }
  }

  /** Only parents and editors of node rows changed. */
  ghost predicate ParentsOnly(db: Db, db': Db) {
    && db' == db.(nodes := db'.nodes) && db'.nodes.Keys == db.nodes.Keys
    && forall n :: n in db.nodes ==>
         && db'.nodes[n].ws == db.nodes[n].ws && db'.nodes[n].kind == db.nodes[n].kind
         && db'.nodes[n].activeVersion == db.nodes[n].activeVersion && db'.nodes[n].status == db.nodes[n].status
  }

  lemma MoveShape(db: Db, ws: WsId, id: NodeId, actor: UserId, q: Option<NodeId>)
    ensures ParentsOnly(db, Move(db, ws, id, actor, q).After(db))
  {
    if id in db.nodes {
      ReparentShape(db, id, actor, q);
    }
  }

  lemma ReparentShape(db: Db, id: NodeId, actor: UserId, q: Option<NodeId>)
    requires id in db.nodes
    ensures ParentsOnly(db, db.(nodes := db.nodes[id := db.nodes[id].(parent := q, updatedBy := actor)]))
  {
    assert db.nodes[id := db.nodes[id].(parent := q, updatedBy := actor)].Keys == db.nodes.Keys;
  }

  lemma MovedKeeps(db: Db, db': Db)
    requires Inv(db) && ParentsOnly(db, db') && TreeOk(db')
    ensures Inv(db')
  {
    SessionsFrame(db, db');
    QuotaFrame(db, db');
    VersionsFrame(db, db');
    ObjectsFrame(db, db');
  }

  lemma MoveTree(db: Db, ws: WsId, id: NodeId, actor: UserId, q: Option<NodeId>)
    requires TreeOk(db) && Move(db, ws, id, actor, q).Done?
    ensures TreeOk(Move(db, ws, id, actor, q).db)
  {
    var db' := Move(db, ws, id, actor, q).db;
    if db' != db {
      assert ParentsOf(db'.nodes) == ParentsOf(db.nodes)[id := q];
      MoveKeepsForest(ParentsOf(db.nodes), id, q);
    }
  }

  lemma TrashKeeps(db: Db, ws: WsId, id: NodeId, actor: UserId, now: Time)
    requires Inv(db)
    ensures Inv(TrashSubtree(db, ws, id, actor, now).After(db))
  {
    TrashShape(db, ws, id, actor, now);
    OutcomeKeeps(db, TrashSubtree(db, ws, id, actor, now));
  }

  lemma TrashShape(db: Db, ws: WsId, id: NodeId, actor: UserId, now: Time)
    ensures TrashSubtree(db, ws, id, actor, now).Done? ==> StatusOnly(db, TrashSubtree(db, ws, id, actor, now).db)
  {
  }

  lemma RestoreKeeps(db: Db, ws: WsId, id: NodeId, actor: UserId)
    requires Inv(db)
    ensures Inv(RestoreSubtree(db, ws, id, actor).After(db))
  {
    RestoredNodesShape(db, ws, id, actor);
    OutcomeKeeps(db, RestoreSubtree(db, ws, id, actor));
  }

  lemma RestoredNodesShape(db: Db, ws: WsId, id: NodeId, actor: UserId)
    ensures RestoreSubtree(db, ws, id, actor).Done? ==> StatusOnly(db, RestoreSubtree(db, ws, id, actor).db)
  {
  }

  lemma OutcomeKeeps(db: Db, o: Outcome)
    requires Inv(db) && (o.Done? ==> StatusOnly(db, o.db))
    ensures Inv(o.After(db))
  {
    if o.Done? {
      StatusOnlyKeeps(db, o.db);
    }
  }

  /** Only status, trash time and editor of node rows changed. */
  ghost predicate StatusOnly(db: Db, db': Db) {
    && db' == db.(nodes := db'.nodes) && SameNodes(db, db')
    && forall n :: n in db.nodes ==> db'.nodes[n].activeVersion == db.nodes[n].activeVersion
  }

  lemma StatusOnlyKeeps(db: Db, db': Db)
    requires Inv(db) && StatusOnly(db, db')
    ensures Inv(db')
  {
    TreeFrame(db, db');
    SessionsFrame(db, db');
    QuotaFrame(db, db');
    VersionsFrame(db, db');
    ObjectsFrame(db, db');
  }

  // ----- purge ------------------------------------------------------------------

  /** The rows a purge of scope `ns` deletes from the node table. */
  ghost function GoneNodes(db: Db, ws: WsId, ns: set<NodeId>): set<NodeId> {
    set n | n in db.nodes && n in ns && db.nodes[n].ws == ws
  }

  /** What the purge of one root relies on: no row outside the scope has a parent
      inside it, and the scope names no row of another workspace. */
  ghost predicate GoodScope(db: Db, ws: WsId, ns: set<NodeId>) {
    && (forall n :: n in ns && n in db.nodes ==> db.nodes[n].ws == ws)
    && (forall n :: n in db.nodes && db.nodes[n].parent.Some? && db.nodes[n].parent.value in ns ==> n in ns)
  }

  lemma ScopeIsGood(db: Db, ws: WsId, root: NodeId)
    requires TreeOk(db) && (root in db.nodes ==> db.nodes[root].ws == ws)
    ensures GoodScope(db, ws, Scope(db.nodes, ws, root))
  {
    var p := ParentsOf(db.nodes);
    var ns := Scope(db.nodes, ws, root);
    if root in db.nodes {
      assert Up(p, root, 0) == Some(root);
      assert root in Subtree(db.nodes, ws, root);
    }
    SubtreeDownClosed(p, root);
    forall n | n in db.nodes && db.nodes[n].parent.Some? && db.nodes[n].parent.value in ns ensures n in ns {
      assert p[n].value in db.nodes;
    }
  }

  lemma PurgeTree(db: Db, ws: WsId, ns: set<NodeId>, now: Time)
    requires TreeOk(db) && GoodScope(db, ws, ns)
    ensures TreeOk(Purged(db, ws, ns, now))
  {
    var db' := Purged(db, ws, ns, now);
    var gone := GoneNodes(db, ws, ns);
    assert db'.nodes == db.nodes - gone;
    assert ParentsOf(db'.nodes) == ParentsOf(db.nodes) - gone;
    DropKeepsForest(ParentsOf(db.nodes), gone);
  }

  lemma PurgeSessions(db: Db, ws: WsId, ns: set<NodeId>, now: Time)
    requires SessionsOk(db) && GoodScope(db, ws, ns)
    ensures SessionsOk(Purged(db, ws, ns, now))
  {
    var db' := Purged(db, ws, ns, now);
    forall s | s in db'.sessions ensures SessionOk(db', db'.sessions[s]) {
      assert s in db.sessions && s !in SessionsOn(db.sessions, ws, ns);
      assert SessionOk(db, db.sessions[s]);
    }
  }

  /** The open reservations split into released and kept ones. */
  lemma OpenSplit(sessions: map<SessionId, Session>, ss: set<SessionId>, w: WsId)
    ensures Sum(OpenSizes(sessions, w)) == Sum(OpenSizes(Pick(sessions, ss), w)) + Sum(OpenSizes(sessions - ss, w))
  {
    var open := OpenSizes(sessions, w);
    SumSplit(open, ss);
    assert OpenSizes(sessions - ss, w) == open - ss;
    assert OpenSizes(Pick(sessions, ss), w) == map k | k in open && k in ss :: open[k];
  }

  lemma PurgeQuota(db: Db, ws: WsId, ns: set<NodeId>, now: Time)
    requires QuotaOk(db)
    ensures QuotaOk(Purged(db, ws, ns, now))
  {
    var ss := SessionsOn(db.sessions, ws, ns);
    var dropped := Pick(db.versions, VersionsOn(db.versions, ws, ns));
    var rows := LessUsed(LessReserved(db.workspaces, Pick(db.sessions, ss)), ws, dropped);
    forall w | w in rows
      ensures rows[w].reserved == Sum(OpenSizes(db.sessions - ss, w))
      ensures UploadSteps.Fits(rows[w].quota, rows[w].used, rows[w].reserved, 0)
    {
      PurgeQuotaRow(db, ws, ss, dropped, w);
    }
  }

  /** Releasing what the dropped sessions reserved leaves what the kept ones reserve. */
  lemma PurgeQuotaRow(db: Db, ws: WsId, ss: set<SessionId>, dropped: map<VersionId, FileVersion>, w: WsId)
    requires QuotaOk(db) && w in db.workspaces
    ensures var row := LessUsed(LessReserved(db.workspaces, Pick(db.sessions, ss)), ws, dropped)[w];
            row.reserved == Sum(OpenSizes(db.sessions - ss, w)) && UploadSteps.Fits(row.quota, row.used, row.reserved, 0)
  {
    OpenSplit(db.sessions, ss, w);
    SmallerRow(db.workspaces[w], w == ws, Sum(OpenSizes(Pick(db.sessions, ss), w)), Sum(OpenSizes(db.sessions - ss, w)),
               Sum(VersionSizes(dropped)));
  }

  lemma SmallerRow(row: Workspace, here: bool, released: nat, kept: nat, freed: nat)
    requires row.reserved == released + kept && UploadSteps.Fits(row.quota, row.used, row.reserved, 0)
    ensures var less := row.(reserved := Monus(row.reserved, released));
            var after := if here then less.(used := Monus(less.used, freed)) else less;
            after.reserved == kept && UploadSteps.Fits(after.quota, after.used, after.reserved, 0)
  {
  }

  lemma PurgedNumbers(db: Db, ws: WsId, ns: set<NodeId>, w: WsId, n: NodeId)
    requires n !in ns
    ensures Numbers(db.versions - VersionsOn(db.versions, ws, ns), w, n) == Numbers(db.versions, w, n)
  {
    var kept := db.versions - VersionsOn(db.versions, ws, ns);
    forall k | k in Numbers(db.versions, w, n) ensures k in Numbers(kept, w, n) {
      var v :| v in db.versions && db.versions[v].ws == w && db.versions[v].node == n && db.versions[v].no == k;
      assert v in kept;
    }
  }

  lemma PurgedNumbering(db: Db, db': Db, ws: WsId, ns: set<NodeId>, n: NodeId)
    requires n in db.nodes && n in db'.nodes && n !in ns && db'.nodes[n] == db.nodes[n] && NumberingOk(db, n)
    requires db'.versions == db.versions - VersionsOn(db.versions, ws, ns)
    ensures NumberingOk(db', n)
  {
    PurgedNumbers(db, ws, ns, db.nodes[n].ws, n);
  }

  lemma PurgeVersions(db: Db, ws: WsId, ns: set<NodeId>, now: Time)
    requires VersionsOk(db) && GoodScope(db, ws, ns)
    ensures VersionsOk(Purged(db, ws, ns, now))
  {
    var db' := Purged(db, ws, ns, now);
    forall v | v in db'.versions ensures VersionRowOk(db', v) {
      assert v in db.versions && v !in VersionsOn(db.versions, ws, ns);
      assert VersionRowOk(db, v);
    }
    forall n | n in db'.nodes ensures NumberingOk(db', n) {
      assert n in db.nodes && n !in ns;
      assert NumberingOk(db, n);
      PurgedNumbering(db, db', ws, ns, n);
    }
  }

  lemma PurgeObjects(db: Db, ws: WsId, ns: set<NodeId>, now: Time)
    requires KeysOk(db) && ClassOk(db)
    ensures KeysOk(Purged(db, ws, ns, now)) && ClassOk(Purged(db, ws, ns, now))
  {
  }

  lemma PurgeRootKeeps(db: Db, ws: WsId, root: NodeId, now: Time)
    requires Inv(db) && (root in db.nodes ==> db.nodes[root].ws == ws)
    ensures Inv(PurgeRoot(db, ws, root, now))
    ensures NodesShrink(db, PurgeRoot(db, ws, root, now))
  {
    var ns := Scope(db.nodes, ws, root);
    ScopeIsGood(db, ws, root);
    PurgeTree(db, ws, ns, now);
    PurgeSessions(db, ws, ns, now);
    PurgeQuota(db, ws, ns, now);
    PurgeVersions(db, ws, ns, now);
    PurgeObjects(db, ws, ns, now);
  }

  ghost predicate NodesShrink(db: Db, db': Db) {
    forall n :: n in db'.nodes ==> n in db.nodes && db'.nodes[n] == db.nodes[n]
  }

  lemma {:induction false} PurgeRootsKeep(db: Db, snapshot: map<NodeId, Node>, order: seq<NodeId>, now: Time)
    requires Inv(db)
    requires forall n :: n in db.nodes ==> n in snapshot && db.nodes[n] == snapshot[n]
    ensures Inv(PurgeRoots(db, snapshot, order, now))
    decreases |order|
  {
    if order != [] {
      if order[0] in snapshot {
        PurgeRootKeeps(db, snapshot[order[0]].ws, order[0], now);
        PurgeRootsKeep(PurgeRoot(db, snapshot[order[0]].ws, order[0], now), snapshot, order[1..], now);
      } else {
        PurgeRootsKeep(db, snapshot, order[1..], now);
      }
    }
  }
}
