/** The trash: no active node hangs under a trashed one, what breaks that, and
    what the purge may therefore remove. */
module TrashSafety {
  import opened Common
  import opened Forest
  import opened Tables
  import opened NodeSteps
  import opened UploadSteps
  import opened ObjectSteps
  import opened Runs
  import opened NodeSafety
  import opened Safety
  import opened VersionSafety

  /** The parent of an active node is active. */
  ghost predicate TrashOk(nodes: map<NodeId, Node>) {
    forall n :: n in nodes && nodes[n].status == Active && nodes[n].parent.Some? && nodes[n].parent.value in nodes
      ==> nodes[nodes[n].parent.value].status == Active
  }

  /** Hence every ancestor of an active node is active. */
  lemma {:induction false} AncestorsActive(nodes: map<NodeId, Node>, n: NodeId, k: nat)
    requires TrashOk(nodes) && n in nodes && nodes[n].status == Active && Up(ParentsOf(nodes), n, k).Some?
    ensures Up(ParentsOf(nodes), n, k).value in nodes
    ensures nodes[Up(ParentsOf(nodes), n, k).value].status == Active
    decreases k
  {
    if k > 0 {
      assert Up(ParentsOf(nodes), nodes[n].parent.value, k - 1).Some?;
      AncestorsActive(nodes, nodes[n].parent.value, k - 1);
    }
  }

  lemma SubtreeOfTrash(nodes: map<NodeId, Node>, d: NodeId, r: NodeId)
    requires TrashOk(nodes) && d in nodes && r in nodes && nodes[r].status == Trashed
    requires Below(ParentsOf(nodes), d, r)
    ensures nodes[d].status == Trashed
  {
    if nodes[d].status == Active {
      var k: nat :| Up(ParentsOf(nodes), d, k) == Some(r);
      AncestorsActive(nodes, d, k);
    }
  }

  /** Two trash roots share no row. */
  lemma TrashRootsDisjoint(nodes: map<NodeId, Node>, a: NodeId, b: NodeId, d: NodeId)
    requires TrashOk(nodes) && IsTrashRoot(nodes, a) && IsTrashRoot(nodes, b)
    requires Below(ParentsOf(nodes), d, a) && Below(ParentsOf(nodes), d, b)
    ensures a == b
  {
    AncestorsComparable(ParentsOf(nodes), d, a, b);
    if Below(ParentsOf(nodes), a, b) {
      RootBelowRoot(nodes, a, b);
    } else {
      RootBelowRoot(nodes, b, a);
    }
  }

  lemma RootBelowRoot(nodes: map<NodeId, Node>, a: NodeId, b: NodeId)
    requires TrashOk(nodes) && IsTrashRoot(nodes, a) && IsTrashRoot(nodes, b) && Below(ParentsOf(nodes), a, b)
    ensures a == b
  {
    var p := ParentsOf(nodes);
    var k: nat :| Up(p, a, k) == Some(b);
    if k > 0 {
      var q := nodes[a].parent.value;
      assert Up(p, q, k - 1) == Some(b);
      UpStays(p, q, 0);
      assert q in nodes;
      SubtreeOfTrash(nodes, q, b);
    }
  }

  // ----- which steps keep it ----------------------------------------------------

  /** The one way to break it: a node is created under a trashed parent. Neither
      CreateNode nor FinalizeSession looks at the parent's status. */
  ghost predicate HangsUnderTrash(db: Db, op: Op) {
    match op
    case OpCreateNode(n) => n.parent.Some? && n.parent.value in db.nodes && db.nodes[n.parent.value].status == Trashed
    case OpFinalize(sid, ws, user, v, n) =>
      && ReadyToFinalize(db, sid, ws, user) && db.sessions[sid].node.None?
      && n.parent.Some? && n.parent.value in db.nodes && db.nodes[n.parent.value].status == Trashed
    case _ => false
  }

  lemma NewNodeTrash(nodes: map<NodeId, Node>, id: NodeId, n: Node)
    requires TrashOk(nodes) && id !in nodes && n.status == Active && n.parent != Some(id)
    requires forall m :: m in nodes ==> nodes[m].parent != Some(id)
    ensures TrashOk(nodes[id := n]) <==>
            !(n.parent.Some? && n.parent.value in nodes && nodes[n.parent.value].status == Trashed)
  {
    var after := nodes[id := n];
    if n.parent.Some? && n.parent.value in nodes && nodes[n.parent.value].status == Trashed {
      assert after[id] == n && after[n.parent.value].status == Trashed;
    }
  }

  lemma NoChildYet(db: Db)
    requires TreeOk(db)
    ensures db.nextNode !in db.nodes && forall m :: m in db.nodes ==> db.nodes[m].parent != Some(db.nextNode)
  {
    forall m | m in db.nodes && db.nodes[m].parent.Some? ensures db.nodes[m].parent.value in db.nodes {
      assert ParentsOf(db.nodes)[m].value in ParentsOf(db.nodes);
    }
  }

  lemma TrashKeepsTrashOk(db: Db, ws: WsId, id: NodeId, actor: UserId, now: Time)
    requires TreeOk(db) && TrashOk(db.nodes) && TrashSubtree(db, ws, id, actor, now).Done?
    ensures TrashOk(TrashSubtree(db, ws, id, actor, now).db.nodes)
  {
    var after := TrashSubtree(db, ws, id, actor, now).db.nodes;
    forall n | n in after && after[n].status == Active && after[n].parent.Some? && after[n].parent.value in after
      ensures after[after[n].parent.value].status == Active
    {
      ChildInSubtree(db, ws, id, n);
    }
  }

  lemma ChildInSubtree(db: Db, ws: WsId, id: NodeId, n: NodeId)
    requires TreeOk(db) && n in db.nodes && db.nodes[n].parent.Some?
    ensures db.nodes[n].parent.value in Subtree(db.nodes, ws, id) ==> n in Subtree(db.nodes, ws, id)
  {
    var p := ParentsOf(db.nodes);
    var q := db.nodes[n].parent.value;
    if q in Subtree(db.nodes, ws, id) {
      var k: nat :| Up(p, q, k) == Some(id);
      assert Up(p, n, k + 1) == Some(id);
    }
  }

  lemma RestoreKeepsTrashOk(db: Db, ws: WsId, id: NodeId, actor: UserId)
    requires TreeOk(db) && TrashOk(db.nodes) && RestoreSubtree(db, ws, id, actor).Done?
    ensures TrashOk(RestoreSubtree(db, ws, id, actor).db.nodes)
  {
    var after := RestoreSubtree(db, ws, id, actor).db.nodes;
    var p := ParentsOf(db.nodes);
    forall n | n in after && after[n].status == Active && after[n].parent.Some? && after[n].parent.value in after
      ensures after[after[n].parent.value].status == Active
    {
      var q := db.nodes[n].parent.value;
      if db.nodes[n].status == Trashed && n != id {
        var k: nat :| Up(p, n, k) == Some(id);
        assert k > 0 && Up(p, q, k - 1) == Some(id);
        assert q in Subtree(db.nodes, ws, id);
      }
    }
  }

  lemma {:induction false} PurgeShrinks(db: Db, snapshot: map<NodeId, Node>, order: seq<NodeId>, now: Time)
    ensures NodesShrink(db, PurgeRoots(db, snapshot, order, now))
    decreases |order|
  {
    if order != [] {
      var next := if order[0] in snapshot then PurgeRoot(db, snapshot[order[0]].ws, order[0], now) else db;
      PurgeShrinks(next, snapshot, order[1..], now);
    }
  }

  lemma ShrunkTrashOk(db: Db, db': Db)
    requires TrashOk(db.nodes) && NodesShrink(db, db')
    ensures TrashOk(db'.nodes)
  {
  }

  /** Node rows keep parent, status and trash time. */
  ghost predicate SameStatus(a: map<NodeId, Node>, b: map<NodeId, Node>) {
    && a.Keys == b.Keys
    && forall n :: n in a ==>
         a[n].status == b[n].status && a[n].trashedAt == b[n].trashedAt && a[n].parent == b[n].parent
  }

  lemma SameStatusTrashOk(a: map<NodeId, Node>, b: map<NodeId, Node>)
    requires TrashOk(a) && SameStatus(a, b)
    ensures TrashOk(b)
  {
  }

  /** The transaction finalizes an upload of a new file. */
  predicate MakesFile(db: Db, op: Op) {
    op.OpFinalize? && ReadyToFinalize(db, op.sid, op.ws, op.user) && db.sessions[op.sid].node.None?
  }

  /** The session row alone tells that a finalize takes the branch of a new file. */
  lemma NewFileBranch(db: Db, sid: SessionId, ws: WsId, user: UserId, v: FileVersion, n: Node)
    ensures ReadyToFinalize(db, sid, ws, user) && db.sessions[sid].node.None? <==>
            FinalizeSession(db, sid, ws, user, v, n).Done? && db.sessions[sid].node.None?
    ensures ReadyToFinalize(db, sid, ws, user) && db.sessions[sid].node.None? ==>
              FinalizeSession(db, sid, ws, user, v, n) == Done(NewFile(db, sid, ws, user, v, n))
  {
  }

  lemma OtherStepsSameStatus(db: Db, op: Op)
    requires !IsNodeOp(op) && !MakesFile(db, op)
    ensures SameStatus(db.nodes, Step(db, op).nodes)
  {
    if op.OpRestoreVersion? {
      RestoreSameStatus(db, op.ws, op.id, op.no, op.actor, op.now);
    } else if op.OpFinalize? {
      NewFileBranch(db, op.sid, op.ws, op.user, op.v, op.n);
      OverwriteSameStatus(db, op.sid, op.ws, op.user, op.v, op.n);
    } else {
      QuietKeepsNumbers(db, op);
    }
  }

  lemma RestoreSameStatus(db: Db, ws: WsId, m: NodeId, no: int, actor: UserId, now: Time)
    ensures SameStatus(db.nodes, RestoreVersion(db, ws, m, no, actor, now).After(db).nodes)
  {
  }

  lemma OverwriteSameStatus(db: Db, id: SessionId, ws: WsId, user: UserId, v: FileVersion, n: Node)
    requires FinalizeSession(db, id, ws, user, v, n).Done? ==> db.sessions[id].node.Some?
    ensures SameStatus(db.nodes, FinalizeSession(db, id, ws, user, v, n).After(db).nodes)
  {
  }

  /** A transaction keeps the trash in order exactly when it does not create a
      node under a trashed parent. */
  lemma StepTrash(db: Db, op: Op)
    requires TreeOk(db) && SessionsOk(db) && TrashOk(db.nodes) && Guard(db, op)
    ensures TrashOk(Step(db, op).nodes) <==> !HangsUnderTrash(db, op)
  {
    if op.OpCreateNode? {
      NoChildYet(db);
      NewNodeTrash(db.nodes, db.nextNode, op.n);
    } else if MakesFile(db, op) {
      assert SessionOk(db, db.sessions[op.sid]);
      NewFileTrash(db, op);
    } else if IsNodeOp(op) {
      NodeStepTrash(db, op);
    } else {
      OtherStepsSameStatus(db, op);
      SameStatusTrashOk(db.nodes, Step(db, op).nodes);
    }
  }

  lemma NewFileTrash(db: Db, op: Op)
    requires TreeOk(db) && TrashOk(db.nodes) && op.OpFinalize? && op.n.status == Active
    requires MakesFile(db, op) && op.n.parent != Some(db.nextNode)
    ensures TrashOk(Step(db, op).nodes) <==> !HangsUnderTrash(db, op)
  {
    NewFileBranch(db, op.sid, op.ws, op.user, op.v, op.n);
    NoChildYet(db);
    NewNodeTrash(db.nodes, db.nextNode, op.n.(ws := op.ws, activeVersion := Some(db.nextVersion)));
  }

  lemma NodeStepTrash(db: Db, op: Op)
    requires TreeOk(db) && TrashOk(db.nodes) && IsNodeOp(op) && !op.OpCreateNode?
    ensures TrashOk(Step(db, op).nodes)
  {
    match op
    case OpMove(ws, id, actor, q) =>
    case OpTrash(ws, id, actor, now) =>
      if TrashSubtree(db, ws, id, actor, now).Done? {
        TrashKeepsTrashOk(db, ws, id, actor, now);
      }
    case OpRestore(ws, id, actor) =>
      if RestoreSubtree(db, ws, id, actor).Done? {
        RestoreKeepsTrashOk(db, ws, id, actor);
      }
    case OpPurge(cutoff, now, order) =>
      PurgeShrinks(db, db.nodes, order, now);
      ShrunkTrashOk(db, Step(db, op));
  }

  /** A run in which no node is created under a trashed parent. */
  ghost predicate IsTidyRun(db: Db, ops: seq<Op>)
    decreases |ops|
  {
    ops != [] ==> Guard(db, ops[0]) && !HangsUnderTrash(db, ops[0]) && IsTidyRun(Step(db, ops[0]), ops[1..])
  }

  lemma {:induction false} TidyRunsKeepTrashOk(db: Db, ops: seq<Op>)
    requires Inv(db) && TrashOk(db.nodes) && IsTidyRun(db, ops)
    ensures TrashOk(Final(db, ops).nodes)
    decreases |ops|
  {
    if ops != [] {
      StepKeeps(db, ops[0]);
      StepTrash(db, ops[0]);
      TidyRunsKeepTrashOk(Step(db, ops[0]), ops[1..]);
    }
  }

  // ----- what a purge removes ---------------------------------------------------

  /** With the trash in order, a purge removes only trashed rows. */
  lemma {:induction false} PurgeRemovesOnlyTrash(
    db: Db, snapshot: map<NodeId, Node>, order: seq<NodeId>, now: Time, n: NodeId)
    requires Inv(db) && TrashOk(db.nodes)
    requires forall m :: m in db.nodes ==> m in snapshot && db.nodes[m] == snapshot[m]
    requires forall r :: r in order ==> IsTrashRoot(snapshot, r)
    requires n in db.nodes && n !in PurgeRoots(db, snapshot, order, now).nodes
    ensures db.nodes[n].status == Trashed
    decreases |order|
  {
    if order != [] {
      var r := order[0];
      assert r in order;
      var next := PurgeRoot(db, snapshot[r].ws, r, now);
      PurgeRootKeeps(db, snapshot[r].ws, r, now);
      ShrunkTrashOk(db, next);
      if n in next.nodes {
        PurgeRemovesOnlyTrash(next, snapshot, order[1..], now, n);
      } else {
        RemovedIsInScope(db, snapshot[r].ws, r, now, n);
        if r in db.nodes && Below(ParentsOf(db.nodes), n, r) {
          SubtreeOfTrash(db.nodes, n, r);
        }
      }
    }
  }

  lemma RemovedIsInScope(db: Db, ws: WsId, r: NodeId, now: Time, n: NodeId)
    requires n in db.nodes && n !in PurgeRoot(db, ws, r, now).nodes
    ensures n == r || (r in db.nodes && Below(ParentsOf(db.nodes), n, r))
  {
    var sub := Subtree(db.nodes, ws, r);
    if sub != {} {
      assert n in sub;
      var k: nat :| Up(ParentsOf(db.nodes), n, k) == Some(r);
      UpStays(ParentsOf(db.nodes), n, k);
    }
  }

  /** PurgeExpiredTrash: active rows stay, and no survivor loses its parent. */
  lemma PurgeIsClean(db: Db, cutoff: Time, now: Time, order: seq<NodeId>, n: NodeId)
    requires Inv(db) && TrashOk(db.nodes) && ListsExpiredRoots(db.nodes, cutoff, order) && n in db.nodes
    ensures var after := PurgeRoots(db, db.nodes, order, now).nodes;
            && (db.nodes[n].status == Active ==> n in after && after[n] == db.nodes[n])
            && (n in after && after[n].parent.Some? ==> after[n].parent.value in after)
  {
    var db' := PurgeRoots(db, db.nodes, order, now);
    PurgeShrinks(db, db.nodes, order, now);
    PurgeRootsKeep(db, db.nodes, order, now);
    if n !in db'.nodes {
      PurgeRemovesOnlyTrash(db, db.nodes, order, now, n);
    } else if db'.nodes[n].parent.Some? {
      assert ParentsOf(db'.nodes)[n].value in ParentsOf(db'.nodes);
    }
  }
}
