/** Optimistic version numbers: a stale overwrite never commits. */
module VersionSafety {
  import opened Common
  import opened Tables
  import opened NodeSteps
  import opened UploadSteps
  import opened ObjectSteps
  import opened Runs
  import opened NodeSafety
  import opened UploadSafety
  import opened ObjectSafety
  import opened Safety
  import opened PurgeSafety

  /** Node `n` is gone for good or already has a version above `base`. */
  ghost predicate BaseIsStale(db: Db, n: NodeId, base: int) {
    n < db.nextNode && (n in db.nodes ==> Latest(db.versions, db.nodes[n].ws, n) > base)
  }

  /** The row of `n` stays in its workspace and its version numbers only grow. */
  ghost predicate NumbersOnlyGrow(db: Db, db': Db, n: NodeId) {
    && db.nextNode <= db'.nextNode
    && (n in db'.nodes && n < db.nextNode ==>
          && n in db.nodes && db'.nodes[n].ws == db.nodes[n].ws
          && Numbers(db.versions, db.nodes[n].ws, n) <= Numbers(db'.versions, db.nodes[n].ws, n))
  }

  lemma StaleWhenGrowing(db: Db, db': Db, n: NodeId, base: int)
    requires BaseIsStale(db, n, base) && base >= 0 && NumbersOnlyGrow(db, db', n)
    ensures BaseIsStale(db', n, base)
  {
    if n in db'.nodes {
      var ws := db.nodes[n].ws;
      assert Latest(db.versions, ws, n) in Numbers(db'.versions, ws, n);
    }
  }

  lemma {:induction false} PurgeStale(
    db: Db, snapshot: map<NodeId, Node>, order: seq<NodeId>, at: Time, n: NodeId, base: int)
    requires Inv(db) && BaseIsStale(db, n, base) && base >= 0
    requires forall m :: m in db.nodes ==> m in snapshot && db.nodes[m] == snapshot[m]
    ensures BaseIsStale(PurgeRoots(db, snapshot, order, at), n, base)
    decreases |order|
  {
    if order != [] {
      var r := order[0];
      if r in snapshot {
        var next := PurgeRoot(db, snapshot[r].ws, r, at);
        PurgeRootKeeps(db, snapshot[r].ws, r, at);
        PurgeRootGrows(db, snapshot[r].ws, r, at, n);
        StaleWhenGrowing(db, next, n, base);
        PurgeStale(next, snapshot, order[1..], at, n, base);
      } else {
        PurgeStale(db, snapshot, order[1..], at, n, base);
      }
    }
  }

  lemma PurgeRootGrows(db: Db, ws: WsId, r: NodeId, at: Time, n: NodeId)
    requires TreeOk(db) && (r in db.nodes ==> db.nodes[r].ws == ws)
    ensures NumbersOnlyGrow(db, PurgeRoot(db, ws, r, at), n)
  {
    var ns := Scope(db.nodes, ws, r);
    ScopeIsGood(db, ws, r);
    if n in db.nodes && n !in ns {
      PurgedNumbers(db, ws, ns, db.nodes[n].ws, n);
    }
  }

  lemma QuietNodeOpGrows(db: Db, op: Op, n: NodeId)
    requires IsNodeOp(op) && !op.OpPurge?
    ensures NumbersOnlyGrow(db, ExecNode(db, op).After(db), n)
  {
    QuietNodeOp(db, op);
    NodesKeepWorkspace(db, op, n);
  }

  ghost predicate KeepsWorkspace(db: Db, db': Db, n: NodeId) {
    && db.nextNode <= db'.nextNode
    && (n in db'.nodes && n < db.nextNode ==> n in db.nodes && db'.nodes[n].ws == db.nodes[n].ws)
  }

  lemma NodesKeepWorkspace(db: Db, op: Op, n: NodeId)
    requires IsNodeOp(op) && !op.OpPurge?
    ensures KeepsWorkspace(db, ExecNode(db, op).After(db), n)
  {
    if op.OpTrash? {
      TrashShape(db, op.ws, op.id, op.actor, op.now);
    } else if op.OpRestore? {
      RestoredNodesShape(db, op.ws, op.id, op.actor);
    } else if op.OpMove? {
      MoveKeepsWorkspace(db, op.ws, op.id, op.actor, op.q, n);
    }
  }

  lemma MoveKeepsWorkspace(db: Db, ws: WsId, id: NodeId, actor: UserId, q: Option<NodeId>, n: NodeId)
    ensures KeepsWorkspace(db, Move(db, ws, id, actor, q).After(db), n)
  {
    MoveShape(db, ws, id, actor, q);
  }

  /** Neither nodes nor version numbers are touched. */
  lemma QuietOpGrows(db: Db, db': Db, n: NodeId)
    requires KeepsNumbers(db, db')
    ensures NumbersOnlyGrow(db, db', n)
  {
    if n in db.nodes {
      SameNumbers(db.versions, db'.versions, db.nodes[n].ws, n);
    }
  }

  lemma AppendedGrows(db: Db, db': Db, m: NodeId, r: FileVersion, n: NodeId)
    requires Appended(db, db', m, r) && db.nextVersion !in db.versions && db.nextNode <= db'.nextNode
    ensures NumbersOnlyGrow(db, db', n)
  {
    if n in db.nodes {
      NumbersGrow(db.versions, db.nextVersion, r, db.nodes[n].ws, n);
    }
  }

  lemma OverwriteGrows(db: Db, db': Db, sid: SessionId, ws: WsId, user: UserId, v: FileVersion, n: NodeId)
    requires VersionsOk(db) && Mine(db, sid, ws, user) && Open(db.sessions[sid]) && db.sessions[sid].node.Some?
    requires Overwrite(db, sid, ws, user, v) == Done(db')
    ensures NumbersOnlyGrow(db, db', n)
  {
    var m := db.sessions[sid].node.value;
    var r := Placed(v, ws, m, Latest(db.versions, ws, m) + 1);
    OverwriteShape(db, sid, ws, user, v);
    FreshVersionId(db);
    AppendedGrows(db, db', m, r, n);
  }

  lemma NewFileGrows(db: Db, sid: SessionId, ws: WsId, user: UserId, v: FileVersion, f: Node, n: NodeId)
    requires VersionsOk(db) && TreeOk(db) && f.kind == File
    requires Mine(db, sid, ws, user) && Open(db.sessions[sid]) && db.sessions[sid].node.None?
    ensures NumbersOnlyGrow(db, NewFile(db, sid, ws, user, v, f), n)
  {
    FreshVersionId(db);
    NoVersionsYet(db, ws);
    NewFileShape(db, sid, ws, user, v, f);
    AppendedGrows(BareNode(db, ws, f), NewFile(db, sid, ws, user, v, f), db.nextNode,
                  Placed(v, ws, db.nextNode, 1), n);
  }

  lemma FinalizeGrows(db: Db, sid: SessionId, ws: WsId, user: UserId, v: FileVersion, f: Node, n: NodeId)
    requires VersionsOk(db) && TreeOk(db) && f.kind == File
    ensures NumbersOnlyGrow(db, FinalizeSession(db, sid, ws, user, v, f).After(db), n)
  {
    if FinalizeSession(db, sid, ws, user, v, f).Done? {
      FinalizeCases(db, sid, ws, user, v, f);
      if db.sessions[sid].node.Some? {
        OverwriteGrows(db, Overwrite(db, sid, ws, user, v).db, sid, ws, user, v, n);
      } else {
        NewFileGrows(db, sid, ws, user, v, f, n);
      }
    }
  }

  lemma RestoreGrows(db: Db, ws: WsId, m: NodeId, no: int, actor: UserId, now: Time, n: NodeId)
    requires VersionsOk(db)
    ensures NumbersOnlyGrow(db, RestoreVersion(db, ws, m, no, actor, now).After(db), n)
  {
    var o := RestoreVersion(db, ws, m, no, actor, now);
    if o.Done? {
      FreshVersionId(db);
      RestoredVersionShape(db, ws, m, no, actor, now);
      AppendedGrows(db, o.db, m, o.db.versions[db.nextVersion], n);
    }
  }

  ghost predicate KeepsNumbers(db: Db, db': Db) {
    db'.nodes == db.nodes && db'.nextNode == db.nextNode && SameVersions(db, db')
  }

  lemma QuietSessionShape(db: Db, op: Op)
    requires IsSessionOp(op) && !op.OpFinalize?
    ensures KeepsNumbers(db, ExecSession(db, op).After(db))
  {
  }

  lemma QuietQuotaShape(db: Db, op: Op)
    requires IsQuotaOp(op)
    ensures KeepsNumbers(db, ExecQuota(db, op).After(db))
  {
  }

  lemma HoldersKeepNumbers(db: Db, db': Db)
    requires HoldersOnly(db, db')
    ensures KeepsNumbers(db, db')
  {
  }

  lemma ShareKeepsNumbers(db: Db, op: Op)
    requires IsShareOp(op)
    ensures KeepsNumbers(db, ExecShare(db, op).After(db))
  {
    ShareShape(db, op);
    HoldersKeepNumbers(db, ExecShare(db, op).After(db));
  }

  lemma JobKeepsNumbers(db: Db, op: Op)
    requires IsJobOp(op)
    ensures KeepsNumbers(db, ExecJob(db, op).After(db))
  {
    JobOpShape(db, op);
    HoldersKeepNumbers(db, ExecJob(db, op).After(db));
  }

  lemma ArchiveKeepsNumbers(db: Db, ws: WsId, key: StorageKey, cutoff: Time)
    ensures KeepsNumbers(db, CompleteArchive(db, ws, key, cutoff).After(db))
  {
    ArchiveVersionRows(db, ws, key, cutoff);
  }

  lemma ObjectOpShape(db: Db, op: Op)
    requires IsObjectOp(op) && !op.OpRestoreVersion?
    ensures KeepsNumbers(db, ExecObject(db, op).After(db))
  {
    if op.OpTouchKey? {
      TouchRows(db, op.key, op.now);
    } else if op.OpCompleteArchive? {
      ArchiveKeepsNumbers(db, op.ws, op.key, op.cutoff);
    }
  }

  /** Every step but a directory step, a finalize and a restore. */
  predicate IsQuietOp(op: Op) {
    !IsNodeOp(op) && !op.OpFinalize? && !op.OpRestoreVersion?
  }

  lemma QuietKeepsNumbers(db: Db, op: Op)
    requires IsQuietOp(op)
    ensures KeepsNumbers(db, Step(db, op))
  {
    if IsSessionOp(op) {
      QuietSessionShape(db, op);
    } else if IsQuotaOp(op) {
      QuietQuotaShape(db, op);
    } else if IsShareOp(op) {
      ShareKeepsNumbers(db, op);
    } else if IsJobOp(op) {
      JobKeepsNumbers(db, op);
    } else {
      ObjectOpShape(db, op);
    }
  }

  lemma StaleStays(db: Db, op: Op, n: NodeId, base: int)
    requires Inv(db) && Guard(db, op) && BaseIsStale(db, n, base) && base >= 0
    ensures BaseIsStale(Step(db, op), n, base)
  {
    if op.OpPurge? {
      PurgeStale(db, db.nodes, op.order, op.now, n, base);
    } else {
      if IsNodeOp(op) {
        QuietNodeOpGrows(db, op, n);
      } else if op.OpFinalize? {
        FinalizeGrows(db, op.sid, op.ws, op.user, op.v, op.n, n);
      } else if op.OpRestoreVersion? {
        RestoreGrows(db, op.ws, op.id, op.no, op.actor, op.now, n);
      } else {
        QuietKeepsNumbers(db, op);
        QuietOpGrows(db, Step(db, op), n);
      }
      StaleWhenGrowing(db, Step(db, op), n, base);
    }
  }

  lemma {:induction false} StaleForever(db: Db, ops: seq<Op>, n: NodeId, base: int)
    requires Inv(db) && IsRun(db, ops) && BaseIsStale(db, n, base) && base >= 0
    ensures BaseIsStale(Final(db, ops), n, base)
    decreases |ops|
  {
    if ops != [] {
      StepKeeps(db, ops[0]);
      StaleStays(db, ops[0], n, base);
      StaleForever(Step(db, ops[0]), ops[1..], n, base);
    }
  }

  lemma StaleCannotCommit(db: Db, sid: SessionId, ws: WsId, user: UserId, v: FileVersion, n: Node)
    requires sid in db.sessions && db.sessions[sid].node.Some? && db.sessions[sid].base.Some?
    requires BaseIsStale(db, db.sessions[sid].node.value, db.sessions[sid].base.value)
    ensures FinalizeSession(db, sid, ws, user, v, n).Failed?
  {
  }

  /** A committed overwrite had the current number as its base, and leaves it stale. */
  lemma CommitMakesBaseStale(db: Db, sid: SessionId, ws: WsId, user: UserId, v: FileVersion)
    requires TreeOk(db) && VersionsOk(db) && Mine(db, sid, ws, user) && Open(db.sessions[sid])
    requires db.sessions[sid].node.Some? && Overwrite(db, sid, ws, user, v).Done?
    ensures var m := db.sessions[sid].node.value;
            var current := Latest(db.versions, ws, m);
            db.sessions[sid].base == Some(current) && BaseIsStale(Overwrite(db, sid, ws, user, v).db, m, current)
  {
    var m := db.sessions[sid].node.value;
    var r := Placed(v, ws, m, Latest(db.versions, ws, m) + 1);
    FreshVersionId(db);
    OverwriteShape(db, sid, ws, user, v);
    NowStale(db, Overwrite(db, sid, ws, user, v).db, m, r);
  }

  lemma NowStale(db: Db, db': Db, m: NodeId, r: FileVersion)
    requires TreeOk(db) && VersionsOk(db) && db.nextVersion !in db.versions && db'.nextNode == db.nextNode
    requires Appended(db, db', m, r)
    ensures BaseIsStale(db', m, Latest(db.versions, r.ws, m))
  {
    assert NumberingOk(db, m);
    AppendedHere(db, db', m, r);
  }

  lemma StaleOpFails(db: Db, op: Op, m: NodeId, base: int)
    requires op.OpFinalize? && op.sid in db.sessions && BaseIsStale(db, m, base)
    requires db.sessions[op.sid].node == Some(m) && db.sessions[op.sid].base == Some(base)
    ensures Exec(db, op).Failed?
  {
    StaleCannotCommit(db, op.sid, op.ws, op.user, op.v, op.n);
  }

  lemma FirstCommit(db: Db, op: Op)
    requires TreeOk(db) && VersionsOk(db) && op.OpFinalize? && Exec(db, op).Done? && db.sessions[op.sid].node.Some?
    ensures db.sessions[op.sid].base.Some? && db.sessions[op.sid].base.value >= 0
    ensures BaseIsStale(Step(db, op), db.sessions[op.sid].node.value, db.sessions[op.sid].base.value)
  {
    FinalizeCases(db, op.sid, op.ws, op.user, op.v, op.n);
    CommitMakesBaseStale(db, op.sid, op.ws, op.user, op.v);
  }

  /** Of all overwrite sessions opened on one node with one base number, at most
      one ever commits: after the first, no later finalize of another succeeds,
      whatever runs in between. */
  lemma AtMostOneOverwriteCommits(db: Db, first: Op, ops: seq<Op>, second: Op)
    requires Inv(db) && Guard(db, first) && first.OpFinalize? && Exec(db, first).Done?
    requires db.sessions[first.sid].node.Some?
    requires IsRun(Step(db, first), ops) && second.OpFinalize?
    requires var end := Final(Step(db, first), ops);
             && second.sid in end.sessions
             && end.sessions[second.sid].node == db.sessions[first.sid].node
             && end.sessions[second.sid].base == db.sessions[first.sid].base
    ensures Exec(Final(Step(db, first), ops), second).Failed?
  {
    FirstCommit(db, first);
    StepKeeps(db, first);
    LaterFinalizeFails(Step(db, first), ops, second, db.sessions[first.sid].node.value, db.sessions[first.sid].base.value);
  }

  lemma LaterFinalizeFails(db: Db, ops: seq<Op>, op: Op, m: NodeId, base: int)
    requires Inv(db) && IsRun(db, ops) && BaseIsStale(db, m, base) && base >= 0
    requires op.OpFinalize? && op.sid in Final(db, ops).sessions
    requires Final(db, ops).sessions[op.sid].node == Some(m) && Final(db, ops).sessions[op.sid].base == Some(base)
    ensures Exec(Final(db, ops), op).Failed?
  {
    StaleForever(db, ops, m, base);
    StaleOpFails(Final(db, ops), op, m, base);
  }

  // ----- versions restated --------------------------------------------------------

  /** In every reachable state the numbers of a node are exactly 1..n, each used
      once, and the active version carries n. */
  lemma VersionsAreNumbered(db: Db, n: NodeId)
    requires Inv(db) && n in db.nodes
    ensures var ws := db.nodes[n].ws;
            var top := Latest(db.versions, ws, n);
            && (forall k: nat :: k in Numbers(db.versions, ws, n) <==> 1 <= k <= top)
            && (forall v, w | v in db.versions && w in db.versions && db.versions[v].node == n && db.versions[w].node == n
                  && db.versions[v].no == db.versions[w].no :: v == w)
            && (top > 0 <==> db.nodes[n].activeVersion.Some?)
            && (top > 0 ==> IsVersion(db, ws, n, top, db.nodes[n].activeVersion.value))
  {
    assert NumberingOk(db, n);
    var ws := db.nodes[n].ws;
    forall k: nat | k in Numbers(db.versions, ws, n) ensures 1 <= k <= Latest(db.versions, ws, n) {
      var v :| v in db.versions && db.versions[v].ws == ws && db.versions[v].node == n && db.versions[v].no == k;
      assert VersionRowOk(db, v);
    }
  }
}
