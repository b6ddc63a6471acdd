/** What a committed directory transaction leaves, told by where every row hangs and
    what every row says, and which transactions take each other back. */
module DirectoryLaws {
  import opened Common
  import opened Forest
  import opened Tables
  import opened NodeSteps
  import opened Runs
  import opened NodeSafety
  import opened Safety
  import opened TrashSafety

  /** Nothing but directory rows changed. */
  ghost predicate DirectoryOnly(db: Db, db': Db) {
    db' == db.(nodes := db'.nodes)
  }

  /** Row `n` says the same in both states, but for place and editor. */
  ghost predicate SameBesidePlace(db: Db, db': Db, n: NodeId)
    requires n in db.nodes
  {
    n in db'.nodes && db'.nodes[n] == db.nodes[n].(parent := db'.nodes[n].parent, updatedBy := db'.nodes[n].updatedBy)
  }

  /** Row `n` is as before, but for its editor. */
  ghost predicate SameBesideEditor(db: Db, db': Db, n: NodeId)
    requires n in db.nodes
  {
    n in db'.nodes && db'.nodes[n] == db.nodes[n].(updatedBy := db'.nodes[n].updatedBy)
  }

  /** Row `n` of workspace `ws` is at or below `root`. */
  ghost predicate InSubtree(db: Db, ws: WsId, root: NodeId, n: NodeId) {
    n in db.nodes && db.nodes[n].ws == ws && Below(ParentsOf(db.nodes), n, root)
  }

  // ----- create -------------------------------------------------------------------------

  /** The new row stands one step below its parent and says what it was given; every other
      row is where it was. */
  lemma CreatePlaces(db: Db, n: Node)
    requires TreeOk(db) && ParentInPlace(db, n.ws, n.parent)
    ensures CreateNode(db, n).Done? && db.nextNode !in db.nodes
    ensures var after, id := CreateNode(db, n).db, db.nextNode;
            var p, p' := ParentsOf(db.nodes), ParentsOf(after.nodes);
            && after.nodes.Keys == db.nodes.Keys + {id} && after.nodes[id] == n && after.nextNode == id + 1
            && (forall k: nat :: Up(p', id, k + 1) == UpFrom(p, n.parent, k))
            && (forall d: NodeId, k: nat :: d != id ==> Up(p', d, k) == Up(p, d, k))
            && (forall d :: d in db.nodes ==> after.nodes[d] == db.nodes[d])
            && after == db.(nodes := after.nodes, nextNode := after.nextNode)
  {
    var after, id := CreateNode(db, n).db, db.nextNode;
    var p, p' := ParentsOf(db.nodes), ParentsOf(after.nodes);
    assert p' == p[id := n.parent];
    forall m | m in p ensures p[m] != Some(id) {
      assert p[m].Some? ==> p[m].value in db.nodes;
    }
    forall d: NodeId, k: nat | d != id ensures Up(p', d, k) == Up(p, d, k) {
      UpAfterCreate(p, id, n.parent, d, k);
    }
    forall k: nat ensures Up(p', id, k + 1) == UpFrom(p, n.parent, k) {
      NewRowUp(p, id, n.parent, k);
    }
  }

  lemma NewRowUp(p: Parents, id: NodeId, q: Option<NodeId>, k: nat)
    requires Closed(p) && id !in p && (q.Some? ==> q.value in p)
    ensures Up(p[id := q], id, k + 1) == UpFrom(p, q, k)
  {
    if q.Some? {
      UpAfterCreate(p, id, q, q.value, k);
    }
  }

  // ----- move ---------------------------------------------------------------------------

  /** A move commits exactly for an active row and a free place: the top level, or an active
      folder of the workspace that is not in the row's own subtree. */
  ghost predicate MayMove(db: Db, ws: WsId, id: NodeId, q: Option<NodeId>) {
    && id in db.nodes && db.nodes[id].ws == ws && db.nodes[id].status == Active
    && (q.Some? ==>
          && q.value in db.nodes && db.nodes[q.value].ws == ws && db.nodes[q.value].kind == Folder
          && db.nodes[q.value].status == Active && !Below(ParentsOf(db.nodes), q.value, id))
  }

  /** Row `id` hangs under `q` in `after`, with its subtree unchanged below it; every row
      outside that subtree has the ancestors it had. */
  ghost predicate Rehung(p: Parents, p': Parents, id: NodeId, q: Option<NodeId>) {
    && Up(p', id, 1) == q
    && (forall d: NodeId, j: nat, k: nat :: Carried(p, p', id, q, d, j, k))
    && (forall d: NodeId, k: nat :: !Below(p, d, id) ==> Up(p', d, k) == Up(p, d, k))
  }

  /** A row `j` steps below `id` has the ancestors it had up to `id`, and then those of the
      target with the target itself. */
  ghost predicate Carried(p: Parents, p': Parents, id: NodeId, q: Option<NodeId>, d: NodeId, j: nat, k: nat) {
    Up(p, d, j) == Some(id) ==> Up(p', d, k) == if k <= j then Up(p, d, k) else UpFrom(p, q, k - j - 1)
  }

  /** The row reached from an optional row. */
  ghost function UpFrom(p: Parents, q: Option<NodeId>, k: nat): Option<NodeId> {
    if q.None? then None else Up(p, q.value, k)
  }

  lemma RehungTo(p: Parents, id: NodeId, q: Option<NodeId>)
    requires IsForest(p) && id in p && (q.Some? ==> q.value in p && !Below(p, q.value, id))
    ensures Rehung(p, p[id := q], id, q)
  {
    var p' := p[id := q];
    forall d: NodeId, j: nat, k: nat ensures Carried(p, p', id, q, d, j, k) {
      if Up(p, d, j) == Some(id) {
        UpInside(p, id, q, d, j, k);
      }
    }
    forall d: NodeId, k: nat | !Below(p, d, id) ensures Up(p', d, k) == Up(p, d, k) {
      UpOutside(p, id, q, d, k);
    }
    OneStepUp(p', id);
    assert Up(p', id, 1) == q;
  }

  lemma OneStepUp(p: Parents, id: NodeId)
    requires id in p && (p[id].Some? ==> p[id].value in p)
    ensures Up(p, id, 1) == p[id]
  {
    if p[id].Some? {
      assert Up(p, id, 1) == Up(p, p[id].value, 0);
    }
  }

  /** A committed move puts the row under its target, whole subtree included, and moves
      nothing else. */
  lemma MovePlaces(db: Db, ws: WsId, id: NodeId, actor: UserId, q: Option<NodeId>)
    requires TreeOk(db)
    ensures Move(db, ws, id, actor, q).Done? <==> MayMove(db, ws, id, q)
    ensures MayMove(db, ws, id, q) ==>
              var after := Move(db, ws, id, actor, q).db;
              && TreeOk(after) && Rehung(ParentsOf(db.nodes), ParentsOf(after.nodes), id, q)
              && DirectoryOnly(db, after) && after.nodes.Keys == db.nodes.Keys
              && (forall n :: n in db.nodes ==> SameBesidePlace(db, after, n))
              && (forall n :: n in db.nodes && n != id ==> after.nodes[n] == db.nodes[n])
              && after.nodes[id].updatedBy == if db.nodes[id].parent == q then db.nodes[id].updatedBy else actor
  {
    MoveCommits(db, ws, id, actor, q);
    if MayMove(db, ws, id, q) {
      var after := Move(db, ws, id, actor, q).db;
      MoveTree(db, ws, id, actor, q);
      MoveRows(db, ws, id, actor, q);
      RehungTo(ParentsOf(db.nodes), id, q);
    }
  }

  /** A refused move names the reason: the row is in the trash, its target lies in its own
      subtree, or one of the two is not there. */
  lemma MoveRefusals(db: Db, ws: WsId, id: NodeId, actor: UserId, q: Option<NodeId>)
    ensures var o, here := Move(db, ws, id, actor, q), id in db.nodes && db.nodes[id].ws == ws;
            && (o == Failed(NodeState) <==> here && db.nodes[id].status == Trashed)
            && (o == Failed(InvalidMove) <==>
                  && here && db.nodes[id].status == Active && q.Some? && Below(ParentsOf(db.nodes), q.value, id)
                  && (q.value != id ==>
                        && q.value in db.nodes && db.nodes[q.value].ws == ws && db.nodes[q.value].kind == Folder
                        && db.nodes[q.value].status == Active))
            && (o.Failed? ==> o.error in {NotFound, NodeState, InvalidMove})
  {
    assert id in db.nodes ==> Up(ParentsOf(db.nodes), id, 0) == Some(id);
  }

  lemma MoveCommits(db: Db, ws: WsId, id: NodeId, actor: UserId, q: Option<NodeId>)
    ensures Move(db, ws, id, actor, q).Done? <==> MayMove(db, ws, id, q)
  {
    assert id in db.nodes ==> Up(ParentsOf(db.nodes), id, 0) == Some(id);
  }

  lemma MoveRows(db: Db, ws: WsId, id: NodeId, actor: UserId, q: Option<NodeId>)
    requires Move(db, ws, id, actor, q).Done?
    ensures id in db.nodes && Replaced(db, Move(db, ws, id, actor, q).db, id, q,
                                       if db.nodes[id].parent == q then db.nodes[id].updatedBy else actor)
  {
    assert db.nodes[id].parent == q ==> db.nodes == db.nodes[id := db.nodes[id].(parent := q)];
  }

  ghost predicate Replaced(db: Db, after: Db, id: NodeId, q: Option<NodeId>, editor: UserId)
    requires id in db.nodes
  {
    && ParentsOf(after.nodes) == ParentsOf(db.nodes)[id := q]
    && DirectoryOnly(db, after) && after.nodes.Keys == db.nodes.Keys
    && SameBesidePlace(db, after, id) && after.nodes[id].updatedBy == editor
    && forall n :: n in db.nodes && n != id ==> after.nodes[n] == db.nodes[n]
  }

  /** The way back is open exactly when the old place still takes rows, and then everything
      but the editor of the row is as it was. */
  lemma MoveThereAndBack(db: Db, ws: WsId, id: NodeId, actor: UserId, q: Option<NodeId>, later: UserId)
    requires TreeOk(db) && Move(db, ws, id, actor, q).Done?
    ensures var there, home := Move(db, ws, id, actor, q).db, db.nodes[id].parent;
            var back := Move(there, ws, id, later, home);
            && (back.Done? <==> home.None? || IsActiveFolder(db, ws, home.value))
            && (back.Done? ==>
                  && DirectoryOnly(db, back.db) && back.db.nodes.Keys == db.nodes.Keys
                  && forall n :: n in db.nodes ==> SameBesideEditor(db, back.db, n))
  {
    MovePlaces(db, ws, id, actor, q);
    var there, home := Move(db, ws, id, actor, q).db, db.nodes[id].parent;
    if home.Some? {
      ParentNotBelow(ParentsOf(db.nodes), id);
      StillNotBelow(ParentsOf(db.nodes), ParentsOf(there.nodes), id, q, home.value);
    }
    MovePlaces(there, ws, id, later, home);
    if Move(there, ws, id, later, home).Done? {
      BackInPlace(db, there, Move(there, ws, id, later, home).db, id);
    }
  }

  lemma BackInPlace(db: Db, there: Db, back: Db, id: NodeId)
    requires id in db.nodes && there.nodes.Keys == db.nodes.Keys && back.nodes.Keys == db.nodes.Keys
    requires DirectoryOnly(db, there) && DirectoryOnly(there, back)
    requires SameBesidePlace(db, there, id) && SameBesidePlace(there, back, id)
    requires forall n :: n in db.nodes && n != id ==> there.nodes[n] == db.nodes[n] && back.nodes[n] == there.nodes[n]
    requires IsForest(ParentsOf(back.nodes)) && Up(ParentsOf(back.nodes), id, 1) == db.nodes[id].parent
    ensures DirectoryOnly(db, back) && forall n :: n in db.nodes ==> SameBesideEditor(db, back, n)
  {
    PlaceAfter(ParentsOf(back.nodes), id, db.nodes[id].parent);
  }

  /** One step up is the parent, whose row exists. */
  lemma PlaceAfter(p: Parents, id: NodeId, q: Option<NodeId>)
    requires Closed(p) && id in p && Up(p, id, 1) == q
    ensures p[id] == q
  {
    if p[id].Some? {
      assert Up(p, id, 1) == Up(p, p[id].value, 0);
    }
  }

  lemma ParentNotBelow(p: Parents, id: NodeId)
    requires Acyclic(p) && id in p && p[id].Some?
    ensures !Below(p, p[id].value, id)
  {
    forall k: nat ensures Up(p, p[id].value, k) != Some(id) {
      assert Up(p, id, k + 1) == Up(p, p[id].value, k);
    }
  }

  lemma StillNotBelow(p: Parents, p': Parents, id: NodeId, q: Option<NodeId>, d: NodeId)
    requires Rehung(p, p', id, q) && !Below(p, d, id)
    ensures !Below(p', d, id)
  {
    if k: nat :| Up(p', d, k) == Some(id) {
      assert Up(p, d, k) == Some(id);
    }
  }

  // ----- trash and restore --------------------------------------------------------------

  /** Row `n` is as before, but for status, trash time and editor. */
  ghost predicate SameBesideStatus(db: Db, db': Db, n: NodeId)
    requires n in db.nodes
  {
    && n in db'.nodes
    && db'.nodes[n] == db.nodes[n].(status := db'.nodes[n].status, trashedAt := db'.nodes[n].trashedAt,
                                    updatedBy := db'.nodes[n].updatedBy)
  }

  /** Every row of the subtree of `root` has status `s`; those that had it already and all
      rows elsewhere are untouched, the others say when and by whom. */
  ghost predicate SubtreeTurned(db: Db, after: Db, ws: WsId, root: NodeId, s: NodeStatus, at: Option<Time>, actor: UserId) {
    && DirectoryOnly(db, after) && after.nodes.Keys == db.nodes.Keys
    && (forall n :: n in db.nodes ==> SameBesideStatus(db, after, n))
    && (forall n :: InSubtree(db, ws, root, n) ==> after.nodes[n].status == s)
    && (forall n :: InSubtree(db, ws, root, n) && db.nodes[n].status != s ==>
          after.nodes[n].trashedAt == at && after.nodes[n].updatedBy == actor)
    && (forall n :: n in db.nodes && (db.nodes[n].status == s || !InSubtree(db, ws, root, n)) ==>
          after.nodes[n] == db.nodes[n])
  }

  /** Trashing commits exactly when the subtree of an existing row has an active row, and
      leaves the whole subtree trashed. */
  lemma TrashReaches(db: Db, ws: WsId, id: NodeId, actor: UserId, now: Time)
    ensures TrashSubtree(db, ws, id, actor, now).Done? <==>
            id in db.nodes && db.nodes[id].ws == ws && exists n :: InSubtree(db, ws, id, n) && db.nodes[n].status == Active
    ensures TrashSubtree(db, ws, id, actor, now).Done? ==>
              SubtreeTurned(db, TrashSubtree(db, ws, id, actor, now).db, ws, id, Trashed, Some(now), actor)
  {
    TrashCommits(db, ws, id, actor, now);
    if TrashSubtree(db, ws, id, actor, now).Done? {
      TrashTurns(db, ws, id, actor, now);
    }
  }

  lemma TrashCommits(db: Db, ws: WsId, id: NodeId, actor: UserId, now: Time)
    ensures TrashSubtree(db, ws, id, actor, now).Done? <==>
            id in db.nodes && db.nodes[id].ws == ws && exists n :: InSubtree(db, ws, id, n) && db.nodes[n].status == Active
  {
    var hit := set n | n in Subtree(db.nodes, ws, id) && db.nodes[n].status == Active;
    if n :| InSubtree(db, ws, id, n) && db.nodes[n].status == Active {
      assert n in hit;
    }
    if hit != {} {
      var n :| n in hit;
      assert InSubtree(db, ws, id, n);
    }
  }

  lemma TrashTurns(db: Db, ws: WsId, id: NodeId, actor: UserId, now: Time)
    requires TrashSubtree(db, ws, id, actor, now).Done?
    ensures SubtreeTurned(db, TrashSubtree(db, ws, id, actor, now).db, ws, id, Trashed, Some(now), actor)
  {
  }

  /** A trashed row may come back when its place takes it and no active sibling has its name. */
  ghost predicate MayRestore(db: Db, ws: WsId, id: NodeId) {
    && id in db.nodes && db.nodes[id].ws == ws && db.nodes[id].status == Trashed
    && (db.nodes[id].parent.Some? ==>
          && db.nodes[id].parent.value in db.nodes && db.nodes[db.nodes[id].parent.value].ws == ws
          && db.nodes[db.nodes[id].parent.value].status == Active)
    && forall m :: m in db.nodes && m != id && db.nodes[m].ws == ws && db.nodes[m].status == Active ==>
         db.nodes[m].parent != db.nodes[id].parent || db.nodes[m].name != db.nodes[id].name
  }

  /** Restoring commits exactly then, and leaves the whole subtree active. */
  lemma RestoreReaches(db: Db, ws: WsId, id: NodeId, actor: UserId)
    ensures RestoreSubtree(db, ws, id, actor).Done? <==> MayRestore(db, ws, id)
    ensures MayRestore(db, ws, id) ==>
              SubtreeTurned(db, RestoreSubtree(db, ws, id, actor).db, ws, id, Active, None, actor)
  {
    RestoreCommits(db, ws, id, actor);
    if MayRestore(db, ws, id) {
      RestoreTurns(db, ws, id, actor);
    }
  }

  lemma RestoreCommits(db: Db, ws: WsId, id: NodeId, actor: UserId)
    ensures RestoreSubtree(db, ws, id, actor).Done? <==> MayRestore(db, ws, id)
  {
  }

  lemma RestoreTurns(db: Db, ws: WsId, id: NodeId, actor: UserId)
    requires RestoreSubtree(db, ws, id, actor).Done?
    ensures SubtreeTurned(db, RestoreSubtree(db, ws, id, actor).db, ws, id, Active, None, actor)
  {
  }

  /** A refused restore names the reason: the place of a trashed row is gone, is in the trash
      itself, or an active sibling has the name. */
  lemma RestoreRefusals(db: Db, ws: WsId, id: NodeId, actor: UserId)
    ensures var o, here := RestoreSubtree(db, ws, id, actor), id in db.nodes && db.nodes[id].ws == ws;
            && (o == Failed(NodeState) <==>
                  here && (db.nodes[id].status == Active || (PlaceThere(db, ws, id) && !PlaceActive(db, id))))
            && (o == Failed(DuplicatedKey) <==>
                  && here && db.nodes[id].status == Trashed && PlaceThere(db, ws, id) && PlaceActive(db, id)
                  && exists m :: ActiveNamesake(db, ws, id, m))
            && (o.Failed? ==> o.error in {NotFound, NodeState, DuplicatedKey})
  {
    if id in db.nodes && NameTaken(db, ws, id) {
      var m :| m in db.nodes && m != id && db.nodes[m].ws == ws && db.nodes[m].status == Active
            && db.nodes[m].name == db.nodes[id].name && db.nodes[m].parent == db.nodes[id].parent;
      assert ActiveNamesake(db, ws, id, m);
    }
  }

  predicate PlaceThere(db: Db, ws: WsId, id: NodeId)
    requires id in db.nodes
  {
    db.nodes[id].parent.Some? ==> db.nodes[id].parent.value in db.nodes && db.nodes[db.nodes[id].parent.value].ws == ws
  }

  predicate PlaceActive(db: Db, id: NodeId)
    requires id in db.nodes
  {
    db.nodes[id].parent.Some? && db.nodes[id].parent.value in db.nodes ==> db.nodes[db.nodes[id].parent.value].status == Active
  }

  predicate ActiveNamesake(db: Db, ws: WsId, id: NodeId, m: NodeId)
    requires id in db.nodes
  {
    && m in db.nodes && m != id && db.nodes[m].ws == ws && db.nodes[m].status == Active
    && db.nodes[m].name == db.nodes[id].name && db.nodes[m].parent == db.nodes[id].parent
  }

  /** A row carries a trash time exactly while it is trashed. */
  ghost predicate Stamped(nodes: map<NodeId, Node>) {
    forall n :: n in nodes ==> (nodes[n].trashedAt.Some? <==> nodes[n].status == Trashed)
  }

  lemma NewRowStamped(nodes: map<NodeId, Node>, id: NodeId, n: Node)
    requires Stamped(nodes) && n.status == Active && n.trashedAt.None?
    ensures Stamped(nodes[id := n])
  {
  }

  lemma StepStamped(db: Db, op: Op)
    requires TreeOk(db) && Stamped(db.nodes) && Guard(db, op)
    ensures Stamped(Step(db, op).nodes)
  {
    if op.OpCreateNode? {
      NewRowStamped(db.nodes, db.nextNode, op.n);
    } else if MakesFile(db, op) {
      NewFileBranch(db, op.sid, op.ws, op.user, op.v, op.n);
      NewRowStamped(db.nodes, db.nextNode, op.n.(ws := op.ws, activeVersion := Some(db.nextVersion)));
    } else if IsNodeOp(op) {
      NodeStepStamped(db, op);
    } else {
      OtherStepsSameStatus(db, op);
    }
  }

  lemma NodeStepStamped(db: Db, op: Op)
    requires TreeOk(db) && Stamped(db.nodes) && IsNodeOp(op) && !op.OpCreateNode?
    ensures Stamped(Step(db, op).nodes)
  {
    match op
    case OpMove(ws, id, actor, q) =>
      MovePlaces(db, ws, id, actor, q);
    case OpTrash(ws, id, actor, now) =>
      TrashReaches(db, ws, id, actor, now);
    case OpRestore(ws, id, actor) =>
      RestoreReaches(db, ws, id, actor);
    case OpPurge(cutoff, now, order) =>
      PurgeShrinks(db, db.nodes, order, now);
  }

  /** After any run of any transactions. */
  lemma {:induction false} RunStamped(db: Db, ops: seq<Op>)
    requires Inv(db) && Stamped(db.nodes) && IsRun(db, ops)
    ensures Stamped(Final(db, ops).nodes)
    decreases |ops|
  {
    if ops != [] {
      StepKeeps(db, ops[0]);
      StepStamped(db, ops[0]);
      RunStamped(Step(db, ops[0]), ops[1..]);
    }
  }

  /** Hence a restored subtree is active throughout, without any trash time. */
  lemma RestoredIsFresh(db: Db, ws: WsId, id: NodeId, actor: UserId, n: NodeId)
    requires Stamped(db.nodes) && RestoreSubtree(db, ws, id, actor).Done? && InSubtree(db, ws, id, n)
    ensures var row := RestoreSubtree(db, ws, id, actor).db.nodes[n];
            row.status == Active && row.trashedAt.None?
  {
    RestoreReaches(db, ws, id, actor);
    assert SameBesideStatus(db, RestoreSubtree(db, ws, id, actor).db, n);
  }

  lemma TurnedParents(db: Db, after: Db, ws: WsId, root: NodeId, s: NodeStatus, at: Option<Time>, actor: UserId)
    requires SubtreeTurned(db, after, ws, root, s, at, actor)
    ensures ParentsOf(after.nodes) == ParentsOf(db.nodes)
    ensures forall n :: InSubtree(after, ws, root, n) <==> InSubtree(db, ws, root, n)
  {
    forall n | n in db.nodes ensures after.nodes[n].parent == db.nodes[n].parent && after.nodes[n].ws == db.nodes[n].ws {
      assert SameBesideStatus(db, after, n);
    }
    assert ParentsOf(after.nodes) == ParentsOf(db.nodes);
  }

  /** A wholly active subtree that was trashed can be restored exactly when its root hangs
      at the top level or under an active row and its name is still free; every row is then
      as before, but for its editor. */
  lemma TrashThenRestore(db: Db, ws: WsId, id: NodeId, actor: UserId, now: Time, later: UserId)
    requires TreeOk(db) && Stamped(db.nodes) && id in db.nodes && db.nodes[id].ws == ws
    requires forall n :: InSubtree(db, ws, id, n) ==> db.nodes[n].status == Active
    ensures TrashSubtree(db, ws, id, actor, now).Done?
    ensures var there, q := TrashSubtree(db, ws, id, actor, now).db, db.nodes[id].parent;
            var back := RestoreSubtree(there, ws, id, later);
            && (back.Done? <==> (q.Some? ==> q.value in db.nodes && db.nodes[q.value].status == Active) && !NameTaken(db, ws, id))
            && (back.Done? ==>
                  && DirectoryOnly(db, back.db) && back.db.nodes.Keys == db.nodes.Keys
                  && forall n :: n in db.nodes ==> SameBesideEditor(db, back.db, n))
  {
    RootInSubtree(db, ws, id);
    TrashReaches(db, ws, id, actor, now);
    var there := TrashSubtree(db, ws, id, actor, now).db;
    RestoreReaches(there, ws, id, later);
    AwayCanReturn(db, there, ws, id, actor, now);
    if RestoreSubtree(there, ws, id, later).Done? {
      TurnedTwice(db, there, RestoreSubtree(there, ws, id, later).db, ws, id, now, actor, later);
    }
  }

  lemma TurnedTwice(db: Db, there: Db, back: Db, ws: WsId, id: NodeId, now: Time, actor: UserId, later: UserId)
    requires Stamped(db.nodes) && forall n :: InSubtree(db, ws, id, n) ==> db.nodes[n].status == Active
    requires SubtreeTurned(db, there, ws, id, Trashed, Some(now), actor)
    requires SubtreeTurned(there, back, ws, id, Active, None, later)
    ensures DirectoryOnly(db, back) && back.nodes.Keys == db.nodes.Keys
    ensures forall n :: n in db.nodes ==> SameBesideEditor(db, back, n)
  {
    TurnedParents(db, there, ws, id, Trashed, Some(now), actor);
    forall n | n in db.nodes ensures SameBesideEditor(db, back, n) {
      assert SameBesideStatus(db, there, n) && SameBesideStatus(there, back, n);
    }
  }

  lemma RootInSubtree(db: Db, ws: WsId, id: NodeId)
    requires id in db.nodes && db.nodes[id].ws == ws
    ensures InSubtree(db, ws, id, id)
  {
    assert Up(ParentsOf(db.nodes), id, 0) == Some(id);
  }

  /** Siblings and parent of the root are outside its subtree. */
  lemma SiblingsOutside(db: Db, ws: WsId, id: NodeId, m: NodeId)
    requires TreeOk(db) && id in db.nodes && m in db.nodes
    requires db.nodes[id].parent == Some(m) || (m != id && db.nodes[m].parent == db.nodes[id].parent)
    ensures !InSubtree(db, ws, id, m)
  {
    var p := ParentsOf(db.nodes);
    if p[id].Some? {
      ParentNotBelow(p, id);
    }
    if db.nodes[id].parent != Some(m) {
      forall k: nat ensures Up(p, m, k) != Some(id) {
        if k > 0 && p[m].Some? {
          assert Up(p, m, k) == Up(p, p[m].value, k - 1);
        }
      }
    }
  }

  lemma AwayCanReturn(db: Db, there: Db, ws: WsId, id: NodeId, actor: UserId, now: Time)
    requires TreeOk(db) && id in db.nodes && db.nodes[id].ws == ws && db.nodes[id].status == Active
    requires SubtreeTurned(db, there, ws, id, Trashed, Some(now), actor)
    ensures var q := db.nodes[id].parent;
            MayRestore(there, ws, id) <==> (q.Some? ==> q.value in db.nodes && db.nodes[q.value].status == Active) && !NameTaken(db, ws, id)
  {
    RootInSubtree(db, ws, id);
    TurnedParents(db, there, ws, id, Trashed, Some(now), actor);
    var q := db.nodes[id].parent;
    if q.Some? {
      assert ParentsOf(db.nodes)[id] == q;
      SiblingsOutside(db, ws, id, q.value);
    }
    forall m | m in db.nodes && m != id && db.nodes[m].parent == q ensures there.nodes[m] == db.nodes[m] {
      SiblingsOutside(db, ws, id, m);
    }
    forall m | m in db.nodes ensures SameBesideStatus(db, there, m) {
    }
  }
}
