/** The life of a share: which transaction may change it and how, what that means for
    download limits and for shares that have ended, and what a late claim leaves behind. */
module ShareLife {
  import opened Common
  import opened Tables
  import opened NodeSteps
  import opened ObjectSteps
  import opened Runs
  import opened JobLife

  /** The only ways in which the row of share `id` may change. */
  ghost predicate ShareMove(op: Op, id: ShareId, a: Share, b: Share) {
    || b == a
    || (op == OpRevokeShare(a.ws, id) && a.status == ShareActive && b == a.(status := ShareRevoked))
    || (op.OpExpireShares? && a.status == ShareActive && a.expiresAt <= op.now && b == a.(status := ShareExpired))
    || (op.OpClaimDownload? && op.share == id && ShareLive(a, op.now) && b == a.(downloads := a.downloads + 1))
  }

  lemma ShareOpMoves(db: Db, op: Op, id: ShareId)
    requires IsShareOp(op) && id in db.shares
    ensures id in ExecShare(db, op).After(db).shares
    ensures ShareMove(op, id, db.shares[id], ExecShare(db, op).After(db).shares[id])
  {
  }

  ghost predicate SharesShrink(before: map<ShareId, Share>, after: map<ShareId, Share>) {
    forall s :: s in after ==> s in before && after[s] == before[s]
  }

  lemma {:induction false} PurgeDropsOnly(db: Db, snapshot: map<NodeId, Node>, order: seq<NodeId>, now: Time)
    ensures SharesShrink(db.shares, PurgeRoots(db, snapshot, order, now).shares)
    decreases |order|
  {
    if order != [] {
      var next := if order[0] in snapshot then PurgeRoot(db, snapshot[order[0]].ws, order[0], now) else db;
      PurgeDropsOnly(next, snapshot, order[1..], now);
    }
  }

  lemma JobOpKeepsShares(db: Db, op: Op)
    requires IsJobOp(op)
    ensures ExecJob(db, op).After(db).shares == db.shares
  {
  }

  lemma PurgeStep(db: Db, op: Op)
    requires op.OpPurge?
    ensures SharesShrink(db.shares, Step(db, op).shares)
  {
    PurgeDropsOnly(db, db.nodes, op.order, op.now);
  }

  lemma JobStep(db: Db, op: Op)
    requires IsJobOp(op)
    ensures Step(db, op).shares == db.shares
  {
    JobOpKeepsShares(db, op);
  }

  lemma ShareStep(db: Db, op: Op, id: ShareId)
    requires IsShareOp(op)
    ensures id in Step(db, op).shares <==> id in db.shares
    ensures id in db.shares ==> ShareMove(op, id, db.shares[id], Step(db, op).shares[id])
  {
    if id in db.shares {
      ShareOpMoves(db, op, id);
    } else {
      ShareOpAddsNone(db, op, id);
    }
  }

  lemma ShareOpAddsNone(db: Db, op: Op, id: ShareId)
    requires IsShareOp(op) && id !in db.shares
    ensures id !in ExecShare(db, op).After(db).shares
  {
  }

  /** A share row is purged or changes along the table of moves only. */
  lemma ShareSteps(db: Db, op: Op, id: ShareId)
    requires id in db.shares && Guard(db, op)
    ensures id in Step(db, op).shares ==> ShareMove(op, id, db.shares[id], Step(db, op).shares[id])
  {
    if op.OpPurge? {
      PurgeStep(db, op);
    } else if IsOtherOp(op) {
      OthersKeepHolders(db, op);
    } else if IsJobOp(op) {
      JobStep(db, op);
    } else if IsShareOp(op) {
      ShareStep(db, op, id);
    } else {
      NewHolderRows(db, op);
    }
  }

  lemma GoneStaysGone(db: Db, op: Op, id: ShareId)
    requires id !in db.shares && Guard(db, op) && !(op.OpCreateShare? && op.share == id)
    ensures id !in Step(db, op).shares
  {
    if op.OpPurge? {
      PurgeStep(db, op);
    } else if IsOtherOp(op) {
      OthersKeepHolders(db, op);
    } else if IsJobOp(op) {
      JobStep(db, op);
    } else if IsShareOp(op) {
      ShareStep(db, op, id);
    } else {
      NewHolderRows(db, op);
    }
  }

  // ----- over runs ------------------------------------------------------------------

  /** Share ids come from a counter: no transaction of the run issues `id` again. */
  predicate NotReissued(ops: seq<Op>, id: ShareId) {
    forall i :: 0 <= i < |ops| ==> !(ops[i].OpCreateShare? && ops[i].share == id)
  }

  /** Whatever runs, a share that was revoked or expired never serves a download again. */
  lemma {:induction false} EndedForever(db: Db, ops: seq<Op>, id: ShareId, item: Option<ItemId>, now: Time)
    requires IsRun(db, ops) && NotReissued(ops, id)
    requires id in db.shares ==> db.shares[id].status != ShareActive
    ensures ClaimDownload(Final(db, ops), id, item, now).Failed?
    decreases |ops|
  {
    if ops != [] {
      assert !(ops[0].OpCreateShare? && ops[0].share == id);
      assert forall i :: 0 <= i < |ops[1..]| ==> ops[1..][i] == ops[i + 1];
      if id in db.shares {
        ShareSteps(db, ops[0], id);
      } else {
        GoneStaysGone(db, ops[0], id);
      }
      EndedForever(Step(db, ops[0]), ops[1..], id, item, now);
    }
  }

  /** The downloads that a run takes from share `id`. */
  ghost function Taken(db: Db, ops: seq<Op>, id: ShareId): nat
    decreases |ops|
  {
    if ops == [] then 0
    else
      (if ops[0].OpClaimDownload? && ops[0].share == id && Exec(db, ops[0]).Done? then 1 else 0)
      + Taken(Step(db, ops[0]), ops[1..], id)
  }

  /** One step counts a download exactly when it takes one. */
  lemma CountsWhatItTakes(db: Db, op: Op, id: ShareId)
    requires id in db.shares && Guard(db, op) && id in Step(db, op).shares
    ensures Step(db, op).shares[id].maxDownloads == db.shares[id].maxDownloads
    ensures Step(db, op).shares[id].downloads ==
            db.shares[id].downloads + if op.OpClaimDownload? && op.share == id && Exec(db, op).Done? then 1 else 0
    ensures op.OpClaimDownload? && op.share == id && Exec(db, op).Done? && db.shares[id].maxDownloads.Some? ==>
              db.shares[id].downloads < db.shares[id].maxDownloads.value
  {
    ShareSteps(db, op, id);
    if op.OpClaimDownload? && op.share == id {
      ClaimRow(db, id, op.item, op.now);
    }
  }

  lemma ClaimRow(db: Db, id: ShareId, item: Option<ItemId>, now: Time)
    requires id in db.shares
    ensures var o := ClaimDownload(db, id, item, now);
            && id in o.After(db).shares
            && o.After(db).shares[id] == db.shares[id].(downloads := db.shares[id].downloads + if o.Done? then 1 else 0)
            && (o.Done? ==> ShareLive(db.shares[id], now))
  {
  }

  /** A share with a limit serves no more than what is left of it, whatever runs, and
      as long as its row is there the counter tells how many it served. */
  lemma {:induction false} LimitHolds(db: Db, ops: seq<Op>, id: ShareId)
    requires IsRun(db, ops) && NotReissued(ops, id) && id in db.shares
    ensures var s := db.shares[id];
            && (s.maxDownloads.Some? && s.downloads <= s.maxDownloads.value ==>
                  Taken(db, ops, id) <= s.maxDownloads.value - s.downloads)
            && (id in Final(db, ops).shares ==> Final(db, ops).shares[id].downloads == s.downloads + Taken(db, ops, id))
    decreases |ops|
  {
    if ops != [] {
      var next, rest := Step(db, ops[0]), ops[1..];
      assert !(ops[0].OpCreateShare? && ops[0].share == id);
      assert forall i :: 0 <= i < |rest| ==> rest[i] == ops[i + 1];
      if id in next.shares {
        CountsWhatItTakes(db, ops[0], id);
        LimitHolds(next, rest, id);
      } else {
        DroppedTakesNothing(db, ops[0], id);
        GoneTakesNothing(next, rest, id);
      }
    }
  }

  lemma DroppedTakesNothing(db: Db, op: Op, id: ShareId)
    requires id in db.shares && id !in Step(db, op).shares
    ensures !(op.OpClaimDownload? && op.share == id && Exec(db, op).Done?)
  {
    if op.OpClaimDownload? && op.share == id {
      ClaimRow(db, id, op.item, op.now);
    }
  }

  lemma {:induction false} GoneTakesNothing(db: Db, ops: seq<Op>, id: ShareId)
    requires IsRun(db, ops) && NotReissued(ops, id) && id !in db.shares
    ensures Taken(db, ops, id) == 0 && id !in Final(db, ops).shares
    decreases |ops|
  {
    if ops != [] {
      assert !(ops[0].OpCreateShare? && ops[0].share == id);
      assert forall i :: 0 <= i < |ops[1..]| ==> ops[1..][i] == ops[i + 1];
      GoneStaysGone(db, ops[0], id);
      GoneTakesNothing(Step(db, ops[0]), ops[1..], id);
    }
  }

  // ----- the late claim ---------------------------------------------------------------

  /** No claim, late or not, changes the status of any share: the expired mark of the late
      path is rolled back with the error. */
  lemma ClaimKeepsStatus(db: Db, id: ShareId, item: Option<ItemId>, now: Time, s: ShareId)
    requires s in db.shares
    ensures s in ClaimDownload(db, id, item, now).After(db).shares
    ensures ClaimDownload(db, id, item, now).After(db).shares[s].status == db.shares[s].status
    ensures id in db.shares && now >= db.shares[id].expiresAt ==> ClaimDownload(db, id, item, now).After(db) == db
  {
  }

  const LATE_OWNER := map[MemberKey(1, 8) := Member(WorkspaceAdmin, None, 0, 0)]
  const LATE_SHARE := Share(1, 5, 10, None, 0, ShareActive)

  function Shared(): Db {
    EMPTY.(workspaces := map[1 := Workspace(None, 0, 0)], members := LATE_OWNER, shares := map[3 := LATE_SHARE])
  }

  const LATE_RUN: seq<Op> := [OpCreateWorkspace(1, 8, None), OpCreateShare(3, LATE_SHARE, map[]), OpClaimDownload(3, None, 20)]

  /** A share that ended at time 10, claimed at time 20: the claim is refused as expired,
      and the share is as active as before. */
  lemma LateClaimLeavesActive()
    ensures IsRun(EMPTY, LATE_RUN) && Final(EMPTY, LATE_RUN) == Shared()
    ensures Exec(Shared(), LATE_RUN[2]) == Failed(ExpiredShare) && Shared().shares[3].status == ShareActive
  {
    var first := EMPTY.(workspaces := map[1 := Workspace(None, 0, 0)], members := LATE_OWNER);
    WorkspaceMade(first);
    ShareMade(first);
    ClaimedLate();
    OneStep(EMPTY, first, LATE_RUN[0]);
    OneStep(first, Shared(), LATE_RUN[1]);
    OneStep(Shared(), Shared(), LATE_RUN[2]);
    RunJoin(EMPTY, [LATE_RUN[0]], [LATE_RUN[1]]);
    RunJoin(EMPTY, [LATE_RUN[0]] + [LATE_RUN[1]], [LATE_RUN[2]]);
    assert [LATE_RUN[0]] + [LATE_RUN[1]] + [LATE_RUN[2]] == LATE_RUN;
  }

  lemma WorkspaceMade(first: Db)
    requires first == EMPTY.(workspaces := map[1 := Workspace(None, 0, 0)], members := LATE_OWNER)
    ensures Guard(EMPTY, LATE_RUN[0]) && Step(EMPTY, LATE_RUN[0]) == first
  {
  }

  lemma ShareMade(first: Db)
    requires first == EMPTY.(workspaces := map[1 := Workspace(None, 0, 0)], members := LATE_OWNER)
    ensures Guard(first, LATE_RUN[1]) && Step(first, LATE_RUN[1]) == Shared()
  {
  }

  lemma ClaimedLate()
    ensures Guard(Shared(), LATE_RUN[2]) && Exec(Shared(), LATE_RUN[2]) == Failed(ExpiredShare)
  {
  }

  /** After the expiry sweep a share is live exactly when it is active and has downloads
      left; the sweep ends no live share. */
  lemma SweepMakesStatusLiveness(db: Db, id: ShareId, now: Time)
    requires id in db.shares
    ensures var s := ExpireShares(db, now).shares[id];
            && (ShareLive(s, now) <==> s.status == ShareActive && (s.maxDownloads.None? || s.downloads < s.maxDownloads.value))
            && (ShareLive(s, now) <==> ShareLive(db.shares[id], now))
  {
  }

  // ----- shares and the purge ---------------------------------------------------------

  /** A live new share keeps its source, and every subtree with a version of one of its
      objects. */
  lemma ShareRetains(db: Db, id: ShareId, s: Share, items: map<ItemId, ShareItem>, root: NodeId, now: Time)
    requires Guard(db, OpCreateShare(id, s, items)) && ShareLive(s, now)
    requires var ns := Scope(db.nodes, s.ws, root);
             s.source in ns || exists i :: i in items && items[i].key in KeysOf(db.versions, VersionsOn(db.versions, s.ws, ns))
    ensures PurgeRoot(CreateShare(db, id, s, items), s.ws, root, now) == CreateShare(db, id, s, items)
  {
    var db' := CreateShare(db, id, s, items);
    var ns := Scope(db.nodes, s.ws, root);
    if s.source in ns {
      assert id in LiveSharesOn(db', s.ws, ns, now);
    } else {
      var keys := KeysOf(db.versions, VersionsOn(db.versions, s.ws, ns));
      var i :| i in items && items[i].key in keys;
      assert i in LiveShareItemsOver(db', s.ws, keys, now);
    }
  }
}
