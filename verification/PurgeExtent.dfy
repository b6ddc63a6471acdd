/** Which rows a whole purge takes, read off the state it starts in, whichever order the
    roots come in. */
module PurgeExtent {
  import opened Common
  import opened Forest
  import opened Tables
  import opened NodeSteps
  import opened Runs
  import opened NodeSafety
  import opened StoreLemmas
  import opened TrashSafety
  import opened DirectoryLaws

  // ----- what holds a subtree back --------------------------------------------------------

  /** A live share of workspace `ws` is of a row below `r`. */
  ghost predicate SharedAt(db: Db, ws: WsId, r: NodeId, now: Time, s: ShareId) {
    && s in db.shares && db.shares[s].ws == ws && ShareLive(db.shares[s], now)
    && InSubtree(db, ws, r, db.shares[s].source)
  }

  /** A live share item of workspace `ws` is over an object of a version below `r`. */
  ghost predicate SharedBelow(db: Db, ws: WsId, r: NodeId, now: Time, i: ItemId) {
    && i in db.shareItems && db.shareItems[i].share in db.shares && db.shares[db.shareItems[i].share].ws == ws
    && ShareLive(db.shares[db.shareItems[i].share], now)
    && exists v :: v in db.versions && db.versions[v].ws == ws && db.versions[v].key == db.shareItems[i].key
         && InSubtree(db, ws, r, db.versions[v].node)
  }

  /** A live batch download of workspace `ws` lists a file below `r`. */
  ghost predicate QueuedBelow(db: Db, ws: WsId, r: NodeId, now: Time, i: ItemId) {
    && i in db.jobItems && db.jobItems[i].job in db.jobs && db.jobs[db.jobItems[i].job].ws == ws
    && JobLive(db.jobs[db.jobItems[i].job], now) && InSubtree(db, ws, r, db.jobItems[i].node)
  }

  /** Something still needs the subtree of `r`. */
  ghost predicate HeldBack(db: Db, ws: WsId, r: NodeId, now: Time) {
    || (exists s :: SharedAt(db, ws, r, now, s))
    || (exists i :: SharedBelow(db, ws, r, now, i))
    || (exists i :: QueuedBelow(db, ws, r, now, i))
  }

  lemma ScopeIsSubtree(db: Db, r: NodeId, n: NodeId)
    requires r in db.nodes
    ensures n in Scope(db.nodes, db.nodes[r].ws, r) <==> InSubtree(db, db.nodes[r].ws, r, n)
  {
    RootInSubtree(db, db.nodes[r].ws, r);
    assert r in Subtree(db.nodes, db.nodes[r].ws, r);
  }

  lemma RetainedIsHeld(db: Db, r: NodeId, now: Time)
    requires r in db.nodes
    ensures Retained(db, db.nodes[r].ws, Scope(db.nodes, db.nodes[r].ws, r), now) <==> HeldBack(db, db.nodes[r].ws, r, now)
  {
    var ws := db.nodes[r].ws;
    var ns := Scope(db.nodes, ws, r);
    forall n ensures n in ns <==> InSubtree(db, ws, r, n) {
      ScopeIsSubtree(db, r, n);
    }
    LiveSharesAre(db, ws, ns, r, now);
    LiveShareItemsAre(db, ws, ns, r, now);
    LiveJobItemsAre(db, ws, ns, r, now);
  }

  lemma LiveSharesAre(db: Db, ws: WsId, ns: set<NodeId>, r: NodeId, now: Time)
    requires forall n :: n in ns <==> InSubtree(db, ws, r, n)
    ensures LiveSharesOn(db, ws, ns, now) != {} <==> exists s :: SharedAt(db, ws, r, now, s)
  {
    if s :| SharedAt(db, ws, r, now, s) {
      assert s in LiveSharesOn(db, ws, ns, now);
    }
    if s :| s in LiveSharesOn(db, ws, ns, now) {
      assert SharedAt(db, ws, r, now, s);
    }
  }

  lemma LiveShareItemsAre(db: Db, ws: WsId, ns: set<NodeId>, r: NodeId, now: Time)
    requires forall n :: n in ns <==> InSubtree(db, ws, r, n)
    ensures LiveShareItemsOver(db, ws, KeysOf(db.versions, VersionsOn(db.versions, ws, ns)), now) != {} <==>
            exists i :: SharedBelow(db, ws, r, now, i)
  {
    var keys := KeysOf(db.versions, VersionsOn(db.versions, ws, ns));
    var found := LiveShareItemsOver(db, ws, keys, now);
    if i :| SharedBelow(db, ws, r, now, i) {
      var v :| v in db.versions && db.versions[v].ws == ws && db.versions[v].key == db.shareItems[i].key
            && InSubtree(db, ws, r, db.versions[v].node);
      assert v in VersionsOn(db.versions, ws, ns) && i in found;
    }
    if i :| i in found {
      var v :| v in VersionsOn(db.versions, ws, ns) && db.versions[v].key == db.shareItems[i].key;
      assert SharedBelow(db, ws, r, now, i);
    }
  }

  lemma LiveJobItemsAre(db: Db, ws: WsId, ns: set<NodeId>, r: NodeId, now: Time)
    requires forall n :: n in ns <==> InSubtree(db, ws, r, n)
    ensures LiveJobItemsOn(db, ws, ns, now) != {} <==> exists i :: QueuedBelow(db, ws, r, now, i)
  {
    if i :| QueuedBelow(db, ws, r, now, i) {
      assert i in LiveJobItemsOn(db, ws, ns, now);
    }
    if i :| i in LiveJobItemsOn(db, ws, ns, now) {
      assert QueuedBelow(db, ws, r, now, i);
    }
  }

  /** Live shares keep their rows and all their items; nothing else changes among shares but
      by deletion. */
  ghost predicate SharesStay(db: Db, db': Db, now: Time) {
    && (forall s :: s in db'.shares ==> s in db.shares && db'.shares[s] == db.shares[s])
    && (forall s :: s in db.shares && ShareLive(db.shares[s], now) ==> s in db'.shares)
    && (forall i :: i in db'.shareItems ==> i in db.shareItems && db'.shareItems[i] == db.shareItems[i])
    && (forall i :: i in db.shareItems && InLiveShare(db, i, now) ==> i in db'.shareItems)
  }

  ghost predicate InLiveShare(db: Db, i: ItemId, now: Time)
    requires i in db.shareItems
  {
    db.shareItems[i].share in db.shares && ShareLive(db.shares[db.shareItems[i].share], now)
  }

  /** Live batch downloads keep their rows and all their items, and no other comes to life. */
  ghost predicate JobsStay(db: Db, db': Db, now: Time) {
    && db'.jobs.Keys == db.jobs.Keys
    && (forall j :: j in db.jobs && JobLive(db.jobs[j], now) ==> db'.jobs[j] == db.jobs[j])
    && (forall j :: j in db'.jobs && JobLive(db'.jobs[j], now) ==> db'.jobs[j] == db.jobs[j])
    && (forall i :: i in db'.jobItems ==> i in db.jobItems && db'.jobItems[i] == db.jobItems[i])
    && (forall i :: i in db.jobItems && InLiveJob(db, i, now) ==> i in db'.jobItems)
  }

  ghost predicate InLiveJob(db: Db, i: ItemId, now: Time)
    requires i in db.jobItems
  {
    db.jobItems[i].job in db.jobs && JobLive(db.jobs[db.jobItems[i].job], now)
  }

  lemma SharesOutlive(db: Db, ws: WsId, ns: set<NodeId>, now: Time)
    ensures SharesStay(db, Purged(db, ws, ns, now), now)
  {
    var keys := KeysOf(db.versions, VersionsOn(db.versions, ws, ns));
    assert Purged(db, ws, ns, now).shareItems == KeptShareItems(db.shareItems, db.shares, ws, ns, keys, now);
    assert Purged(db, ws, ns, now).shares == db.shares - EndedSharesOf(db.shares, ws, ns, now);
  }

  lemma JobsOutlive(db: Db, ws: WsId, ns: set<NodeId>, now: Time)
    requires LiveJobItemsOn(db, ws, ns, now) == {}
    ensures JobsStay(db, Purged(db, ws, ns, now), now)
  {
    var js := JobsOn(db.jobs, db.jobItems, ws, ns);
    forall j | j in js ensures j in db.jobs && !JobLive(db.jobs[j], now) {
      var i :| i in db.jobItems && db.jobItems[i].node in ns && db.jobItems[i].job == j && j in db.jobs && db.jobs[j].ws == ws;
      assert i !in LiveJobItemsOn(db, ws, ns, now);
    }
    JobRowsOutlive(db, Purged(db, ws, ns, now), js, now);
  }

  lemma JobRowsOutlive(db: Db, after: Db, js: set<JobId>, now: Time)
    requires forall j :: j in js ==> j in db.jobs && !JobLive(db.jobs[j], now)
    requires after.jobs == WithExpired(db.jobs, js) && after.jobItems == KeptJobItems(db.jobItems, js)
    ensures JobsStay(db, after, now)
  {
  }

  lemma SharesStayTwice(a: Db, b: Db, c: Db, now: Time)
    requires SharesStay(a, b, now) && SharesStay(b, c, now)
    ensures SharesStay(a, c, now)
  {
  }

  lemma JobsStayTwice(a: Db, b: Db, c: Db, now: Time)
    requires JobsStay(a, b, now) && JobsStay(b, c, now)
    ensures JobsStay(a, c, now)
  {
  }

  lemma RootSparesLive(db: Db, ws: WsId, root: NodeId, now: Time)
    ensures SharesStay(db, PurgeRoot(db, ws, root, now), now) && JobsStay(db, PurgeRoot(db, ws, root, now), now)
  {
    var ns := Scope(db.nodes, ws, root);
    if !Retained(db, ws, ns, now) {
      SharesOutlive(db, ws, ns, now);
      JobsOutlive(db, ws, ns, now);
    }
  }

  /** No purge takes anything from a live share or a live batch download. */
  lemma {:induction false} PurgeSparesLive(db: Db, snapshot: map<NodeId, Node>, order: seq<NodeId>, now: Time)
    ensures SharesStay(db, PurgeRoots(db, snapshot, order, now), now)
    ensures JobsStay(db, PurgeRoots(db, snapshot, order, now), now)
    decreases |order|
  {
    if order != [] {
      if order[0] !in snapshot {
        PurgeSparesLive(db, snapshot, order[1..], now);
      } else {
        var next := PurgeRoot(db, snapshot[order[0]].ws, order[0], now);
        RootSparesLive(db, snapshot[order[0]].ws, order[0], now);
        PurgeSparesLive(next, snapshot, order[1..], now);
        SharesStayTwice(db, next, PurgeRoots(next, snapshot, order[1..], now), now);
        JobsStayTwice(db, next, PurgeRoots(next, snapshot, order[1..], now), now);
      }
    }
  }

  /** What one purge of an unretained scope keeps of other subtrees. */
  lemma OtherSubtree(db: Db, ws: WsId, ns: set<NodeId>, now: Time, w: WsId, r: NodeId, n: NodeId)
    requires TreeOk(db) && GoodScope(db, ws, ns)
    ensures InSubtree(Purged(db, ws, ns, now), w, r, n) <==> InSubtree(db, w, r, n) && n !in ns
  {
    var next := Purged(db, ws, ns, now);
    PurgedParents(db, ws, ns, now);
    forall k: nat | n !in ns ensures Up(ParentsOf(next.nodes), n, k) == Up(ParentsOf(db.nodes), n, k) {
      UpAfterDrop(ParentsOf(db.nodes), ns, n, k);
    }
    assert n in next.nodes <==> n in db.nodes && n !in ns;
    if InSubtree(next, w, r, n) {
      var k: nat :| Up(ParentsOf(next.nodes), n, k) == Some(r);
      assert Up(ParentsOf(db.nodes), n, k) == Some(r);
    }
    if InSubtree(db, w, r, n) && n !in ns {
      var k: nat :| Up(ParentsOf(db.nodes), n, k) == Some(r);
      assert Up(ParentsOf(next.nodes), n, k) == Some(r);
    }
  }

  /** Subtree `r` lost at most the rows of `ns`, which belong to workspace `ws`. */
  ghost predicate LessSubtree(db: Db, next: Db, ws: WsId, ns: set<NodeId>, w: WsId, r: NodeId) {
    && (forall n :: InSubtree(next, w, r, n) <==> InSubtree(db, w, r, n) && n !in ns)
    && (forall n :: n in ns && n in db.nodes ==> db.nodes[n].ws == ws)
  }

  lemma ShareHoldsOn(db: Db, next: Db, ws: WsId, ns: set<NodeId>, now: Time, w: WsId, r: NodeId)
    requires SharesStay(db, next, now) && LessSubtree(db, next, ws, ns, w, r) && LiveSharesOn(db, ws, ns, now) == {}
    ensures (exists s :: SharedAt(next, w, r, now, s)) <==> (exists s :: SharedAt(db, w, r, now, s))
  {
    if s :| SharedAt(db, w, r, now, s) {
      assert s !in LiveSharesOn(db, ws, ns, now);
      assert SharedAt(next, w, r, now, s);
    }
    if s :| SharedAt(next, w, r, now, s) {
      assert SharedAt(db, w, r, now, s);
    }
  }

  lemma ObjectHoldsOn(db: Db, next: Db, ws: WsId, ns: set<NodeId>, now: Time, w: WsId, r: NodeId, i: ItemId)
    requires SharesStay(db, next, now) && LessSubtree(db, next, ws, ns, w, r)
    requires LiveShareItemsOver(db, ws, KeysOf(db.versions, VersionsOn(db.versions, ws, ns)), now) == {}
    requires next.versions == db.versions - VersionsOn(db.versions, ws, ns)
    ensures SharedBelow(next, w, r, now, i) <==> SharedBelow(db, w, r, now, i)
  {
    if SharedBelow(db, w, r, now, i) {
      var v :| v in db.versions && db.versions[v].ws == w && db.versions[v].key == db.shareItems[i].key
            && InSubtree(db, w, r, db.versions[v].node);
      assert i !in LiveShareItemsOver(db, ws, KeysOf(db.versions, VersionsOn(db.versions, ws, ns)), now);
      assert v !in VersionsOn(db.versions, ws, ns);
      assert InLiveShare(db, i, now);
      assert InSubtree(next, w, r, next.versions[v].node);
    }
    if SharedBelow(next, w, r, now, i) {
      var v :| v in next.versions && next.versions[v].ws == w && next.versions[v].key == next.shareItems[i].key
            && InSubtree(next, w, r, next.versions[v].node);
      assert v in db.versions && InSubtree(db, w, r, db.versions[v].node);
    }
  }

  lemma JobHoldsOn(db: Db, next: Db, ws: WsId, ns: set<NodeId>, now: Time, w: WsId, r: NodeId)
    requires JobsStay(db, next, now) && LessSubtree(db, next, ws, ns, w, r) && LiveJobItemsOn(db, ws, ns, now) == {}
    ensures (exists i :: QueuedBelow(next, w, r, now, i)) <==> (exists i :: QueuedBelow(db, w, r, now, i))
  {
    if i :| QueuedBelow(db, w, r, now, i) {
      assert i !in LiveJobItemsOn(db, ws, ns, now);
      assert InLiveJob(db, i, now);
      assert QueuedBelow(next, w, r, now, i);
    }
    if i :| QueuedBelow(next, w, r, now, i) {
      assert QueuedBelow(db, w, r, now, i);
    }
  }

  /** What is held back stays so through the purge of another root, and nothing else
      becomes so. */
  lemma HeldStays(db: Db, ws: WsId, ns: set<NodeId>, now: Time, w: WsId, r: NodeId)
    requires TreeOk(db) && GoodScope(db, ws, ns) && !Retained(db, ws, ns, now)
    ensures HeldBack(Purged(db, ws, ns, now), w, r, now) <==> HeldBack(db, w, r, now)
  {
    var next := Purged(db, ws, ns, now);
    forall n ensures InSubtree(next, w, r, n) <==> InSubtree(db, w, r, n) && n !in ns {
      OtherSubtree(db, ws, ns, now, w, r, n);
    }
    SharesOutlive(db, ws, ns, now);
    JobsOutlive(db, ws, ns, now);
    HoldsOn(db, next, ws, ns, now, w, r);
  }

  lemma HoldsOn(db: Db, next: Db, ws: WsId, ns: set<NodeId>, now: Time, w: WsId, r: NodeId)
    requires SharesStay(db, next, now) && JobsStay(db, next, now) && LessSubtree(db, next, ws, ns, w, r)
    requires !Retained(db, ws, ns, now) && next.versions == db.versions - VersionsOn(db.versions, ws, ns)
    ensures HeldBack(next, w, r, now) <==> HeldBack(db, w, r, now)
  {
    ShareHoldsOn(db, next, ws, ns, now, w, r);
    forall i ensures SharedBelow(next, w, r, now, i) <==> SharedBelow(db, w, r, now, i) {
      ObjectHoldsOn(db, next, ws, ns, now, w, r, i);
    }
    JobHoldsOn(db, next, ws, ns, now, w, r);
  }

  // ----- which rows go ------------------------------------------------------------------

  /** Node `n` lies below one of the listed roots that nothing holds back. */
  ghost predicate Doomed(db: Db, order: seq<NodeId>, now: Time, n: NodeId) {
    exists r :: r in order && DoomedBy(db, r, now, n)
  }

  ghost predicate DoomedBy(db: Db, r: NodeId, now: Time, n: NodeId) {
    r in db.nodes && InSubtree(db, db.nodes[r].ws, r, n) && !HeldBack(db, db.nodes[r].ws, r, now)
  }

  /** After the purge of an unretained root, the other roots doom what they doomed. */
  lemma DoomedAfter(db: Db, ws: WsId, ns: set<NodeId>, now: Time, r: NodeId, n: NodeId)
    requires TreeOk(db) && GoodScope(db, ws, ns) && !Retained(db, ws, ns, now) && n in Purged(db, ws, ns, now).nodes
    ensures DoomedBy(Purged(db, ws, ns, now), r, now, n) <==> DoomedBy(db, r, now, n)
  {
    var next := Purged(db, ws, ns, now);
    if r in db.nodes {
      HeldStays(db, ws, ns, now, db.nodes[r].ws, r);
      OtherSubtree(db, ws, ns, now, db.nodes[r].ws, r, n);
      assert r in next.nodes <==> r !in ns;
      if InSubtree(db, db.nodes[r].ws, r, n) && r in ns {
        BelowScope(db, ws, ns, r, n);
      }
    }
  }

  lemma {:induction false} ClimbStays(p: Parents, ns: set<NodeId>, n: NodeId, k: nat)
    requires DownClosed(p, ns) && Up(p, n, k).Some? && Up(p, n, k).value in ns
    ensures n in ns
    decreases k
  {
    if k > 0 {
      ClimbStays(p, ns, p[n].value, k - 1);
    }
  }

  lemma BelowScope(db: Db, ws: WsId, ns: set<NodeId>, r: NodeId, n: NodeId)
    requires GoodScope(db, ws, ns) && r in ns && Below(ParentsOf(db.nodes), n, r)
    ensures n in ns
  {
    var k: nat :| Up(ParentsOf(db.nodes), n, k) == Some(r);
    ClimbStays(ParentsOf(db.nodes), ns, n, k);
  }

  /** One root: its whole subtree goes if nothing holds it back, and no row otherwise. */
  lemma RootTakes(db: Db, ws: WsId, r: NodeId, now: Time, n: NodeId)
    requires TreeOk(db) && (r in db.nodes ==> db.nodes[r].ws == ws) && n in db.nodes
    ensures n !in PurgeRoot(db, ws, r, now).nodes <==> DoomedBy(db, r, now, n)
  {
    ScopeIsGood(db, ws, r);
    if r in db.nodes {
      RetainedIsHeld(db, r, now);
      ScopeIsSubtree(db, r, n);
    } else {
      NothingBelow(db, ws, r);
    }
  }

  lemma NothingBelow(db: Db, ws: WsId, r: NodeId)
    requires r !in db.nodes
    ensures Scope(db.nodes, ws, r) == {r}
  {
    forall d | d in Subtree(db.nodes, ws, r) ensures false {
      var k: nat :| Up(ParentsOf(db.nodes), d, k) == Some(r);
      UpStays(ParentsOf(db.nodes), d, k);
    }
  }

  lemma RootTree(db: Db, ws: WsId, r: NodeId, now: Time)
    requires TreeOk(db) && (r in db.nodes ==> db.nodes[r].ws == ws)
    ensures TreeOk(PurgeRoot(db, ws, r, now)) && NodesShrink(db, PurgeRoot(db, ws, r, now))
  {
    ScopeIsGood(db, ws, r);
    PurgeTree(db, ws, Scope(db.nodes, ws, r), now);
  }

  /** The roots still to come doom what they doomed, but for what is gone. */
  lemma RestDooms(db: Db, ws: WsId, r0: NodeId, order: seq<NodeId>, now: Time, n: NodeId)
    requires TreeOk(db) && (r0 in db.nodes ==> db.nodes[r0].ws == ws) && n in PurgeRoot(db, ws, r0, now).nodes
    ensures Doomed(PurgeRoot(db, ws, r0, now), order, now, n) <==> Doomed(db, order, now, n)
  {
    var ns := Scope(db.nodes, ws, r0);
    ScopeIsGood(db, ws, r0);
    if !Retained(db, ws, ns, now) {
      forall r ensures DoomedBy(Purged(db, ws, ns, now), r, now, n) <==> DoomedBy(db, r, now, n) {
        DoomedAfter(db, ws, ns, now, r, n);
      }
    }
  }

  lemma DoomedCons(db: Db, order: seq<NodeId>, now: Time, n: NodeId)
    requires order != []
    ensures Doomed(db, order, now, n) <==> DoomedBy(db, order[0], now, n) || Doomed(db, order[1..], now, n)
  {
    assert order == [order[0]] + order[1..];
    assert order[0] in order;
    if r :| r in order[1..] && DoomedBy(db, r, now, n) {
      assert r in order;
    }
  }

  /** The roots of `order` are rows of the snapshot the loop works from. */
  ghost predicate Snapshot(db: Db, snapshot: map<NodeId, Node>, order: seq<NodeId>) {
    && (forall r :: r in order ==> r in snapshot)
    && (forall n :: n in db.nodes ==> n in snapshot && db.nodes[n] == snapshot[n])
  }

  lemma {:induction false} RootsTake(db: Db, snapshot: map<NodeId, Node>, order: seq<NodeId>, now: Time, n: NodeId)
    requires TreeOk(db) && Snapshot(db, snapshot, order) && n in db.nodes
    ensures n !in PurgeRoots(db, snapshot, order, now).nodes <==> Doomed(db, order, now, n)
    decreases |order|
  {
    if order != [] {
      var r, ws := order[0], snapshot[order[0]].ws;
      var next := PurgeRoot(db, ws, r, now);
      RootTree(db, ws, r, now);
      RootTakes(db, ws, r, now, n);
      DoomedCons(db, order, now, n);
      if n in next.nodes {
        RestDooms(db, ws, r, order[1..], now, n);
        RootsTake(next, snapshot, order[1..], now, n);
      } else {
        PurgeShrinks(next, snapshot, order[1..], now);
      }
    }
  }

  /** A purge removes exactly the rows below those roots that are trashed since the cutoff,
      hang under no trashed row, and are held back by nothing: all of it judged in the state
      before the purge, whatever order the roots come in. */
  lemma PurgeTakesExactly(db: Db, cutoff: Time, now: Time, order: seq<NodeId>, n: NodeId)
    requires TreeOk(db) && ListsExpiredRoots(db.nodes, cutoff, order) && n in db.nodes
    ensures n !in PurgeRoots(db, db.nodes, order, now).nodes <==> exists r :: ExpiredRoot(db, r, cutoff) && DoomedBy(db, r, now, n)
    ensures n in PurgeRoots(db, db.nodes, order, now).nodes ==> PurgeRoots(db, db.nodes, order, now).nodes[n] == db.nodes[n]
  {
    RootsTake(db, db.nodes, order, now, n);
    PurgeShrinks(db, db.nodes, order, now);
    forall r ensures r in order <==> ExpiredRoot(db, r, cutoff) {
    }
    if r :| ExpiredRoot(db, r, cutoff) && DoomedBy(db, r, now, n) {
      assert r in order;
    }
  }

  /** A trashed row that has been in the trash since `cutoff` or longer, and whose parent, if
      there is one, is not trashed. */
  ghost predicate ExpiredRoot(db: Db, r: NodeId, cutoff: Time) {
    && r in db.nodes && db.nodes[r].status == Trashed && db.nodes[r].trashedAt.Some? && db.nodes[r].trashedAt.value <= cutoff
    && forall q :: db.nodes[r].parent == Some(q) && q in db.nodes ==> db.nodes[q].status == Active
  }

  // ----- the versions and sessions of these rows ------------------------------------------

  lemma RootTakesVersion(db: Db, ws: WsId, r: NodeId, now: Time, v: VersionId)
    requires TreeOk(db) && v in db.versions && VersionRowOk(db, v) && (r in db.nodes ==> db.nodes[r].ws == ws)
    ensures v !in PurgeRoot(db, ws, r, now).versions <==> db.versions[v].node !in PurgeRoot(db, ws, r, now).nodes
  {
    ScopeIsGood(db, ws, r);
  }

  /** A purge drops exactly the versions of the rows it removes. */
  lemma {:induction false} PurgeTakesVersions(
    db: Db, snapshot: map<NodeId, Node>, order: seq<NodeId>, now: Time, v: VersionId)
    requires TreeOk(db) && VersionsOk(db) && Snapshot(db, snapshot, order) && v in db.versions
    ensures v !in PurgeRoots(db, snapshot, order, now).versions <==>
            db.versions[v].node !in PurgeRoots(db, snapshot, order, now).nodes
    decreases |order|
  {
    assert VersionRowOk(db, v);
    if order != [] {
      var r, ws := order[0], snapshot[order[0]].ws;
      var next := PurgeRoot(db, ws, r, now);
      RootTree(db, ws, r, now);
      RootTakesVersion(db, ws, r, now, v);
      ScopeIsGood(db, ws, r);
      PurgeVersions(db, ws, Scope(db.nodes, ws, r), now);
      if v in next.versions {
        PurgeTakesVersions(next, snapshot, order[1..], now, v);
      } else {
        PurgeShrinks(next, snapshot, order[1..], now);
        VersionsShrink(next, snapshot, order[1..], now);
      }
    }
  }

  lemma {:induction false} VersionsShrink(db: Db, snapshot: map<NodeId, Node>, order: seq<NodeId>, now: Time)
    ensures PurgeRoots(db, snapshot, order, now).versions.Keys <= db.versions.Keys
    decreases |order|
  {
    if order != [] {
      var next := if order[0] in snapshot then PurgeRoot(db, snapshot[order[0]].ws, order[0], now) else db;
      VersionsShrink(next, snapshot, order[1..], now);
    }
  }

  /** The session writes to a row below `r`, or into a folder there. */
  ghost predicate Touches(db: Db, ws: WsId, r: NodeId, s: Session) {
    && s.ws == ws
    && ((s.node.Some? && InSubtree(db, ws, r, s.node.value)) || (s.target.Some? && InSubtree(db, ws, r, s.target.value)))
  }

  ghost predicate EndedBy(db: Db, r: NodeId, now: Time, s: Session) {
    r in db.nodes && Touches(db, db.nodes[r].ws, r, s) && !HeldBack(db, db.nodes[r].ws, r, now)
  }

  ghost predicate Ended(db: Db, order: seq<NodeId>, now: Time, s: Session) {
    exists r :: r in order && EndedBy(db, r, now, s)
  }

  /** No session of the workspace names a listed root that is gone. */
  ghost predicate Cleared(db: Db, snapshot: map<NodeId, Node>, order: seq<NodeId>) {
    forall r, s :: r in order && r in snapshot && r !in db.nodes && s in db.sessions && db.sessions[s].ws == snapshot[r].ws ==>
      Unnamed(db.sessions[s], r)
  }

  predicate Unnamed(s: Session, r: NodeId) {
    s.node != Some(r) && s.target != Some(r)
  }

  lemma RootEnds(db: Db, ws: WsId, r: NodeId, now: Time, sid: SessionId)
    requires (r in db.nodes ==> db.nodes[r].ws == ws) && sid in db.sessions
    requires r !in db.nodes && db.sessions[sid].ws == ws ==> Unnamed(db.sessions[sid], r)
    ensures sid !in PurgeRoot(db, ws, r, now).sessions <==> EndedBy(db, r, now, db.sessions[sid])
  {
    var s, ns := db.sessions[sid], Scope(db.nodes, ws, r);
    if r in db.nodes {
      RetainedIsHeld(db, r, now);
      forall n ensures n in ns <==> InSubtree(db, ws, r, n) {
        ScopeIsSubtree(db, r, n);
      }
      assert sid in SessionsOn(db.sessions, ws, ns) <==> Touches(db, ws, r, s);
    } else {
      NothingBelow(db, ws, r);
      assert sid !in SessionsOn(db.sessions, ws, ns);
    }
  }

  lemma EndedAfter(db: Db, ws: WsId, ns: set<NodeId>, now: Time, r: NodeId, sid: SessionId)
    requires TreeOk(db) && GoodScope(db, ws, ns) && !Retained(db, ws, ns, now)
    requires sid in db.sessions && sid !in SessionsOn(db.sessions, ws, ns)
    ensures EndedBy(Purged(db, ws, ns, now), r, now, db.sessions[sid]) <==> EndedBy(db, r, now, db.sessions[sid])
  {
    var next, s := Purged(db, ws, ns, now), db.sessions[sid];
    if r in db.nodes {
      HeldStays(db, ws, ns, now, db.nodes[r].ws, r);
      assert r in next.nodes <==> r !in ns;
      TouchesAfter(db, ws, ns, now, r, s);
    }
  }

  lemma TouchesAfter(db: Db, ws: WsId, ns: set<NodeId>, now: Time, r: NodeId, s: Session)
    requires TreeOk(db) && GoodScope(db, ws, ns) && r in db.nodes
    requires s.ws == ws ==> (s.node.Some? ==> s.node.value !in ns) && (s.target.Some? ==> s.target.value !in ns)
    ensures Touches(Purged(db, ws, ns, now), db.nodes[r].ws, r, s) <==> Touches(db, db.nodes[r].ws, r, s)
    ensures Touches(db, db.nodes[r].ws, r, s) ==> r !in ns
  {
    var w := db.nodes[r].ws;
    forall n | InSubtree(db, w, r, n) && r in ns ensures n in ns {
      BelowScope(db, ws, ns, r, n);
    }
    if s.node.Some? {
      OtherSubtree(db, ws, ns, now, w, r, s.node.value);
    }
    if s.target.Some? {
      OtherSubtree(db, ws, ns, now, w, r, s.target.value);
    }
  }

  lemma RestEnds(db: Db, ws: WsId, r0: NodeId, order: seq<NodeId>, now: Time, sid: SessionId)
    requires TreeOk(db) && (r0 in db.nodes ==> db.nodes[r0].ws == ws)
    requires sid in db.sessions && sid in PurgeRoot(db, ws, r0, now).sessions
    ensures Ended(PurgeRoot(db, ws, r0, now), order, now, db.sessions[sid]) <==> Ended(db, order, now, db.sessions[sid])
  {
    var ns := Scope(db.nodes, ws, r0);
    ScopeIsGood(db, ws, r0);
    if !Retained(db, ws, ns, now) {
      forall r ensures EndedBy(Purged(db, ws, ns, now), r, now, db.sessions[sid]) <==> EndedBy(db, r, now, db.sessions[sid]) {
        EndedAfter(db, ws, ns, now, r, sid);
      }
    }
  }

  lemma EndedCons(db: Db, order: seq<NodeId>, now: Time, s: Session)
    requires order != []
    ensures Ended(db, order, now, s) <==> EndedBy(db, order[0], now, s) || Ended(db, order[1..], now, s)
  {
    assert order == [order[0]] + order[1..];
    assert order[0] in order;
    if r :| r in order[1..] && EndedBy(db, r, now, s) {
      assert r in order;
    }
  }

  lemma StaysCleared(db: Db, snapshot: map<NodeId, Node>, order: seq<NodeId>, now: Time)
    requires TreeOk(db) && Snapshot(db, snapshot, order) && Cleared(db, snapshot, order) && order != []
    ensures Cleared(PurgeRoot(db, snapshot[order[0]].ws, order[0], now), snapshot, order[1..])
  {
    assert order[0] in order;
    var ws := snapshot[order[0]].ws;
    var ns := Scope(db.nodes, ws, order[0]);
    var next := PurgeRoot(db, ws, order[0], now);
    ScopeIsGood(db, ws, order[0]);
    forall r, s | r in order[1..] && r in snapshot && r !in next.nodes && s in next.sessions && next.sessions[s].ws == snapshot[r].ws
      ensures Unnamed(next.sessions[s], r)
    {
      assert r in order;
      assert s in db.sessions && next.sessions[s] == db.sessions[s];
      if r in db.nodes {
        assert r in ns && snapshot[r].ws == ws && s !in SessionsOn(db.sessions, ws, ns);
      }
    }
  }

  lemma {:induction false} RootsEnd(db: Db, snapshot: map<NodeId, Node>, order: seq<NodeId>, now: Time, sid: SessionId)
    requires TreeOk(db) && Snapshot(db, snapshot, order) && Cleared(db, snapshot, order) && sid in db.sessions
    ensures sid !in PurgeRoots(db, snapshot, order, now).sessions <==> Ended(db, order, now, db.sessions[sid])
    ensures sid in PurgeRoots(db, snapshot, order, now).sessions ==>
              PurgeRoots(db, snapshot, order, now).sessions[sid] == db.sessions[sid]
    decreases |order|
  {
    if order != [] {
      var r, ws := order[0], snapshot[order[0]].ws;
      var next := PurgeRoot(db, ws, r, now);
      assert r in order;
      RootTree(db, ws, r, now);
      RootEnds(db, ws, r, now, sid);
      EndedCons(db, order, now, db.sessions[sid]);
      StaysCleared(db, snapshot, order, now);
      if sid in next.sessions {
        RestEnds(db, ws, r, order[1..], now, sid);
        RootsEnd(next, snapshot, order[1..], now, sid);
      } else {
        SessionsShrink(next, snapshot, order[1..], now);
      }
    }
  }

  lemma {:induction false} SessionsShrink(db: Db, snapshot: map<NodeId, Node>, order: seq<NodeId>, now: Time)
    ensures PurgeRoots(db, snapshot, order, now).sessions.Keys <= db.sessions.Keys
    decreases |order|
  {
    if order != [] {
      var next := if order[0] in snapshot then PurgeRoot(db, snapshot[order[0]].ws, order[0], now) else db;
      SessionsShrink(next, snapshot, order[1..], now);
    }
  }

  /** A purge deletes exactly the uploads into the subtrees it removes, and changes no other. */
  lemma PurgeTakesSessions(db: Db, cutoff: Time, now: Time, order: seq<NodeId>, sid: SessionId)
    requires TreeOk(db) && ListsExpiredRoots(db.nodes, cutoff, order) && sid in db.sessions
    ensures var after := PurgeRoots(db, db.nodes, order, now);
            && (sid !in after.sessions <==> exists r :: ExpiredRoot(db, r, cutoff) && EndedBy(db, r, now, db.sessions[sid]))
            && (sid in after.sessions ==> after.sessions[sid] == db.sessions[sid])
  {
    RootsEnd(db, db.nodes, order, now, sid);
    forall r ensures r in order <==> ExpiredRoot(db, r, cutoff) {
    }
    if r :| ExpiredRoot(db, r, cutoff) && EndedBy(db, r, now, db.sessions[sid]) {
      assert r in order;
    }
  }

  // ----- ended holders --------------------------------------------------------------------

  /** The purge of one scope also deletes the ended shares of its rows, with all their items,
      and the items of other ended shares over its objects; no other share or item goes. */
  lemma ScopeDropsShares(db: Db, ws: WsId, ns: set<NodeId>, now: Time)
    ensures var after := Purged(db, ws, ns, now);
            && (forall s :: s in db.shares ==>
                  (s !in after.shares <==> EndedOf(db, ws, now, s) && db.shares[s].source in ns))
            && (forall i :: i in db.shareItems ==>
                  (i !in after.shareItems <==>
                     && db.shareItems[i].share in db.shares && EndedOf(db, ws, now, db.shareItems[i].share)
                     && (db.shares[db.shareItems[i].share].source in ns || StoredIn(db, ws, ns, db.shareItems[i].key))))
  {
    var after := Purged(db, ws, ns, now);
    var keys := KeysOf(db.versions, VersionsOn(db.versions, ws, ns));
    assert after.shareItems == KeptShareItems(db.shareItems, db.shares, ws, ns, keys, now);
    forall key ensures key in keys <==> StoredIn(db, ws, ns, key) {
      if StoredIn(db, ws, ns, key) {
        var v :| v in db.versions && db.versions[v].ws == ws && db.versions[v].node in ns && db.versions[v].key == key;
        assert v in VersionsOn(db.versions, ws, ns);
      }
    }
    EndedSharesAre(db, ws, ns, now);
  }

  /** The share belongs to the workspace and has ended. */
  predicate EndedOf(db: Db, ws: WsId, now: Time, s: ShareId)
    requires s in db.shares
  {
    && db.shares[s].ws == ws
    && (db.shares[s].status != ShareActive || db.shares[s].expiresAt <= now
        || (db.shares[s].maxDownloads.Some? && db.shares[s].downloads >= db.shares[s].maxDownloads.value))
  }

  ghost predicate StoredIn(db: Db, ws: WsId, ns: set<NodeId>, key: StorageKey) {
    exists v :: v in db.versions && db.versions[v].ws == ws && db.versions[v].node in ns && db.versions[v].key == key
  }

  lemma EndedSharesAre(db: Db, ws: WsId, ns: set<NodeId>, now: Time)
    ensures forall s :: s in EndedShares(db.shares, ws, now) <==> s in db.shares && EndedOf(db, ws, now, s)
    ensures forall s :: s in EndedSharesOf(db.shares, ws, ns, now) <==>
              s in db.shares && EndedOf(db, ws, now, s) && db.shares[s].source in ns
  {
  }
}
