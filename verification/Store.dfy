/** The store: the tables as fields, and every transaction as the statements the
    data layer runs. Each method is tied to the step it stands for; a failed one
    leaves the state as it was. The directory methods read and edit the closure
    table only, while their steps are stated over the parent pointers. */
module Store {
  import opened Common
  import opened Forest
  import opened Closure
  import opened Chunks
  import opened Tables
  import opened NodeSteps
  import opened UploadSteps
  import opened ObjectSteps
  import opened Runs
  import opened NodeSafety
  import opened StoreLemmas
  import opened PurgeBytes

  function ErrorOf(o: Outcome): Option<Error> {
    if o.Failed? then Some(o.error) else None
  }

  class Store {
    var nodes: map<NodeId, Node>
    var closures: Closures
    var nextNode: NodeId
    var versions: map<VersionId, FileVersion>
    var nextVersion: VersionId
    var sessions: map<SessionId, Session>
    var workspaces: map<WsId, Workspace>
    var members: map<MemberKey, Member>
    var shares: map<ShareId, Share>
    var shareItems: map<ItemId, ShareItem>
    var jobs: map<JobId, Job>
    var jobItems: map<ItemId, JobItem>
    ghost var origin: map<StorageKey, Origin>

    /** The tables without their index. */
    ghost function State(): Db
      reads this
    {
      Db(nodes, nextNode, versions, nextVersion, sessions, workspaces, members, shares, shareItems, jobs, jobItems, origin)
    }

    /** The closure table is exact for the directory rows, which form a forest. */
    ghost predicate Valid()
      reads this
    {
      TreeOk(State()) && Exact(closures, ParentsOf(nodes))
    }

    constructor ()
      ensures Valid() && State() == EMPTY
    {
      nodes, closures, nextNode, versions, nextVersion := map[], map[], 1, map[], 1;
      sessions, workspaces, members := map[], map[], map[];
      shares, shareItems, jobs, jobItems, origin := map[], map[], map[], map[], map[];
      RankedIsAcyclic(ParentsOf(map[]), map[]);
    }

    // ----- node.go --------------------------------------------------------------

    method CreateNode(n: Node) returns (id: NodeId)
      requires Valid() && ParentInPlace(State(), n.ws, n.parent)
      modifies this`nodes, this`closures, this`nextNode
      ensures Valid() && State() == NodeSteps.CreateNode(old(State()), n).db && id == old(nextNode)
    {
      NewNodeIndexed(State(), n, closures);
      id := InsertNode(n);
    }

    /** The inserts shared by CreateNode and FinalizeSession. */
    method InsertNode(n: Node) returns (id: NodeId)
      modifies this`nodes, this`closures, this`nextNode
      ensures id == old(nextNode) && nodes == old(nodes)[id := n] && nextNode == id + 1
      ensures closures == WithNewNode(old(closures), id, n.parent)
    {
      id := nextNode;
      nodes, nextNode := nodes[id := n], id + 1;
      closures := closures + SelfRow(id);
      if n.parent.Some? {
        closures := closures + InheritedRows(closures, id, n.parent.value);
      }
    }

    method Move(ws: WsId, id: NodeId, actor: UserId, q: Option<NodeId>) returns (err: Option<Error>)
      requires Valid()
      modifies this`nodes, this`closures
      ensures Valid()
      ensures State() == NodeSteps.Move(old(State()), ws, id, actor, q).After(old(State()))
      ensures err == ErrorOf(NodeSteps.Move(old(State()), ws, id, actor, q))
    {
      if id !in nodes || nodes[id].ws != ws {
        return Some(NotFound);
      }
      var node := nodes[id];
      if node.status != Active {
        return Some(NodeState);
      }
      if q.Some? {
        if q.value == id {
          return Some(InvalidMove);
        }
        if !(q.value in nodes && nodes[q.value].ws == ws && nodes[q.value].kind == Folder
             && nodes[q.value].status == Active) {
          return Some(NotFound);
        }
        ExactDecidesBelow(closures, ParentsOf(nodes), q.value, id);
        if Edge(id, q.value) in closures {
          return Some(InvalidMove);
        }
      }
      if node.parent == q {
        return None;
      }
      MoveIndexed(State(), closures, id, q, actor);
      closures := WithoutUpperPaths(closures, id);
      if q.Some? {
        closures := closures + GraftedRows(closures, id, q.value);
      }
      nodes := nodes[id := node.(parent := q, updatedBy := actor)];
      return None;
    }

    /** SELECT descendant_id WHERE ancestor_id = id. */
    function Descendants(id: NodeId): set<NodeId>
      reads this
    {
      set e | e in closures.Keys && e.anc == id :: e.desc
    }

    method TrashSubtree(ws: WsId, id: NodeId, actor: UserId, now: Time) returns (err: Option<Error>)
      requires Valid()
      modifies this`nodes
      ensures Valid()
      ensures State() == NodeSteps.TrashSubtree(old(State()), ws, id, actor, now).After(old(State()))
      ensures err == ErrorOf(NodeSteps.TrashSubtree(old(State()), ws, id, actor, now))
    {
      if id !in nodes || nodes[id].ws != ws {
        return Some(NotFound);
      }
      var ids := Descendants(id);
      DescendantsAreSubtree(State(), closures, ws, id);
      var hit := set d | d in ids && d in nodes && nodes[d].ws == ws && nodes[d].status == Active;
      assert hit == set d | d in Subtree(nodes, ws, id) && nodes[d].status == Active;
      if |hit| == 0 {
        return Some(NotFound);
      }
      ghost var before := State();
      nodes := map d | d in nodes :: if d in hit then nodes[d].(status := Trashed, trashedAt := Some(now), updatedBy := actor)
                                     else nodes[d];
      assert State() == NodeSteps.TrashSubtree(before, ws, id, actor, now).db;
      TrashShape(before, ws, id, actor, now);
      StatusOnlyIndexed(before, State(), closures);
      return None;
    }

    method RestoreSubtree(ws: WsId, id: NodeId, actor: UserId) returns (err: Option<Error>)
      requires Valid()
      modifies this`nodes
      ensures Valid()
      ensures State() == NodeSteps.RestoreSubtree(old(State()), ws, id, actor).After(old(State()))
      ensures err == ErrorOf(NodeSteps.RestoreSubtree(old(State()), ws, id, actor))
    {
      if id !in nodes || nodes[id].ws != ws {
        return Some(NotFound);
      }
      var node := nodes[id];
      if node.status != Trashed {
        return Some(NodeState);
      }
      if node.parent.Some? {
        if node.parent.value !in nodes || nodes[node.parent.value].ws != ws {
          return Some(NotFound);
        }
        if nodes[node.parent.value].status != Active {
          return Some(NodeState);
        }
      }
      var conflicts := set m | m in nodes && m != id && nodes[m].ws == ws && nodes[m].status == Active
                            && nodes[m].name == node.name && nodes[m].parent == node.parent;
      assert NameTaken(State(), ws, id) <==> conflicts != {} by {
        if NameTaken(State(), ws, id) {
          var m :| m in nodes && m != id && nodes[m].ws == ws && nodes[m].status == Active
                && nodes[m].name == node.name && nodes[m].parent == node.parent;
          assert m in conflicts;
        }
      }
      if |conflicts| > 0 {
        return Some(DuplicatedKey);
      }
      var ids := Descendants(id);
      DescendantsAreSubtree(State(), closures, ws, id);
      var hit := set d | d in ids && d in nodes && nodes[d].ws == ws && nodes[d].status == Trashed;
      assert hit == set d | d in Subtree(nodes, ws, id) && nodes[d].status == Trashed;
      ghost var before := State();
      nodes := map d | d in nodes :: if d in hit then nodes[d].(status := Active, trashedAt := None, updatedBy := actor)
                                     else nodes[d];
      assert State() == NodeSteps.RestoreSubtree(before, ws, id, actor).db;
      RestoredNodesShape(before, ws, id, actor);
      StatusOnlyIndexed(before, State(), closures);
      return None;
    }

    /** Sum up the sizes of some versions, in total and by creator. */
    method TotalSizes(ids: set<VersionId>) returns (total: nat, byUser: map<UserId, nat>)
      requires ids <= versions.Keys
      ensures Totals(Pick(versions, ids), total, byUser)
    {
      total, byUser := 0, map[];
      var todo := ids;
      NoTotals();
      assert Pick(versions, ids - todo) == map[];
      while todo != {}
        invariant todo <= ids && Totals(Pick(versions, ids - todo), total, byUser)
        decreases todo
      {
        var v :| v in todo;
        var row := versions[v];
        TotalsGrow(Pick(versions, ids - todo), v, row, total, byUser);
        PickOneMore(versions, ids - todo, v);
        assert ids - (todo - {v}) == ids - todo + {v};
        total := total + row.size;
        byUser := byUser[row.createdBy := (if row.createdBy in byUser then byUser[row.createdBy] else 0) + row.size];
        todo := todo - {v};
      }
      assert ids - {} == ids;
    }

    /** Take dropped bytes out of the usage columns, workspace row first. */
    method DropUsage(ws: WsId, total: nat, byUser: map<UserId, nat>, ghost dropped: map<VersionId, FileVersion>)
      requires Totals(dropped, total, byUser)
      modifies this`workspaces, this`members
      ensures workspaces == LessUsed(old(workspaces), ws, dropped)
      ensures members == LessUsedBy(old(members), ws, dropped)
    {
      if ws in workspaces {
        workspaces := workspaces[ws := workspaces[ws].(used := Monus(workspaces[ws].used, total))];
      }
      ghost var settled := workspaces;
      assert settled == LessUsed(old(workspaces), ws, dropped);
      AllUsersDropped(members, ws, total, byUser, dropped);
      var todo := byUser.Keys;
      while todo != {}
        invariant todo <= byUser.Keys && workspaces == settled
        invariant members == UsageDropped(old(members), ws, byUser, todo)
        decreases todo
      {
        var u :| u in todo;
        var k := MemberKey(ws, u);
        DropOneUser(old(members), ws, byUser, todo, u);
        if k in members {
          members := members[k := members[k].(used := Monus(members[k].used, byUser[u]))];
        }
        todo := todo - {u};
      }
    }

    // ----- quota rows -----------------------------------------------------------

    method ReleaseQuota(ws: WsId, user: UserId, bytes: nat)
      modifies this`workspaces, this`members
      ensures workspaces == ReleaseRow(old(workspaces), ws, bytes)
      ensures members == ReleaseRowBy(old(members), MemberKey(ws, user), bytes)
    {
      if ws in workspaces {
        workspaces := workspaces[ws := workspaces[ws].(reserved := Monus(workspaces[ws].reserved, bytes))];
      }
      var k := MemberKey(ws, user);
      if k in members {
        members := members[k := members[k].(reserved := Monus(members[k].reserved, bytes))];
      }
    }

    method ConsumeQuota(ws: WsId, user: UserId, bytes: nat)
      modifies this`workspaces, this`members
      ensures workspaces == ConsumeRow(old(workspaces), ws, bytes)
      ensures members == ConsumeRowBy(old(members), MemberKey(ws, user), bytes)
    {
      if ws in workspaces {
        var w := workspaces[ws];
        workspaces := workspaces[ws := w.(used := w.used + bytes, reserved := Monus(w.reserved, bytes))];
      }
      var k := MemberKey(ws, user);
      if k in members {
        var m := members[k];
        members := members[k := m.(used := m.used + bytes, reserved := Monus(m.reserved, bytes))];
      }
    }

    // ----- purge ----------------------------------------------------------------

    /** Release the open ones among some sessions, one by one. */
    method ReleaseEach(ws: WsId, ids: set<SessionId>)
      requires ids <= sessions.Keys && forall s :: s in ids ==> sessions[s].ws == ws
      modifies this`workspaces, this`members
      ensures workspaces == LessReserved(old(workspaces), Pick(sessions, ids))
      ensures members == LessReservedBy(old(members), Pick(sessions, ids))
    {
      var todo := ids;
      ghost var closing: map<SessionId, Session> := map[];
      NothingClosing(workspaces, members);
      while todo != {}
        invariant todo <= ids && closing == Pick(sessions, ids - todo)
        invariant workspaces == LessReserved(old(workspaces), closing)
        invariant members == LessReservedBy(old(members), closing)
        decreases todo
      {
        var id :| id in todo;
        var s := sessions[id];
        if s.status == Completed || s.status == Expired {
          ClosedGivesNothing(old(workspaces), old(members), closing, id, s);
        } else {
          ReleaseOneMore(old(workspaces), closing, id, s);
          ReleaseOneMoreBy(old(members), closing, id, s);
          ReleaseQuota(ws, s.createdBy, s.size);
        }
        PickOneMore(sessions, ids - todo, id);
        assert ids - (todo - {id}) == ids - todo + {id};
        todo, closing := todo - {id}, closing[id := s];
      }
      assert ids - {} == ids;
    }

    /** Release the reservations of a purged subtree, then delete its sessions. */
    method PurgeNodeUploadSessions(ws: WsId, ns: set<NodeId>) returns (ids: set<SessionId>)
      modifies this`workspaces, this`members, this`sessions
      ensures ids == SessionsOn(old(sessions), ws, ns) && sessions == old(sessions) - ids
      ensures workspaces == LessReserved(old(workspaces), Pick(old(sessions), ids))
      ensures members == LessReservedBy(old(members), Pick(old(sessions), ids))
    {
      ids := SessionsOn(sessions, ws, ns);
      ReleaseEach(ws, ids);
      sessions := sessions - ids;
    }

    /** Delete every item of the touched jobs and expire the jobs. */
    method PurgeNodeBatchDownloads(ws: WsId, ns: set<NodeId>) returns (ids: set<JobId>)
      modifies this`jobs, this`jobItems
      ensures ids == JobsOn(old(jobs), old(jobItems), ws, ns)
      ensures jobItems == KeptJobItems(old(jobItems), ids) && jobs == WithExpired(old(jobs), ids)
    {
      ids := set i | i in jobItems && jobItems[i].node in ns && jobItems[i].job in jobs
                  && jobs[jobItems[i].job].ws == ws :: jobItems[i].job;
      if |ids| == 0 {
        assert KeptJobItems(jobItems, ids) == jobItems && WithExpired(jobs, ids) == jobs;
        return;
      }
      jobItems := map i | i in jobItems && jobItems[i].job !in ids :: jobItems[i];
      jobs := map j | j in jobs :: if j in ids then jobs[j].(status := JobExpired) else jobs[j];
    }

    /** Drop ended shares of the subtree, and items of ended shares over its objects. */
    method PurgeNodeShares(ws: WsId, ns: set<NodeId>, keys: set<StorageKey>, now: Time)
      modifies this`shares, this`shareItems
      ensures shares == old(shares) - EndedSharesOf(old(shares), ws, ns, now)
      ensures shareItems == KeptShareItems(old(shareItems), old(shares), ws, ns, keys, now)
    {
      var obsolete := set s | s in shares && shares[s].ws == ws
        && (shares[s].status != ShareActive || shares[s].expiresAt <= now
            || (shares[s].maxDownloads.Some? && shares[s].downloads >= shares[s].maxDownloads.value));
      assert obsolete == EndedShares(shares, ws, now);
      ghost var items := shareItems;
      if |keys| > 0 {
        shareItems := map i | i in shareItems && !(shareItems[i].share in obsolete && shareItems[i].key in keys)
          :: shareItems[i];
      }
      var sources := set s | s in obsolete && shares[s].source in ns;
      assert sources == EndedSharesOf(shares, ws, ns, now);
      if |sources| == 0 {
        assert shareItems == KeptShareItems(items, shares, ws, ns, keys, now);
        return;
      }
      shareItems := map i | i in shareItems && shareItems[i].share !in sources :: shareItems[i];
      assert shareItems == KeptShareItems(items, shares, ws, ns, keys, now);
      shares := shares - sources;
    }

    /** Delete some versions and take their bytes out of the usage columns. */
    method PurgeVersions(ws: WsId, found: set<VersionId>) returns (dropped: map<VersionId, FileVersion>)
      requires found <= versions.Keys
      modifies this`versions, this`workspaces, this`members
      ensures dropped == Pick(old(versions), found) && versions == old(versions) - found
      ensures workspaces == LessUsed(old(workspaces), ws, dropped)
      ensures members == LessUsedBy(old(members), ws, dropped)
    {
      var total, byUser := TotalSizes(found);
      dropped := map v | v in found :: versions[v];
      assert dropped == Pick(versions, found);
      versions := versions - found;
      DropUsage(ws, total, byUser, dropped);
    }

    /** The statements that remove one unretained subtree. */
    method PurgeScope(ws: WsId, ns: set<NodeId>, found: set<VersionId>, keys: set<StorageKey>, now: Time)
      returns (dropped: map<VersionId, FileVersion>, uploads: set<SessionId>, archives: set<JobId>)
      requires found <= versions.Keys
      modifies this
      ensures closures == WithoutNodes(old(closures), ns)
      ensures dropped == Pick(old(versions), found)
      ensures uploads == SessionsOn(old(sessions), ws, ns) && archives == JobsOn(old(jobs), old(jobItems), ws, ns)
      ensures PurgedFrom(old(State()), State(), ws, ns, now, found, keys, dropped, uploads, archives)
    {
      uploads, archives := PurgeReferences(ws, ns, keys, now);
      dropped := PurgeContents(ws, ns, found);
    }

    method PurgeContents(ws: WsId, ns: set<NodeId>, found: set<VersionId>) returns (dropped: map<VersionId, FileVersion>)
      requires found <= versions.Keys
      modifies this`versions, this`workspaces, this`members, this`closures, this`nodes
      ensures dropped == Pick(old(versions), found) && versions == old(versions) - found
      ensures workspaces == LessUsed(old(workspaces), ws, dropped)
      ensures members == LessUsedBy(old(members), ws, dropped)
      ensures closures == WithoutNodes(old(closures), ns) && nodes == KeptNodes(old(nodes), ws, ns)
    {
      dropped := PurgeVersions(ws, found);
      closures := WithoutNodes(closures, ns);
      nodes := KeptNodes(nodes, ws, ns);
    }

    method PurgeReferences(ws: WsId, ns: set<NodeId>, keys: set<StorageKey>, now: Time)
      returns (uploads: set<SessionId>, archives: set<JobId>)
      modifies this`workspaces, this`members, this`sessions, this`jobs, this`jobItems, this`shares, this`shareItems
      ensures uploads == SessionsOn(old(sessions), ws, ns) && archives == JobsOn(old(jobs), old(jobItems), ws, ns)
      ensures workspaces == LessReserved(old(workspaces), Pick(old(sessions), uploads))
      ensures members == LessReservedBy(old(members), Pick(old(sessions), uploads))
      ensures ReferencesPurged(old(State()), State(), ws, ns, now, keys, uploads, archives)
    {
      uploads := PurgeNodeUploadSessions(ws, ns);
      archives := PurgeNodeBatchDownloads(ws, ns);
      PurgeNodeShares(ws, ns, keys, now);
    }

    /** Counting the live shares, shared objects and batch jobs of a subtree. */
    method CountRetained(ws: WsId, ns: set<NodeId>, keys: set<StorageKey>, now: Time) returns (retained: bool)
      requires keys == KeysOf(versions, VersionsOn(versions, ws, ns))
      ensures retained == Retained(State(), ws, ns, now)
    {
      var retainedShares := set s | s in shares && shares[s].ws == ws && shares[s].source in ns
                                 && ShareLive(shares[s], now);
      assert retainedShares == LiveSharesOn(State(), ws, ns, now);
      var retainedObjects := set i | i in shareItems && shareItems[i].key in keys && shareItems[i].share in shares
                                  && shares[shareItems[i].share].ws == ws && ShareLive(shares[shareItems[i].share], now);
      assert retainedObjects == LiveShareItemsOver(State(), ws, keys, now);
      var retainedJobs := set i | i in jobItems && jobItems[i].node in ns && jobItems[i].job in jobs
                               && jobs[jobItems[i].job].ws == ws && JobLive(jobs[jobItems[i].job], now);
      assert retainedJobs == LiveJobItemsOn(State(), ws, ns, now);
      retained := |retainedShares| > 0 || |retainedObjects| > 0 || |retainedJobs| > 0;
    }

    method SubtreeIds(ws: WsId, root: NodeId) returns (ns: set<NodeId>)
      requires Valid()
      ensures ns == Scope(nodes, ws, root)
    {
      var ids := Descendants(root);
      DescendantsAreSubtree(State(), closures, ws, root);
      ns := set d | d in ids && d in nodes && nodes[d].ws == ws;
      assert ns == Subtree(nodes, ws, root);
      if |ns| == 0 {
        ns := {root};
      }
    }

    /** The body of the purge loop for one root. */
    method PurgeRoot(ws: WsId, root: NodeId, now: Time)
      returns (dropped: map<VersionId, FileVersion>, uploads: set<SessionId>, archives: set<JobId>)
      requires Valid() && (root in nodes ==> nodes[root].ws == ws)
      modifies this
      ensures Valid() && State() == NodeSteps.PurgeRoot(old(State()), ws, root, now)
      ensures Lost(old(State()), State(), dropped, uploads, archives)
      ensures NodesShrink(old(State()), State())
    {
      var ns := SubtreeIds(ws, root);
      var found := set v | v in versions && versions[v].ws == ws && versions[v].node in ns;
      assert found == VersionsOn(versions, ws, ns);
      var keys := set v | v in found :: versions[v].key;
      assert keys == KeysOf(versions, found);
      var retained := CountRetained(ws, ns, keys, now);
      if retained {
        NothingLost(State());
        return map[], {}, {};
      }
      PurgedIndexed(State(), closures, ws, root, now);
      PurgedLosses(State(), ws, ns, now);
      ghost var before := State();
      dropped, uploads, archives := PurgeScope(ws, ns, found, keys, now);
      PurgedWhole(before, State(), ws, ns, now, dropped, uploads, archives);
    }

    /** Returns what the storage cleaner must remove: the dropped versions, the
        dropped upload sessions, and the archives of the jobs that lost items. */
    method PurgeExpiredTrash(cutoff: Time, now: Time, order: seq<NodeId>)
      returns (dropped: map<VersionId, FileVersion>, uploads: set<SessionId>, archives: set<JobId>)
      requires Valid() && ListsExpiredRoots(nodes, cutoff, order)
      modifies this
      ensures Valid()
      ensures State() == PurgeRoots(old(State()), old(nodes), order, now)
      ensures Lost(old(State()), State(), dropped, uploads, archives)
      ensures GivenBack(old(State()), State(), dropped, Pick(old(sessions), uploads))
    {
      dropped, uploads, archives := map[], {}, {};
      var roots := nodes;
      ghost var before := State();
      NothingLost(before);
      var i := 0;
      while i < |order|
        invariant 0 <= i <= |order|
        invariant Valid() && NodesShrink(before, State())
        invariant PurgeRoots(State(), roots, order[i..], now) == PurgeRoots(before, roots, order, now)
        invariant Lost(before, State(), dropped, uploads, archives)
      {
        var root := order[i];
        assert root in order;
        assert order[i..][1..] == order[i + 1..];
        ghost var mid := State();
        var vs, ss, js := PurgeRoot(roots[root].ws, root, now);
        LostMore(before, mid, State(), dropped, uploads, archives, vs, ss, js);
        dropped, uploads, archives := dropped + vs, uploads + ss, archives + js;
        i := i + 1;
      }
      assert order[i..] == [];
      LostGivesBack(before, State(), roots, order, now, dropped, uploads, archives);
    }

    // ----- upload.go ------------------------------------------------------------

    /** Reserve on the workspace row first and on the member row second. When the
        member quota refuses, the first write is already made: the caller's
        transaction has to roll it back. */
    method ReserveQuota(ws: WsId, user: UserId, bytes: nat) returns (err: Option<Error>)
      modifies this`workspaces, this`members
      ensures ws !in old(workspaces) ==> err == Some(NotFound)
      ensures ws in old(workspaces) ==>
                var w, k := old(workspaces)[ws], MemberKey(ws, user);
                var fits := Fits(w.quota, w.used, w.reserved, bytes);
                var memberFits := k in old(members) ==>
                      Fits(old(members)[k].quota, old(members)[k].used, old(members)[k].reserved, bytes);
                && err == (if fits && memberFits then None else Some(QuotaExceeded))
                && workspaces == (if fits then old(workspaces)[ws := w.(reserved := w.reserved + bytes)] else old(workspaces))
                && members == (if fits && memberFits && k in old(members)
                               then old(members)[k := old(members)[k].(reserved := old(members)[k].reserved + bytes)]
                               else old(members))
    {
      if ws !in workspaces {
        return Some(NotFound);
      }
      var w := workspaces[ws];
      if w.quota.Some? && w.used + w.reserved + bytes > w.quota.value {
        return Some(QuotaExceeded);
      }
      workspaces := workspaces[ws := w.(reserved := w.reserved + bytes)];
      var k := MemberKey(ws, user);
      if k !in members {
        return None;
      }
      var m := members[k];
      if m.quota.Some? && m.used + m.reserved + bytes > m.quota.value {
        return Some(QuotaExceeded);
      }
      members := members[k := m.(reserved := m.reserved + bytes)];
      return None;
    }

    method CreateSession(id: SessionId, s: Session) returns (err: Option<Error>)
      requires Valid()
      modifies this`workspaces, this`members, this`sessions
      ensures Valid()
      ensures State() == UploadSteps.CreateSession(old(State()), id, s).After(old(State()))
      ensures err == ErrorOf(UploadSteps.CreateSession(old(State()), id, s))
    {
      var savedWorkspaces, savedMembers := workspaces, members;
      err := ReserveQuota(s.ws, s.createdBy, s.size);
      if err.None? && id in sessions {
        err := Some(DuplicatedKey);
      }
      if err.Some? {
        workspaces, members := savedWorkspaces, savedMembers;
        return;
      }
      sessions := sessions[id := s];
    }

    method ExpireSession(id: SessionId, ws: WsId, user: UserId) returns (err: Option<Error>)
      requires Valid()
      modifies this`workspaces, this`members, this`sessions
      ensures Valid()
      ensures State() == UploadSteps.ExpireSession(old(State()), id, ws, user).After(old(State()))
      ensures err == ErrorOf(UploadSteps.ExpireSession(old(State()), id, ws, user))
    {
      if !(id in sessions && sessions[id].ws == ws && sessions[id].createdBy == user) {
        return Some(NotFound);
      }
      var s := sessions[id];
      if s.status == Completed || s.status == Expired {
        return None;
      }
      sessions := sessions[id := s.(status := Expired)];
      ReleaseQuota(ws, user, s.size);
      return None;
    }

    method Cancel(id: SessionId, ws: WsId, user: UserId) returns (err: Option<Error>)
      requires Valid()
      modifies this`workspaces, this`members, this`sessions
      ensures Valid()
      ensures State() == UploadSteps.Cancel(old(State()), id, ws, user).After(old(State()))
      ensures err == ErrorOf(UploadSteps.Cancel(old(State()), id, ws, user))
    {
      if !(id in sessions && sessions[id].ws == ws && sessions[id].createdBy == user) {
        return Some(UploadNotFound);
      }
      var s := sessions[id];
      if s.status == Completed || s.status == Expired {
        return Some(UploadState);
      }
      sessions := sessions[id := s.(status := Expired)];
      ReleaseQuota(ws, user, s.size);
      return None;
    }

    /** Close and release one more session on top of those already done. */
    method ExpireOne(id: SessionId, ghost done: set<SessionId>, ghost all: map<SessionId, Session>,
                     ghost rows: map<WsId, Workspace>, ghost memberRows: map<MemberKey, Member>)
      requires id in all && id !in done && Open(all[id]) && sessions == AllExpired(all, done)
      requires workspaces == LessReserved(rows, Pick(all, done))
      requires members == LessReservedBy(memberRows, Pick(all, done))
      modifies this`workspaces, this`members, this`sessions
      ensures sessions == AllExpired(all, done + {id})
      ensures workspaces == LessReserved(rows, Pick(all, done + {id}))
      ensures members == LessReservedBy(memberRows, Pick(all, done + {id}))
    {
      ExpireOneMore(all, done, id);
      var s := sessions[id];
      ReleaseOneMore(rows, Pick(all, done), id, s);
      ReleaseOneMoreBy(memberRows, Pick(all, done), id, s);
      PickOneMore(all, done, id);
      sessions := sessions[id := s.(status := Expired)];
      ReleaseQuota(s.ws, s.createdBy, s.size);
    }

    /** Close and release some open sessions, one by one. */
    method ExpireEach(ids: set<SessionId>)
      requires ids <= sessions.Keys && forall s :: s in ids ==> Open(sessions[s])
      modifies this`workspaces, this`members, this`sessions
      ensures sessions == AllExpired(old(sessions), ids)
      ensures workspaces == LessReserved(old(workspaces), Pick(old(sessions), ids))
      ensures members == LessReservedBy(old(members), Pick(old(sessions), ids))
    {
      var todo := ids;
      ghost var done: set<SessionId> := {};
      ghost var all, rows, memberRows := sessions, workspaces, members;
      NothingClosing(workspaces, members);
      assert AllExpired(all, {}) == all && Pick(all, {}) == map[];
      while todo != {}
        invariant todo <= ids && done == ids - todo && sessions == AllExpired(all, done)
        invariant workspaces == LessReserved(rows, Pick(all, done))
        invariant members == LessReservedBy(memberRows, Pick(all, done))
        decreases todo
      {
        var id :| id in todo;
        ExpireOne(id, done, all, rows, memberRows);
        todo, done := todo - {id}, done + {id};
      }
      assert done == ids;
    }

    method ExpireSessions(now: Time) returns (expired: set<SessionId>)
      requires Valid()
      modifies this`workspaces, this`members, this`sessions
      ensures Valid() && State() == UploadSteps.ExpireSessions(old(State()), now)
      ensures expired == StaleSessions(old(sessions), now)
    {
      expired := StaleSessions(sessions, now);
      ExpireEach(expired);
    }

    /** DecodeReceivedChunks. */
    method DecodeChunks(text: ChunkText) returns (chunks: Option<seq<int>>)
      ensures chunks == Decode(text)
    {
      match text
      case Empty => chunks := Some([]);
      case Malformed => chunks := None;
      case Json(list) =>
        var i := 0;
        while i < |list|
          invariant 0 <= i <= |list| && forall j :: 0 <= j < i ==> list[j] >= 0
        {
          if list[i] < 0 {
            return None;
          }
          i := i + 1;
        }
        chunks := Some(SortInts(list));
    }

    method ContainsInt(list: seq<int>, target: int) returns (found: bool)
      ensures found == (target in list)
    {
      var i := 0;
      while i < |list|
        invariant 0 <= i <= |list| && target !in list[..i]
      {
        if list[i] == target {
          return true;
        }
        i := i + 1;
      }
      return false;
    }

    method MarkPartReceived(id: SessionId, ws: WsId, user: UserId, part: int)
      returns (received: seq<int>, err: Option<Error>)
      requires Valid()
      modifies this`sessions
      ensures Valid()
      ensures State() == MarkPart(old(State()), id, ws, user, part).After(old(State()))
      ensures err == ErrorOf(MarkPart(old(State()), id, ws, user, part))
      ensures err.None? ==> sessions[id].received == Json(received)
    {
      received := [];
      if !(id in sessions && sessions[id].ws == ws && sessions[id].createdBy == user) {
        return received, Some(UploadNotFound);
      }
      var s := sessions[id];
      if s.status != Initialized && s.status != Uploading {
        return received, Some(UploadState);
      }
      var decoded := DecodeChunks(s.received);
      if decoded.None? {
        return received, Some(BadChunks);
      }
      received := decoded.value;
      var known := ContainsInt(received, part);
      if !known {
        received := SortInts(received + [part]);
      }
      sessions := sessions[id := s.(received := Json(received), status := Uploading)];
      return received, None;
    }

    /** SELECT ... ORDER BY version_no DESC LIMIT 1, or 0 without any row. */
    method LatestVersion(ws: WsId, m: NodeId) returns (no: nat)
      ensures no == Latest(versions, ws, m)
    {
      var rows := set v | v in versions && versions[v].ws == ws && versions[v].node == m;
      var numbers := set v | v in rows :: versions[v].no;
      assert numbers == Numbers(versions, ws, m);
      if numbers == {} {
        return 0;
      }
      assert Latest(versions, ws, m) in numbers;
      no :| no in numbers && forall k :: k in numbers ==> k <= no;
    }

    method FinalizeSession(id: SessionId, ws: WsId, user: UserId, v: FileVersion, n: Node) returns (err: Option<Error>)
      requires Valid() && SessionsOk(State()) && Guard(State(), OpFinalize(id, ws, user, v, n))
      modifies this
      ensures Valid()
      ensures State() == UploadSteps.FinalizeSession(old(State()), id, ws, user, v, n).After(old(State()))
      ensures err == ErrorOf(UploadSteps.FinalizeSession(old(State()), id, ws, user, v, n))
    {
      if !(id in sessions && sessions[id].ws == ws && sessions[id].createdBy == user) {
        return Some(UploadNotFound);
      }
      var s := sessions[id];
      if s.status != Uploading && s.status != Initialized {
        return Some(UploadState);
      }
      var received := DecodeChunks(s.received);
      if received.None? {
        return Some(BadChunks);
      }
      if |received.value| != s.totalChunks {
        return Some(UploadIncomplete);
      }
      if s.node.Some? {
        err := FinalizeOverwrite(id, ws, user, v, n);
      } else {
        assert SessionOk(State(), s);
        FinalizeNewFile(id, ws, user, v, n);
        err := None;
      }
    }

    /** consumeQuota, then the session becomes completed. */
    method CloseCompleted(id: SessionId)
      requires id in sessions
      modifies this`workspaces, this`members, this`sessions
      ensures SettledRows(old(State()), State(), id)
    {
      var s := sessions[id];
      ConsumeQuota(s.ws, s.createdBy, s.size);
      sessions := sessions[id := s.(status := Completed)];
    }

    /** Insert a version row and make it the active one of its node. */
    method AddVersion(m: NodeId, v: FileVersion, actor: UserId)
      requires m in nodes
      modifies this`nodes, this`versions, this`nextVersion
      ensures nodes == old(nodes)[m := old(nodes)[m].(activeVersion := Some(old(nextVersion)), updatedBy := actor)]
      ensures versions == old(versions)[old(nextVersion) := v] && nextVersion == old(nextVersion) + 1
    {
      versions := versions[nextVersion := v];
      nodes := nodes[m := nodes[m].(activeVersion := Some(nextVersion), updatedBy := actor)];
      nextVersion := nextVersion + 1;
    }

    /** The overwrite branch: the base number must still be the latest one. */
    method FinalizeOverwrite(id: SessionId, ws: WsId, user: UserId, v: FileVersion, n: Node) returns (err: Option<Error>)
      requires Valid() && ReadyToFinalize(State(), id, ws, user) && sessions[id].node.Some?
      modifies this
      ensures Valid()
      ensures State() == UploadSteps.FinalizeSession(old(State()), id, ws, user, v, n).After(old(State()))
      ensures err == ErrorOf(UploadSteps.FinalizeSession(old(State()), id, ws, user, v, n))
    {
      var s := sessions[id];
      var m := s.node.value;
      if !(m in nodes && nodes[m].ws == ws && nodes[m].kind == File && nodes[m].status == Active) {
        return Some(UploadNotFound);
      }
      var currentVersionNo := LatestVersion(ws, m);
      if s.base.None? || s.base.value != currentVersionNo {
        return Some(VersionConflict);
      }
      CommitOverwrite(id, ws, m, currentVersionNo, user, v, n);
      return None;
    }

    method CommitOverwrite(id: SessionId, ws: WsId, m: NodeId, current: nat, user: UserId, v: FileVersion, ghost n: Node)
      requires Valid() && ReadyToFinalize(State(), id, ws, user) && sessions[id].node == Some(m)
      requires IsActiveFile(State(), ws, m) && sessions[id].base == Some(current) && current == Latest(versions, ws, m)
      modifies this
      ensures Valid()
      ensures UploadSteps.FinalizeSession(old(State()), id, ws, user, v, n) == Done(State())
    {
      ghost var before := State();
      OverwriteFile(ws, m, current, v);
      CloseCompleted(id);
      OverwriteCommitted(before, State(), id, ws, m, user, v, n, closures);
    }

    method OverwriteFile(ws: WsId, m: NodeId, current: nat, v: FileVersion)
      requires m in nodes && current == Latest(versions, ws, m)
      modifies this`nodes, this`versions, this`nextVersion, this`origin
      ensures OverwriteRows(old(State()), State(), ws, m, v)
    {
      AddVersion(m, v.(ws := ws, node := m, no := current + 1), nodes[m].updatedBy);
      origin := origin[v.key := Origin(ws, m)];
    }

    /** The new-file branch: a node under the target parent, whatever its status. */
    method FinalizeNewFile(id: SessionId, ws: WsId, user: UserId, v: FileVersion, n: Node)
      requires Valid() && ReadyToFinalize(State(), id, ws, user) && sessions[id].node.None?
      requires ParentInPlace(State(), ws, n.parent)
      modifies this
      ensures Valid()
      ensures UploadSteps.FinalizeSession(old(State()), id, ws, user, v, n) == Done(State())
    {
      ghost var before, index := State(), closures;
      CreateFile(ws, v, n);
      CloseCompleted(id);
      NewFileIndexed(before, State(), ws, v, n, index);
      NewFileWhole(before, State(), id, ws, user, v, n);
    }

    /** The node, its first version, and the issue of the version's storage key. */
    method CreateFile(ws: WsId, v: FileVersion, n: Node)
      modifies this`nodes, this`closures, this`nextNode, this`versions, this`nextVersion, this`origin
      ensures NewFileRows(old(State()), State(), ws, v, n)
      ensures closures == WithNewNode(old(closures), old(nextNode), n.parent)
    {
      var m := InsertNode(n.(ws := ws));
      AddVersion(m, v.(ws := ws, node := m, no := 1), n.updatedBy);
      origin := origin[v.key := Origin(ws, m)];
    }

    // ----- workspace.go ---------------------------------------------------------

    /** The workspace, then its owner as administrator; a clash on the second insert
        rolls back the first. */
    method CreateWorkspace(ws: WsId, owner: UserId, quota: Option<int>) returns (err: Option<Error>)
      requires Valid() && Guard(State(), OpCreateWorkspace(ws, owner, quota))
      modifies this`workspaces, this`members
      ensures Valid()
      ensures State() == UploadSteps.CreateWorkspace(old(State()), ws, owner, quota).After(old(State()))
      ensures err == ErrorOf(UploadSteps.CreateWorkspace(old(State()), ws, owner, quota))
    {
      var saved := workspaces;
      workspaces := workspaces[ws := Workspace(quota, 0, 0)];
      var k := MemberKey(ws, owner);
      if k in members {
        workspaces := saved;
        return Some(DuplicatedKey);
      }
      members := members[k := Member(WorkspaceAdmin, None, 0, 0)];
      return None;
    }

    method UpdateQuota(ws: WsId, quota: Option<int>) returns (err: Option<Error>)
      requires Valid()
      modifies this`workspaces
      ensures Valid()
      ensures State() == UploadSteps.UpdateQuota(old(State()), ws, quota).After(old(State()))
      ensures err == ErrorOf(UploadSteps.UpdateQuota(old(State()), ws, quota))
    {
      if quota.Some? && quota.value < 0 {
        return Some(InvalidQuota);
      }
      if ws !in workspaces {
        return Some(NotFound);
      }
      var w := workspaces[ws];
      if quota.Some? && quota.value < w.used + w.reserved {
        return Some(QuotaBelowUsage);
      }
      workspaces := workspaces[ws := w.(quota := quota)];
      return None;
    }

    method UpdateMemberQuota(ws: WsId, user: UserId, quota: Option<int>) returns (err: Option<Error>)
      requires Valid()
      modifies this`members
      ensures Valid()
      ensures State() == UploadSteps.UpdateMemberQuota(old(State()), ws, user, quota).After(old(State()))
      ensures err == ErrorOf(UploadSteps.UpdateMemberQuota(old(State()), ws, user, quota))
    {
      if quota.Some? && quota.value < 0 {
        return Some(InvalidQuota);
      }
      var k := MemberKey(ws, user);
      if k !in members {
        return Some(NotFound);
      }
      var m := members[k];
      if quota.Some? && quota.value < m.used + m.reserved {
        return Some(QuotaBelowUsage);
      }
      members := members[k := m.(quota := quota)];
      return None;
    }

    method UpsertMember(ws: WsId, user: UserId, role: Role, quota: Option<int>) returns (err: Option<Error>)
      requires Valid()
      modifies this`members
      ensures Valid()
      ensures State() == UploadSteps.UpsertMember(old(State()), ws, user, role, quota).After(old(State()))
      ensures err == ErrorOf(UploadSteps.UpsertMember(old(State()), ws, user, role, quota))
    {
      if ws !in workspaces {
        return Some(NotFound);
      }
      if role != WorkspaceAdmin && role != PlainMember {
        return Some(InvalidRole);
      }
      if quota.Some? && quota.value < 0 {
        return Some(InvalidQuota);
      }
      var k := MemberKey(ws, user);
      if k !in members {
        members := members[k := Member(role, quota, 0, 0)];
        return None;
      }
      var m := members[k];
      var admins := set a | a in members && a.ws == ws && members[a].role == WorkspaceAdmin;
      assert admins == Admins(State(), ws);
      if m.role == WorkspaceAdmin && role != WorkspaceAdmin && |admins| <= 1 {
        return Some(LastAdmin);
      }
      if quota.Some? && quota.value < m.used + m.reserved {
        return Some(QuotaBelowUsage);
      }
      members := members[k := m.(role := role, quota := quota)];
      return None;
    }

    method RemoveMember(ws: WsId, user: UserId) returns (err: Option<Error>)
      requires Valid()
      modifies this`members
      ensures Valid()
      ensures State() == UploadSteps.RemoveMember(old(State()), ws, user).After(old(State()))
      ensures err == ErrorOf(UploadSteps.RemoveMember(old(State()), ws, user))
    {
      var k := MemberKey(ws, user);
      if ws !in workspaces || k !in members {
        return Some(NotFound);
      }
      if members[k].role == WorkspaceAdmin {
        var admins := set a | a in members && a.ws == ws && members[a].role == WorkspaceAdmin;
        assert admins == Admins(State(), ws);
        if |admins| <= 1 {
          return Some(LastAdmin);
        }
      }
      members := members - {k};
      return None;
    }

    // ----- file.go --------------------------------------------------------------

    method RestoreVersion(ws: WsId, m: NodeId, no: int, actor: UserId, now: Time) returns (err: Option<Error>)
      requires Valid() && VersionsOk(State())
      modifies this`nodes, this`versions, this`nextVersion
      ensures Valid()
      ensures State() == ObjectSteps.RestoreVersion(old(State()), ws, m, no, actor, now).After(old(State()))
      ensures err == ErrorOf(ObjectSteps.RestoreVersion(old(State()), ws, m, no, actor, now))
    {
      if !(m in nodes && nodes[m].ws == ws && nodes[m].kind == File && nodes[m].status == Active) {
        RestoreRefused(State(), ws, m, no, actor, now);
        return Some(NotFound);
      }
      var sources := set v | v in versions && versions[v].ws == ws && versions[v].node == m && versions[v].no == no;
      assert sources == SourceRows(State(), ws, m, no);
      if sources == {} {
        RestoreRefused(State(), ws, m, no, actor, now);
        return Some(NotFound);
      }
      var source :| source in sources;
      SourceIsUnique(State(), ws, m, no, source);
      CopyVersion(ws, m, no, source, actor, now);
      return None;
    }

    method CopyVersion(ws: WsId, m: NodeId, ghost no: int, source: VersionId, actor: UserId, now: Time)
      requires Valid() && IsActiveFile(State(), ws, m) && IsVersion(State(), ws, m, no, source)
      requires forall v :: IsVersion(State(), ws, m, no, v) ==> v == source
      modifies this`nodes, this`versions, this`nextVersion
      ensures Valid() && ObjectSteps.RestoreVersion(old(State()), ws, m, no, actor, now) == Done(State())
    {
      ghost var before := State();
      var latest := LatestVersion(ws, m);
      AddVersion(m, versions[source].(no := latest + 1, createdBy := actor, createdAt := now), actor);
      ActiveVersionIndexed(before, State(), closures, m, Some(before.nextVersion), actor);
      RestoredWhole(before, State(), ws, m, no, source, actor, now);
    }

    method TouchAccessByStorageKey(key: StorageKey, at: Time)
      requires Valid()
      modifies this`versions
      ensures Valid() && State() == TouchKey(old(State()), key, at)
    {
      versions := map v | v in versions ::
        if versions[v].key == key then versions[v].(lastAccessed := Some(at)) else versions[v];
    }

    // ----- archive.go -----------------------------------------------------------

    /** Recheck the standard rows one by one, then relabel the key everywhere. */
    method CompleteArchive(ws: WsId, key: StorageKey, cutoff: Time) returns (err: Option<Error>)
      requires Valid()
      modifies this`versions, this`shareItems, this`jobItems
      ensures Valid()
      ensures State() == ObjectSteps.CompleteArchive(old(State()), ws, key, cutoff).After(old(State()))
      ensures err == ErrorOf(ObjectSteps.CompleteArchive(old(State()), ws, key, cutoff))
    {
      var rows := set v | v in versions && versions[v].ws == ws && versions[v].key == key
                       && (versions[v].class_ == Blank || versions[v].class_ == Standard);
      assert rows == StandardVersions(State(), ws, key);
      if |rows| == 0 {
        return Some(ArchiveCandidateChanged);
      }
      var cold := AllCold(rows, cutoff);
      if !cold {
        return Some(ArchiveCandidateChanged);
      }
      Relabel(ws, key);
      return None;
    }

    method Relabel(ws: WsId, key: StorageKey)
      requires Valid()
      modifies this`versions, this`shareItems, this`jobItems
      ensures Valid() && State() == Relabelled(old(State()), ws, key)
    {
      versions := map v | v in versions ::
        if versions[v].ws == ws && versions[v].key == key then versions[v].(class_ := Archive) else versions[v];
      shareItems := map i | i in shareItems ::
        if shareItems[i].key == key && shareItems[i].share in shares && shares[shareItems[i].share].ws == ws
        then shareItems[i].(class_ := Archive) else shareItems[i];
      jobItems := map i | i in jobItems ::
        if jobItems[i].key == key && jobItems[i].job in jobs && jobs[jobItems[i].job].ws == ws
        then jobItems[i].(class_ := Archive) else jobItems[i];
    }

    method AllCold(rows: set<VersionId>, cutoff: Time) returns (cold: bool)
      requires rows <= versions.Keys
      ensures cold <==> !exists v :: v in rows && LastUse(versions[v]) > cutoff
    {
      var todo := rows;
      while todo != {}
        invariant todo <= rows && forall v :: v in rows - todo ==> LastUse(versions[v]) <= cutoff
        decreases todo
      {
        var v :| v in todo;
        var lastAccess := versions[v].createdAt;
        if versions[v].lastAccessed.Some? {
          lastAccess := versions[v].lastAccessed.value;
        }
        if lastAccess > cutoff {
          assert v in rows && LastUse(versions[v]) > cutoff;
          return false;
        }
        todo := todo - {v};
      }
      assert rows - todo == rows;
      return true;
    }

    // ----- share.go -------------------------------------------------------------

    method CreateShare(id: ShareId, s: Share, items: map<ItemId, ShareItem>)
      requires Valid() && Guard(State(), OpCreateShare(id, s, items))
      modifies this`shares, this`shareItems
      ensures Valid() && State() == ObjectSteps.CreateShare(old(State()), id, s, items)
    {
      shares := shares[id := s];
      shareItems := shareItems + items;
    }

    method RevokeShare(ws: WsId, id: ShareId) returns (err: Option<Error>)
      requires Valid()
      modifies this`shares
      ensures Valid() && State() == ObjectSteps.RevokeShare(old(State()), ws, id).After(old(State()))
      ensures err == ErrorOf(ObjectSteps.RevokeShare(old(State()), ws, id))
    {
      if !(id in shares && shares[id].ws == ws && shares[id].status == ShareActive) {
        return Some(NotFound);
      }
      shares := shares[id := shares[id].(status := ShareRevoked)];
      return None;
    }

    method ExpireShares(now: Time) returns (expired: set<ShareId>)
      requires Valid()
      modifies this`shares
      ensures Valid() && State() == ObjectSteps.ExpireShares(old(State()), now)
      ensures forall s :: s in expired <==>
                s in old(shares) && old(shares)[s].status == ShareActive && old(shares)[s].expiresAt <= now
    {
      expired := set s | s in shares && shares[s].status == ShareActive && shares[s].expiresAt <= now;
      var todo := expired;
      while todo != {}
        invariant todo <= expired
        invariant shares == map s | s in old(shares) ::
                    if s in expired && s !in todo then old(shares)[s].(status := ShareExpired) else old(shares)[s]
        decreases todo
      {
        var s :| s in todo;
        shares := shares[s := shares[s].(status := ShareExpired)];
        todo := todo - {s};
      }
    }

    /** The expired mark written on the late path is rolled back with the error. */
    method ClaimDownload(id: ShareId, item: Option<ItemId>, now: Time) returns (err: Option<Error>)
      requires Valid()
      modifies this`shares
      ensures Valid() && State() == ObjectSteps.ClaimDownload(old(State()), id, item, now).After(old(State()))
      ensures err == ErrorOf(ObjectSteps.ClaimDownload(old(State()), id, item, now))
    {
      if id !in shares {
        return Some(ShareNotFound);
      }
      var s := shares[id];
      if s.status != ShareActive {
        return if s.status == ShareRevoked then Some(RevokedShare) else Some(ExpiredShare);
      }
      if now >= s.expiresAt {
        var saved := shares;
        shares := shares[id := s.(status := ShareExpired)];
        shares := saved;
        return Some(ExpiredShare);
      }
      if s.maxDownloads.Some? && s.downloads >= s.maxDownloads.value {
        return Some(ShareLimit);
      }
      if item.None? || item.value !in shareItems || shareItems[item.value].share != id {
        return Some(ShareItemMissing);
      }
      var row := shareItems[item.value];
      if !row.clean {
        return Some(ShareUnsafe);
      }
      if row.class_ == Glacier || row.class_ == Restoring {
        return Some(RestoreRequired);
      }
      shares := shares[id := s.(downloads := s.downloads + 1)];
      return None;
    }

    // ----- batch_download.go ----------------------------------------------------

    method CreateJob(id: JobId, j: Job, items: map<ItemId, JobItem>)
      requires Valid() && Guard(State(), OpCreateJob(id, j, items))
      modifies this`jobs, this`jobItems
      ensures Valid() && State() == ObjectSteps.CreateJob(old(State()), id, j, items)
    {
      jobs := jobs[id := j];
      jobItems := jobItems + items;
    }

    method ClaimJob(id: JobId) returns (claimed: bool)
      requires Valid()
      modifies this`jobs
      ensures Valid() && State() == ObjectSteps.ClaimJob(old(State()), id) && claimed == JobIs(old(State()), id, Queued)
    {
      claimed := id in jobs && jobs[id].status == Queued;
      if claimed {
        jobs := jobs[id := jobs[id].(status := Running)];
      }
    }

    method CompleteJob(id: JobId, expiresAt: Time) returns (err: Option<Error>)
      requires Valid()
      modifies this`jobs
      ensures Valid() && State() == ObjectSteps.CompleteJob(old(State()), id, expiresAt).After(old(State()))
      ensures err == ErrorOf(ObjectSteps.CompleteJob(old(State()), id, expiresAt))
    {
      if !(id in jobs && jobs[id].status == Running) {
        return Some(BatchState);
      }
      jobs := jobs[id := jobs[id].(status := JobCompleted, expiresAt := Some(expiresAt))];
      return None;
    }

    method FailJob(id: JobId)
      requires Valid()
      modifies this`jobs
      ensures Valid() && State() == ObjectSteps.FailJob(old(State()), id)
    {
      if id in jobs && jobs[id].status == Running {
        jobs := jobs[id := jobs[id].(status := JobFailed)];
      }
    }

    method RetryJob(ws: WsId, user: UserId, id: JobId) returns (err: Option<Error>)
      requires Valid()
      modifies this`jobs
      ensures Valid() && State() == ObjectSteps.RetryJob(old(State()), ws, user, id).After(old(State()))
      ensures err == ErrorOf(ObjectSteps.RetryJob(old(State()), ws, user, id))
    {
      if !(id in jobs && jobs[id].ws == ws && jobs[id].createdBy == user && jobs[id].status == JobFailed) {
        return Some(BatchState);
      }
      jobs := jobs[id := jobs[id].(status := Queued, expiresAt := None)];
      return None;
    }

    method RequeueInterruptedJobs()
      requires Valid()
      modifies this`jobs
      ensures Valid() && State() == RequeueJobs(old(State()))
    {
      jobs := map j | j in jobs :: if jobs[j].status == Running then jobs[j].(status := Queued) else jobs[j];
    }

    method ExpireJobs(now: Time) returns (ids: set<JobId>)
      requires Valid()
      modifies this`jobs
      ensures Valid() && State() == ObjectSteps.ExpireJobs(old(State()), now)
      ensures forall j :: j in ids <==>
                j in old(jobs) && old(jobs)[j].status == JobCompleted && JobIs(State(), j, JobExpired)
    {
      ids := set j | j in jobs && jobs[j].status == JobCompleted && jobs[j].expiresAt.Some?
                  && jobs[j].expiresAt.value <= now;
      if |ids| == 0 {
        assert forall j :: j in jobs ==> j !in ids;
        assert jobs == ObjectSteps.ExpireJobs(State(), now).jobs;
        return;
      }
      jobs := map j | j in jobs :: if j in ids then jobs[j].(status := JobExpired) else jobs[j];
    }
  }
}
