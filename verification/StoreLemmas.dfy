/** Facts that tie the statements of the store to the steps they stand for. */
module StoreLemmas {
  import opened Common
  import opened Forest
  import opened Closure
  import opened Tables
  import opened NodeSteps
  import opened UploadSteps
  import opened ObjectSteps
  import opened Runs
  import opened Frames
  import opened NodeSafety

  /** The closure rows after a node `id` was inserted under `q`. */
  function WithNewNode(c: Closures, id: NodeId, q: Option<NodeId>): Closures {
    var grown := c + SelfRow(id);
    if q.None? then grown else grown + InheritedRows(grown, id, q.value)
  }

  lemma NewNodeIndexed(db: Db, n: Node, c: Closures)
    requires TreeOk(db) && Exact(c, ParentsOf(db.nodes)) && ParentInPlace(db, n.ws, n.parent)
    ensures var db' := db.(nodes := db.nodes[db.nextNode := n], nextNode := db.nextNode + 1);
            TreeOk(db') && Exact(WithNewNode(c, db.nextNode, n.parent), ParentsOf(db'.nodes))
  {
    var db' := db.(nodes := db.nodes[db.nextNode := n], nextNode := db.nextNode + 1);
    NewNodeTree(db, db', n);
    CreateKeepsExact(c, ParentsOf(db.nodes), db.nextNode, n.parent);
    assert ParentsOf(db'.nodes) == ParentsOf(db.nodes)[db.nextNode := n.parent];
  }

  lemma MoveIndexed(db: Db, c: Closures, id: NodeId, q: Option<NodeId>, actor: UserId)
    requires TreeOk(db) && Exact(c, ParentsOf(db.nodes)) && id in db.nodes
    requires q.Some? ==> q.value in db.nodes && db.nodes[q.value].ws == db.nodes[id].ws
    requires q.Some? ==> !Below(ParentsOf(db.nodes), q.value, id)
    ensures var db' := db.(nodes := db.nodes[id := db.nodes[id].(parent := q, updatedBy := actor)]);
            TreeOk(db') && Exact(Rehang(c, id, q), ParentsOf(db'.nodes))
  {
    var db' := db.(nodes := db.nodes[id := db.nodes[id].(parent := q, updatedBy := actor)]);
    assert ParentsOf(db'.nodes) == ParentsOf(db.nodes)[id := q];
    MoveKeepsForest(ParentsOf(db.nodes), id, q);
    MoveKeepsExact(c, ParentsOf(db.nodes), id, q);
  }

  lemma DescendantEdge(c: Closures, id: NodeId, d: NodeId)
    ensures d in (set e | e in c.Keys && e.anc == id :: e.desc) <==> Edge(id, d) in c
  {
    if d in (set e | e in c.Keys && e.anc == id :: e.desc) {
      var e :| e in c.Keys && e.anc == id && e.desc == d;
      assert e == Edge(id, d);
    }
  }

  lemma DescendantsAreSubtree(db: Db, c: Closures, ws: WsId, id: NodeId)
    requires Exact(c, ParentsOf(db.nodes))
    ensures Subtree(db.nodes, ws, id) ==
            set d | d in (set e | e in c.Keys && e.anc == id :: e.desc) && d in db.nodes && db.nodes[d].ws == ws
  {
    var ids := set e | e in c.Keys && e.anc == id :: e.desc;
    forall d ensures d in ids <==> Below(ParentsOf(db.nodes), d, id) {
      ExactDecidesBelow(c, ParentsOf(db.nodes), d, id);
      DescendantEdge(c, id, d);
    }
  }

  lemma StatusOnlyIndexed(db: Db, db': Db, c: Closures)
    requires TreeOk(db) && Exact(c, ParentsOf(db.nodes)) && StatusOnly(db, db')
    ensures TreeOk(db') && Exact(c, ParentsOf(db'.nodes))
  {
    TreeFrame(db, db');
    assert ParentsOf(db'.nodes) == ParentsOf(db.nodes);
  }

  /** Pointing a node at another version leaves the index exact. */
  lemma ActiveVersionIndexed(db: Db, db': Db, c: Closures, m: NodeId, v: Option<VersionId>, actor: UserId)
    requires TreeOk(db) && Exact(c, ParentsOf(db.nodes)) && m in db.nodes && db'.nextNode == db.nextNode
    requires db'.nodes == db.nodes[m := db.nodes[m].(activeVersion := v, updatedBy := actor)]
    ensures TreeOk(db') && Exact(c, ParentsOf(db'.nodes))
  {
    TreeFrame(db, db');
    assert ParentsOf(db'.nodes) == ParentsOf(db.nodes);
  }

  lemma ExpireOneMore(all: map<SessionId, Session>, done: set<SessionId>, id: SessionId)
    requires id in all && id !in done
    ensures AllExpired(all, done)[id := all[id].(status := Expired)] == AllExpired(all, done + {id})
    ensures AllExpired(all, done)[id] == all[id]
  {
  }

  // ----- sums built up by loops ---------------------------------------------------

  lemma MonusTwice(a: nat, b: nat, c: nat)
    ensures Monus(Monus(a, b), c) == Monus(a, b + c)
  {
  }

  /** Releasing one more open session on top of those already released. */
  lemma ReleaseOneMore(rows: map<WsId, Workspace>, closing: map<SessionId, Session>, id: SessionId, s: Session)
    requires id !in closing && Open(s)
    ensures LessReserved(rows, closing[id := s]) == ReleaseRow(LessReserved(rows, closing), s.ws, s.size)
  {
    var a, b := LessReserved(rows, closing[id := s]), ReleaseRow(LessReserved(rows, closing), s.ws, s.size);
    assert a.Keys == rows.Keys && b.Keys == rows.Keys;
    forall w | w in rows ensures a[w] == b[w] {
      ReleasedRow(rows, closing, id, s, w);
    }
  }

  lemma LessAt(rows: map<WsId, Workspace>, closing: map<SessionId, Session>, w: WsId)
    requires w in rows
    ensures w in LessReserved(rows, closing)
    ensures LessReserved(rows, closing)[w] == rows[w].(reserved := Monus(rows[w].reserved, Sum(OpenSizes(closing, w))))
  {
  }

  lemma ReleaseAt(rows: map<WsId, Workspace>, ws: WsId, bytes: nat, w: WsId)
    requires w in rows
    ensures w in ReleaseRow(rows, ws, bytes)
    ensures ReleaseRow(rows, ws, bytes)[w] ==
            rows[w].(reserved := Monus(rows[w].reserved, if w == ws then bytes else 0))
  {
  }

  lemma ReleasedRow(rows: map<WsId, Workspace>, closing: map<SessionId, Session>, id: SessionId, s: Session, w: WsId)
    requires id !in closing && Open(s) && w in rows
    ensures var after := ReleaseRow(LessReserved(rows, closing), s.ws, s.size);
            && w in after && w in LessReserved(rows, closing[id := s])
            && LessReserved(rows, closing[id := s])[w] == after[w]
  {
    OpenOneMore(closing, id, s, w);
    LessAt(rows, closing, w);
    LessAt(rows, closing[id := s], w);
    ReleaseAt(LessReserved(rows, closing), s.ws, s.size, w);
    MonusTwice(rows[w].reserved, Sum(OpenSizes(closing, w)), if w == s.ws then s.size else 0);
  }

  lemma ReleaseOneMoreBy(rows: map<MemberKey, Member>, closing: map<SessionId, Session>, id: SessionId, s: Session)
    requires id !in closing && Open(s)
    ensures LessReservedBy(rows, closing[id := s]) ==
            ReleaseRowBy(LessReservedBy(rows, closing), MemberKey(s.ws, s.createdBy), s.size)
  {
    var own := MemberKey(s.ws, s.createdBy);
    var a, b := LessReservedBy(rows, closing[id := s]), ReleaseRowBy(LessReservedBy(rows, closing), own, s.size);
    assert a.Keys == rows.Keys && b.Keys == rows.Keys;
    forall k | k in rows ensures a[k] == b[k] {
      ReleasedRowBy(rows, closing, id, s, k);
    }
  }

  lemma LessAtBy(rows: map<MemberKey, Member>, closing: map<SessionId, Session>, k: MemberKey)
    requires k in rows
    ensures k in LessReservedBy(rows, closing)
    ensures LessReservedBy(rows, closing)[k] == rows[k].(reserved := Monus(rows[k].reserved, Sum(OpenSizesBy(closing, k))))
  {
  }

  lemma ReleaseAtBy(rows: map<MemberKey, Member>, own: MemberKey, bytes: nat, k: MemberKey)
    requires k in rows
    ensures k in ReleaseRowBy(rows, own, bytes)
    ensures ReleaseRowBy(rows, own, bytes)[k] ==
            rows[k].(reserved := Monus(rows[k].reserved, if k == own then bytes else 0))
  {
  }

  lemma ReleasedRowBy(rows: map<MemberKey, Member>, closing: map<SessionId, Session>, id: SessionId, s: Session, k: MemberKey)
    requires id !in closing && Open(s) && k in rows
    ensures var after := ReleaseRowBy(LessReservedBy(rows, closing), MemberKey(s.ws, s.createdBy), s.size);
            && k in after && k in LessReservedBy(rows, closing[id := s])
            && LessReservedBy(rows, closing[id := s])[k] == after[k]
  {
    OpenOneMoreBy(closing, id, s, k);
    LessAtBy(rows, closing, k);
    LessAtBy(rows, closing[id := s], k);
    ReleaseAtBy(LessReservedBy(rows, closing), MemberKey(s.ws, s.createdBy), s.size, k);
    MonusTwice(rows[k].reserved, Sum(OpenSizesBy(closing, k)), if k == MemberKey(s.ws, s.createdBy) then s.size else 0);
  }

  lemma OpenOneMore(closing: map<SessionId, Session>, id: SessionId, s: Session, w: WsId)
    requires id !in closing && Open(s)
    ensures Sum(OpenSizes(closing[id := s], w)) == Sum(OpenSizes(closing, w)) + if s.ws == w then s.size else 0
  {
    var m := OpenSizes(closing[id := s], w);
    if s.ws == w {
      SumRemove(m, id);
      assert m - {id} == OpenSizes(closing, w);
    } else {
      assert m == OpenSizes(closing, w);
    }
  }

  lemma OpenOneMoreBy(closing: map<SessionId, Session>, id: SessionId, s: Session, k: MemberKey)
    requires id !in closing && Open(s)
    ensures Sum(OpenSizesBy(closing[id := s], k)) ==
            Sum(OpenSizesBy(closing, k)) + if k == MemberKey(s.ws, s.createdBy) then s.size else 0
  {
    var m := OpenSizesBy(closing[id := s], k);
    if k == MemberKey(s.ws, s.createdBy) {
      SumRemove(m, id);
      assert m - {id} == OpenSizesBy(closing, k);
    } else {
      assert m == OpenSizesBy(closing, k);
    }
  }

  /** A session that is not open gives nothing back. */
  lemma ClosedGivesNothing(rows: map<WsId, Workspace>, memberRows: map<MemberKey, Member>,
                           closing: map<SessionId, Session>, id: SessionId, s: Session)
    requires id !in closing && !Open(s)
    ensures LessReserved(rows, closing[id := s]) == LessReserved(rows, closing)
    ensures LessReservedBy(memberRows, closing[id := s]) == LessReservedBy(memberRows, closing)
  {
    forall w | w in rows ensures LessReserved(rows, closing[id := s])[w] == LessReserved(rows, closing)[w] {
      ClosedNotCounted(closing, id, s, w);
      LessAt(rows, closing, w);
      LessAt(rows, closing[id := s], w);
    }
    ClosedGivesNothingBy(memberRows, closing, id, s);
  }

  lemma ClosedGivesNothingBy(rows: map<MemberKey, Member>, closing: map<SessionId, Session>, id: SessionId, s: Session)
    requires id !in closing && !Open(s)
    ensures LessReservedBy(rows, closing[id := s]) == LessReservedBy(rows, closing)
  {
    forall k | k in rows ensures LessReservedBy(rows, closing[id := s])[k] == LessReservedBy(rows, closing)[k] {
      ClosedNotCountedBy(closing, id, s, k);
      LessAtBy(rows, closing, k);
      LessAtBy(rows, closing[id := s], k);
    }
  }

  lemma ClosedNotCounted(closing: map<SessionId, Session>, id: SessionId, s: Session, w: WsId)
    requires id !in closing && !Open(s)
    ensures OpenSizes(closing[id := s], w) == OpenSizes(closing, w)
  {
  }

  lemma ClosedNotCountedBy(closing: map<SessionId, Session>, id: SessionId, s: Session, k: MemberKey)
    requires id !in closing && !Open(s)
    ensures OpenSizesBy(closing[id := s], k) == OpenSizesBy(closing, k)
  {
  }

  lemma NothingClosing(rows: map<WsId, Workspace>, memberRows: map<MemberKey, Member>)
    ensures LessReserved(rows, map[]) == rows && LessReservedBy(memberRows, map[]) == memberRows
  {
    var none: map<SessionId, Session> := map[];
    forall w ensures OpenSizes(none, w) == map[] {
    }
    forall k ensures OpenSizesBy(none, k) == map[] {
    }
  }

  lemma PickOneMore<K, V>(m: map<K, V>, done: set<K>, k: K)
    requires k in m && k !in done
    ensures Pick(m, done + {k}) == Pick(m, done)[k := m[k]]
  {
  }

  lemma VersionOneMore(dropped: map<VersionId, FileVersion>, id: VersionId, v: FileVersion)
    requires id !in dropped
    ensures Sum(VersionSizes(dropped[id := v])) == Sum(VersionSizes(dropped)) + v.size
  {
    var m := VersionSizes(dropped[id := v]);
    SumRemove(m, id);
    assert m - {id} == VersionSizes(dropped);
  }

  lemma VersionOneMoreBy(dropped: map<VersionId, FileVersion>, id: VersionId, v: FileVersion, u: UserId)
    requires id !in dropped
    ensures Sum(VersionSizesBy(dropped[id := v], u)) ==
            Sum(VersionSizesBy(dropped, u)) + if v.createdBy == u then v.size else 0
  {
    var m := VersionSizesBy(dropped[id := v], u);
    if v.createdBy == u {
      SumRemove(m, id);
      assert m - {id} == VersionSizesBy(dropped, u);
    } else {
      assert m == VersionSizesBy(dropped, u);
    }
  }

  /** Running totals over some versions: in all, and by creator. */
  ghost predicate Totals(part: map<VersionId, FileVersion>, total: nat, byUser: map<UserId, nat>) {
    && total == Sum(VersionSizes(part))
    && forall u :: Sum(VersionSizesBy(part, u)) == if u in byUser then byUser[u] else 0
  }

  lemma NoTotals()
    ensures Totals(map[], 0, map[])
  {
    forall u: UserId ensures VersionSizesBy(map[], u) == map[] {
    }
  }

  lemma TotalsGrow(part: map<VersionId, FileVersion>, v: VersionId, row: FileVersion, total: nat, byUser: map<UserId, nat>)
    requires v !in part && Totals(part, total, byUser)
    ensures Totals(part[v := row], total + row.size,
                   byUser[row.createdBy := (if row.createdBy in byUser then byUser[row.createdBy] else 0) + row.size])
  {
    VersionOneMore(part, v, row);
    forall u ensures Sum(VersionSizesBy(part[v := row], u)) ==
                     Sum(VersionSizesBy(part, u)) + if row.createdBy == u then row.size else 0
    {
      VersionOneMoreBy(part, v, row, u);
    }
  }

  // ----- purge ----------------------------------------------------------------------

  /** Jobs that had an item before and miss one now. */
  ghost function JobsLosingItems(before: map<ItemId, JobItem>, after: map<ItemId, JobItem>): set<JobId> {
    set i | i in before && i !in after :: before[i].job
  }

  /** What went missing between two states. */
  ghost predicate Lost(before: Db, after: Db, dropped: map<VersionId, FileVersion>, uploads: set<SessionId>,
                       archives: set<JobId>) {
    && dropped == before.versions - after.versions.Keys && after.versions == before.versions - dropped.Keys
    && uploads == before.sessions.Keys - after.sessions.Keys && after.sessions == before.sessions - uploads
    && archives == JobsLosingItems(before.jobItems, after.jobItems)
    && after.jobItems.Keys <= before.jobItems.Keys
    && (forall i :: i in after.jobItems ==> after.jobItems[i] == before.jobItems[i])
  }

  lemma NothingLost(db: Db)
    ensures Lost(db, db, map[], {}, {})
  {
  }

  lemma LostMore(a: Db, b: Db, c: Db, d1: map<VersionId, FileVersion>, u1: set<SessionId>, j1: set<JobId>,
                 d2: map<VersionId, FileVersion>, u2: set<SessionId>, j2: set<JobId>)
    requires Lost(a, b, d1, u1, j1) && Lost(b, c, d2, u2, j2)
    ensures Lost(a, c, d1 + d2, u1 + u2, j1 + j2)
  {
    LosingMore(a.jobItems, b.jobItems, c.jobItems);
    DroppedMore(a.versions, b.versions, c.versions, d1, d2);
    assert c.sessions.Keys <= b.sessions.Keys <= a.sessions.Keys;
  }

  lemma LosingMore(m0: map<ItemId, JobItem>, m1: map<ItemId, JobItem>, m2: map<ItemId, JobItem>)
    requires m2.Keys <= m1.Keys <= m0.Keys && forall i :: i in m1 ==> m1[i] == m0[i]
    ensures JobsLosingItems(m0, m1) + JobsLosingItems(m1, m2) == JobsLosingItems(m0, m2)
  {
    forall j | j in JobsLosingItems(m0, m2) ensures j in JobsLosingItems(m0, m1) + JobsLosingItems(m1, m2) {
      var i :| i in m0 && i !in m2 && m0[i].job == j;
      if i in m1 {
        assert m1[i].job == j;
      }
    }
    forall j | j in JobsLosingItems(m1, m2) ensures j in JobsLosingItems(m0, m2) {
      var i :| i in m1 && i !in m2 && m1[i].job == j;
      assert m0[i].job == j;
    }
  }

  lemma DroppedMore<K, V>(m0: map<K, V>, m1: map<K, V>, m2: map<K, V>, d1: map<K, V>, d2: map<K, V>)
    requires d1 == m0 - m1.Keys && m1 == m0 - d1.Keys
    requires d2 == m1 - m2.Keys && m2 == m1 - d2.Keys
    ensures d1 + d2 == m0 - m2.Keys && m2 == m0 - (d1 + d2).Keys
  {
  }

  lemma PurgedParents(db: Db, ws: WsId, ns: set<NodeId>, now: Time)
    requires GoodScope(db, ws, ns)
    ensures DownClosed(ParentsOf(db.nodes), ns)
    ensures ParentsOf(Purged(db, ws, ns, now).nodes) == ParentsOf(db.nodes) - ns
  {
  }

  lemma PurgedIndexed(db: Db, c: Closures, ws: WsId, root: NodeId, now: Time)
    requires TreeOk(db) && Exact(c, ParentsOf(db.nodes)) && (root in db.nodes ==> db.nodes[root].ws == ws)
    ensures var ns := Scope(db.nodes, ws, root);
            var db' := Purged(db, ws, ns, now);
            TreeOk(db') && Exact(WithoutNodes(c, ns), ParentsOf(db'.nodes))
  {
    var ns := Scope(db.nodes, ws, root);
    ScopeIsGood(db, ws, root);
    PurgeTree(db, ws, ns, now);
    PurgedParents(db, ws, ns, now);
    DropKeepsExact(c, ParentsOf(db.nodes), ns);
  }

  /** The rows that refer to a purged subtree are gone. */
  ghost predicate ReferencesPurged(db: Db, db': Db, ws: WsId, ns: set<NodeId>, now: Time, keys: set<StorageKey>,
                                   ss: set<SessionId>, js: set<JobId>) {
    && db'.sessions == db.sessions - ss
    && db'.shares == db.shares - EndedSharesOf(db.shares, ws, ns, now)
    && db'.shareItems == KeptShareItems(db.shareItems, db.shares, ws, ns, keys, now)
    && db'.jobs == WithExpired(db.jobs, js) && db'.jobItems == KeptJobItems(db.jobItems, js)
  }

  /** Table by table, what the purge statements leave. */
  ghost predicate PurgedFrom(db: Db, db': Db, ws: WsId, ns: set<NodeId>, now: Time,
                             vs: set<VersionId>, keys: set<StorageKey>, dropped: map<VersionId, FileVersion>,
                             ss: set<SessionId>, js: set<JobId>) {
    && db'.nodes == KeptNodes(db.nodes, ws, ns) && db'.nextNode == db.nextNode
    && db'.versions == db.versions - vs && db'.nextVersion == db.nextVersion
    && db'.workspaces == LessUsed(LessReserved(db.workspaces, Pick(db.sessions, ss)), ws, dropped)
    && db'.members == LessUsedBy(LessReservedBy(db.members, Pick(db.sessions, ss)), ws, dropped)
    && db'.origin == db.origin && ReferencesPurged(db, db', ws, ns, now, keys, ss, js)
  }

  lemma PurgedWhole(db: Db, db': Db, ws: WsId, ns: set<NodeId>, now: Time,
                    dropped: map<VersionId, FileVersion>, ss: set<SessionId>, js: set<JobId>)
    requires dropped == Pick(db.versions, VersionsOn(db.versions, ws, ns))
    requires ss == SessionsOn(db.sessions, ws, ns) && js == JobsOn(db.jobs, db.jobItems, ws, ns)
    requires PurgedFrom(db, db', ws, ns, now, VersionsOn(db.versions, ws, ns),
                        KeysOf(db.versions, VersionsOn(db.versions, ws, ns)), dropped, ss, js)
    ensures db' == Purged(db, ws, ns, now)
  {
  }

  lemma RemovedKeys<K, V>(m: map<K, V>, gone: set<K>)
    requires gone <= m.Keys
    ensures Pick(m, gone) == m - (m - gone).Keys && Pick(m, gone).Keys == gone
    ensures gone == m.Keys - (m - gone).Keys
  {
  }

  /** What one purge removes, read off the tables before and after. */
  lemma PurgedLosses(db: Db, ws: WsId, ns: set<NodeId>, now: Time)
    ensures Lost(db, Purged(db, ws, ns, now), Pick(db.versions, VersionsOn(db.versions, ws, ns)), SessionsOn(db.sessions, ws, ns),
                 JobsOn(db.jobs, db.jobItems, ws, ns))
  {
    PurgedItems(db, ws, ns, now);
    RemovedKeys(db.versions, VersionsOn(db.versions, ws, ns));
    RemovedKeys(db.sessions, SessionsOn(db.sessions, ws, ns));
  }

  lemma PurgedItems(db: Db, ws: WsId, ns: set<NodeId>, now: Time)
    ensures JobsOn(db.jobs, db.jobItems, ws, ns) == JobsLosingItems(db.jobItems, Purged(db, ws, ns, now).jobItems)
  {
    var js := JobsOn(db.jobs, db.jobItems, ws, ns);
    var after := map i | i in db.jobItems && db.jobItems[i].job !in js :: db.jobItems[i];
    assert after == Purged(db, ws, ns, now).jobItems;
    forall j | j in js ensures j in JobsLosingItems(db.jobItems, after) {
      var i :| i in db.jobItems && db.jobItems[i].node in ns && db.jobItems[i].job in db.jobs
            && db.jobs[db.jobItems[i].job].ws == ws && db.jobItems[i].job == j;
      assert i !in after;
    }
  }

  // ----- usage by creator -----------------------------------------------------------

  /** Member rows while the loop over the creators still has `todo` to visit. */
  ghost function UsageDropped(rows: map<MemberKey, Member>, ws: WsId, byUser: map<UserId, nat>, todo: set<UserId>)
    : map<MemberKey, Member>
  {
    map k | k in rows ::
      if k.ws == ws && k.user in byUser && k.user !in todo
      then rows[k].(used := Monus(rows[k].used, byUser[k.user])) else rows[k]
  }

  lemma DropOneUser(rows: map<MemberKey, Member>, ws: WsId, byUser: map<UserId, nat>, todo: set<UserId>, u: UserId)
    requires u in todo && u in byUser
    ensures var mid := UsageDropped(rows, ws, byUser, todo);
            var k := MemberKey(ws, u);
            UsageDropped(rows, ws, byUser, todo - {u}) ==
            if k in mid then mid[k := mid[k].(used := Monus(mid[k].used, byUser[u]))] else mid
  {
  }

  lemma AllUsersDropped(rows: map<MemberKey, Member>, ws: WsId, total: nat, byUser: map<UserId, nat>,
                        dropped: map<VersionId, FileVersion>)
    requires Totals(dropped, total, byUser)
    ensures UsageDropped(rows, ws, byUser, byUser.Keys) == rows
    ensures UsageDropped(rows, ws, byUser, {}) == LessUsedBy(rows, ws, dropped)
  {
  }

  /** The rows the source query of a restore selects. */
  function SourceRows(db: Db, ws: WsId, m: NodeId, no: int): set<VersionId> {
    set v | v in db.versions && db.versions[v].ws == ws && db.versions[v].node == m && db.versions[v].no == no
  }

  lemma SourceIsUnique(db: Db, ws: WsId, m: NodeId, no: int, source: VersionId)
    requires VersionsOk(db) && source in SourceRows(db, ws, m, no)
    ensures IsVersion(db, ws, m, no, source) && forall v :: IsVersion(db, ws, m, no, v) ==> v == source
  {
  }

  lemma RestoreRefused(db: Db, ws: WsId, m: NodeId, no: int, actor: UserId, now: Time)
    requires !IsActiveFile(db, ws, m) || SourceRows(db, ws, m, no) == {}
    ensures RestoreVersion(db, ws, m, no, actor, now) == Failed(NotFound)
  {
    if v :| IsVersion(db, ws, m, no, v) {
      assert v in SourceRows(db, ws, m, no);
    }
  }

  lemma RestoredWhole(db: Db, db': Db, ws: WsId, m: NodeId, no: int, source: VersionId, actor: UserId, now: Time)
    requires IsActiveFile(db, ws, m) && IsVersion(db, ws, m, no, source)
    requires forall v :: IsVersion(db, ws, m, no, v) ==> v == source
    requires db' == db.(
      nodes := db.nodes[m := db.nodes[m].(activeVersion := Some(db.nextVersion), updatedBy := actor)],
      versions := db.versions[db.nextVersion := db.versions[source].(
        no := Latest(db.versions, ws, m) + 1, createdBy := actor, createdAt := now)],
      nextVersion := db.nextVersion + 1)
    ensures RestoreVersion(db, ws, m, no, actor, now) == Done(db')
  {
  }

  // ----- finalize -------------------------------------------------------------------

  /** The two statements that close a finalized session. */
  ghost predicate SettledRows(db: Db, db': Db, id: SessionId)
    requires id in db.sessions
  {
    var s := db.sessions[id];
    && db'.workspaces == ConsumeRow(db.workspaces, s.ws, s.size)
    && db'.members == ConsumeRowBy(db.members, MemberKey(s.ws, s.createdBy), s.size)
    && db'.sessions == db.sessions[id := s.(status := Completed)]
    && db'.shares == db.shares && db'.shareItems == db.shareItems
    && db'.jobs == db.jobs && db'.jobItems == db.jobItems
  }

  ghost predicate OverwriteRows(db: Db, db': Db, ws: WsId, m: NodeId, v: FileVersion)
    requires m in db.nodes
  {
    && db'.nodes == db.nodes[m := db.nodes[m].(activeVersion := Some(db.nextVersion))] && db'.nextNode == db.nextNode
    && db'.versions == db.versions[db.nextVersion := Placed(v, ws, m, Latest(db.versions, ws, m) + 1)]
    && db'.nextVersion == db.nextVersion + 1 && db'.origin == db.origin[v.key := Origin(ws, m)]
  }

  ghost predicate NewFileRows(db: Db, db': Db, ws: WsId, v: FileVersion, n: Node) {
    && db'.nodes == db.nodes[db.nextNode := n.(ws := ws, activeVersion := Some(db.nextVersion))]
    && db'.nextNode == db.nextNode + 1
    && db'.versions == db.versions[db.nextVersion := Placed(v, ws, db.nextNode, 1)]
    && db'.nextVersion == db.nextVersion + 1 && db'.origin == db.origin[v.key := Origin(ws, db.nextNode)]
  }

  lemma OverwriteWhole(db: Db, db': Db, id: SessionId, ws: WsId, user: UserId, v: FileVersion, n: Node)
    requires ReadyToFinalize(db, id, ws, user) && db.sessions[id].node.Some?
    requires IsActiveFile(db, ws, db.sessions[id].node.value)
    requires db.sessions[id].base.Some?
    requires db.sessions[id].base.value == Latest(db.versions, ws, db.sessions[id].node.value)
    requires SettledRows(db, db', id) && OverwriteRows(db, db', ws, db.sessions[id].node.value, v)
    ensures FinalizeSession(db, id, ws, user, v, n) == Done(db')
  {
  }

  lemma NewFileWhole(db: Db, db': Db, id: SessionId, ws: WsId, user: UserId, v: FileVersion, n: Node)
    requires ReadyToFinalize(db, id, ws, user) && db.sessions[id].node.None?
    requires SettledRows(db, db', id) && NewFileRows(db, db', ws, v, n)
    ensures FinalizeSession(db, id, ws, user, v, n) == Done(db')
  {
  }

  /** A finalized new file is indexed like a freshly created node. */
  lemma NewFileIndexed(db: Db, db': Db, ws: WsId, v: FileVersion, n: Node, c: Closures)
    requires TreeOk(db) && Exact(c, ParentsOf(db.nodes)) && ParentInPlace(db, ws, n.parent)
    requires NewFileRows(db, db', ws, v, n)
    ensures TreeOk(db') && Exact(WithNewNode(c, db.nextNode, n.parent), ParentsOf(db'.nodes))
  {
    NewNodeIndexed(db, n.(ws := ws, activeVersion := Some(db.nextVersion)), c);
  }

  /** An overwrite leaves the index exact. */
  lemma OverwriteIndexed(db: Db, db': Db, ws: WsId, m: NodeId, v: FileVersion, c: Closures)
    requires TreeOk(db) && Exact(c, ParentsOf(db.nodes)) && m in db.nodes && OverwriteRows(db, db', ws, m, v)
    ensures TreeOk(db') && Exact(c, ParentsOf(db'.nodes))
  {
    ActiveVersionIndexed(db, db', c, m, Some(db.nextVersion), db.nodes[m].updatedBy);
  }

  /** The overwrite branch as a whole. */
  lemma OverwriteCommitted(
    db: Db, db': Db, id: SessionId, ws: WsId, m: NodeId, user: UserId, v: FileVersion, n: Node, c: Closures)
    requires TreeOk(db) && Exact(c, ParentsOf(db.nodes)) && ReadyToFinalize(db, id, ws, user)
    requires db.sessions[id].node == Some(m) && IsActiveFile(db, ws, m)
    requires db.sessions[id].base == Some(Latest(db.versions, ws, m))
    requires SettledRows(db, db', id) && OverwriteRows(db, db', ws, m, v)
    ensures TreeOk(db') && Exact(c, ParentsOf(db'.nodes)) && FinalizeSession(db, id, ws, user, v, n) == Done(db')
  {
    OverwriteIndexed(db, db', ws, m, v, c);
    OverwriteWhole(db, db', id, ws, user, v, n);
  }
}
