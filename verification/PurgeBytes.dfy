/** What the quota rows lose in a whole purge. */
module PurgeBytes {
  import opened Common
  import opened Tables
  import opened NodeSteps
  import opened StoreLemmas

  // ----- bytes given back ---------------------------------------------------------------

  /** Sizes of the versions of one workspace. */
  ghost function SizesIn(versions: map<VersionId, FileVersion>, ws: WsId): map<VersionId, nat> {
    map v | v in versions && versions[v].ws == ws :: versions[v].size
  }

  /** Sizes of the versions one member created in his workspace. */
  ghost function SizesOf(versions: map<VersionId, FileVersion>, k: MemberKey): map<VersionId, nat> {
    map v | v in versions && versions[v].ws == k.ws && versions[v].createdBy == k.user :: versions[v].size
  }

  ghost predicate RowGivesBack(row: Workspace, row': Workspace, used: nat, reserved: nat) {
    && row'.quota == row.quota && row'.used == (if row.used < used then 0 else row.used - used)
    && row'.reserved == (if row.reserved < reserved then 0 else row.reserved - reserved)
  }

  ghost predicate MemberGivesBack(row: Member, row': Member, used: nat, reserved: nat) {
    && row'.role == row.role && row'.quota == row.quota
    && row'.used == (if row.used < used then 0 else row.used - used)
    && row'.reserved == (if row.reserved < reserved then 0 else row.reserved - reserved)
  }

  /** Every workspace row gives back the bytes of its own dropped versions and the
      reservations of its own dropped open sessions, and no other. */
  ghost predicate RowsGivenBack(rows: map<WsId, Workspace>, rows': map<WsId, Workspace>,
                                dropped: map<VersionId, FileVersion>, closed: map<SessionId, Session>) {
    && rows'.Keys == rows.Keys
    && forall w :: w in rows ==> RowGivesBack(rows[w], rows'[w], Sum(SizesIn(dropped, w)), Sum(OpenSizes(closed, w)))
  }

  /** So does every member row, for what the member himself created. */
  ghost predicate MembersGivenBack(rows: map<MemberKey, Member>, rows': map<MemberKey, Member>,
                                   dropped: map<VersionId, FileVersion>, closed: map<SessionId, Session>) {
    && rows'.Keys == rows.Keys
    && forall k :: k in rows ==> MemberGivesBack(rows[k], rows'[k], Sum(SizesOf(dropped, k)), Sum(OpenSizesBy(closed, k)))
  }

  ghost predicate GivenBack(before: Db, after: Db, dropped: map<VersionId, FileVersion>, closed: map<SessionId, Session>) {
    && RowsGivenBack(before.workspaces, after.workspaces, dropped, closed)
    && MembersGivenBack(before.members, after.members, dropped, closed)
  }

  lemma SumJoin<K>(a: map<K, nat>, b: map<K, nat>)
    requires a.Keys !! b.Keys
    ensures Sum(a + b) == Sum(a) + Sum(b)
  {
    SumSplit(a + b, a.Keys);
    assert (map k | k in a + b && k in a.Keys :: (a + b)[k]) == a;
    assert (a + b) - a.Keys == b;
  }

  lemma NothingGivenBack(db: Db)
    ensures GivenBack(db, db, map[], map[])
  {
    forall w ensures SizesIn(map[], w) == map[] && OpenSizes(map[], w) == map[] {
    }
    forall k ensures SizesOf(map[], k) == map[] && OpenSizesBy(map[], k) == map[] {
    }
  }

  lemma SizesJoined(d1: map<VersionId, FileVersion>, d2: map<VersionId, FileVersion>, w: WsId)
    requires d1.Keys !! d2.Keys
    ensures Sum(SizesIn(d1 + d2, w)) == Sum(SizesIn(d1, w)) + Sum(SizesIn(d2, w))
  {
    assert SizesIn(d1 + d2, w) == SizesIn(d1, w) + SizesIn(d2, w);
    SumJoin(SizesIn(d1, w), SizesIn(d2, w));
  }

  lemma SizesJoinedBy(d1: map<VersionId, FileVersion>, d2: map<VersionId, FileVersion>, k: MemberKey)
    requires d1.Keys !! d2.Keys
    ensures Sum(SizesOf(d1 + d2, k)) == Sum(SizesOf(d1, k)) + Sum(SizesOf(d2, k))
  {
    assert SizesOf(d1 + d2, k) == SizesOf(d1, k) + SizesOf(d2, k);
    SumJoin(SizesOf(d1, k), SizesOf(d2, k));
  }

  lemma OpenJoined(c1: map<SessionId, Session>, c2: map<SessionId, Session>, w: WsId)
    requires c1.Keys !! c2.Keys
    ensures Sum(OpenSizes(c1 + c2, w)) == Sum(OpenSizes(c1, w)) + Sum(OpenSizes(c2, w))
  {
    assert OpenSizes(c1 + c2, w) == OpenSizes(c1, w) + OpenSizes(c2, w);
    SumJoin(OpenSizes(c1, w), OpenSizes(c2, w));
  }

  lemma OpenJoinedBy(c1: map<SessionId, Session>, c2: map<SessionId, Session>, k: MemberKey)
    requires c1.Keys !! c2.Keys
    ensures Sum(OpenSizesBy(c1 + c2, k)) == Sum(OpenSizesBy(c1, k)) + Sum(OpenSizesBy(c2, k))
  {
    assert OpenSizesBy(c1 + c2, k) == OpenSizesBy(c1, k) + OpenSizesBy(c2, k);
    SumJoin(OpenSizesBy(c1, k), OpenSizesBy(c2, k));
  }

  lemma RowTwice(a: Workspace, b: Workspace, c: Workspace, d1: map<VersionId, FileVersion>, d2: map<VersionId, FileVersion>,
                 c1: map<SessionId, Session>, c2: map<SessionId, Session>, w: WsId)
    requires d1.Keys !! d2.Keys && c1.Keys !! c2.Keys
    requires RowGivesBack(a, b, Sum(SizesIn(d1, w)), Sum(OpenSizes(c1, w)))
    requires RowGivesBack(b, c, Sum(SizesIn(d2, w)), Sum(OpenSizes(c2, w)))
    ensures RowGivesBack(a, c, Sum(SizesIn(d1 + d2, w)), Sum(OpenSizes(c1 + c2, w)))
  {
    SizesJoined(d1, d2, w);
    OpenJoined(c1, c2, w);
  }

  lemma MemberTwice(a: Member, b: Member, c: Member, d1: map<VersionId, FileVersion>, d2: map<VersionId, FileVersion>,
                    c1: map<SessionId, Session>, c2: map<SessionId, Session>, k: MemberKey)
    requires d1.Keys !! d2.Keys && c1.Keys !! c2.Keys
    requires MemberGivesBack(a, b, Sum(SizesOf(d1, k)), Sum(OpenSizesBy(c1, k)))
    requires MemberGivesBack(b, c, Sum(SizesOf(d2, k)), Sum(OpenSizesBy(c2, k)))
    ensures MemberGivesBack(a, c, Sum(SizesOf(d1 + d2, k)), Sum(OpenSizesBy(c1 + c2, k)))
  {
    SizesJoinedBy(d1, d2, k);
    OpenJoinedBy(c1, c2, k);
  }

  lemma RowsTwice(a: map<WsId, Workspace>, b: map<WsId, Workspace>, c: map<WsId, Workspace>,
                  d1: map<VersionId, FileVersion>, d2: map<VersionId, FileVersion>,
                  c1: map<SessionId, Session>, c2: map<SessionId, Session>)
    requires RowsGivenBack(a, b, d1, c1) && RowsGivenBack(b, c, d2, c2) && d1.Keys !! d2.Keys && c1.Keys !! c2.Keys
    ensures RowsGivenBack(a, c, d1 + d2, c1 + c2)
  {
    forall w | w in a ensures RowGivesBack(a[w], c[w], Sum(SizesIn(d1 + d2, w)), Sum(OpenSizes(c1 + c2, w))) {
      assert RowGivesBack(b[w], c[w], Sum(SizesIn(d2, w)), Sum(OpenSizes(c2, w)));
      RowTwice(a[w], b[w], c[w], d1, d2, c1, c2, w);
    }
  }

  lemma MembersTwice(a: map<MemberKey, Member>, b: map<MemberKey, Member>, c: map<MemberKey, Member>,
                     d1: map<VersionId, FileVersion>, d2: map<VersionId, FileVersion>,
                     c1: map<SessionId, Session>, c2: map<SessionId, Session>)
    requires MembersGivenBack(a, b, d1, c1) && MembersGivenBack(b, c, d2, c2) && d1.Keys !! d2.Keys && c1.Keys !! c2.Keys
    ensures MembersGivenBack(a, c, d1 + d2, c1 + c2)
  {
    forall k | k in a ensures MemberGivesBack(a[k], c[k], Sum(SizesOf(d1 + d2, k)), Sum(OpenSizesBy(c1 + c2, k))) {
      assert MemberGivesBack(b[k], c[k], Sum(SizesOf(d2, k)), Sum(OpenSizesBy(c2, k)));
      MemberTwice(a[k], b[k], c[k], d1, d2, c1, c2, k);
    }
  }

  lemma DroppedHere(versions: map<VersionId, FileVersion>, ws: WsId, ns: set<NodeId>, w: WsId)
    ensures var dropped := Pick(versions, VersionsOn(versions, ws, ns));
            SizesIn(dropped, w) == if w == ws then VersionSizes(dropped) else map[]
  {
  }

  lemma DroppedHereBy(versions: map<VersionId, FileVersion>, ws: WsId, ns: set<NodeId>, k: MemberKey)
    ensures var dropped := Pick(versions, VersionsOn(versions, ws, ns));
            SizesOf(dropped, k) == if k.ws == ws then VersionSizesBy(dropped, k.user) else map[]
  {
  }

  lemma RowsGiveBack(rows: map<WsId, Workspace>, closed: map<SessionId, Session>, ws: WsId,
                     dropped: map<VersionId, FileVersion>, w: WsId)
    requires w in rows && SizesIn(dropped, w) == if w == ws then VersionSizes(dropped) else map[]
    ensures var rows' := LessUsed(LessReserved(rows, closed), ws, dropped);
            && rows'.Keys == rows.Keys
            && RowGivesBack(rows[w], rows'[w], Sum(SizesIn(dropped, w)), Sum(OpenSizes(closed, w)))
  {
    assert LessReserved(rows, closed)[w] == rows[w].(reserved := Monus(rows[w].reserved, Sum(OpenSizes(closed, w))));
  }

  lemma MembersGiveBack(rows: map<MemberKey, Member>, closed: map<SessionId, Session>, ws: WsId,
                        dropped: map<VersionId, FileVersion>, k: MemberKey)
    requires k in rows && SizesOf(dropped, k) == if k.ws == ws then VersionSizesBy(dropped, k.user) else map[]
    ensures var rows' := LessUsedBy(LessReservedBy(rows, closed), ws, dropped);
            && rows'.Keys == rows.Keys
            && MemberGivesBack(rows[k], rows'[k], Sum(SizesOf(dropped, k)), Sum(OpenSizesBy(closed, k)))
  {
    assert LessReservedBy(rows, closed)[k] == rows[k].(reserved := Monus(rows[k].reserved, Sum(OpenSizesBy(closed, k))));
  }

  lemma ScopeGivesBack(db: Db, ws: WsId, ns: set<NodeId>, now: Time)
    ensures GivenBack(db, Purged(db, ws, ns, now), Pick(db.versions, VersionsOn(db.versions, ws, ns)),
                      Pick(db.sessions, SessionsOn(db.sessions, ws, ns)))
  {
    var dropped, closed := Pick(db.versions, VersionsOn(db.versions, ws, ns)), Pick(db.sessions, SessionsOn(db.sessions, ws, ns));
    var rows, members := LessUsed(LessReserved(db.workspaces, closed), ws, dropped),
                         LessUsedBy(LessReservedBy(db.members, closed), ws, dropped);
    assert Purged(db, ws, ns, now).workspaces == rows && Purged(db, ws, ns, now).members == members;
    assert rows.Keys == db.workspaces.Keys && members.Keys == db.members.Keys;
    forall w | w in db.workspaces
      ensures RowGivesBack(db.workspaces[w], rows[w], Sum(SizesIn(dropped, w)), Sum(OpenSizes(closed, w)))
    {
      DroppedHere(db.versions, ws, ns, w);
      RowsGiveBack(db.workspaces, closed, ws, dropped, w);
    }
    forall k | k in db.members
      ensures MemberGivesBack(db.members[k], members[k], Sum(SizesOf(dropped, k)), Sum(OpenSizesBy(closed, k)))
    {
      DroppedHereBy(db.versions, ws, ns, k);
      MembersGiveBack(db.members, closed, ws, dropped, k);
    }
  }

  /** Rows only disappear. */
  ghost predicate TablesShrink(db: Db, db': Db) {
    && db'.versions == db.versions - (db.versions - db'.versions.Keys).Keys
    && db'.sessions == db.sessions - (db.sessions - db'.sessions.Keys).Keys
  }

  lemma ScopeShrinks(db: Db, ws: WsId, ns: set<NodeId>, now: Time)
    ensures var after := Purged(db, ws, ns, now);
            && TablesShrink(db, after)
            && db.versions - after.versions.Keys == Pick(db.versions, VersionsOn(db.versions, ws, ns))
            && db.sessions - after.sessions.Keys == Pick(db.sessions, SessionsOn(db.sessions, ws, ns))
  {
    var vs, ss := VersionsOn(db.versions, ws, ns), SessionsOn(db.sessions, ws, ns);
    assert Purged(db, ws, ns, now).versions == db.versions - vs && Purged(db, ws, ns, now).sessions == db.sessions - ss;
    RemovedKeys(db.versions, vs);
    RemovedKeys(db.sessions, ss);
  }

  lemma SameTables(db: Db)
    ensures db.versions - db.versions.Keys == map[] && db.sessions - db.sessions.Keys == map[] && TablesShrink(db, db)
  {
  }

  lemma RootGivesBack(db: Db, ws: WsId, root: NodeId, now: Time)
    ensures var after := PurgeRoot(db, ws, root, now);
            TablesShrink(db, after)
            && GivenBack(db, after, db.versions - after.versions.Keys, db.sessions - after.sessions.Keys)
  {
    var ns := Scope(db.nodes, ws, root);
    if Retained(db, ws, ns, now) {
      NothingGivenBack(db);
      SameTables(db);
    } else {
      ScopeGivesBack(db, ws, ns, now);
      ScopeShrinks(db, ws, ns, now);
    }
  }

  lemma LostInTwo<K, V>(m0: map<K, V>, m1: map<K, V>, m2: map<K, V>)
    requires m1 == m0 - (m0 - m1.Keys).Keys && m2 == m1 - (m1 - m2.Keys).Keys
    ensures (m0 - m1.Keys).Keys !! (m1 - m2.Keys).Keys && (m0 - m1.Keys) + (m1 - m2.Keys) == m0 - m2.Keys
    ensures m2 == m0 - (m0 - m2.Keys).Keys
  {
  }

  /** The purge as a whole takes out of every usage column exactly the bytes of the versions
      it dropped there, floored at zero, and out of every reservation those of the open
      sessions it dropped. */
  lemma {:induction false} PurgeGivesBack(db: Db, snapshot: map<NodeId, Node>, order: seq<NodeId>, now: Time)
    ensures var after := PurgeRoots(db, snapshot, order, now);
            TablesShrink(db, after)
            && GivenBack(db, after, db.versions - after.versions.Keys, db.sessions - after.sessions.Keys)
    decreases |order|
  {
    if order == [] {
      NothingGivenBack(db);
      SameTables(db);
    } else if order[0] !in snapshot {
      PurgeGivesBack(db, snapshot, order[1..], now);
    } else {
      var next := PurgeRoot(db, snapshot[order[0]].ws, order[0], now);
      var after := PurgeRoots(next, snapshot, order[1..], now);
      RootGivesBack(db, snapshot[order[0]].ws, order[0], now);
      PurgeGivesBack(next, snapshot, order[1..], now);
      LostInTwo(db.versions, next.versions, after.versions);
      LostInTwo(db.sessions, next.sessions, after.sessions);
      RowsTwice(db.workspaces, next.workspaces, after.workspaces,
                db.versions - next.versions.Keys, next.versions - after.versions.Keys,
                db.sessions - next.sessions.Keys, next.sessions - after.sessions.Keys);
      MembersTwice(db.members, next.members, after.members,
                   db.versions - next.versions.Keys, next.versions - after.versions.Keys,
                   db.sessions - next.sessions.Keys, next.sessions - after.sessions.Keys);
    }
  }

  /** The same, in terms of what the purge returns. */
  lemma LostGivesBack(db: Db, after: Db, snapshot: map<NodeId, Node>, order: seq<NodeId>, now: Time,
                      dropped: map<VersionId, FileVersion>, uploads: set<SessionId>, archives: set<JobId>)
    requires after == PurgeRoots(db, snapshot, order, now) && Lost(db, after, dropped, uploads, archives)
    ensures GivenBack(db, after, dropped, Pick(db.sessions, uploads))
  {
    PurgeGivesBack(db, snapshot, order, now);
    assert Pick(db.sessions, uploads) == db.sessions - after.sessions.Keys;
  }

  /** A workspace of which no version is dropped keeps its usage. */
  lemma OthersKeepUsage(before: Db, after: Db, dropped: map<VersionId, FileVersion>, closed: map<SessionId, Session>, w: WsId)
    requires GivenBack(before, after, dropped, closed) && w in before.workspaces
    requires forall v :: v in dropped ==> dropped[v].ws != w
    ensures after.workspaces[w].used == before.workspaces[w].used
    ensures forall k :: k in before.members && k.ws == w ==> after.members[k].used == before.members[k].used
  {
    assert SizesIn(dropped, w) == map[];
    forall k | k in before.members && k.ws == w ensures after.members[k].used == before.members[k].used {
      assert SizesOf(dropped, k) == map[];
      assert MemberGivesBack(before.members[k], after.members[k], Sum(SizesOf(dropped, k)), Sum(OpenSizesBy(closed, k)));
    }
    assert RowGivesBack(before.workspaces[w], after.workspaces[w], Sum(SizesIn(dropped, w)), Sum(OpenSizes(closed, w)));
  }
}
