/** What each directory transaction means, stated over the parent pointers
    alone. The store performs the same steps through its closure table. */
module NodeSteps {
  import opened Common
  import opened Forest
  import opened Tables

  ghost function CreateNode(db: Db, n: Node): Outcome {
    Done(db.(nodes := db.nodes[db.nextNode := n], nextNode := db.nextNode + 1))
  }

  predicate IsActiveFolder(db: Db, ws: WsId, q: NodeId) {
    q in db.nodes && db.nodes[q].ws == ws && db.nodes[q].kind == Folder && db.nodes[q].status == Active
  }

  ghost function Move(db: Db, ws: WsId, id: NodeId, actor: UserId, q: Option<NodeId>): Outcome {
    if id !in db.nodes || db.nodes[id].ws != ws then Failed(NotFound)
    else if db.nodes[id].status != Active then Failed(NodeState)
    else if q == Some(id) then Failed(InvalidMove)
    else if q.Some? && !IsActiveFolder(db, ws, q.value) then Failed(NotFound)
    else if q.Some? && Below(ParentsOf(db.nodes), q.value, id) then Failed(InvalidMove)
    else if db.nodes[id].parent == q then Done(db)
    else Done(db.(nodes := db.nodes[id := db.nodes[id].(parent := q, updatedBy := actor)]))
  }

  /** The rows of one workspace at and below `root`. */
  ghost function Subtree(nodes: map<NodeId, Node>, ws: WsId, root: NodeId): set<NodeId> {
    set d | d in nodes && nodes[d].ws == ws && Below(ParentsOf(nodes), d, root)
  }

  ghost function TrashSubtree(db: Db, ws: WsId, id: NodeId, actor: UserId, now: Time): Outcome {
    if id !in db.nodes || db.nodes[id].ws != ws then Failed(NotFound)
    else
      var hit := set d | d in Subtree(db.nodes, ws, id) && db.nodes[d].status == Active;
      if hit == {} then Failed(NotFound)
      else Done(db.(nodes := map d | d in db.nodes ::
        if d in hit then db.nodes[d].(status := Trashed, trashedAt := Some(now), updatedBy := actor)
        else db.nodes[d]))
  }

  /** An active sibling already carries the name. */
  predicate NameTaken(db: Db, ws: WsId, id: NodeId)
    requires id in db.nodes
  {
    exists m :: m in db.nodes && m != id && db.nodes[m].ws == ws && db.nodes[m].status == Active
      && db.nodes[m].name == db.nodes[id].name && db.nodes[m].parent == db.nodes[id].parent
  }

  ghost function RestoreSubtree(db: Db, ws: WsId, id: NodeId, actor: UserId): Outcome {
    if id !in db.nodes || db.nodes[id].ws != ws then Failed(NotFound)
    else if db.nodes[id].status != Trashed then Failed(NodeState)
    else
      var q := db.nodes[id].parent;
      if q.Some? && (q.value !in db.nodes || db.nodes[q.value].ws != ws) then Failed(NotFound)
      else if q.Some? && db.nodes[q.value].status != Active then Failed(NodeState)
      else if NameTaken(db, ws, id) then Failed(DuplicatedKey)
      else
        var hit := set d | d in Subtree(db.nodes, ws, id) && db.nodes[d].status == Trashed;
        Done(db.(nodes := map d | d in db.nodes ::
          if d in hit then db.nodes[d].(status := Active, trashedAt := None, updatedBy := actor)
          else db.nodes[d]))
  }

  // ----- purging the trash ------------------------------------------------------

  /** ListTrashRoots without its workspace filter: trashed, and the parent is
      missing or not trashed. */
  predicate IsTrashRoot(nodes: map<NodeId, Node>, r: NodeId) {
    && r in nodes && nodes[r].status == Trashed
    && (nodes[r].parent.None? || nodes[r].parent.value !in nodes || nodes[nodes[r].parent.value].status != Trashed)
  }

  predicate IsExpiredRoot(nodes: map<NodeId, Node>, r: NodeId, cutoff: Time) {
    IsTrashRoot(nodes, r) && nodes[r].trashedAt.Some? && nodes[r].trashedAt.value <= cutoff
  }

  /** `order` is some order in which the engine may return the expired roots. */
  ghost predicate ListsExpiredRoots(nodes: map<NodeId, Node>, cutoff: Time, order: seq<NodeId>) {
    && (forall r :: r in order <==> IsExpiredRoot(nodes, r, cutoff))
    && (forall i, j :: 0 <= i < j < |order| ==> order[i] != order[j])
  }

  function VersionsOn(versions: map<VersionId, FileVersion>, ws: WsId, ns: set<NodeId>): set<VersionId> {
    set v | v in versions && versions[v].ws == ws && versions[v].node in ns
  }

  function KeysOf(versions: map<VersionId, FileVersion>, vs: set<VersionId>): set<StorageKey> {
    set v | v in vs && v in versions :: versions[v].key
  }

  function SessionsOn(sessions: map<SessionId, Session>, ws: WsId, ns: set<NodeId>): set<SessionId> {
    set s | s in sessions && sessions[s].ws == ws
         && ((sessions[s].node.Some? && sessions[s].node.value in ns)
             || (sessions[s].target.Some? && sessions[s].target.value in ns))
  }

  function JobsOn(jobs: map<JobId, Job>, items: map<ItemId, JobItem>, ws: WsId, ns: set<NodeId>): set<JobId> {
    set i | i in items && items[i].node in ns && items[i].job in jobs && jobs[items[i].job].ws == ws :: items[i].job
  }

  // Live references that keep a subtree and its objects.

  function LiveSharesOn(db: Db, ws: WsId, ns: set<NodeId>, now: Time): set<ShareId> {
    set s | s in db.shares && db.shares[s].ws == ws && db.shares[s].source in ns && ShareLive(db.shares[s], now)
  }

  function LiveShareItemsOver(db: Db, ws: WsId, keys: set<StorageKey>, now: Time): set<ItemId> {
    set i | i in db.shareItems && db.shareItems[i].key in keys && db.shareItems[i].share in db.shares
         && db.shares[db.shareItems[i].share].ws == ws && ShareLive(db.shares[db.shareItems[i].share], now)
  }

  function LiveJobItemsOn(db: Db, ws: WsId, ns: set<NodeId>, now: Time): set<ItemId> {
    set i | i in db.jobItems && db.jobItems[i].node in ns && db.jobItems[i].job in db.jobs
         && db.jobs[db.jobItems[i].job].ws == ws && JobLive(db.jobs[db.jobItems[i].job], now)
  }

  predicate Retained(db: Db, ws: WsId, ns: set<NodeId>, now: Time) {
    || LiveSharesOn(db, ws, ns, now) != {}
    || LiveShareItemsOver(db, ws, KeysOf(db.versions, VersionsOn(db.versions, ws, ns)), now) != {}
    || LiveJobItemsOn(db, ws, ns, now) != {}
  }

  /** Sizes still reserved by the open sessions of one workspace. */
  ghost function OpenSizes(sessions: map<SessionId, Session>, ws: WsId): map<SessionId, nat> {
    map s | s in sessions && sessions[s].ws == ws && Open(sessions[s]) :: sessions[s].size
  }

  ghost function OpenSizesBy(sessions: map<SessionId, Session>, k: MemberKey): map<SessionId, nat> {
    map s | s in sessions && sessions[s].ws == k.ws && sessions[s].createdBy == k.user && Open(sessions[s])
      :: sessions[s].size
  }

  ghost function Pick<K, V>(m: map<K, V>, ks: set<K>): map<K, V> {
    map k | k in m && k in ks :: m[k]
  }

  /** Workspace rows after the open ones among `closing` gave back their bytes. */
  ghost function LessReserved(rows: map<WsId, Workspace>, closing: map<SessionId, Session>): map<WsId, Workspace> {
    map w | w in rows :: rows[w].(reserved := Monus(rows[w].reserved, Sum(OpenSizes(closing, w))))
  }

  ghost function LessReservedBy(rows: map<MemberKey, Member>, closing: map<SessionId, Session>): map<MemberKey, Member> {
    map k | k in rows :: rows[k].(reserved := Monus(rows[k].reserved, Sum(OpenSizesBy(closing, k))))
  }

  ghost function VersionSizes(versions: map<VersionId, FileVersion>): map<VersionId, nat> {
    map v | v in versions :: versions[v].size
  }

  ghost function VersionSizesBy(versions: map<VersionId, FileVersion>, u: UserId): map<VersionId, nat> {
    map v | v in versions && versions[v].createdBy == u :: versions[v].size
  }

  /** Workspace rows after the bytes of `dropped` left the usage of `ws`. */
  ghost function LessUsed(rows: map<WsId, Workspace>, ws: WsId, dropped: map<VersionId, FileVersion>)
    : map<WsId, Workspace>
  {
    map w | w in rows ::
      if w == ws then rows[w].(used := Monus(rows[w].used, Sum(VersionSizes(dropped)))) else rows[w]
  }

  ghost function LessUsedBy(rows: map<MemberKey, Member>, ws: WsId, dropped: map<VersionId, FileVersion>)
    : map<MemberKey, Member>
  {
    map k | k in rows ::
      if k.ws == ws then rows[k].(used := Monus(rows[k].used, Sum(VersionSizesBy(dropped, k.user)))) else rows[k]
  }

  function EndedShares(shares: map<ShareId, Share>, ws: WsId, now: Time): set<ShareId> {
    set s | s in shares && shares[s].ws == ws && !ShareLive(shares[s], now)
  }

  function EndedSharesOf(shares: map<ShareId, Share>, ws: WsId, ns: set<NodeId>, now: Time): set<ShareId> {
    set s | s in EndedShares(shares, ws, now) && shares[s].source in ns
  }

  function KeptShareItems(items: map<ItemId, ShareItem>, shares: map<ShareId, Share>, ws: WsId, ns: set<NodeId>,
                          keys: set<StorageKey>, now: Time): map<ItemId, ShareItem> {
    map i | i in items && !(items[i].share in EndedShares(shares, ws, now) && items[i].key in keys)
         && items[i].share !in EndedSharesOf(shares, ws, ns, now) :: items[i]
  }

  function WithExpired(jobs: map<JobId, Job>, js: set<JobId>): map<JobId, Job> {
    map j | j in jobs :: if j in js then jobs[j].(status := JobExpired) else jobs[j]
  }

  function KeptJobItems(items: map<ItemId, JobItem>, js: set<JobId>): map<ItemId, JobItem> {
    map i | i in items && items[i].job !in js :: items[i]
  }

  function KeptNodes(nodes: map<NodeId, Node>, ws: WsId, ns: set<NodeId>): map<NodeId, Node> {
    nodes - set n | n in nodes && n in ns && nodes[n].ws == ws
  }

  /** The purge of one unretained subtree `ns` of workspace `ws`. */
  ghost function Purged(db: Db, ws: WsId, ns: set<NodeId>, now: Time): Db {
    var vs := VersionsOn(db.versions, ws, ns);
    var ss := SessionsOn(db.sessions, ws, ns);
    var js := JobsOn(db.jobs, db.jobItems, ws, ns);
    db.(
      nodes := KeptNodes(db.nodes, ws, ns),
      versions := db.versions - vs,
      sessions := db.sessions - ss,
      workspaces := LessUsed(LessReserved(db.workspaces, Pick(db.sessions, ss)), ws, Pick(db.versions, vs)),
      members := LessUsedBy(LessReservedBy(db.members, Pick(db.sessions, ss)), ws, Pick(db.versions, vs)),
      shares := db.shares - EndedSharesOf(db.shares, ws, ns, now),
      shareItems := KeptShareItems(db.shareItems, db.shares, ws, ns, KeysOf(db.versions, vs), now),
      jobs := WithExpired(db.jobs, js),
      jobItems := KeptJobItems(db.jobItems, js))
  }

  /** The rows one root stands for: its subtree, or itself when that is gone. */
  ghost function Scope(nodes: map<NodeId, Node>, ws: WsId, root: NodeId): set<NodeId> {
    var sub := Subtree(nodes, ws, root);
    if sub == {} then {root} else sub
  }

  ghost function PurgeRoot(db: Db, ws: WsId, root: NodeId, now: Time): Db {
    var ns := Scope(db.nodes, ws, root);
    if Retained(db, ws, ns, now) then db else Purged(db, ws, ns, now)
  }

  /** The purge loop over the root rows read at the start of the transaction. */
  ghost function PurgeRoots(db: Db, snapshot: map<NodeId, Node>, order: seq<NodeId>, now: Time): Db
    decreases |order|
  {
    if order == [] then db
    else
      var next := if order[0] in snapshot then PurgeRoot(db, snapshot[order[0]].ws, order[0], now) else db;
      PurgeRoots(next, snapshot, order[1..], now)
  }
}
