/** The rows of the tables that the node, upload, version, share and
    batch-download transactions work on, and the outcome of one transaction. */
module Tables {
  import opened Common
  import opened Forest
  import opened Chunks

  type NodeId = Id
  type WsId = nat
  type UserId = nat
  type VersionId = nat
  type SessionId = nat
  type ShareId = nat
  type JobId = nat
  type ItemId = nat
  type StorageKey = string
  type Time = int

  datatype Kind = Folder | File
  datatype NodeStatus = Active | Trashed

  datatype Node = Node(ws: WsId, parent: Option<NodeId>, name: string, kind: Kind,
                       activeVersion: Option<VersionId>, status: NodeStatus,
                       trashedAt: Option<Time>, updatedBy: UserId)

  datatype StorageClass = Blank | Standard | Archive | Glacier | Restoring

  datatype FileVersion = FileVersion(ws: WsId, node: NodeId, no: nat, key: StorageKey, class_: StorageClass,
                                     lastAccessed: Option<Time>, size: nat, createdBy: UserId, createdAt: Time)

  datatype SessionStatus = Initialized | Uploading | Completed | Expired

  datatype Session = Session(ws: WsId, node: Option<NodeId>, target: Option<NodeId>, base: Option<int>,
                             size: nat, totalChunks: nat, received: ChunkText, status: SessionStatus,
                             expiresAt: Time, createdBy: UserId)

  datatype Workspace = Workspace(quota: Option<int>, used: nat, reserved: nat)

  datatype Role = WorkspaceAdmin | PlainMember | UnknownRole
  datatype MemberKey = MemberKey(ws: WsId, user: UserId)
  datatype Member = Member(role: Role, quota: Option<int>, used: nat, reserved: nat)

  datatype ShareStatus = ShareActive | ShareRevoked | ShareExpired
  datatype Share = Share(ws: WsId, source: NodeId, expiresAt: Time, maxDownloads: Option<int>,
                         downloads: int, status: ShareStatus)
  datatype ShareItem = ShareItem(share: ShareId, key: StorageKey, class_: StorageClass, clean: bool)

  datatype JobStatus = Queued | Running | JobFailed | JobCompleted | JobExpired
  datatype Job = Job(ws: WsId, createdBy: UserId, status: JobStatus, expiresAt: Option<Time>)
  datatype JobItem = JobItem(job: JobId, node: NodeId, key: StorageKey, class_: StorageClass)

  /** Where a storage key was first issued. */
  datatype Origin = Origin(ws: WsId, node: NodeId)

  /** One state of the database. `nextNode` and `nextVersion` are the
      auto-increment counters; `origin` is a history of every storage key ever
      issued and is read by specifications only. */
  datatype Db = Db(nodes: map<NodeId, Node>, nextNode: NodeId,
                   versions: map<VersionId, FileVersion>, nextVersion: VersionId,
                   sessions: map<SessionId, Session>,
                   workspaces: map<WsId, Workspace>, members: map<MemberKey, Member>,
                   shares: map<ShareId, Share>, shareItems: map<ItemId, ShareItem>,
                   jobs: map<JobId, Job>, jobItems: map<ItemId, JobItem>,
                   origin: map<StorageKey, Origin>)

  const EMPTY := Db(map[], 1, map[], 1, map[], map[], map[], map[], map[], map[], map[], map[])

  datatype Error =
    | NotFound | NodeState | InvalidMove | DuplicatedKey
    | UploadNotFound | UploadState | UploadIncomplete | VersionConflict | BadChunks
    | QuotaExceeded | InvalidQuota | QuotaBelowUsage | InvalidRole | LastAdmin
    | ShareNotFound | RevokedShare | ExpiredShare | ShareLimit | ShareItemMissing | ShareUnsafe | RestoreRequired
    | BatchState | ArchiveCandidateChanged

  /** A transaction commits a new state, or fails and leaves the old one. */
  datatype Outcome = Done(db: Db) | Failed(error: Error) {
    function After(before: Db): Db {
      if Done? then db else before
    }
  }

  function ParentsOf(nodes: map<NodeId, Node>): Parents {
    map n | n in nodes :: nodes[n].parent
  }

  predicate Open(s: Session) {
    s.status != Completed && s.status != Expired
  }

  predicate ShareLive(s: Share, now: Time) {
    s.status == ShareActive && s.expiresAt > now && (s.maxDownloads.None? || s.downloads < s.maxDownloads.value)
  }

  predicate JobLive(j: Job, now: Time) {
    || j.status == Queued || j.status == Running || j.status == JobFailed
    || (j.status == JobCompleted && (j.expiresAt.None? || j.expiresAt.value > now))
  }

  predicate Standardish(c: StorageClass) {
    c == Blank || c == Standard
  }

  /** Version numbers in use at one node. */
  ghost function Numbers(versions: map<VersionId, FileVersion>, ws: WsId, n: NodeId): set<nat> {
    set v | v in versions && versions[v].ws == ws && versions[v].node == n :: versions[v].no
  }

  ghost function Largest(s: set<nat>): (k: nat)
    ensures s == {} ==> k == 0
    ensures s != {} ==> k in s
    ensures forall j :: j in s ==> j <= k
  {
    if s == {} then 0
    else
      var x :| x in s;
      var rest := Largest(s - {x});
      assert forall j :: j in s ==> j == x || j in s - {x};
      if s == {x} || rest < x then x else assert s - {x} != {}; rest
  }

  /** The highest version number of a node, 0 when it has none. */
  ghost function Latest(versions: map<VersionId, FileVersion>, ws: WsId, n: NodeId): nat {
    Largest(Numbers(versions, ws, n))
  }
}
