/** A concrete run that breaks the order of the trash: an upload opened into a
    folder is finalized after the folder went to the trash, and the next purge
    deletes the fresh, active file. */
module LateUpload {
  import opened Common
  import opened Forest
  import opened Chunks
  import opened Tables
  import opened NodeSteps
  import opened UploadSteps
  import opened Runs
  import opened TrashSafety

  const OWNER := map[MemberKey(1, 8) := Member(WorkspaceAdmin, None, 0, 0)]
  const FOLDER := Node(1, None, "inbox", Folder, None, Active, None, 9)
  const UPLOAD := Session(1, None, Some(1), None, 5, 1, Json([]), Initialized, 100, 9)
  const VERSION := FileVersion(1, 0, 0, "object", Standard, None, 5, 9, 20)
  const REPORT := Node(1, Some(1), "report", File, None, Active, None, 9)

  function RUN(): seq<Op> {
    [OpCreateWorkspace(1, 8, None), OpCreateNode(FOLDER), OpCreateSession(7, UPLOAD), OpMarkPart(7, 1, 9, 0),
     OpTrash(1, 1, 9, 10), OpFinalize(7, 1, 9, VERSION, REPORT)]
  }

  function Prepared(): Db {
    EMPTY.(workspaces := map[1 := Workspace(None, 0, 5)], members := OWNER, nodes := map[1 := FOLDER], nextNode := 2,
           sessions := map[7 := UPLOAD.(received := Json([0]), status := Uploading)])
  }

  const TRASHED := FOLDER.(status := Trashed, trashedAt := Some(10))

  function Broken(): Db {
    Prepared().(nodes := map[1 := TRASHED, 2 := REPORT.(activeVersion := Some(1))], nextNode := 3,
                workspaces := map[1 := Workspace(None, 5, 0)],
                versions := map[1 := Placed(VERSION, 1, 2, 1)], nextVersion := 2,
                sessions := map[7 := UPLOAD.(received := Json([0]), status := Completed)],
                origin := map["object" := Origin(1, 2)])
  }

  function WithWorkspace(): Db {
    EMPTY.(workspaces := map[1 := Workspace(None, 0, 0)], members := OWNER)
  }

  function WithFolder(): Db {
    WithWorkspace().(nodes := map[1 := FOLDER], nextNode := 2)
  }

  function WithSession(): Db {
    WithFolder().(workspaces := map[1 := Workspace(None, 0, 5)], sessions := map[7 := UPLOAD])
  }

  lemma UntilOpened()
    ensures Guard(EMPTY, RUN()[0]) && Step(EMPTY, RUN()[0]) == WithWorkspace()
    ensures Guard(WithWorkspace(), RUN()[1]) && Step(WithWorkspace(), RUN()[1]) == WithFolder()
    ensures Guard(WithFolder(), RUN()[2]) && Step(WithFolder(), RUN()[2]) == WithSession()
  {
  }

  lemma PartReceived()
    ensures Guard(WithSession(), RUN()[3])
    ensures Step(WithSession(), RUN()[3]) == Prepared()
  {
    SortedStays([]);
    SortedStays([0]);
    var none: seq<int> := [];
    assert none + [0] == [0];
    assert Marked([], 0) == [0];
  }

  lemma RunOpened()
    ensures IsRun(EMPTY, RUN()[..3]) && Final(EMPTY, RUN()[..3]) == WithSession()
  {
    var ops := RUN();
    UntilOpened();
    OneStep(EMPTY, WithWorkspace(), ops[0]);
    OneStep(WithWorkspace(), WithFolder(), ops[1]);
    OneStep(WithFolder(), WithSession(), ops[2]);
    RunJoin(EMPTY, [ops[0]], [ops[1]]);
    RunJoin(EMPTY, [ops[0]] + [ops[1]], [ops[2]]);
    assert [ops[0]] + [ops[1]] + [ops[2]] == ops[..3];
  }

  /** The upload is complete and its folder is active. */
  lemma UntilUploaded(rest: seq<Op>)
    requires IsRun(Prepared(), rest)
    ensures IsRun(EMPTY, RUN()[..4] + rest) && Final(EMPTY, RUN()[..4] + rest) == Final(Prepared(), rest)
  {
    var ops := RUN();
    RunOpened();
    PartReceived();
    OneStep(WithSession(), Prepared(), ops[3]);
    RunJoin(EMPTY, ops[..3], [ops[3]]);
    assert ops[..3] + [ops[3]] == ops[..4];
    RunJoin(EMPTY, ops[..4], rest);
  }

  function InTrash(): Db {
    Prepared().(nodes := map[1 := TRASHED])
  }

  lemma FolderTrashed()
    ensures Step(Prepared(), RUN()[4]) == InTrash()
  {
    var p := ParentsOf(Prepared().nodes);
    assert Up(p, 1, 0) == Some(1);
    assert Subtree(Prepared().nodes, 1, 1) == {1};
    var o := TrashSubtree(Prepared(), 1, 1, 9, 10);
    assert (set d | d in Subtree(Prepared().nodes, 1, 1) && Prepared().nodes[d].status == Active) == {1};
    assert o.db.nodes == map[1 := TRASHED];
  }

  lemma UploadFinalized()
    ensures Guard(InTrash(), RUN()[5]) && Step(InTrash(), RUN()[5]) == Broken()
  {
    UploadAllowed();
    UploadCommits();
  }

  lemma UploadAllowed()
    ensures Guard(InTrash(), RUN()[5])
  {
  }

  lemma UploadCommits()
    ensures Step(InTrash(), RUN()[5]) == Broken()
  {
    SortedStays([0]);
  }

  lemma TrashedThenFinalized()
    ensures IsRun(Prepared(), RUN()[4..]) && Final(Prepared(), RUN()[4..]) == Broken()
  {
    FolderTrashed();
    UploadFinalized();
    OneStep(Prepared(), InTrash(), RUN()[4]);
    OneStep(InTrash(), Broken(), RUN()[5]);
    RunJoin(Prepared(), [RUN()[4]], [RUN()[5]]);
    assert [RUN()[4]] + [RUN()[5]] == RUN()[4..];
  }

  lemma FolderIsBroken()
    ensures !TrashOk(Broken().nodes)
  {
    assert Broken().nodes[2].status == Active && Broken().nodes[1].status == Trashed;
  }

  /** The run is possible, and leaves an active file under a trashed folder. */
  lemma LateUploadBreaksTrash()
    ensures IsRun(EMPTY, RUN()) && Final(EMPTY, RUN()) == Broken()
    ensures !TrashOk(Broken().nodes)
  {
    TrashedThenFinalized();
    UntilUploaded(RUN()[4..]);
    assert RUN()[..4] + RUN()[4..] == RUN();
    FolderIsBroken();
  }

  lemma FolderScope()
    ensures Scope(Broken().nodes, 1, 1) == {1, 2} && !Retained(Broken(), 1, {1, 2}, 50)
  {
    var p := ParentsOf(Broken().nodes);
    assert Up(p, 1, 0) == Some(1);
    assert Up(p, 2, 1) == Up(p, 1, 0);
    assert Subtree(Broken().nodes, 1, 1) == {1, 2};
  }

  lemma FolderIsListed()
    ensures ListsExpiredRoots(Broken().nodes, 10, [1])
  {
    assert forall r :: r in [1] <==> r == 1;
  }

  lemma PurgeOne(db: Db, r: NodeId, now: Time)
    requires r in db.nodes
    ensures PurgeRoots(db, db.nodes, [r], now) == PurgeRoot(db, db.nodes[r].ws, r, now)
  {
    assert [r][1..] == [];
  }

  /** The next purge deletes that active file together with the folder. */
  lemma PurgeDeletesTheActiveFile()
    ensures Guard(Broken(), OpPurge(10, 50, [1]))
    ensures Broken().nodes[2].status == Active && 2 !in Step(Broken(), OpPurge(10, 50, [1])).nodes
  {
    FolderIsListed();
    FolderScope();
    PurgeOne(Broken(), 1, 50);
    assert 2 !in PurgeRoot(Broken(), 1, 1, 50).nodes;
  }
}
