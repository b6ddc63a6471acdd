# Verified model of the data layer

The server keeps its whole state in a handful of tables that transactions change,
and several of those tables say the same thing twice: `node_closures` repeats
`nodes.parent_id`, `reserved_bytes` repeats the open upload sessions, the stream
row repeats the end of the audit log. This project models the transactions of
`server/internal/dao` and proves that the repeated records stay in agreement in
every reachable state, and what follows from that agreement.

## How the model is built

Every transaction is one atomic step; a failed one leaves the state unchanged.
Whole transactions interleave in any order.

* `Tables`, `NodeSteps`, `UploadSteps`, `ObjectSteps` define the rows and what each
  transaction means, over plain parent links and without any index. They are the
  reference definition.
* `Store.Store` holds the tables as fields, closure table included, and carries out
  the statements the data layer issues: reads and set edits of `node_closures`, the
  purge loop over the roots, the two-row quota updates with their rollback. Every
  method is tied to its step by an equation on the whole state, together with the
  error it returns. `Valid()` says that the closure table is exact.
* `Runs` gathers the thirty transactions into one alphabet `Op`. `Guard` is what the
  handlers check, or the engine guarantees, before the transaction starts; `IsRun`
  and `Final` are runs of any length; `Inv` is the conjunction of the invariants
  (forest, sessions, quota, version numbering, object keys, storage class).
  `Safety.EveryReachableStateIsSafe` is the theorem over all runs.
* `TrashSafety`, `LateUpload`, `PurgeSafety`, `VersionSafety`, `SessionLife`,
  `MemberSafety`, `ShareLife`, `JobLife`, `ObjectSafety` and `ColdStorage` hold the
  properties that span several steps of a run.
* `DirectoryLaws`, `PurgeExtent`, `PurgeBytes`, `UploadLaws`, `MemberLedger` and
  `ObjectLaws` say of every transaction exactly when it commits and what it leaves, in
  terms of where rows hang, what their columns say and how sums move, without repeating
  the steps.
* `Acl` with `EffectiveRules`, which joins it to the runs above, `Audit` with
  `AuditBooks`, `AuditStore` and `AuditRebuild`, `Menu` with `MenuTree`, `Activity`,
  `Recent` and `Group` model the other parts. The audit store keeps, per stream, a
  book: the history of all events ever appended, the finished archives and the archive
  under way. The book is specification state only; `AllOk` says that the tables are
  the projection of the books.

Hashes are arbitrary functions in a record `Digests`. `Sound` asks that stored rows
come back in normal form and that digests are 64 characters long; `Injective` is a
hypothesis of the two theorems that need it. Clocks, generated ids, names of stored
objects and the order in which the engine lists rows without an ORDER BY are
parameters.

## What turned out not to hold

* An upload opened into a folder can be finalized after the folder went to the
  trash: `FinalizeSession` does not look at the target's status again. The result is
  an active file under a trashed folder, and the next purge deletes that active file
  (`LateUpload`). `TrashSafety.StepTrash` gives the exact condition: a transaction
  keeps the trash in order if and only if it does not create a node under a trashed
  parent.
* Paging of the activity list breaks when rows share a timestamp, because the
  queries break ties by numeric id and the merge by the text `audit:<id>`: with audit
  rows 9 and 10 of one time, pages of size one show row 10 twice and row 9 never
  (`Activity.NineAndTen`). `Activity.PagesAreSlices` gives the exact condition, and
  `Activity.DistinctTimesAgree` with `Activity.AgreeingOrdersInTime` the simple
  sufficient one; `Activity.InTimeByRows` says the exact one row by row.
* Moving a menu under any menu that is itself nested is refused, whether or not the
  move closes a cycle. The upward walk of `validateMenuParent` looks every ancestor up
  through the row variable it already holds, and the query builder (GORM, version
  1.31.2 in `server/go.mod`) adds the primary key of a filled row to the condition, so
  no row is found. `Menu.ValidateMenuParent` gives the exact condition of acceptance,
  `Menu.RefusalIsCycle` tells exactly when refusal and cycles coincide, and
  `Menu.NestedParentRefused` is the input.
* A version that was just restored may be archived at once, because it inherits the
  access time of its source: `ColdStorage.FreshRestoreIsArchived` is such a run, and
  `ColdStorage.RestoreNeedNotWarm` the exact condition.
* The expired mark that `ClaimDownload` writes for a late request is rolled back with
  the error it returns; the share stays active until the expiry sweep
  (`ShareLife.ClaimKeepsStatus`, with the run `ShareLife.LateClaimLeavesActive`).
* A member can exceed his quota: a membership starts with nothing reserved, so a user
  who joins, or leaves and joins again, while an upload of his is open finalizes it
  without a reservation (`MemberSafety.JoinThenOverrun`).
  `MemberSafety.StepWithinQuota` and `MemberSafety.WithinWhileNoneOverruns` give the
  exact condition for one transaction and for a run; `MemberLedger.StepKeepsBooks` and
  `MemberLedger.BookedWhileNoneJoinsLate` say when his reserved bytes are those of his
  open uploads.
* A rule for one level only cannot be stored. The column `inherit_to_children` is
  declared with the default true (`server/internal/model/node.go:66`), and the query
  builder (GORM, version 1.31.2) replaces a zero value by the declared default when it
  inserts, so a rule that says false is stored as inherited. The writers store a rule
  as given exactly when it inherits (`Acl.RuleTable.GrantPermission`,
  `Acl.RuleTable.ReplaceDirectPermissions`), over any run every stored rule inherits
  (`Acl.RunInherits`), and `Acl.ThisLevelOnly` is the input.
* Rebuilding an audit chain does not succeed from any row contents: the rows are
  updated one by one, and the unique index on stream and number, which every migration
  ends by creating, refuses a number that a later row still holds. Rows 1 and 2 with
  numbers 2 and 1 are such an input (`AuditRebuild.SwappedRowsBlocked`).
  `AuditStore.AuditStore.RebuildChain` gives the exact condition, and
  `AuditStore.ValidNeverBlocked` shows that rows written by appends meet it, after
  archiving too. Before the index exists the rebuild always commits.
* The list of recent nodes is not always in the order of the accesses: accesses with
  one stored time are ordered by row id, and a row keeps its id, so a node opened again
  in the same instant stays behind one that was added later (`Recent.SameMillisecond`;
  `Recent.TouchedNodes` gives the exact condition).

## Model

| member | source | states |
|---|---|---|
| Closure.CreateKeepsExact | server/internal/dao/node.go:59-96 | the two inserts of a create turn the exact closure table of a forest into the exact table of the grown forest, and meet no existing key |
| Closure.MoveKeepsExact | server/internal/dao/node.go:285-309 | delete plus supertree-by-subtree insert turn the exact table into the exact table, with exact depths, of the re-hung forest, and the insert meets no surviving key |
| Closure.DropKeepsExact | server/internal/dao/node.go:545-550 | removing every row that touches a downward-closed set of nodes leaves the exact table of the remaining forest |
| Closure.CountTestFindsCycles | server/internal/dao/node.go:268-282 | the count on (node, new parent) is positive exactly when the move would make the parent graph stop being a forest |
| Closure.ExactDecidesBelow | server/internal/dao/node.go:324-350 | reading descendants from an exact table selects exactly the rows at and below a node |
| Closure.MoveAwayAndBack | server/internal/dao/node.go:257-318 | moving a node away and back restores every closure row |
| Forest.MoveKeepsForest | server/internal/dao/node.go:268-282 | re-hanging keeps the forest if and only if the new parent is not below the node |
| Forest.CreateKeepsForest | server/internal/dao/node.go:59-96 | a fresh row keeps the forest if and only if its parent exists or is none |
| Store.Store.CreateNode | server/internal/dao/node.go:59-96 | commits the create step and keeps the closure table exact |
| Store.Store.Move | server/internal/dao/node.go:257-318 | decides cycles from the closure table alone, yet agrees in state and error with a step stated over parent links |
| Store.Store.TrashSubtree | server/internal/dao/node.go:324-350 | trashes exactly the active rows of the subtree as parent links define it, or fails with nothing changed |
| Store.Store.RestoreSubtree | server/internal/dao/node.go:356-402 | restores exactly the trashed rows of the subtree; all five refusals agree with the step |
| DirectoryLaws.CreatePlaces | server/internal/dao/node.go:59-96 | the new row stands one step below the parent it was given, with that parent's ancestors above it, and says what it was given; every other row is where it was |
| DirectoryLaws.MovePlaces | server/internal/dao/node.go:257-318 | a move commits exactly for an active row and a free place; then the target is its parent, every row below it has the ancestors it had up to it followed by those of the target, every row outside the subtree keeps its ancestors, and no other column changes but the editor |
| DirectoryLaws.MoveRefusals | server/internal/dao/node.go:257-282 | a refused move names the reason: in the trash exactly for a trashed row, invalid exactly when the target lies in the row's own subtree |
| DirectoryLaws.MoveThereAndBack | server/internal/dao/node.go:257-318 | the way back is open if and only if the old parent is none or still an active folder, and then both moves leave every row as it was but for the editor |
| DirectoryLaws.TrashReaches | server/internal/dao/node.go:324-350 | trashing commits exactly when the subtree has an active row; then every row at and below the node is trashed, with time and editor on those that were active, and all other rows are untouched |
| DirectoryLaws.RestoreReaches | server/internal/dao/node.go:356-402 | a restore commits exactly when the root is trashed, its place takes it and no active sibling has its name; then every row at and below it is active, and all other rows are untouched |
| DirectoryLaws.RestoreRefusals | server/internal/dao/node.go:356-387 | a refused restore names the reason: state, missing place, or taken name |
| DirectoryLaws.TrashThenRestore | server/internal/dao/node.go:320-402 | a wholly active subtree that was trashed can be restored if and only if its parent is none or active and its name is free, and then every row is as before but for the editor |
| DirectoryLaws.RunStamped | server/internal/dao/node.go:324-402 | over any run a row carries a trash time exactly while it is trashed |
| DirectoryLaws.RestoredIsFresh | server/internal/dao/node.go:388-392 | hence every row of a restored subtree is active without a trash time |
| Store.Store.PurgeRoot | server/internal/dao/node.go:460-565 | keeps a retained subtree whole, otherwise removes its rows, objects, sessions and ended holders and settles quota, and reports exactly what was lost |
| Store.Store.PurgeExpiredTrash | server/internal/dao/node.go:450-571 | the loop over any listing of the expired roots is the fold of single purges, keeps the closure table exact, returns exactly the lost versions, sessions and job archives, and takes the bytes of the returned versions out of each quota row |
| PurgeExtent.PurgeTakesExactly | server/internal/dao/node.go:450-571 | a purge removes exactly the rows below those roots that were trashed by the cutoff, hang under no trashed row and are held back by nothing, all judged in the state before it: the order of the roots does not matter |
| PurgeExtent.RetainedIsHeld | server/internal/dao/node.go:484-520 | a subtree is held back exactly when a live share is of a row in it, a live share item is over an object of it, or a live batch download lists a file of it |
| PurgeExtent.PurgeTakesVersions | server/internal/dao/node.go:532-536 | it drops exactly the versions of the rows it removes |
| PurgeExtent.PurgeTakesSessions | server/internal/dao/node.go:573-596 | it deletes exactly the uploads into the subtrees it removes, and changes no other session |
| PurgeExtent.ScopeDropsShares | server/internal/dao/node.go:621-642 | per subtree it deletes exactly the ended shares of its rows with all their items, and the items of other ended shares over its objects |
| PurgeExtent.PurgeSparesLive | server/internal/dao/node.go:450-571 | no purge takes a row or an item from a live share or a live batch download, and none comes to life |
| PurgeBytes.PurgeGivesBack | server/internal/dao/node.go:551-562 | over the whole purge every workspace and every member gives back exactly the bytes of its own dropped versions, floored at zero, and the reservations of its own dropped open sessions |
| PurgeBytes.OthersKeepUsage | server/internal/dao/node.go:551-562 | a workspace of which no version is dropped keeps its usage, and so do its members |
| Store.Store.PurgeNodeUploadSessions | server/internal/dao/node.go:573-596 | gives back, per workspace and member, the sum of the open sizes among the deleted sessions |
| JobLife.PurgeTakesWholeJobs | server/internal/dao/node.go:598-619 | the purge takes batch downloads whole: a job with an item on a purged node loses all its items and expires, every other job keeps its row and all items |
| Store.Store.PurgeNodeShares | server/internal/dao/node.go:621-642 | removes ended shares of the subtree and the items of ended shares over its objects, and nothing of a live share |
| Store.Store.ReserveQuota | server/internal/dao/upload.go:258-281 | the workspace row is charged first and stays charged when the member quota then refuses, so the caller has to roll back |
| Store.Store.CreateSession | server/internal/dao/upload.go:42-49 | commits session and both reservations, or restores both rows, also after the half-made reservation |
| UploadLaws.SessionOpens | server/internal/dao/upload.go:42-49 | a session opens exactly when its id is free and its size fits under both quotas; its size is then reserved on its workspace row and its member row, and nothing else changes |
| UploadLaws.SessionCloses | server/internal/dao/upload.go:69-136 | an open session of the user, and no other, is closed by cancel and by expiry alike, and both quota rows give its size back |
| SessionLife.CreateThenCancel | server/internal/dao/upload.go:117-136 | opening a session and cancelling it, or letting it expire, restores workspace row and member row exactly |
| SessionLife.ReleaseIsExact | server/internal/dao/upload.go:283-290 | in a valid state the release of an open session takes exactly its size off the workspace row, although the statement clamps at zero |
| SessionLife.FinalizeConserves | server/internal/dao/upload.go:292-305 | a committed finalize moves exactly the session's size from reserved to used bytes; their sum changes in no workspace |
| SessionLife.SettledOnce | server/internal/dao/upload.go:69-83 | once completed, expired or purged, a session is never settled again over any run: cancel and finalize are refused, expiry changes nothing |
| SessionLife.QuotasGovern | server/internal/dao/workspace.go:328-385 | each of the two quotas is accepted exactly when it covers used plus reserved bytes, and then the next session opens if and only if it fits under the quota of the workspace and, for a member, under his own |
| Store.Store.ExpireSessions | server/internal/dao/upload.go:138-159 | the one-by-one loop equals closing all stale sessions in one stroke, each quota row losing the sum of its own |
| UploadLaws.SweepCloses | server/internal/dao/upload.go:138-159 | the sweep closes exactly the open sessions past their time, and every quota row gives back the sum of its own |
| Store.Store.DecodeChunks | server/internal/dao/upload.go:307-322 | refuses malformed text and any negative index, otherwise the sorted list |
| Chunks.DecodeTells | server/internal/dao/upload.go:307-322 | an empty column is an empty list, malformed text and negative indices are errors, any other list keeps its indices and is sorted |
| Store.Store.ContainsInt | server/internal/dao/upload.go:324-331 | membership |
| Store.Store.MarkPartReceived | server/internal/dao/upload.go:85-115 | commits the step of one part and returns the list it stored |
| UploadLaws.PartIsMarked | server/internal/dao/upload.go:85-115 | a part is accepted exactly for an open session of the user; the stored list then holds that part besides those it held, in order and without repeat |
| Store.Store.FinalizeSession | server/internal/dao/upload.go:161-256 | overwrite and new-file branch, all refusals included, agree with the step, and the closure table stays exact for the new file |
| UploadLaws.FinalizeCommits | server/internal/dao/upload.go:161-208 | a finalize commits if and only if the session is open and the user's, every part has arrived, and its file, if it has one, is active with the base as its highest version |
| UploadLaws.FinalizeRefusals | server/internal/dao/upload.go:161-208 | a refused finalize names the reason: incomplete exactly while a part is missing, conflict exactly when the file is there but has moved on |
| UploadLaws.FinalizeSettles | server/internal/dao/upload.go:292-305 | it completes the session and moves its size from reserved to used on both quota rows, and on no other |
| UploadLaws.OverwriteStores | server/internal/dao/upload.go:181-208 | an overwrite adds the version brought along, column by column, one above the highest number, and makes it the active one of the same file |
| UploadLaws.NewFileStores | server/internal/dao/upload.go:215-250 | a new file gets that version as number 1 and stands one step below the parent it was given |
| Store.Store.RestoreVersion | server/internal/dao/file.go:237-273 | copies the chosen version, over the same object, one above the highest number and makes it active |
| ObjectLaws.VersionReturns | server/internal/dao/file.go:237-250 | a version is restored exactly while its file is active and has a version of that number |
| ObjectLaws.VersionCopied | server/internal/dao/file.go:250-273 | the new version is over the same object with the same size, class and last access, one above all numbers, and active; the old one stays |
| MemberSafety.LastAdminStays | server/internal/dao/workspace.go:528-578 | an administrator is refused to leave or step down exactly when he is the only one |
| MemberLedger.MemberIsWritten | server/internal/dao/workspace.go:174-265 | a membership is written exactly when the role is known, the quota covers used plus reserved, and an administrator remains; a known member keeps his bytes and a new one starts with none |
| MemberLedger.MemberIsRemoved | server/internal/dao/workspace.go:528-578 | a member leaves exactly when he is not the only administrator |
| MemberLedger.WorkspaceIsCreated | server/internal/dao/workspace.go:54-78 | a new workspace is empty, with the given quota, and its owner is its administrator without a quota |
| MemberSafety.AdminsRemain | server/internal/dao/workspace.go:174-265 | a workspace that has an administrator has one after any sequence of any transactions |
| MemberSafety.EveryWorkspaceHasAdmin | server/internal/dao/workspace.go:54-78 | after any run of any transactions from the empty database every workspace has an administrator |
| MemberSafety.StepWithinQuota | server/internal/dao/upload.go:292-305 | a transaction keeps a member within his quota if and only if it does not finalize an upload whose bytes his row never reserved and that no longer fits |
| MemberSafety.WithinWhileNoneOverruns | server/internal/dao/upload.go:292-305 | over a run a member is within his quota in every state if and only if no transaction is such a finalize |
| MemberLedger.StepKeepsBooks | server/internal/dao/upload.go:258-305 | a transaction keeps the reserved bytes of a member equal to the sizes of his open uploads if and only if it does not let him join while one of them is open |
| MemberLedger.BookedWhileNoneJoinsLate | server/internal/dao/upload.go:258-305 | over any run they are equal throughout if and only if he never joins so |
| MemberSafety.JoinThenOverrun | server/internal/dao/workspace.go:189-199 | a run in which a user joins with a quota of one byte while an upload of five bytes is open, and ends with five bytes used |
| Store.Store.CompleteArchive | server/internal/dao/archive.go:55-99 | rechecks row by row, then relabels versions, share items and batch items of that workspace, or changes nothing |
| ObjectLaws.ArchiveCommits | server/internal/dao/archive.go:55-80 | an object is archived exactly when the workspace still has it in standard storage and no such version was used after the cutoff |
| ObjectLaws.ArchiveReachesAll | server/internal/dao/archive.go:80-99 | in a valid state it is then archived wherever it is named, in versions, share items and batch items, and no other object is touched |
| Store.Store.ExpireShares | server/internal/dao/share.go:182-199 | expires and returns exactly the active shares past their time |
| ObjectLaws.SharesAreSwept | server/internal/dao/share.go:182-199 | the sweep expires exactly the active shares past their time |
| ObjectLaws.ShareIsRevoked | server/internal/dao/share.go:166-180 | exactly an active share of the workspace can be revoked, and no claim on it succeeds afterwards |
| Store.Store.ClaimDownload | server/internal/dao/share.go:210-260 | takes one download slot or refuses in the order of the checks, telling revoked from expired, with nothing changed; the mark written on the late path is undone |
| ObjectLaws.DownloadIsClaimed | server/internal/dao/share.go:210-260 | a download is granted exactly when a live share serves a clean item of its own that is not in cold storage; it takes one slot and changes nothing else |
| ObjectLaws.ClaimRefusals | server/internal/dao/share.go:210-260 | each refusal is given exactly for its reason, in the order of the checks |
| ShareLife.ShareSteps | server/internal/dao/share.go:166-260 | whatever transaction runs, a share row is purged or changes along the four moves revoke, expire, claim, none |
| ShareLife.EndedForever | server/internal/dao/share.go:166-180 | a share once revoked or expired serves no download after any run |
| ShareLife.LimitHolds | server/internal/dao/share.go:207-260 | over any run a share with a limit serves no more downloads than were left of it, and its counter tells how many it served |
| ShareLife.ClaimKeepsStatus | server/internal/dao/share.go:227-230 | no claim changes the status of any share, and a late one changes nothing at all |
| ShareLife.LateClaimLeavesActive | server/internal/dao/share.go:227-230 | a run whose late claim is refused as expired and leaves the share active |
| ShareLife.SweepMakesStatusLiveness | server/internal/dao/share.go:182-199 | after the sweep a share is live exactly when it is active and has downloads left, and the sweep ended no live share |
| ShareLife.ShareRetains | server/internal/dao/share.go:53-70 | a live new share keeps the purge from its source and from every subtree with a version of one of its objects |
| JobLife.JobSteps | server/internal/dao/batch_download.go:78-161 | whatever transaction runs, a job row stays and changes along the moves claim, complete, fail, the owner's retry, restart, expiry and purge only |
| ObjectLaws.JobAdvances | server/internal/dao/batch_download.go:78-112 | exactly a queued job is taken up, exactly a running one completes or fails, with its result time stored and no other job changed |
| ObjectLaws.JobIsRetried | server/internal/dao/batch_download.go:114-129 | exactly the owner queues a failed job again |
| ObjectLaws.JobsAreSwept | server/internal/dao/batch_download.go:131-161 | a restart queues exactly the running jobs, the sweep expires exactly the completed ones past their time |
| JobLife.ClaimedOnce | server/internal/dao/batch_download.go:78-83 | after a claim no later claim finds the job, over any run without a restart and without its retry |
| JobLife.CompletedForever | server/internal/dao/batch_download.go:91-105 | a completed job keeps its result over any run until it expires; it is never claimed, failed, retried or completed again |
| JobLife.ExpiredForever | server/internal/dao/batch_download.go:146-161 | an expired job stays expired over any run |
| JobLife.RetryAfterFail | server/internal/dao/batch_download.go:107-129 | retry undoes a failure for the owner only, and the next claim finds the job as it was |
| JobLife.RestartRequeues | server/internal/dao/batch_download.go:131-136 | after a restart nothing is running, exactly the queued and running jobs can be claimed, liveness is unchanged, and a second restart changes nothing |
| JobLife.SweepMakesStatusLiveness | server/internal/dao/batch_download.go:146-161 | after the sweep the status tells whether a job still holds objects, and no job's liveness changed |
| JobLife.JobRetains | server/internal/dao/batch_download.go:35-45 | a live new job keeps the purge from every subtree that holds one of its files |
| Safety.StepKeeps | server/internal/dao/upload.go:161-256 | every one of the thirty transactions, committed or rolled back, keeps forest, sessions, quota, numbering, object keys and storage classes |
| Safety.EveryReachableStateIsSafe | server/internal/dao/node.go:450-571 | all those invariants hold after any run of any transactions from the empty database; in particular reserved bytes are the sum of the open sizes and used plus reserved stays within a set quota |
| UploadSafety.ClampNeverFires | server/internal/dao/upload.go:283-305 | while a session is open its size is still inside reserved_bytes, so the clamp at zero never changes a result |
| UploadSafety.DecodeKept | server/internal/dao/upload.go:307-322 | decoding a list that the invariant covers succeeds and returns it unchanged |
| SessionLife.ClosedSessionsStay | server/internal/dao/upload.go:69-83 | whatever transaction follows, a completed or expired session keeps its row or is purged: no reservation is settled twice |
| Chunks.MarkedKeeps | server/internal/dao/upload.go:85-115 | marking keeps the list strictly increasing and adds exactly that part |
| Chunks.FullWhenLong | server/internal/dao/upload.go:173-179 | a strictly increasing list of indices below n has at most n entries, and n entries if and only if all are there |
| Chunks.LengthTestIsCompleteness | server/internal/dao/upload.go:173-179 | for parts in any order with any repeats, the bare length test holds exactly when every part arrived |
| VersionSafety.VersionsAreNumbered | server/internal/dao/upload.go:181-208 | version numbers of a file are exactly 1..n, each once, and the active version carries n |
| VersionSafety.CommitMakesBaseStale | server/internal/dao/upload.go:181-208 | a committed overwrite had the current number as its base and leaves that base stale |
| VersionSafety.StaleForever | server/internal/dao/upload.go:181-208 | a base once below the highest number stays stale over every run, also past restores and purges |
| VersionSafety.AtMostOneOverwriteCommits | server/internal/dao/upload.go:181-208 | after one overwrite session commits, no other session on that node with that base ever does, whatever runs in between |
| TrashSafety.StepTrash | server/internal/dao/node.go:320-402 | a transaction keeps every parent of an active node active if and only if it creates no node under a trashed parent |
| TrashSafety.TidyRunsKeepTrashOk | server/internal/dao/node.go:320-402 | hence over every run without such a creation |
| TrashSafety.SubtreeOfTrash | server/internal/dao/node.go:432-439 | everything below a trashed node is trashed |
| TrashSafety.TrashRootsDisjoint | server/internal/dao/node.go:432-439 | two trash roots share no row |
| TrashSafety.PurgeRemovesOnlyTrash | server/internal/dao/node.go:450-571 | a purge removes trashed rows only |
| TrashSafety.PurgeIsClean | server/internal/dao/node.go:450-571 | a purge keeps every active row and leaves no survivor whose parent is gone |
| LateUpload.LateUploadBreaksTrash | server/internal/dao/upload.go:215-250 | a possible run from the empty database that ends with an active file under a trashed folder |
| LateUpload.PurgeDeletesTheActiveFile | server/internal/dao/node.go:450-571 | the purge that may follow deletes that active file |
| PurgeSafety.PurgeKills | server/internal/dao/node.go:461-550 | the objects of an unretained subtree have no version and no live holder, in any workspace, once it is purged |
| PurgeSafety.DeadForever | server/internal/dao/share.go:166-260 | no run of transactions gives a dead object a version or a live holder again |
| PurgeSafety.PurgeIsFinal | server/internal/dao/node.go:450-571 | every object a purge hands to the storage cleaner is unreferenced then and after any later run at any later time |
| ObjectSafety.ArchiveCoversTheKey | server/internal/dao/archive.go:55-99 | reading only standard rows covers every version of the key: it is archived if and only if it has a version, none is archived yet, and all are cold, and then all are archived |
| ColdStorage.RestoreNeedNotWarm | server/internal/dao/file.go:252-262 | right after a restore the object is archived if and only if it was archivable before and its source had been accessed or the restore is itself old enough |
| ColdStorage.FreshRestoreIsArchived | server/internal/dao/archive.go:55-99 | a run from the empty database that archives, with cutoff 50, a version restored at time 100 |
| ColdStorage.TouchKeepsWarm | server/internal/dao/file.go:74-76 | a touched object is archived exactly when the touch is old enough; the decision about other objects is unchanged |
| Acl.QueriesAreTheWalk | server/internal/dao/acl.go:200-229 | over an exact closure table, the join cut at the minimal break depth is the upward walk that stops at the first break |
| Acl.SingleNodeListsTheWalk | server/internal/dao/acl.go:200-229 | any listing of that query is the walk as a multiset, in nondecreasing depth, and lists the rules in force field by field |
| Acl.ListingShowsRules | server/internal/dao/acl.go:200-229 | a listing of the walk has exactly one entry per rule in force, with its subject, effect and level and the number of parent steps to its node; in force are the user's own rules and those of his groups, inherited unless at the node itself, with no break below them |
| Acl.GrantIsListed | server/internal/dao/acl.go:58-78 | a granted rule is listed, at every node it reaches, with the effect and level it was granted with |
| Acl.BreakDepthMap | server/internal/dao/acl.go:283-299 | the loop turns the grouped rows into the least break depth per node |
| Acl.Collect | server/internal/dao/acl.go:300-324 | the loop keeps, per node and in order, the rows at or below the node's break depth |
| Acl.ListEffectiveEntriesForNodes | server/internal/dao/acl.go:276-324 | for each requested node the same multiset as the walk, by nondecreasing depth, with exactly one entry per rule in force that says what the rule says; nothing for others |
| Acl.WritesAreLocal | server/internal/dao/acl.go:58-159 | changing the rules of one node leaves the effective rules of every node outside its subtree unchanged |
| Acl.RuleTable.GrantPermission | server/internal/dao/acl.go:58-78 | stores the rule of one subject at one node as inherited by children whatever it says, so as given exactly when it inherits; the rest unchanged, and the tokens of exactly the users of the workspace renewed |
| Acl.RuleTable.RevokePermission | server/internal/dao/acl.go:84-100 | removes it, the rest unchanged, and renews the same tokens |
| Acl.RuleTable.ReplaceDirectPermissions | server/internal/dao/acl.go:120-159 | commits if and only if no subject is repeated, and then the node ends with one inherited rule per given one and no other; it ends with exactly the given rules if and only if subjects are distinct and every rule inherits |
| Acl.RunInherits | server/internal/model/node.go:66 | after any run of the three writers every stored rule is inherited by children, whatever the callers asked for |
| Acl.FilterNeverCuts | server/internal/dao/acl.go:216 | then the filter on depth and inherit_to_children takes every rule of a node at every depth |
| Acl.GrantReachesBelow | server/internal/dao/acl.go:58-78 | a granted rule, also one given for its own level only, applies to a node if and only if the node is at or below it and no break separates them |
| Acl.ThisLevelOnly | server/internal/model/node.go:66 | a rule for one folder alone that is in force for the folder's child |
| EffectiveRules.RulesAfterRun | server/internal/dao/acl.go:200-229 | after any run of any transactions from the empty database the walk ends and the query over the exact closure table is that walk, whatever rules are stored and wherever inheritance breaks |
| EffectiveRules.RulesInStore | server/internal/dao/acl.go:200-229 | the same over the closure table that the store itself maintains, between any two of its methods |
| Audit.VerifyArchives | server/internal/dao/operation_log.go:270-307 | the archive loop accepts exactly the archives that follow each other without gap from number 1 with linked digests |
| Audit.ArchivesTile | server/internal/dao/operation_log.go:270-307 | accepted archives hold every number up to the last exactly once, and each is linked to the one before it |
| Audit.SealBinds | server/internal/dao/operation_log.go:286-292 | with an injective seal no sealed column of a valid archive row can be changed |
| Audit.VerifyRows | server/internal/dao/operation_log.go:309-334 | the row loop accepts exactly the hash chains from the anchor on, and names the first break |
| Audit.VerifySnapshot | server/internal/dao/operation_log.go:267-354 | the verdict is valid exactly for intact records, with the right counts |
| Audit.ValidateAuditArchiveEvents | server/internal/dao/audit_archive.go:203-238 | accepts exactly the events that fit the archive row |
| Audit.VerificationDeterminesTheLog | server/internal/dao/operation_log.go:309-343 | with an injective digest, two hot logs that verify against the same archives and stream row agree in length and in stream, number, workspace, actor, user, name, columns, details, time and digests of every row |
| AuditBooks.StoredIsLinked | server/internal/dao/operation_log.go:101-155 | the row an append stores continues the chain and keeps its digest after it is read back |
| AuditBooks.StoredRecords | server/internal/dao/operation_log.go:101-155 | the row stored for an event has its user, name, columns, workspace and details as given, its actor type as given or as the user implies, its time cut to the millisecond or the clock's, and the next place in its stream |
| AuditBooks.DigestTellsEvents | server/internal/dao/operation_log.go:363-431 | with an injective digest two events appended at one place leave the same digest if and only if they say the same in all of these |
| AuditBooks.BookIsIntact | server/internal/dao/operation_log.go:267-354 | in every valid state each stream's record is intact, and archived plus hot events are its whole history |
| AuditBooks.BuildDecides | server/internal/dao/audit_archive.go:108-155 | the check of a new archive passes exactly when its rows are the next ones of the stream without a gap |
| AuditStore.AppendKeeps | server/internal/dao/operation_log.go:101-155 | appending to one stream keeps every stream in agreement with its history |
| AuditStore.AuditStore.LockAuditStream | server/internal/dao/operation_log.go:157-170 | returns the next number and last digest of the history, creating the row when missing |
| AuditStore.AuditStore.Append | server/internal/dao/operation_log.go:101-155 | accepts exactly the classified events and extends the history of one stream by the completed event, one row that records what was given; a refused one changes nothing, not even the stream row |
| AuditStore.AuditStore.BuildAndCreate | server/internal/dao/audit_archive.go:108-155 | queues an archive that starts at the first hot row and takes the oldest rows below the cutoff, at most the limit and no fewer than there are, or refuses for exactly the stated reason |
| AuditStore.AuditStore.Claim | server/internal/dao/audit_archive.go:65-70 | starts a queued or failed archive with fewer than ten failures; histories unchanged |
| AuditStore.AuditStore.Fail | server/internal/dao/audit_archive.go:85-96 | a running archive fails and counts it; histories unchanged |
| AuditStore.AuditStore.RequeueInterrupted | server/internal/dao/audit_archive.go:48-52 | exactly the running archives are queued again; histories unchanged |
| AuditStore.AuditStore.LoadEvents | server/internal/dao/audit_archive.go:157-162 | loads exactly the first hot rows the archive was built from |
| AuditStore.AuditStore.Finalize | server/internal/dao/audit_archive.go:164-201 | marks the archive completed and verified with the given object hash and deletes exactly its rows, keeping every stream in agreement with its history, or changes nothing |
| AuditStore.FinalizeNeverFails | server/internal/dao/audit_archive.go:164-201 | in every valid state all checks of Finalize pass for a running archive, appends in between included |
| AuditStore.AuditStore.VerifyChain | server/internal/dao/operation_log.go:257-354 | after any run of the other operations the verdict is valid, and archived plus hot count is NextSeq - 1 |
| AuditStore.AuditStore.RebuildChain | server/internal/dao/operation_log.go:544-581 | commits, once the index on stream and number exists, if and only if no row's new number is held by a later row of the workspace or by a row of another one; always before the index exists; then every row is relinked in id order, others untouched; a rebuild that does not commit changes nothing |
| AuditRebuild.ClashIsBlocked | server/internal/dao/operation_log.go:556-570 | when the loop reaches a row, its new number is taken in the half-rebuilt table if and only if a later row or a row of another workspace held it from the start |
| AuditRebuild.SwappedRowsBlocked | server/internal/dao/operation_log.go:617-621 | two rows that the index allows and at which the rebuild fails: row 1 with number 2, row 2 with number 1 |
| AuditStore.ValidNeverBlocked | server/internal/dao/operation_log.go:544-581 | in every valid state, after archiving too, the rebuild meets no taken number |
| AuditRebuild.RebuiltIsChain | server/internal/dao/operation_log.go:544-581 | the relinked rows are a chain over the same contents, whatever they held |
| AuditRebuild.RebuiltActors | server/internal/dao/operation_log.go:558-563 | a row without a number or actor type gets the type its user implies, every other row keeps its own |
| AuditRebuild.RebuildMakesValid | server/internal/dao/operation_log.go:544-581 | without completed archives, verification of the tables after a rebuild that commits succeeds whatever the rows held before |
| AuditStore.AuditStore.RebuildThenVerify | server/internal/dao/operation_log.go:544-581 | rebuild, then verify, with nothing archived: valid with the right counts when the rebuild commits, as it always does before the index exists; otherwise nothing changed |
| AuditRebuild.HashNeedsTime | server/internal/dao/operation_log.go:363-431 | a row's digest is the same at two times if and only if the row has a time or both lie in one millisecond |
| AuditRebuild.RebuildKeepsChains | server/internal/dao/operation_log.go:544-581 | rebuilding a chain changes no row |
| AuditStore.RebuildIsIdle | server/internal/dao/operation_log.go:544-581 | on a stream written by appends, with nothing archived, it changes no number and no digest and keeps every stream in order |
| Menu.ValidateMenuParent | server/internal/dao/menu.go:485-512 | accepts exactly a top-level place, or a parent that exists, is no button, is not the menu itself and, when an existing menu is moved, stands on the top level |
| Menu.WalkUp | server/internal/dao/menu.go:501-511 | the upward walk ends, and finds no row behind its first step, because its lookups reuse the row they hold |
| Menu.AcceptedKeepsForest | server/internal/dao/menu.go:269-307 | every accepted move keeps the menus a forest |
| Menu.RefusalIsCycle | server/internal/dao/menu.go:485-512 | for an existing parent that is no button, refusing and closing a cycle coincide if and only if the parent stands on the top level or lies below the menu |
| Menu.NestedParentRefused | server/internal/dao/menu.go:501-511 | three menus for which a move that closes no cycle is refused |
| Menu.BuiltinsParentsFirst | server/internal/dao/menu.go:45-67 | the built-in list defines every parent before its children, under distinct codes |
| Menu.MenuTable.Create | server/internal/dao/menu.go:245-263 | accepts exactly allowed parents with a new code, and keeps the forest |
| Menu.MenuTable.Update | server/internal/dao/menu.go:269-307 | replaces all but the code exactly when the new parent is accepted, and keeps the forest |
| Menu.MenuTable.Delete | server/internal/dao/menu.go:313-343 | removes exactly childless menus, and keeps the forest |
| Menu.MenuTable.EnsureBuiltinMenus | server/internal/dao/menu.go:93-137 | from any forest, also one where built-ins were re-hung: ends with every definition stored with its columns under the menu of its own parent code, or on the top level without one, other rows unchanged, still a forest |
| MenuTree.ClosureIsLeast | server/internal/dao/menu.go:416-450 | the parent closure is the least superset closed under showable parents |
| MenuTree.EnsureMenuParents | server/internal/dao/menu.go:416-450 | the fixpoint loop ends at exactly that closure, sorted for display |
| MenuTree.TreeHolds | server/internal/dao/menu.go:405-414 | the tree under a menu holds each of its descendants exactly once and nothing else |
| MenuTree.TreeInOrder | server/internal/dao/menu.go:405-414 | siblings stand in display order on every level |
| MenuTree.TreeNests | server/internal/dao/menu.go:405-414 | every menu of the tree shows its row and stands right under its own parent |
| MenuTree.WhoMayOpen | server/internal/dao/menu.go:452-483 | who may open a shown menu, by section, permission, super administrator and workspace |
| MenuTree.Filter | server/internal/dao/menu.go:151-177 | keeps exactly the menus the user may open |
| MenuTree.ListTreeForAccess | server/internal/dao/menu.go:151-177 | a menu occurs in the tree, once and under its own parent, if and only if it lies on the way from a menu the user may open up to the top level on which every row exists and may be shown |
| Activity.ListActivity | server/internal/dao/comment.go:214-299 | limited queries, merge, sort and slice give the page: rows of the two tables, each once, newest first; it is the slice of the full merged list when rows are in time |
| Activity.PagesAreSlices | server/internal/dao/comment.go:214-299 | every page of every size is the right slice if and only if no row stands further down its table than in the merged list |
| Activity.PageByRank | server/internal/dao/comment.go:214-299 | with rows in time a page shows exactly the rows with as many rows ahead of them as the pages before it hold, but fewer than the pages up to it |
| Activity.InTimeByRows | server/internal/dao/comment.go:214-299 | that condition, row by row: each has in both tables together at least as many rows ahead of it in the merge as it has in its own table |
| Activity.DistinctTimesAgree | server/internal/dao/comment.go:233-262 | with distinct timestamps the order of the query is the order of the merge |
| Activity.AgreeingOrdersInTime | server/internal/dao/comment.go:214-299 | two tables in merge order are in time |
| Activity.OneTableInTime | server/internal/dao/comment.go:214-299 | for one table alone that condition is exact |
| Activity.NineAndTen | server/internal/dao/comment.go:214-299 | two rows of one time for which a row is shown twice and the other never |
| Activity.PagesJoin | server/internal/dao/comment.go:214-299 | the first n pages joined are the first n * size rows of the merged list, without gap or repeat |
| Recent.RecentTable.ListRecentNodes | server/internal/dao/collaboration.go:104-113 | lists exactly the active ones among the kept rows, newest first, ties by row id |
| Recent.RecentTable.TouchRecent | server/internal/dao/collaboration.go:73-102 | after any sequence of accesses at any times each owner's rows are ordered by access time and row id, at most a hundred, with other owners undisturbed; they are the last hundred distinct nodes of the access history as long as no access of the owner was overtaken |
| Recent.TouchedNodes | server/internal/dao/collaboration.go:73-102 | an access on a list that is the bounded distinct history leaves the bounded distinct history if and only if no other row stays in front of the row written |
| Recent.SameMillisecond | server/internal/dao/collaboration.go:92 | three accesses at one stored time after which the node opened last stands second |
| Recent.TouchIsDistinct | server/internal/dao/collaboration.go:73-102 | an access on the bounded list is the bound of an access on the whole history |
| Recent.CutThenTakeOut | server/internal/dao/collaboration.go:88-100 | cutting to n before taking one element out loses nothing that n - 1 places would keep |
| Group.UniqueIds | server/internal/dao/group.go:238-244 | the strictly increasing list of the same ids |
| Group.ChangedMembershipUserIds | server/internal/dao/group.go:246-276 | the strictly increasing list of exactly the symmetric difference |
| Group.GroupTable.ReplaceGroupMembers | server/internal/dao/group.go:151-192 | the group ends with exactly the requested users, auth versions rise by one for exactly the changed ones, and changed is true exactly when there is one |

## Left out

- Transactions that overlap in time: each transaction is atomic here, so isolation levels, locks and lost updates are not captured.
- 64-bit overflow of byte counts, sequence numbers and counters: numbers are unbounded.
- Preconditions of callers: `Guard` states what server/internal/handler/upload.go and server/internal/handler/node.go check before the transaction (parent of a new node and target of a session in the same workspace, part numbers below the chunk count, folders created empty and active without a trash time, uploads finalized as standard objects under a fresh key); the handlers themselves are not modelled. Creation of share and batch items from stored versions is a precondition too.
- Audit events, snapshots and change-log rows, and start times and progress counters of jobs, written beside a transaction, notification outbox, audit export, scan status and scan retry: they do not affect the modelled tables.
- Comments, favourites, recents and rules of a node that are deleted together with it by a purge.
- Node columns without influence on the modelled rules (mime type, normalised name beside the name, inherit mode inside `Tables`), rename, search and listings.
- The rules, group memberships, roles and tokens that UpsertMember and RemoveMember revoke or renew for the user beside his membership row.
- EnsureMember, user and role administration, LDAP groups other than their membership lists, group deletion.
- Sibling-name uniqueness after a restore, usage as the sum of version sizes, tail detection on an empty record, and a rebuild after archiving: the code does not give these, so they are not claimed.
- JSON, sanitizing and SHA-256: functions of `Digests` under the hypotheses `Sound` and, in two theorems, `Injective`. The columns category, severity, result and reason are part of an event's body.
- Audit.VerificationDeterminesTheLog: needs at least one verified event, because the tail is compared only then.
- AuditStore.AuditStore.Append: event times are zero or at least one millisecond, as zero marks an unset time; the defaults for category, severity, result and reason are taken to be filled in already, and which of their codes are known is the parameter `Digests.classified`.
- AuditRebuild.RebuildMakesValid: `HashOf` is the digest of a row that has a time; a row without one is hashed with the clock, and AuditRebuild.HashNeedsTime says when that matters.
- AuditStore.AuditStore.RebuildChain: whether the unique index exists is a parameter, as a migration may rebuild before it creates that index; it does not promise agreement with the history, because it restarts at number 1 even when archives exist; AuditStore.RebuildIsIdle and AuditRebuild.RebuildMakesValid cover the streams without archives.
- Acl.ListEffectiveEntriesForNodes: the rows of the two grouped queries are parameters, constrained to be some answer the engine may give in the requested order; ListEffectiveSources is not modelled.
- Store.Store.PurgeExpiredTrash: the order of the roots is a parameter, any order the engine may return.
- Menu.MenuTable.EnsureBuiltinMenus: the fallback lookup of a parent code in the table is left out, because the built-in list always defines parents first; menu names, paths, icons and the permission table are left out as well. The id that the engine reports for an upserted row is taken to be that row's id.
- Activity.ListActivity: actor names and record texts are not modelled, only source, id and time.
- Acl.RuleTable.ReplaceDirectPermissions: the insert also sets the flag in the caller's list of rules; the model works on values.
- Column defaults other than that of inherit_to_children: an empty status, effect or role would be stored as its default, here each is one of its named values from the start; a blank storage class that an insert copies would be stored as standard, here it stays blank, and every check treats the two alike.
- Group.UniqueIds: the original sorts its argument in place, so the caller's list changes order too; the model works on values.
- Values instead of rows in memory: tables are maps and lists are sequences held in fields, so sharing of one row between two variables is not captured.
