/** Share, batch-download and cold-storage transactions keep every invariant. */
module ObjectSafety {
  import opened Common
  import opened Tables
  import opened ObjectSteps
  import opened Runs
  import opened Frames

  /** Only status-like columns of share and job rows changed. */
  ghost predicate HoldersOnly(db: Db, db': Db) {
    && db' == db.(shares := db'.shares, jobs := db'.jobs)
    && db'.shares.Keys == db.shares.Keys
    && (forall s :: s in db.shares ==> db'.shares[s].ws == db.shares[s].ws)
    && db'.jobs.Keys == db.jobs.Keys
    && (forall j :: j in db.jobs ==> db'.jobs[j].ws == db.jobs[j].ws)
  }

  lemma HoldersKeep(db: Db, db': Db)
    requires Inv(db) && HoldersOnly(db, db')
    ensures Inv(db')
  {
    TreeFrame(db, db');
    SessionsFrame(db, db');
    QuotaFrame(db, db');
    VersionsFrame(db, db');
    KeysFrame(db, db');
    ClassFrame(db, db');
  }

  lemma RevokeShape(db: Db, ws: WsId, id: ShareId)
    ensures HoldersOnly(db, RevokeShare(db, ws, id).After(db))
  {
    var o := RevokeShare(db, ws, id);
    if o.Done? {
      assert o.db.shares.Keys == db.shares.Keys;
    }
  }

  lemma ExpireSharesShape(db: Db, now: Time)
    ensures HoldersOnly(db, ExpireShares(db, now))
  {
  }

  lemma ClaimShape(db: Db, id: ShareId, item: Option<ItemId>, now: Time)
    ensures HoldersOnly(db, ClaimDownload(db, id, item, now).After(db))
  {
  }

  /** Replacing one existing job row by a row of the same workspace. */
  lemma SetJobShape(db: Db, id: JobId, j: Job)
    requires id in db.jobs && j.ws == db.jobs[id].ws
    ensures HoldersOnly(db, SetJob(db, id, j))
  {
    assert SetJob(db, id, j).jobs.Keys == db.jobs.Keys;
  }

  lemma JobShape(db: Db, id: JobId, expiresAt: Time)
    ensures HoldersOnly(db, ClaimJob(db, id))
    ensures HoldersOnly(db, CompleteJob(db, id, expiresAt).After(db))
    ensures HoldersOnly(db, FailJob(db, id))
  {
    if id in db.jobs {
      var j := db.jobs[id];
      SetJobShape(db, id, j.(status := Running));
      SetJobShape(db, id, j.(status := JobFailed));
      SetJobShape(db, id, j.(status := JobCompleted, expiresAt := Some(expiresAt)));
    }
  }

  lemma RetryShape(db: Db, ws: WsId, user: UserId, id: JobId)
    ensures HoldersOnly(db, RetryJob(db, ws, user, id).After(db))
  {
    if id in db.jobs {
      SetJobShape(db, id, db.jobs[id].(status := Queued, expiresAt := None));
    }
  }

  lemma RequeueShape(db: Db)
    ensures HoldersOnly(db, RequeueJobs(db))
  {
  }

  lemma ExpireJobsShape(db: Db, now: Time)
    ensures HoldersOnly(db, ExpireJobs(db, now))
  {
  }

  lemma StoredKey(db: Db, ws: WsId, key: StorageKey)
    requires KeysOk(db) && IsStored(db, ws, key)
    ensures key in db.origin && db.origin[key].ws == ws
  {
  }

  lemma StoredKeyAt(db: Db, ws: WsId, key: StorageKey, n: NodeId)
    requires KeysOk(db) && IsStoredAt(db, ws, key, n)
    ensures key in db.origin && db.origin[key] == Origin(ws, n)
  {
  }

  lemma NewShareKeys(db: Db, id: ShareId, s: Share, items: map<ItemId, ShareItem>)
    requires KeysOk(db) && Guard(db, OpCreateShare(id, s, items))
    ensures KeysOk(CreateShare(db, id, s, items))
  {
    forall i | i in items ensures items[i].key in db.origin && db.origin[items[i].key].ws == s.ws {
      StoredKey(db, s.ws, items[i].key);
    }
  }

  lemma NewJobKeys(db: Db, id: JobId, j: Job, items: map<ItemId, JobItem>)
    requires KeysOk(db) && Guard(db, OpCreateJob(id, j, items))
    ensures KeysOk(CreateJob(db, id, j, items))
  {
    forall i | i in items
      ensures items[i].key in db.origin && db.origin[items[i].key] == Origin(j.ws, items[i].node)
    {
      StoredKeyAt(db, j.ws, items[i].key, items[i].node);
    }
  }

  lemma CreateShareKeeps(db: Db, id: ShareId, s: Share, items: map<ItemId, ShareItem>)
    requires Inv(db) && Guard(db, OpCreateShare(id, s, items))
    ensures Inv(CreateShare(db, id, s, items))
  {
    var db' := CreateShare(db, id, s, items);
    TreeFrame(db, db');
    SessionsFrame(db, db');
    QuotaFrame(db, db');
    VersionsFrame(db, db');
    NewShareKeys(db, id, s, items);
    ClassFrame(db, db');
  }

  lemma CreateJobKeeps(db: Db, id: JobId, j: Job, items: map<ItemId, JobItem>)
    requires Inv(db) && Guard(db, OpCreateJob(id, j, items))
    ensures Inv(CreateJob(db, id, j, items))
  {
    var db' := CreateJob(db, id, j, items);
    TreeFrame(db, db');
    SessionsFrame(db, db');
    QuotaFrame(db, db');
    VersionsFrame(db, db');
    NewJobKeys(db, id, j, items);
    ClassFrame(db, db');
  }

  // ----- storage class and access times -----------------------------------------

  /** Version rows differ in storage class and access time only. */
  ghost predicate SameVersions(db: Db, db': Db) {
    && db'.versions.Keys == db.versions.Keys && db'.nextVersion == db.nextVersion && db'.origin == db.origin
    && forall v :: v in db.versions ==>
         && db'.versions[v].ws == db.versions[v].ws && db'.versions[v].node == db.versions[v].node
         && db'.versions[v].no == db.versions[v].no && db'.versions[v].key == db.versions[v].key
  }

  lemma SameNumbers(a: map<VersionId, FileVersion>, b: map<VersionId, FileVersion>, ws: WsId, n: NodeId)
    requires a.Keys == b.Keys
    requires forall v :: v in a ==> a[v].ws == b[v].ws && a[v].node == b[v].node && a[v].no == b[v].no
    ensures Numbers(a, ws, n) == Numbers(b, ws, n)
  {
    forall k ensures k in Numbers(a, ws, n) <==> k in Numbers(b, ws, n) {
      if k in Numbers(a, ws, n) {
        var v :| v in a && a[v].ws == ws && a[v].node == n && a[v].no == k;
        assert v in b;
      }
      if k in Numbers(b, ws, n) {
        var v :| v in b && b[v].ws == ws && b[v].node == n && b[v].no == k;
        assert v in a;
      }
    }
  }

  lemma SameVersionsKeep(db: Db, db': Db)
    requires VersionsOk(db) && SameVersions(db, db') && db'.nodes == db.nodes
    ensures VersionsOk(db')
  {
    forall v | v in db'.versions ensures VersionRowOk(db', v) {
      assert VersionRowOk(db, v);
    }
    forall n | n in db'.nodes ensures NumberingOk(db', n) {
      SameNumbering(db, db', n);
    }
  }

  lemma SameNumbering(db: Db, db': Db, n: NodeId)
    requires n in db.nodes && NumberingOk(db, n) && SameVersions(db, db') && db'.nodes == db.nodes
    ensures NumberingOk(db', n)
  {
    SameNumbers(db.versions, db'.versions, db.nodes[n].ws, n);
  }

  /** Item rows differ in storage class only. */
  ghost predicate SameItems(db: Db, db': Db) {
    && db'.shares == db.shares && db'.jobs == db.jobs
    && db'.shareItems.Keys == db.shareItems.Keys && db'.jobItems.Keys == db.jobItems.Keys
    && (forall i :: i in db.shareItems ==>
          db'.shareItems[i].share == db.shareItems[i].share && db'.shareItems[i].key == db.shareItems[i].key)
    && (forall i :: i in db.jobItems ==>
          && db'.jobItems[i].job == db.jobItems[i].job && db'.jobItems[i].key == db.jobItems[i].key
          && db'.jobItems[i].node == db.jobItems[i].node)
  }

  lemma SameItemsKeys(db: Db, db': Db)
    requires KeysOk(db) && SameVersions(db, db') && SameItems(db, db')
    ensures KeysOk(db')
  {
  }

  lemma RelabelKeeps(db: Db, db': Db)
    requires Inv(db) && SameVersions(db, db') && SameItems(db, db') && ClassOk(db')
    requires db'.nodes == db.nodes && db'.nextNode == db.nextNode
    requires db'.sessions == db.sessions && db'.workspaces == db.workspaces
    ensures Inv(db')
  {
    TreeFrame(db, db');
    SessionsFrame(db, db');
    QuotaFrame(db, db');
    SameVersionsKeep(db, db');
    SameItemsKeys(db, db');
  }

  lemma ArchiveClass(db: Db, ws: WsId, key: StorageKey, cutoff: Time)
    requires ClassOk(db)
    ensures ClassOk(CompleteArchive(db, ws, key, cutoff).After(db))
  {
  }

  lemma ArchiveVersionRows(db: Db, ws: WsId, key: StorageKey, cutoff: Time)
    ensures SameVersions(db, CompleteArchive(db, ws, key, cutoff).After(db))
  {
    var o := CompleteArchive(db, ws, key, cutoff);
    if o.Done? {
      assert o.db.versions.Keys == db.versions.Keys;
    }
  }

  lemma ArchiveItemRows(db: Db, ws: WsId, key: StorageKey, cutoff: Time)
    ensures SameItems(db, CompleteArchive(db, ws, key, cutoff).After(db))
  {
    var o := CompleteArchive(db, ws, key, cutoff);
    if o.Done? {
      assert o.db.shareItems.Keys == db.shareItems.Keys && o.db.jobItems.Keys == db.jobItems.Keys;
    }
  }

  lemma CompleteArchiveKeeps(db: Db, ws: WsId, key: StorageKey, cutoff: Time)
    requires Inv(db)
    ensures Inv(CompleteArchive(db, ws, key, cutoff).After(db))
  {
    ArchiveVersionRows(db, ws, key, cutoff);
    ArchiveItemRows(db, ws, key, cutoff);
    ArchiveClass(db, ws, key, cutoff);
    var db' := CompleteArchive(db, ws, key, cutoff).After(db);
    assert db'.nodes == db.nodes && db'.sessions == db.sessions && db'.workspaces == db.workspaces;
    RelabelKeeps(db, db');
  }

  lemma TouchKeyKeeps(db: Db, key: StorageKey, at: Time)
    requires Inv(db)
    ensures Inv(TouchKey(db, key, at))
  {
    TouchRows(db, key, at);
    TouchClass(db, key, at);
    RelabelKeeps(db, TouchKey(db, key, at));
  }

  lemma TouchRows(db: Db, key: StorageKey, at: Time)
    ensures SameVersions(db, TouchKey(db, key, at)) && SameItems(db, TouchKey(db, key, at))
  {
  }

  lemma TouchClass(db: Db, key: StorageKey, at: Time)
    requires ClassOk(db)
    ensures ClassOk(TouchKey(db, key, at))
  {
  }

  /** Reading the standard rows of a key reads every row of it, and it is
      archived exactly when the key exists, is not yet archived, and each of its
      versions has been left alone since the cutoff. */
  lemma ArchiveCoversTheKey(db: Db, ws: WsId, key: StorageKey, cutoff: Time)
    requires ClassOk(db)
    ensures CompleteArchive(db, ws, key, cutoff).Done? <==>
            && (exists v :: v in db.versions && db.versions[v].ws == ws && db.versions[v].key == key)
            && (forall v :: v in db.versions && db.versions[v].ws == ws && db.versions[v].key == key ==>
                  Standardish(db.versions[v].class_) && LastUse(db.versions[v]) <= cutoff)
    ensures CompleteArchive(db, ws, key, cutoff).Done? ==>
            forall v :: v in db.versions && db.versions[v].ws == ws && db.versions[v].key == key ==>
              CompleteArchive(db, ws, key, cutoff).db.versions[v].class_ == Archive
  {
    var vs := StandardVersions(db, ws, key);
    if v :| v in vs {
      assert v in db.versions && db.versions[v].ws == ws && db.versions[v].key == key;
      forall w | w in db.versions && db.versions[w].ws == ws && db.versions[w].key == key
        ensures w in vs
      {
        assert Standardish(db.versions[v].class_) == Standardish(db.versions[w].class_);
      }
    } else if w :| w in db.versions && db.versions[w].ws == ws && db.versions[w].key == key {
      assert w !in vs;
    }
  }
}
