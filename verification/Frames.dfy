/** When a step leaves the tables an invariant reads alone, the invariant stays.
    One lemma per invariant, so that each step names only what it changes. */
module Frames {
  import opened Tables
  import opened Runs

  ghost predicate SameNodes(db: Db, db': Db) {
    && db'.nodes.Keys == db.nodes.Keys && db'.nextNode == db.nextNode
    && forall n :: n in db.nodes ==>
         && db'.nodes[n].ws == db.nodes[n].ws && db'.nodes[n].parent == db.nodes[n].parent
         && db'.nodes[n].kind == db.nodes[n].kind
  }

  lemma TreeFrame(db: Db, db': Db)
    requires TreeOk(db) && SameNodes(db, db')
    ensures TreeOk(db')
  {
    assert ParentsOf(db'.nodes) == ParentsOf(db.nodes);
  }

  /** Old node rows are still there, in the same workspace. */
  ghost predicate NodesStay(db: Db, db': Db) {
    && db.nextNode <= db'.nextNode
    && forall n :: n in db.nodes ==> n in db'.nodes && db'.nodes[n].ws == db.nodes[n].ws
  }

  lemma SessionFrame(db: Db, db': Db, s: Session)
    requires SessionOk(db, s) && NodesStay(db, db') && db.workspaces.Keys <= db'.workspaces.Keys
    ensures SessionOk(db', s)
  {
  }

  lemma SessionsFrame(db: Db, db': Db)
    requires SessionsOk(db) && db'.sessions == db.sessions
    requires NodesStay(db, db') && db.workspaces.Keys <= db'.workspaces.Keys
    ensures SessionsOk(db')
  {
    forall s | s in db'.sessions ensures SessionOk(db', db'.sessions[s]) {
      SessionFrame(db, db', db.sessions[s]);
    }
  }

  lemma QuotaFrame(db: Db, db': Db)
    requires QuotaOk(db) && db'.sessions == db.sessions && db'.workspaces == db.workspaces
    ensures QuotaOk(db')
  {
  }

  lemma VersionsFrame(db: Db, db': Db)
    requires VersionsOk(db) && db'.versions == db.versions && db'.nextVersion == db.nextVersion
    requires db'.nodes.Keys == db.nodes.Keys
    requires forall n :: n in db.nodes ==>
               && db'.nodes[n].ws == db.nodes[n].ws && db'.nodes[n].kind == db.nodes[n].kind
               && db'.nodes[n].activeVersion == db.nodes[n].activeVersion
    ensures VersionsOk(db')
  {
    forall v | v in db'.versions ensures VersionRowOk(db', v) {
      assert VersionRowOk(db, v);
    }
    forall n | n in db'.nodes ensures NumberingOk(db', n) {
      assert NumberingOk(db, n);
    }
  }

  lemma KeysFrame(db: Db, db': Db)
    requires KeysOk(db)
    requires db'.versions == db.versions && db'.origin == db.origin
    requires db'.shareItems == db.shareItems && db'.jobItems == db.jobItems
    requires db'.shares.Keys == db.shares.Keys && forall s :: s in db.shares ==> db'.shares[s].ws == db.shares[s].ws
    requires db'.jobs.Keys == db.jobs.Keys && forall j :: j in db.jobs ==> db'.jobs[j].ws == db.jobs[j].ws
    ensures KeysOk(db')
  {
  }

  lemma ClassFrame(db: Db, db': Db)
    requires ClassOk(db) && db'.versions == db.versions
    ensures ClassOk(db')
  {
  }

  /** A step that touches neither versions nor any reference to an object. */
  lemma ObjectsFrame(db: Db, db': Db)
    requires KeysOk(db) && ClassOk(db)
    requires db'.versions == db.versions && db'.origin == db.origin
    requires db'.shareItems == db.shareItems && db'.jobItems == db.jobItems
    requires db'.shares == db.shares && db'.jobs == db.jobs
    ensures KeysOk(db') && ClassOk(db')
  {
  }
}
