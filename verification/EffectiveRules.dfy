/** Access rules over the directory the transactions maintain: in every reachable state
    the two queries over the closure table are the walk up the parents. */
module EffectiveRules {
  import opened Common
  import opened Forest
  import opened Closure
  import opened Tables
  import opened Runs
  import opened Safety
  import opened Acl
  import S = Store

  /** The directory rows as the rule queries see them; `breaking` are the nodes with
      broken inheritance. */
  function SeenBy(nodes: map<NodeId, Node>, breaking: set<NodeId>): NodeRows {
    map n | n in nodes :: NodeRow(nodes[n].ws, nodes[n].parent, n in breaking)
  }

  lemma SeenParents(nodes: map<NodeId, Node>, breaking: set<NodeId>)
    ensures ParentsIn(SeenBy(nodes, breaking)) == ParentsOf(nodes)
  {
  }

  lemma RulesInForest(db: Db, c: Closures, breaking: set<NodeId>, acls: Acls, ws: nat, who: Asker, d: Id, least: Option<nat>)
    requires TreeOk(db) && Exact(c, ParentsOf(db.nodes))
    requires IsMin(BreakDepths(c, SeenBy(db.nodes, breaking), ws, d), least)
    ensures Acyclic(ParentsIn(SeenBy(db.nodes, breaking)))
    ensures Cut(Joined(c, acls, ws, who, d), least) == Walk(SeenBy(db.nodes, breaking), acls, ws, who, d, 0)
  {
    SeenParents(db.nodes, breaking);
    QueriesAreTheWalk(c, SeenBy(db.nodes, breaking), acls, ws, who, d, least);
  }

  /** After any run of any transactions from the empty database, whichever nodes break
      inheritance and whatever rules are stored. */
  lemma RulesAfterRun(
    ops: seq<Op>, c: Closures, breaking: set<NodeId>, acls: Acls, ws: nat, who: Asker, d: Id, least: Option<nat>)
    requires IsRun(EMPTY, ops) && Exact(c, ParentsOf(Final(EMPTY, ops).nodes))
    requires IsMin(BreakDepths(c, SeenBy(Final(EMPTY, ops).nodes, breaking), ws, d), least)
    ensures Acyclic(ParentsIn(SeenBy(Final(EMPTY, ops).nodes, breaking)))
    ensures Cut(Joined(c, acls, ws, who, d), least) ==
            Walk(SeenBy(Final(EMPTY, ops).nodes, breaking), acls, ws, who, d, 0)
  {
    EveryReachableStateIsSafe(ops);
    RulesInForest(Final(EMPTY, ops), c, breaking, acls, ws, who, d, least);
  }

  /** With the closure table that the store maintains: every method of the store keeps
      it valid, so this holds between any two of them. */
  lemma RulesInStore(s: S.Store, breaking: set<NodeId>, acls: Acls, ws: nat, who: Asker, d: Id, least: Option<nat>)
    requires s.Valid() && IsMin(BreakDepths(s.closures, SeenBy(s.nodes, breaking), ws, d), least)
    ensures Acyclic(ParentsIn(SeenBy(s.nodes, breaking)))
    ensures Cut(Joined(s.closures, acls, ws, who, d), least) == Walk(SeenBy(s.nodes, breaking), acls, ws, who, d, 0)
  {
    RulesInForest(s.State(), s.closures, breaking, acls, ws, who, d, least);
  }
}
