/** Effective access rules. Two queries over the closure table stand in for a walk
    up the parents that stops at the first node with broken inheritance. */
module Acl {
  import opened Common
  import opened Forest
  import opened Closure

  datatype SubjectKind = UserSubject | GroupSubject
  datatype Subject = Subject(kind: SubjectKind, id: nat)
  datatype Effect = Allow | Deny
  datatype Access = Read | ReadWrite | Admin

  /** Unique index idx_node_acl_subject. */
  datatype AclKey = AclKey(ws: nat, node: Id, subject: Subject)
  datatype AclRow = AclRow(effect: Effect, access: Access, inherit: bool, createdBy: nat)
  type Acls = map<AclKey, AclRow>

  /** The columns of a directory row that these queries read. */
  datatype NodeRow = NodeRow(ws: nat, parent: Option<Id>, breaks: bool)
  type NodeRows = map<Id, NodeRow>

  function ParentsIn(nodes: NodeRows): Parents {
    map n | n in nodes :: nodes[n].parent
  }

  datatype Entry = Entry(depth: nat, subject: Subject, effect: Effect, access: Access)

  /** The user asking, with the groups he belongs to. */
  datatype Asker = Asker(user: nat, groups: seq<nat>)

  predicate Concerns(who: Asker, s: Subject) {
    match s.kind
    case UserSubject => s.id == who.user
    case GroupSubject => s.id in who.groups
  }

  predicate Breaks(nodes: NodeRows, ws: nat, n: Id) {
    n in nodes && nodes[n].ws == ws && nodes[n].breaks
  }

  function EntryOf(acls: Acls, k: AclKey, depth: nat): Entry
    requires k in acls
  {
    Entry(depth, k.subject, acls[k].effect, acls[k].access)
  }

  // ----- the walk ---------------------------------------------------------------

  /** Rules attached to `n` itself that reach a node `depth` steps below it. */
  function RowsAt(acls: Acls, ws: nat, who: Asker, n: Id, depth: nat): map<AclKey, Entry> {
    map k | k in acls && k.ws == ws && k.node == n && Concerns(who, k.subject) && (depth == 0 || acls[k].inherit)
      :: EntryOf(acls, k, depth)
  }

  /** Own rules, then inheritable rules of each ancestor, up to and including the
      nearest node that breaks inheritance. */
  ghost function Walk(nodes: NodeRows, acls: Acls, ws: nat, who: Asker, n: Id, depth: nat): map<AclKey, Entry>
    requires Acyclic(ParentsIn(nodes))
    decreases |Ancestors(ParentsIn(nodes), n)|
  {
    if n !in nodes then map[]
    else
      var here := RowsAt(acls, ws, who, n, depth);
      if Breaks(nodes, ws, n) || nodes[n].parent.None? || nodes[n].parent.value !in nodes then here
      else
        StepUpShrinks(nodes, n);
        here + Walk(nodes, acls, ws, who, nodes[n].parent.value, depth + 1)
  }

  lemma StepUpShrinks(nodes: NodeRows, n: Id)
    requires Acyclic(ParentsIn(nodes)) && n in nodes && nodes[n].parent.Some? && nodes[n].parent.value in nodes
    ensures |Ancestors(ParentsIn(nodes), nodes[n].parent.value)| < |Ancestors(ParentsIn(nodes), n)|
  {
    AncestorsShrink(ParentsIn(nodes), n);
    SubsetSmaller(Ancestors(ParentsIn(nodes), nodes[n].parent.value), Ancestors(ParentsIn(nodes), n));
  }

  // ----- the queries ------------------------------------------------------------

  /** Depths of the ancestors that break inheritance. */
  function BreakDepths(c: Closures, nodes: NodeRows, ws: nat, d: Id): set<nat> {
    set e | e in c.Keys && e.desc == d && Breaks(nodes, ws, e.anc) :: c[e]
  }

  ghost predicate IsMin(s: set<nat>, least: Option<nat>) {
    match least
    case None => s == {}
    case Some(b) => b in s && forall x :: x in s ==> b <= x
  }

  /** node_acls JOIN node_closures for descendant `d`: the rules that reach it,
      ignoring breaks. */
  function Joined(c: Closures, acls: Acls, ws: nat, who: Asker, d: Id): map<AclKey, Entry> {
    map k | k in acls && Edge(k.node, d) in c && k.ws == ws && Concerns(who, k.subject)
         && (c[Edge(k.node, d)] == 0 || acls[k].inherit)
      :: EntryOf(acls, k, c[Edge(k.node, d)])
  }

  function Cut(rows: map<AclKey, Entry>, least: Option<nat>): map<AclKey, Entry> {
    map k | k in rows && (least.Some? ==> rows[k].depth <= least.value) :: rows[k]
  }

  // ----- the queries and the walk agree -------------------------------------------

  /** No node strictly nearer than `depth` breaks inheritance. */
  ghost predicate Reaches(nodes: NodeRows, ws: nat, d: Id, depth: nat) {
    forall i: nat :: i < depth && Up(ParentsIn(nodes), d, i).Some? ==>
      !Breaks(nodes, ws, Up(ParentsIn(nodes), d, i).value)
  }

  /** Rule `k` applies to `d` from `depth` steps above. */
  ghost predicate Applies(nodes: NodeRows, acls: Acls, ws: nat, who: Asker, d: Id, k: AclKey, depth: nat) {
    && k in acls && k.ws == ws && Concerns(who, k.subject) && (depth == 0 || acls[k].inherit)
    && Up(ParentsIn(nodes), d, depth) == Some(k.node) && Reaches(nodes, ws, d, depth)
  }

  lemma BreakDepthOf(c: Closures, nodes: NodeRows, ws: nat, d: Id, i: nat)
    requires Exact(c, ParentsIn(nodes)) && Acyclic(ParentsIn(nodes))
    ensures i in BreakDepths(c, nodes, ws, d) <==>
            Up(ParentsIn(nodes), d, i).Some? && Breaks(nodes, ws, Up(ParentsIn(nodes), d, i).value)
  {
    if Up(ParentsIn(nodes), d, i).Some? && Breaks(nodes, ws, Up(ParentsIn(nodes), d, i).value) {
      ExactDepth(c, ParentsIn(nodes), d, i);
      var e := Edge(Up(ParentsIn(nodes), d, i).value, d);
      assert e in c.Keys && e.desc == d && Breaks(nodes, ws, e.anc) && c[e] == i;
    }
  }

  /** The bound MIN(depth) admits a depth exactly when no nearer node breaks. */
  lemma MinBreakIsReach(c: Closures, nodes: NodeRows, ws: nat, d: Id, least: Option<nat>, depth: nat)
    requires Exact(c, ParentsIn(nodes)) && Acyclic(ParentsIn(nodes))
    requires IsMin(BreakDepths(c, nodes, ws, d), least)
    ensures (least.Some? ==> depth <= least.value) <==> Reaches(nodes, ws, d, depth)
  {
    forall i: nat ensures i in BreakDepths(c, nodes, ws, d) <==>
                          Up(ParentsIn(nodes), d, i).Some? && Breaks(nodes, ws, Up(ParentsIn(nodes), d, i).value)
    {
      BreakDepthOf(c, nodes, ws, d, i);
    }
    if least.Some? && least.value < depth {
      assert least.value in BreakDepths(c, nodes, ws, d);
    }
  }

  lemma QueryRow(c: Closures, nodes: NodeRows, acls: Acls, ws: nat, who: Asker, d: Id, least: Option<nat>, k: AclKey)
    requires Exact(c, ParentsIn(nodes)) && Acyclic(ParentsIn(nodes))
    requires IsMin(BreakDepths(c, nodes, ws, d), least)
    ensures var rows := Cut(Joined(c, acls, ws, who, d), least);
            && (k in rows ==> Applies(nodes, acls, ws, who, d, k, rows[k].depth) && rows[k] == EntryOf(acls, k, rows[k].depth))
            && (forall depth: nat :: Applies(nodes, acls, ws, who, d, k, depth) ==> k in rows && rows[k].depth == depth)
  {
    var rows := Cut(Joined(c, acls, ws, who, d), least);
    if k in rows {
      MinBreakIsReach(c, nodes, ws, d, least, rows[k].depth);
    }
    forall depth: nat | Applies(nodes, acls, ws, who, d, k, depth) ensures k in rows && rows[k].depth == depth {
      ExactDepth(c, ParentsIn(nodes), d, depth);
      MinBreakIsReach(c, nodes, ws, d, least, depth);
    }
  }

  /** Row by row, what the walk collects from `k` steps above `d` onwards. */
  lemma {:induction false} WalkRow(
    nodes: NodeRows, acls: Acls, ws: nat, who: Asker, d: Id, n: Id, depth: nat, k: AclKey)
    requires Acyclic(ParentsIn(nodes))
    requires Up(ParentsIn(nodes), d, depth) == Some(n) && n in nodes && Reaches(nodes, ws, d, depth)
    ensures var rows := Walk(nodes, acls, ws, who, n, depth);
            && (k in rows ==> rows[k].depth >= depth && Applies(nodes, acls, ws, who, d, k, rows[k].depth)
                              && rows[k] == EntryOf(acls, k, rows[k].depth))
            && (forall i: nat :: i >= depth && Applies(nodes, acls, ws, who, d, k, i) ==> k in rows)
    decreases |Ancestors(ParentsIn(nodes), n)|
  {
    var p := ParentsIn(nodes);
    UpAdd(p, d, depth, 1);
    if Breaks(nodes, ws, n) || nodes[n].parent.None? || nodes[n].parent.value !in nodes {
      forall i: nat | i > depth ensures !Applies(nodes, acls, ws, who, d, k, i) {
        WalkEnds(nodes, ws, d, n, depth, i);
      }
    } else {
      StepUpShrinks(nodes, n);
      assert Up(p, n, 1) == Some(nodes[n].parent.value);
      WalkRow(nodes, acls, ws, who, d, nodes[n].parent.value, depth + 1, k);
      NotTwice(nodes, d, depth);
    }
  }

  /** Above a break, a root or a dangling parent nothing applies any more. */
  lemma WalkEnds(nodes: NodeRows, ws: nat, d: Id, n: Id, depth: nat, i: nat)
    requires Up(ParentsIn(nodes), d, depth) == Some(n) && n in nodes && i > depth
    requires Breaks(nodes, ws, n) || nodes[n].parent.None? || nodes[n].parent.value !in nodes
    ensures Up(ParentsIn(nodes), d, i).None? || !Reaches(nodes, ws, d, i)
  {
    if !Breaks(nodes, ws, n) {
      UpAdd(ParentsIn(nodes), d, depth, i - depth);
    }
  }

  /** A node met at one depth is not met again higher up. */
  lemma NotTwice(nodes: NodeRows, d: Id, depth: nat)
    requires Acyclic(ParentsIn(nodes)) && Up(ParentsIn(nodes), d, depth).Some?
    ensures forall i: nat :: Up(ParentsIn(nodes), d, i) == Up(ParentsIn(nodes), d, depth) ==> i == depth
  {
    forall i: nat | Up(ParentsIn(nodes), d, i) == Up(ParentsIn(nodes), d, depth) ensures i == depth {
      DepthUnique(ParentsIn(nodes), d, i, depth);
    }
  }

  /** With an exact closure table the two queries collect the rows of the walk. */
  lemma QueriesAreTheWalk(
    c: Closures, nodes: NodeRows, acls: Acls, ws: nat, who: Asker, d: Id, least: Option<nat>)
    requires Exact(c, ParentsIn(nodes)) && Acyclic(ParentsIn(nodes))
    requires IsMin(BreakDepths(c, nodes, ws, d), least)
    ensures Cut(Joined(c, acls, ws, who, d), least) == Walk(nodes, acls, ws, who, d, 0)
  {
    var a, b := Cut(Joined(c, acls, ws, who, d), least), Walk(nodes, acls, ws, who, d, 0);
    forall k ensures k in a <==> k in b
             ensures k in a && k in b ==> a[k] == b[k]
    {
      QueryRow(c, nodes, acls, ws, who, d, least, k);
      if d in nodes {
        WalkRow(nodes, acls, ws, who, d, d, 0, k);
      }
    }
  }

  // ----- answers as lists -----------------------------------------------------------

  ghost function Carriers(rows: map<AclKey, Entry>, x: Entry): set<AclKey> {
    set k | k in rows && rows[k] == x
  }

  /** `list` holds each entry as often as some row carries it. */
  ghost predicate SameEntries(list: seq<Entry>, rows: map<AclKey, Entry>) {
    forall x :: multiset(list)[x] == |Carriers(rows, x)|
  }

  /** Cutting off deep rows removes exactly the deep entries. */
  lemma CutCarriers(rows: map<AclKey, Entry>, least: Option<nat>, x: Entry)
    ensures Carriers(Cut(rows, least), x) == if least.Some? && x.depth > least.value then {} else Carriers(rows, x)
  {
  }

  ghost predicate ByDepth(list: seq<Entry>) {
    forall i, j :: 0 <= i < j < |list| ==> list[i].depth <= list[j].depth
  }

  /** `list` gives the entries of `rows`, nearest first. */
  ghost predicate Lists(list: seq<Entry>, rows: map<AclKey, Entry>) {
    SameEntries(list, rows) && ByDepth(list)
  }

  /** ListEffectiveEntries: any answer to its two statements lists the walk. */
  lemma SingleNodeListsTheWalk(
    c: Closures, nodes: NodeRows, acls: Acls, ws: nat, who: Asker, d: Id, least: Option<nat>, answer: seq<Entry>)
    requires Exact(c, ParentsIn(nodes)) && Acyclic(ParentsIn(nodes))
    requires IsMin(BreakDepths(c, nodes, ws, d), least)
    ensures Lists(answer, Cut(Joined(c, acls, ws, who, d), least)) <==> Lists(answer, Walk(nodes, acls, ws, who, d, 0))
    ensures Lists(answer, Cut(Joined(c, acls, ws, who, d), least)) ==> ListsRules(answer, nodes, acls, ws, who, d)
  {
    QueriesAreTheWalk(c, nodes, acls, ws, who, d, least);
    if Lists(answer, Walk(nodes, acls, ws, who, d, 0)) {
      ListingShowsRules(nodes, acls, ws, who, d, answer);
    }
  }

  // ----- what an answer says, rule by rule ----------------------------------------------

  /** Rule `k` is in force for user `who` at node `d`: it stands at the row `depth` parent
      steps above, is meant for the user or one of his groups, is inherited unless it stands
      at `d` itself, and no row below its own breaks inheritance. */
  ghost predicate InForce(nodes: NodeRows, acls: Acls, ws: nat, who: Asker, d: Id, k: AclKey, depth: nat) {
    && k in acls && k.ws == ws && Up(ParentsIn(nodes), d, depth) == Some(k.node)
    && ((k.subject.kind == UserSubject && k.subject.id == who.user)
        || (k.subject.kind == GroupSubject && k.subject.id in who.groups))
    && (depth > 0 ==> acls[k].inherit)
    && forall i: nat, a: Id :: i < depth && Up(ParentsIn(nodes), d, i) == Some(a) && a in nodes && nodes[a].ws == ws ==>
         !nodes[a].breaks
  }

  /** Entry `x` is what rule `k` says, at the distance it is inherited over. */
  ghost predicate Shows(nodes: NodeRows, acls: Acls, ws: nat, who: Asker, d: Id, k: AclKey, x: Entry) {
    && InForce(nodes, acls, ws, who, d, k, x.depth)
    && x.subject == k.subject && x.effect == acls[k].effect && x.access == acls[k].access
  }

  /** The list has one entry for every rule in force, which says what the rule says, and no
      other. */
  ghost predicate ListsRules(list: seq<Entry>, nodes: NodeRows, acls: Acls, ws: nat, who: Asker, d: Id) {
    && (forall x :: x in list ==> multiset(list)[x] == 1 && exists k :: Shows(nodes, acls, ws, who, d, k, x))
    && (forall k, depth: nat :: InForce(nodes, acls, ws, who, d, k, depth) ==>
          Entry(depth, k.subject, acls[k].effect, acls[k].access) in list)
  }

  lemma InForceApplies(nodes: NodeRows, acls: Acls, ws: nat, who: Asker, d: Id, k: AclKey, depth: nat)
    ensures InForce(nodes, acls, ws, who, d, k, depth) <==> Applies(nodes, acls, ws, who, d, k, depth)
  {
  }

  /** Every row of the walk shows its rule, and every rule in force has its row. */
  lemma WalkShows(nodes: NodeRows, acls: Acls, ws: nat, who: Asker, d: Id, k: AclKey)
    requires Acyclic(ParentsIn(nodes))
    ensures var rows := Walk(nodes, acls, ws, who, d, 0);
            && (k in rows ==> Shows(nodes, acls, ws, who, d, k, rows[k]))
            && (forall depth: nat :: InForce(nodes, acls, ws, who, d, k, depth) ==> k in rows && rows[k].depth == depth)
  {
    var rows := Walk(nodes, acls, ws, who, d, 0);
    if d in nodes {
      WalkRow(nodes, acls, ws, who, d, d, 0, k);
      if k in rows {
        InForceApplies(nodes, acls, ws, who, d, k, rows[k].depth);
      }
      forall depth: nat | InForce(nodes, acls, ws, who, d, k, depth) ensures k in rows && rows[k].depth == depth {
        InForceApplies(nodes, acls, ws, who, d, k, depth);
        AppliesOnce(nodes, acls, ws, who, d, k, depth, rows[k].depth);
      }
    }
  }

  /** Two rules never show the same entry. */
  lemma ShowsOne(nodes: NodeRows, acls: Acls, ws: nat, who: Asker, d: Id, x: Entry)
    requires Acyclic(ParentsIn(nodes))
    ensures |Carriers(Walk(nodes, acls, ws, who, d, 0), x)| <= 1
  {
    var rows := Walk(nodes, acls, ws, who, d, 0);
    var ks := Carriers(rows, x);
    if ks != {} {
      var k :| k in ks;
      WalkShows(nodes, acls, ws, who, d, k);
      forall j | j in ks ensures j == k {
        WalkShows(nodes, acls, ws, who, d, j);
      }
      assert ks == {k};
    }
  }

  /** Any listing of the walk lists exactly the rules in force, field by field. */
  lemma ListingShowsRules(nodes: NodeRows, acls: Acls, ws: nat, who: Asker, d: Id, list: seq<Entry>)
    requires Acyclic(ParentsIn(nodes)) && Lists(list, Walk(nodes, acls, ws, who, d, 0))
    ensures ListsRules(list, nodes, acls, ws, who, d)
  {
    var rows := Walk(nodes, acls, ws, who, d, 0);
    forall x | x in list ensures multiset(list)[x] == 1 && exists k :: Shows(nodes, acls, ws, who, d, k, x) {
      ShowsOne(nodes, acls, ws, who, d, x);
      assert multiset(list)[x] == |Carriers(rows, x)| && Carriers(rows, x) != {};
      var k :| k in Carriers(rows, x);
      WalkShows(nodes, acls, ws, who, d, k);
    }
    forall k, depth: nat | InForce(nodes, acls, ws, who, d, k, depth)
      ensures Entry(depth, k.subject, acls[k].effect, acls[k].access) in list
    {
      WalkShows(nodes, acls, ws, who, d, k);
      var x := rows[k];
      assert k in Carriers(rows, x);
      assert multiset(list)[x] == |Carriers(rows, x)| > 0;
      assert x == Entry(depth, k.subject, acls[k].effect, acls[k].access);
    }
  }

  datatype BreakRow = BreakRow(target: Id, depth: nat)
  datatype EffectiveRow = EffectiveRow(target: Id, entry: Entry)

  /** The grouped MIN query: one row per requested node that has a break. */
  ghost predicate AnswersBreaks(c: Closures, nodes: NodeRows, ws: nat, ids: seq<Id>, rows: seq<BreakRow>) {
    && (forall i, j :: 0 <= i < j < |rows| ==> rows[i].target != rows[j].target)
    && (forall i :: 0 <= i < |rows| ==>
          rows[i].target in ids && IsMin(BreakDepths(c, nodes, ws, rows[i].target), Some(rows[i].depth)))
    && (forall t :: t in ids ==>
          (exists i :: 0 <= i < |rows| && rows[i].target == t) || IsMin(BreakDepths(c, nodes, ws, t), None))
  }

  /** The entries of one target among the rows of the join. */
  function Of(rows: seq<EffectiveRow>, t: Id): seq<Entry> {
    if rows == [] then []
    else
      var last := rows[|rows| - 1];
      Of(rows[..|rows| - 1], t) + if last.target == t then [last.entry] else []
  }

  /** The join over all requested nodes, ordered by target and depth. */
  ghost predicate AnswersJoin(c: Closures, acls: Acls, ws: nat, who: Asker, ids: seq<Id>, rows: seq<EffectiveRow>) {
    && (forall i :: 0 <= i < |rows| ==> rows[i].target in ids)
    && (forall t :: t in ids ==> SameEntries(Of(rows, t), Joined(c, acls, ws, who, t)))
    && (forall i, j :: 0 <= i < j < |rows| ==>
          rows[i].target < rows[j].target
          || (rows[i].target == rows[j].target && rows[i].entry.depth <= rows[j].entry.depth))
  }

  function Within(list: seq<Entry>, least: Option<nat>): seq<Entry> {
    if list == [] then []
    else
      var last := list[|list| - 1];
      Within(list[..|list| - 1], least) + if least.Some? && last.depth > least.value then [] else [last]
  }

  lemma AppendCount(list: seq<Entry>, last: Entry, x: Entry)
    ensures multiset(list + [last])[x] == multiset(list)[x] + if x == last then 1 else 0
  {
  }

  lemma {:induction false} WithinCounts(list: seq<Entry>, least: Option<nat>, x: Entry)
    ensures multiset(Within(list, least))[x] == if least.Some? && x.depth > least.value then 0 else multiset(list)[x]
  {
    if list != [] {
      var before, last := list[..|list| - 1], list[|list| - 1];
      WithinCounts(before, least, x);
      assert list == before + [last];
      AppendCount(before, last, x);
      AppendCount(Within(before, least), last, x);
    }
  }

  lemma AppendByDepth(list: seq<Entry>, x: Entry)
    requires ByDepth(list) && forall y :: y in list ==> y.depth <= x.depth
    ensures ByDepth(list + [x])
  {
  }

  lemma {:induction false} WithinByDepth(list: seq<Entry>, least: Option<nat>)
    requires ByDepth(list)
    ensures ByDepth(Within(list, least)) && forall x :: x in Within(list, least) ==> x in list
  {
    if list != [] {
      var before, last := list[..|list| - 1], list[|list| - 1];
      WithinByDepth(before, least);
      AppendByDepth(Within(before, least), last);
    }
  }

  lemma {:induction false} OfByDepth(rows: seq<EffectiveRow>, t: Id)
    requires forall i, j :: 0 <= i < j < |rows| && rows[i].target == rows[j].target ==>
               rows[i].entry.depth <= rows[j].entry.depth
    ensures ByDepth(Of(rows, t))
    ensures forall x :: x in Of(rows, t) ==> EffectiveRow(t, x) in rows
  {
    if rows != [] {
      var before, last := rows[..|rows| - 1], rows[|rows| - 1];
      OfByDepth(before, t);
      if last.target == t {
        forall x | x in Of(before, t) ensures x.depth <= last.entry.depth {
          var i :| 0 <= i < |before| && before[i] == EffectiveRow(t, x);
          assert rows[i].target == last.target;
        }
        AppendByDepth(Of(before, t), last.entry);
      }
    }
  }

  /** The list kept for one node: its rows of the join up to its break. */
  lemma KeptIsTheWalk(c: Closures, nodes: NodeRows, acls: Acls, ws: nat, who: Asker, t: Id, least: Option<nat>,
                      list: seq<Entry>)
    requires Exact(c, ParentsIn(nodes)) && Acyclic(ParentsIn(nodes))
    requires IsMin(BreakDepths(c, nodes, ws, t), least)
    requires SameEntries(list, Joined(c, acls, ws, who, t)) && ByDepth(list)
    ensures Lists(Within(list, least), Walk(nodes, acls, ws, who, t, 0))
  {
    QueriesAreTheWalk(c, nodes, acls, ws, who, t, least);
    WithinByDepth(list, least);
    var rows := Joined(c, acls, ws, who, t);
    forall x ensures multiset(Within(list, least))[x] == |Carriers(Cut(rows, least), x)| {
      WithinCounts(list, least, x);
      CutCarriers(rows, least, x);
    }
  }

  function Got(result: map<Id, seq<Entry>>, t: Id): seq<Entry> {
    if t in result then result[t] else []
  }

  function Found(m: map<Id, nat>, t: Id): Option<nat> {
    if t in m then Some(m[t]) else None
  }

  /** Load the grouped MIN rows into a map. */
  method BreakDepthMap(breaks: seq<BreakRow>) returns (depths: map<Id, nat>)
    requires forall i, j :: 0 <= i < j < |breaks| ==> breaks[i].target != breaks[j].target
    ensures forall i :: 0 <= i < |breaks| ==> Found(depths, breaks[i].target) == Some(breaks[i].depth)
    ensures forall t :: t in depths ==> exists i :: 0 <= i < |breaks| && breaks[i].target == t
  {
    depths := map[];
    var i := 0;
    while i < |breaks|
      invariant 0 <= i <= |breaks|
      invariant forall j :: 0 <= j < i ==> Found(depths, breaks[j].target) == Some(breaks[j].depth)
      invariant forall t :: t in depths ==> exists j :: 0 <= j < i && breaks[j].target == t
    {
      depths := depths[breaks[i].target := breaks[i].depth];
      i := i + 1;
    }
  }

  /** The rows of one node that survive its break. */
  function Kept(rows: seq<EffectiveRow>, cuts: map<Id, nat>, t: Id): seq<Entry> {
    Within(Of(rows, t), Found(cuts, t))
  }

  /** How one more joined row changes the list of each node. */
  lemma OneMoreRow(rows: seq<EffectiveRow>, row: EffectiveRow, cuts: map<Id, nat>, t: Id)
    ensures Kept(rows + [row], cuts, t) ==
            Kept(rows, cuts, t) + if row.target == t && !(t in cuts && row.entry.depth > cuts[t]) then [row.entry] else []
  {
    assert (rows + [row])[..|rows|] == rows;
    if row.target == t {
      WithinAppend(Of(rows, t), row.entry, Found(cuts, t));
    } else {
      assert Of(rows + [row], t) == Of(rows, t);
    }
  }

  lemma WithinAppend(list: seq<Entry>, x: Entry, least: Option<nat>)
    ensures Within(list + [x], least) ==
            Within(list, least) + if least.Some? && x.depth > least.value then [] else [x]
  {
    assert (list + [x])[..|list|] == list;
  }

  ghost predicate Collected(result: map<Id, seq<Entry>>, rows: seq<EffectiveRow>, cuts: map<Id, nat>) {
    && (forall t :: Got(result, t) == Kept(rows, cuts, t))
    && (forall t :: t in result ==> result[t] != [])
  }

  /** The lists after one more joined row. */
  function Added(result: map<Id, seq<Entry>>, row: EffectiveRow, cuts: map<Id, nat>): map<Id, seq<Entry>> {
    if row.target in cuts && row.entry.depth > cuts[row.target] then result
    else result[row.target := Got(result, row.target) + [row.entry]]
  }

  lemma KeptMore(result: map<Id, seq<Entry>>, rows: seq<EffectiveRow>, row: EffectiveRow, cuts: map<Id, nat>, t: Id)
    requires Got(result, t) == Kept(rows, cuts, t)
    ensures Kept(rows + [row], cuts, t) == Got(Added(result, row, cuts), t)
  {
    OneMoreRow(rows, row, cuts, t);
  }

  lemma CollectedMore(result: map<Id, seq<Entry>>, rows: seq<EffectiveRow>, row: EffectiveRow, cuts: map<Id, nat>)
    requires Collected(result, rows, cuts)
    ensures Collected(Added(result, row, cuts), rows + [row], cuts)
  {
    forall t ensures Kept(rows + [row], cuts, t) == Got(Added(result, row, cuts), t) {
      KeptMore(result, rows, row, cuts, t);
    }
  }

  /** Append every surviving row to the list of its node. */
  method Collect(rows: seq<EffectiveRow>, cuts: map<Id, nat>) returns (result: map<Id, seq<Entry>>)
    ensures Collected(result, rows, cuts)
  {
    result := map[];
    var i := 0;
    ghost var done: seq<EffectiveRow> := [];
    while i < |rows|
      invariant 0 <= i <= |rows| && done == rows[..i] && Collected(result, done, cuts)
    {
      var row := rows[i];
      CollectedMore(result, done, row, cuts);
      done, i := done + [row], i + 1;
      if row.target in cuts && row.entry.depth > cuts[row.target] {
        continue;
      }
      result := result[row.target := Got(result, row.target) + [row.entry]];
    }
    assert done == rows;
  }

  lemma {:induction false} OnlyRequested(rows: seq<EffectiveRow>, t: Id)
    ensures Of(rows, t) != [] ==> exists i :: 0 <= i < |rows| && rows[i].target == t
  {
    if rows != [] {
      var before := rows[..|rows| - 1];
      OnlyRequested(before, t);
      if i :| 0 <= i < |before| && before[i].target == t {
        assert rows[i].target == t;
      }
    }
  }

  /** ListEffectiveEntriesForNodes. `breaks` and `rows` are the engine's answers to
      its two statements; every requested node gets the entries of its own walk. */
  method ListEffectiveEntriesForNodes(
    ghost c: Closures, ghost nodes: NodeRows, ghost acls: Acls, ghost ws: nat, ghost who: Asker,
    ids: seq<Id>, breaks: seq<BreakRow>, rows: seq<EffectiveRow>)
    returns (result: map<Id, seq<Entry>>)
    requires Exact(c, ParentsIn(nodes)) && Acyclic(ParentsIn(nodes))
    requires AnswersBreaks(c, nodes, ws, ids, breaks) && AnswersJoin(c, acls, ws, who, ids, rows)
    ensures forall t :: t in ids ==> Lists(Got(result, t), Walk(nodes, acls, ws, who, t, 0))
    ensures forall t :: t in ids ==> ListsRules(Got(result, t), nodes, acls, ws, who, t)
    ensures forall t :: t in result ==> t in ids && result[t] != []
  {
    if |ids| == 0 {
      return map[];
    }
    var cuts := BreakDepthMap(breaks);
    result := Collect(rows, cuts);
    forall t | t in ids ensures Lists(Got(result, t), Walk(nodes, acls, ws, who, t, 0)) {
      OfByDepth(rows, t);
      KeptIsTheWalk(c, nodes, acls, ws, who, t, Found(cuts, t), Of(rows, t));
    }
    forall t | t in ids ensures ListsRules(Got(result, t), nodes, acls, ws, who, t) {
      ListingShowsRules(nodes, acls, ws, who, t, Got(result, t));
    }
    forall t | t in result ensures t in ids {
      assert Kept(rows, cuts, t) != [];
      OnlyRequested(rows, t);
    }
  }

  // ----- writing rules ----------------------------------------------------------------

  /** Rules were written at node `n` of workspace `ws` only. */
  predicate WrittenAt(before: Acls, after: Acls, ws: nat, n: Id) {
    && (forall k :: k in before && !(k.ws == ws && k.node == n) ==> k in after && after[k] == before[k])
    && (forall k :: k in after && !(k.ws == ws && k.node == n) ==> k in before)
  }

  /** Writing rules at `n` changes nothing for a node outside the subtree of `n`,
      nor for one below a break that lies between the two. */
  lemma WritesAreLocal(nodes: NodeRows, before: Acls, after: Acls, ws: nat, who: Asker, n: Id, d: Id)
    requires Acyclic(ParentsIn(nodes)) && WrittenAt(before, after, ws, n)
    requires forall k: nat :: Up(ParentsIn(nodes), d, k) == Some(n) ==> !Reaches(nodes, ws, d, k)
    ensures Walk(nodes, after, ws, who, d, 0) == Walk(nodes, before, ws, who, d, 0)
  {
    var a, b := Walk(nodes, after, ws, who, d, 0), Walk(nodes, before, ws, who, d, 0);
    if d in nodes {
      forall k ensures k in a <==> k in b
               ensures k in a && k in b ==> a[k] == b[k]
      {
        WalkRow(nodes, before, ws, who, d, d, 0, k);
        WalkRow(nodes, after, ws, who, d, d, 0, k);
        SameApplies(nodes, before, after, ws, who, n, d, k);
        if k in a && k in b {
          AppliesOnce(nodes, before, ws, who, d, k, a[k].depth, b[k].depth);
        }
      }
    }
  }

  lemma SameApplies(nodes: NodeRows, before: Acls, after: Acls, ws: nat, who: Asker, n: Id, d: Id, k: AclKey)
    requires WrittenAt(before, after, ws, n)
    requires forall i: nat :: Up(ParentsIn(nodes), d, i) == Some(n) ==> !Reaches(nodes, ws, d, i)
    ensures forall i: nat :: Applies(nodes, before, ws, who, d, k, i) <==> Applies(nodes, after, ws, who, d, k, i)
    ensures forall i: nat :: Applies(nodes, before, ws, who, d, k, i) ==> after[k] == before[k]
  {
  }

  lemma AppliesOnce(nodes: NodeRows, acls: Acls, ws: nat, who: Asker, d: Id, k: AclKey, i: nat, j: nat)
    requires Acyclic(ParentsIn(nodes))
    requires Applies(nodes, acls, ws, who, d, k, i) && Applies(nodes, acls, ws, who, d, k, j)
    ensures i == j
  {
    DepthUnique(ParentsIn(nodes), d, i, j);
  }

  /** One rule of a replacement list. */
  datatype Rule = Rule(subject: Subject, row: AclRow)

  /** What an insert stores for a given row: a column whose value is zero gets its
      declared default, and the default of inherit_to_children is true. */
  function StoredRow(row: AclRow): AclRow {
    row.(inherit := true)
  }

  /** Node `n` ends with one stored row for each of `rules` and no other; everything else
      is as before. */
  predicate Replaced(before: Acls, after: Acls, ws: nat, n: Id, rules: seq<Rule>) {
    && WrittenAt(before, after, ws, n)
    && (forall i :: 0 <= i < |rules| ==>
          AclKey(ws, n, rules[i].subject) in after && after[AclKey(ws, n, rules[i].subject)] == StoredRow(rules[i].row))
    && (forall k :: k in after && k.ws == ws && k.node == n ==> exists i :: 0 <= i < |rules| && rules[i].subject == k.subject)
  }

  /** Every given rule is stored as it was given. */
  predicate AsGiven(acls: Acls, ws: nat, n: Id, rules: seq<Rule>) {
    forall i :: 0 <= i < |rules| ==>
      AclKey(ws, n, rules[i].subject) in acls && acls[AclKey(ws, n, rules[i].subject)] == rules[i].row
  }

  /** No subject is named twice. */
  predicate OneEach(rules: seq<Rule>) {
    forall i, j :: 0 <= i < j < |rules| ==> rules[i].subject != rules[j].subject
  }

  lemma OneMoreRule(before: Acls, after: Acls, ws: nat, n: Id, rules: seq<Rule>, rule: Rule)
    requires Replaced(before, after, ws, n, rules) && OneEach(rules)
    ensures OneEach(rules + [rule]) <==> AclKey(ws, n, rule.subject) !in after
    ensures AclKey(ws, n, rule.subject) !in after ==>
              Replaced(before, after[AclKey(ws, n, rule.subject) := StoredRow(rule.row)], ws, n, rules + [rule])
  {
    var key, grown := AclKey(ws, n, rule.subject), rules + [rule];
    if !OneEach(grown) {
      var i, j :| 0 <= i < j < |grown| && grown[i].subject == grown[j].subject;
      assert j == |rules| && rules[i].subject == rule.subject;
    }
    if key in after {
      var i :| 0 <= i < |rules| && rules[i].subject == rule.subject;
      assert grown[i].subject == grown[|rules|].subject;
    }
    if key !in after {
      var next := after[key := StoredRow(rule.row)];
      forall k | k in next && k.ws == ws && k.node == n
        ensures exists i :: 0 <= i < |grown| && grown[i].subject == k.subject
      {
        if k == key {
          assert grown[|rules|].subject == k.subject;
        } else {
          var i :| 0 <= i < |rules| && rules[i].subject == k.subject;
          assert grown[i].subject == k.subject;
        }
      }
    }
  }

  // ----- what becomes of rules for one level ------------------------------------------

  datatype Write =
    | Grant(ws: nat, node: Id, rule: Rule)
    | Revoke(ws: nat, node: Id, subject: Subject)
    | Replace(ws: nat, node: Id, rules: seq<Rule>)

  /** What each writer makes of the table. */
  ghost predicate Wrote(before: Acls, after: Acls, w: Write) {
    match w
    case Grant(ws, n, rule) => after == before[AclKey(ws, n, rule.subject) := StoredRow(rule.row)]
    case Revoke(ws, n, subject) => after == before - {AclKey(ws, n, subject)}
    case Replace(ws, n, rules) => if OneEach(rules) then Replaced(before, after, ws, n, rules) else after == before
  }

  /** The given rules are stored as given exactly when each of them inherits. */
  lemma GivenIfInheriting(before: Acls, after: Acls, ws: nat, n: Id, rules: seq<Rule>)
    requires Replaced(before, after, ws, n, rules)
    ensures AsGiven(after, ws, n, rules) <==> forall i :: 0 <= i < |rules| ==> rules[i].row.inherit
  {
    forall i | 0 <= i < |rules|
      ensures after[AclKey(ws, n, rules[i].subject)] == rules[i].row <==> rules[i].row.inherit
    {
      assert after[AclKey(ws, n, rules[i].subject)] == StoredRow(rules[i].row);
    }
  }

  predicate AllInherit(acls: Acls) {
    forall k :: k in acls ==> acls[k].inherit
  }

  lemma WriteInherits(before: Acls, after: Acls, w: Write)
    requires AllInherit(before) && Wrote(before, after, w)
    ensures AllInherit(after)
  {
    if w.Replace? && OneEach(w.rules) {
      forall k | k in after ensures after[k].inherit {
        if k.ws == w.ws && k.node == w.node {
          var i :| 0 <= i < |w.rules| && w.rules[i].subject == k.subject;
          assert k == AclKey(w.ws, w.node, w.rules[i].subject);
          assert after[k] == StoredRow(w.rules[i].row);
        } else {
          assert k in before && after[k] == before[k];
        }
      }
    }
  }

  /** Write `i` leads from table `i` to the next one. */
  ghost predicate Leads(tables: seq<Acls>, writes: seq<Write>, i: nat)
    requires i < |writes| && |tables| == |writes| + 1
  {
    Wrote(tables[i], tables[i + 1], writes[i])
  }

  /** After any run of the three writers every stored rule is inherited by children,
      whatever the callers asked for. */
  lemma {:induction false} RunInherits(tables: seq<Acls>, writes: seq<Write>, n: nat)
    requires |tables| == |writes| + 1 && tables[0] == map[] && n <= |writes|
    requires forall i :: 0 <= i < |writes| ==> Leads(tables, writes, i)
    ensures AllInherit(tables[n])
  {
    if n > 0 {
      RunInherits(tables, writes, n - 1);
      assert Leads(tables, writes, n - 1);
      WriteInherits(tables[n - 1], tables[n], writes[n - 1]);
    }
  }

  /** Then the filter on depth and inherit_to_children cuts nothing off. */
  lemma FilterNeverCuts(acls: Acls, ws: nat, who: Asker, n: Id, depth: nat)
    requires AllInherit(acls)
    ensures RowsAt(acls, ws, who, n, depth) ==
            map k | k in acls && k.ws == ws && k.node == n && Concerns(who, k.subject) :: EntryOf(acls, k, depth)
  {
  }

  /** A granted rule, also one meant for its own level only, applies to exactly those nodes
      at and below its own that no break separates from it. */
  lemma GrantReachesBelow(nodes: NodeRows, before: Acls, after: Acls, ws: nat, n: Id, rule: Rule, who: Asker, d: Id)
    requires Acyclic(ParentsIn(nodes)) && d in nodes
    requires Wrote(before, after, Grant(ws, n, rule)) && Concerns(who, rule.subject)
    ensures AclKey(ws, n, rule.subject) in Walk(nodes, after, ws, who, d, 0) <==>
            exists depth: nat :: Up(ParentsIn(nodes), d, depth) == Some(n) && Reaches(nodes, ws, d, depth)
  {
    var k := AclKey(ws, n, rule.subject);
    WalkRow(nodes, after, ws, who, d, d, 0, k);
    if depth: nat :| Up(ParentsIn(nodes), d, depth) == Some(n) && Reaches(nodes, ws, d, depth) {
      assert Applies(nodes, after, ws, who, d, k, depth);
    }
  }

  /** Any listing for a node it reaches has the granted rule, with the effect and the level
      it was granted with. */
  lemma GrantIsListed(nodes: NodeRows, before: Acls, after: Acls, ws: nat, n: Id, rule: Rule, who: Asker, d: Id,
                      depth: nat, list: seq<Entry>)
    requires Acyclic(ParentsIn(nodes)) && Wrote(before, after, Grant(ws, n, rule)) && Concerns(who, rule.subject)
    requires Up(ParentsIn(nodes), d, depth) == Some(n) && Reaches(nodes, ws, d, depth)
    requires Lists(list, Walk(nodes, after, ws, who, d, 0))
    ensures Entry(depth, rule.subject, rule.row.effect, rule.row.access) in list
  {
    ListingShowsRules(nodes, after, ws, who, d, list);
    InForceApplies(nodes, after, ws, who, d, AclKey(ws, n, rule.subject), depth);
  }

  /** A rule of user 7 for node 1 alone is also in force for its child, node 2. */
  lemma ThisLevelOnly(row: AclRow)
    requires !row.inherit
    ensures var nodes := map[1 := NodeRow(5, None, false), 2 := NodeRow(5, Some(1), false)];
            var key := AclKey(5, 1, Subject(UserSubject, 7));
            && Acyclic(ParentsIn(nodes))
            && Wrote(map[], map[key := StoredRow(row)], Grant(5, 1, Rule(Subject(UserSubject, 7), row)))
            && StoredRow(row) != row
            && key in Walk(nodes, map[key := StoredRow(row)], 5, Asker(7, []), 2, 0)
            && key !in Walk(nodes, map[key := row], 5, Asker(7, []), 2, 0)
  {
    var nodes := map[1 := NodeRow(5, None, false), 2 := NodeRow(5, Some(1), false)];
    var key, p := AclKey(5, 1, Subject(UserSubject, 7)), ParentsIn(nodes);
    RankedIsAcyclic(p, map[1 := 0, 2 := 1]);
    assert Up(p, 2, 0) == Some(2) && Up(p, 2, 1) == Up(p, 1, 0) == Some(1);
    WalkRow(nodes, map[key := StoredRow(row)], 5, Asker(7, []), 2, 2, 0, key);
    assert Applies(nodes, map[key := StoredRow(row)], 5, Asker(7, []), 2, key, 1);
    WalkRow(nodes, map[key := row], 5, Asker(7, []), 2, 2, 0, key);
  }

  datatype Membership = Membership(ws: nat, user: nat)

  /** Exactly the existing users of workspace `ws` have to have their tokens renewed. */
  predicate Renewed(members: set<Membership>, ws: nat, before: map<nat, nat>, after: map<nat, nat>) {
    && after.Keys == before.Keys
    && forall u :: u in before ==> after[u] == before[u] + if Membership(ws, u) in members then 1 else 0
  }

  /** The table node_acls, with what its writers touch beside it: the auth versions of
      the users of the workspace. */
  class RuleTable {
    var acls: Acls
    var members: set<Membership>
    var authVersions: map<nat, nat>

    constructor ()
      ensures acls == map[] && members == {} && authVersions == map[]
    {
      acls, members, authVersions := map[], {}, map[];
    }

    /** incrementWorkspaceUsersAuthVersion. */
    method IncrementWorkspaceUsers(ws: nat)
      modifies this`authVersions
      ensures Renewed(members, ws, old(authVersions), authVersions)
    {
      var users := set m | m in members && m.ws == ws :: m.user;
      if |users| == 0 {
        assert forall u :: Membership(ws, u) in members ==> u in users;
        return;
      }
      authVersions := map u | u in authVersions :: if u in users then authVersions[u] + 1 else authVersions[u];
      assert forall u :: u in users <==> Membership(ws, u) in members;
    }

    /** Upsert on the unique index. */
    method GrantPermission(ws: nat, n: Id, rule: Rule)
      modifies this`acls, this`authVersions
      ensures Wrote(old(acls), acls, Grant(ws, n, rule)) && WrittenAt(old(acls), acls, ws, n)
      ensures acls[AclKey(ws, n, rule.subject)] == rule.row <==> rule.row.inherit
      ensures Renewed(members, ws, old(authVersions), authVersions)
    {
      var stored := if rule.row.inherit then rule.row else rule.row.(inherit := true);
      acls := acls[AclKey(ws, n, rule.subject) := stored];
      IncrementWorkspaceUsers(ws);
    }

    method RevokePermission(ws: nat, n: Id, subject: Subject)
      modifies this`acls, this`authVersions
      ensures Wrote(old(acls), acls, Revoke(ws, n, subject)) && WrittenAt(old(acls), acls, ws, n)
      ensures Renewed(members, ws, old(authVersions), authVersions)
    {
      acls := acls - {AclKey(ws, n, subject)};
      IncrementWorkspaceUsers(ws);
    }

    /** Delete all rules of the node, then insert the new ones; a repeated subject
        meets the unique index and rolls everything back. */
    method ReplaceDirectPermissions(ws: nat, n: Id, rules: seq<Rule>) returns (ok: bool)
      modifies this`acls, this`authVersions
      ensures ok <==> OneEach(rules)
      ensures Wrote(old(acls), acls, Replace(ws, n, rules))
      ensures ok && AsGiven(acls, ws, n, rules) <==> OneEach(rules) && forall i :: 0 <= i < |rules| ==> rules[i].row.inherit
      ensures if ok then Renewed(members, ws, old(authVersions), authVersions) else authVersions == old(authVersions)
    {
      var saved := acls;
      acls := map k | k in acls && !(k.ws == ws && k.node == n) :: acls[k];
      ok := InsertRules(ws, n, rules, saved);
      if !ok {
        acls := saved;
        return;
      }
      GivenIfInheriting(saved, acls, ws, n, rules);
      IncrementWorkspaceUsers(ws);
    }

    method InsertRules(ws: nat, n: Id, rules: seq<Rule>, ghost before: Acls) returns (ok: bool)
      requires Replaced(before, acls, ws, n, [])
      modifies this`acls
      ensures ok <==> OneEach(rules)
      ensures ok ==> Replaced(before, acls, ws, n, rules)
    {
      var i := 0;
      ghost var done: seq<Rule> := [];
      while i < |rules|
        invariant 0 <= i <= |rules| && done == rules[..i]
        invariant OneEach(done) && Replaced(before, acls, ws, n, done)
      {
        var key := AclKey(ws, n, rules[i].subject);
        OneMoreRule(before, acls, ws, n, done, rules[i]);
        done, i := done + [rules[i]], i + 1;
        if key in acls {
          return false;
        }
        var row := rules[i - 1].row;
        acls := acls[key := if row.inherit then row else row.(inherit := true)];
      }
      assert done == rules;
      return true;
    }
  }
}
