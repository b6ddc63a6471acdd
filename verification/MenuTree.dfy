/** The menu tree shown to a user: the menus he may open, closed under parents that
    may be shown, and nested from the top level. */
module MenuTree {
  import opened Common
  import opened Sorting
  import opened Forest
  import opened Menu

  datatype Item = Item(id: Id, row: MenuRow)

  /** A menu that may appear in the tree at all. */
  predicate Showable(row: MenuRow) {
    row.enabled && !row.hidden && row.kind != Button
  }

  // ----- closing under parents ---------------------------------------------------------

  /** The parent step that ensureMenuParents takes. */
  function ShownParents(all: Menus): Parents {
    map id | id in all ::
      if all[id].parent != 0 && all[id].parent in all && Showable(all[all[id].parent]) then Some(all[id].parent) else None
  }

  ghost function Closure(all: Menus, start: set<Id>): set<Id> {
    set a | a in all && exists v :: v in start && Below(ShownParents(all), v, a)
  }

  ghost predicate ClosedUp(all: Menus, s: set<Id>) {
    forall m :: m in s && m in all && ShownParents(all)[m].Some? ==> ShownParents(all)[m].value in s
  }

  /** The closure is the least superset that is closed under showable parents. */
  lemma ClosureIsLeast(all: Menus, start: set<Id>)
    requires start <= all.Keys
    ensures start <= Closure(all, start) && ClosedUp(all, Closure(all, start))
    ensures forall s :: start <= s && ClosedUp(all, s) ==> Closure(all, start) <= s
  {
    var e := ShownParents(all);
    forall v | v in start ensures v in Closure(all, start) {
      assert Up(e, v, 0) == Some(v);
    }
    forall m | m in Closure(all, start) && e[m].Some? ensures e[m].value in Closure(all, start) {
      ClosureStep(all, start, m);
    }
    forall s | start <= s && ClosedUp(all, s) ensures Closure(all, start) <= s {
      forall a | a in Closure(all, start) ensures a in s {
        var v :| v in start && Below(e, v, a);
        var k: nat :| Up(e, v, k) == Some(a);
        UpClosedStays(e, s, v, k);
      }
    }
  }

  lemma ClosureStep(all: Menus, start: set<Id>, m: Id)
    requires m in Closure(all, start) && ShownParents(all)[m].Some?
    ensures ShownParents(all)[m].value in Closure(all, start)
  {
    var e := ShownParents(all);
    var v :| v in start && Below(e, v, m);
    var k: nat :| Up(e, v, k) == Some(m);
    UpAdd(e, v, k, 1);
    assert Up(e, m, 1) == e[m];
    assert Up(e, v, k + 1) == e[m];
  }

  predicate Leq(a: Item, b: Item) {
    a.row.sortOrder < b.row.sortOrder || (a.row.sortOrder == b.row.sortOrder && a.id <= b.id)
  }

  function IdSet(items: seq<Item>): set<Id> {
    set it | it in items :: it.id
  }

  ghost predicate DistinctIds(items: seq<Item>) {
    forall i, j :: 0 <= i < j < |items| ==> items[i].id != items[j].id
  }

  ghost predicate FromTable(items: seq<Item>, all: Menus) {
    DistinctIds(items) && forall it :: it in items ==> it.id in all && all[it.id] == it.row
  }

  lemma OneMoreItem(items: seq<Item>, it: Item, all: Menus)
    requires FromTable(items, all) && it.id in all && all[it.id] == it.row && it.id !in IdSet(items)
    ensures FromTable(items + [it], all) && IdSet(items + [it]) == IdSet(items) + {it.id}
  {
    var more := items + [it];
    forall i, j | 0 <= i < j < |more| ensures more[i].id != more[j].id {
      if j == |items| {
        assert more[i] in items;
      }
    }
    forall x ensures x in IdSet(more) <==> x in IdSet(items) + {it.id} {
      if x in IdSet(items) {
        var y :| y in items && y.id == x;
        assert y in more;
      }
      assert it in more;
    }
  }

  /** What has been collected lies inside `goal`, which is closed upwards. */
  ghost predicate Collecting(items: seq<Item>, all: Menus, goal: set<Id>) {
    FromTable(items, all) && IdSet(items) <= goal
  }

  predicate ParentSeen(all: Menus, seen: set<Id>, it: Item) {
    it.row.parent == 0 || it.row.parent in seen || it.row.parent !in all || !Showable(all[it.row.parent])
  }

  lemma CollectParent(items: seq<Item>, menu: Item, all: Menus, goal: set<Id>)
    requires Collecting(items, all, goal) && ClosedUp(all, goal)
    requires menu.id in IdSet(items) && menu.id in all && all[menu.id] == menu.row
    requires !ParentSeen(all, IdSet(items), menu)
    ensures var parent := Item(menu.row.parent, all[menu.row.parent]);
            Collecting(items + [parent], all, goal) && IdSet(items + [parent]) == IdSet(items) + {parent.id}
  {
    assert ShownParents(all)[menu.id] == Some(menu.row.parent);
    OneMoreItem(items, Item(menu.row.parent, all[menu.row.parent]), all);
  }

  /** A pass that finds every parent seen has reached the end. */
  lemma AllSeenIsClosed(items: seq<Item>, all: Menus)
    requires FromTable(items, all) && forall j :: 0 <= j < |items| ==> ParentSeen(all, IdSet(items), items[j])
    ensures ClosedUp(all, IdSet(items))
  {
    forall m | m in IdSet(items) && ShownParents(all)[m].Some? ensures ShownParents(all)[m].value in IdSet(items) {
      var it :| it in items && it.id == m;
      var j :| 0 <= j < |items| && items[j] == it;
      assert ParentSeen(all, IdSet(items), items[j]);
    }
  }

  /** One pass over the menus collected so far. Parents found on the way are looked
      at in the next pass. */
  method AddParents(menus: seq<Item>, all: Menus, ghost goal: set<Id>) returns (more: seq<Item>, added: bool)
    requires Collecting(menus, all, goal) && ClosedUp(all, goal)
    ensures Collecting(more, all, goal)
    ensures added ==> IdSet(menus) < IdSet(more)
    ensures !added ==> more == menus && ClosedUp(all, IdSet(menus))
  {
    more, added := menus, false;
    var seen := IdSet(menus);
    ghost var first := seen;
    var i := 0;
    while i < |menus|
      invariant 0 <= i <= |menus| && seen == IdSet(more) && first <= seen && Collecting(more, all, goal)
      invariant if added then first < seen else more == menus && forall j :: 0 <= j < i ==> ParentSeen(all, seen, menus[j])
    {
      var menu := menus[i];
      Listed(menus, menu);
      i := i + 1;
      if menu.row.parent == 0 || menu.row.parent in seen {
        continue;
      }
      if menu.row.parent !in all || !Showable(all[menu.row.parent]) {
        continue;
      }
      CollectParent(more, menu, all, goal);
      more := more + [Item(menu.row.parent, all[menu.row.parent])];
      seen := seen + {menu.row.parent};
      added := true;
    }
    if !added {
      AllSeenIsClosed(menus, all);
    }
  }

  lemma Listed(items: seq<Item>, it: Item)
    requires it in items
    ensures it.id in IdSet(items)
  {
  }

  /** ensureMenuParents: the least superset of the given menus that is closed under
      showable parents, in display order. */
  method EnsureMenuParents(menus: seq<Item>, all: Menus) returns (result: seq<Item>)
    requires FromTable(menus, all)
    ensures FromTable(result, all) && IdSet(result) == Closure(all, IdSet(menus))
    ensures SortedBy(result, Leq)
  {
    ghost var start := IdSet(menus);
    InTable(menus, all);
    ClosureIsLeast(all, start);
    var found := CollectAll(menus, all, Closure(all, start));
    result := SortBy(found, Leq);
    SortSorted(found, Leq);
    SortElements(found, Leq);
    SortedDistinct(found, result);
  }

  lemma InTable(items: seq<Item>, all: Menus)
    requires FromTable(items, all)
    ensures IdSet(items) <= all.Keys
  {
  }

  method CollectAll(menus: seq<Item>, all: Menus, ghost goal: set<Id>) returns (found: seq<Item>)
    requires Collecting(menus, all, goal) && ClosedUp(all, goal)
    ensures Collecting(found, all, goal) && IdSet(menus) <= IdSet(found) && ClosedUp(all, IdSet(found))
  {
    var added := true;
    found := menus;
    ghost var start := IdSet(menus);
    while added
      invariant Collecting(found, all, goal) && start <= IdSet(found)
      invariant !added ==> ClosedUp(all, IdSet(found))
      decreases |all.Keys - IdSet(found)|, added
    {
      ghost var before := IdSet(found);
      found, added := AddParents(found, all, goal);
      if added {
        InTable(found, all);
        SubsetSmaller(all.Keys - IdSet(found), all.Keys - before);
      }
    }
  }

  lemma SortedDistinct(a: seq<Item>, b: seq<Item>)
    requires DistinctIds(a) && multiset(b) == multiset(a) && forall x :: x in b <==> x in a
    ensures DistinctIds(b) && IdSet(b) == IdSet(a)
  {
    forall i, j | 0 <= i < j < |b| ensures b[i].id != b[j].id {
      if b[i].id == b[j].id {
        assert b[i] in a && b[j] in a;
        CountOnce(a, b[i]);
        CountTwice(b, i, j);
      }
    }
  }

  lemma {:induction false} CountOnce(a: seq<Item>, x: Item)
    requires DistinctIds(a)
    ensures multiset(a)[x] <= 1
  {
    if a != [] {
      var before, last := a[..|a| - 1], a[|a| - 1];
      CountOnce(before, x);
      assert a == before + [last];
      if x == last {
        assert x !in before;
      }
    }
  }

  lemma CountTwice(b: seq<Item>, i: nat, j: nat)
    requires i < j < |b| && b[i] == b[j]
    ensures multiset(b)[b[i]] >= 2
  {
    assert b == b[..j] + [b[j]] + b[j + 1..];
    assert b[i] == b[..j][i] && b[i] in b[..j];
  }

  // ----- nesting --------------------------------------------------------------------------

  datatype Tree = Tree(item: Item, children: seq<Tree>)

  /** The menus strictly below `x`; all of them below the top level. */
  ghost function Span(table: Menus, x: Id): set<Id> {
    if x == 0 then table.Keys else set m | m in table && m != x && Below(ParentIds(table), m, x)
  }

  ghost predicate Nestable(items: seq<Item>, table: Menus) {
    FromTable(items, table) && IdSet(items) == table.Keys && Acyclic(ParentIds(table)) && 0 !in table
  }

  lemma ChildSpan(table: Menus, x: Id, c: Id)
    requires Acyclic(ParentIds(table)) && 0 !in table && c in table && table[c].parent == x && (x == 0 || x in table)
    ensures |Span(table, c)| < |Span(table, x)|
  {
    var p := ParentIds(table);
    assert Up(p, c, 0) == Some(c);
    if x != 0 {
      assert p[c] == Some(x) && Up(p, x, 0) == Some(x) && Up(p, c, 1) == Some(x);
      NotBelowChild(p, x, c);
      forall m | m in Span(table, c) ensures m in Span(table, x) {
        BelowTrans(p, m, c, x);
      }
    }
    assert c in Span(table, x) && c !in Span(table, c);
    SubsetSmaller(Span(table, c), Span(table, x));
  }

  /** A menu is not below its own child. */
  lemma NotBelowChild(p: Parents, x: Id, c: Id)
    requires Acyclic(p) && Up(p, c, 1) == Some(x)
    ensures !Below(p, x, c)
  {
    forall k: nat ensures Up(p, x, k) != Some(c) {
      UpAdd(p, c, 1, k);
    }
  }

  /** buildMenuTree: the menus among `rest` whose parent is `x`, each with its own
      children taken from all of `items`. */
  function BuildTree(items: seq<Item>, rest: seq<Item>, x: Id, ghost table: Menus): seq<Tree>
    requires Nestable(items, table) && (x == 0 || x in table) && forall it :: it in rest ==> it in items
    decreases |Span(table, x)|, |rest|
  {
    if rest == [] then []
    else
      var it := rest[0];
      if it.row.parent != x then BuildTree(items, rest[1..], x, table)
      else
        ChildSpan(table, x, it.id);
        [Tree(it, BuildTree(items, items, it.id, table))] + BuildTree(items, rest[1..], x, table)
  }

  /** The ids of a tree list, parents before children. */
  function Flatten(trees: seq<Tree>): seq<Id> {
    if trees == [] then []
    else [trees[0].item.id] + Flatten(trees[0].children) + Flatten(trees[1..])
  }

  /** `m` belongs under `x` through one of the menus in `rest`. */
  ghost predicate UnderOne(rest: seq<Item>, x: Id, table: Menus, m: Id) {
    exists it :: it in rest && it.row.parent == x && Below(ParentIds(table), m, it.id)
  }

  lemma BelowOneChild(items: seq<Item>, x: Id, table: Menus, m: Id)
    requires Nestable(items, table) && x in table && m != x
    ensures Below(ParentIds(table), m, x) <==> UnderOne(items, x, table, m)
  {
    var p := ParentIds(table);
    if Below(p, m, x) {
      var k: nat :| Up(p, m, k) == Some(x);
      UpAdd(p, m, k - 1, 1);
      var c := Up(p, m, k - 1).value;
      assert Up(p, m, k - 1) == Some(c) && Up(p, c, 1) == Some(x);
      UpStays(p, m, k - 1);
      assert c in IdSet(items);
      var it :| it in items && it.id == c;
      assert it.row.parent == x;
    }
    if UnderOne(items, x, table, m) {
      var it :| it in items && it.row.parent == x && Below(p, m, it.id);
      assert p[it.id] == Some(x) && Up(p, x, 0) == Some(x) && Up(p, it.id, 1) == Some(x);
      BelowTrans(p, m, it.id, x);
    }
  }

  /** Two different children of one parent share no descendant. */
  lemma ChildrenDisjoint(table: Menus, x: Id, a: Id, b: Id, m: Id)
    requires Acyclic(ParentIds(table)) && a in table && b in table && a != b && (x == 0 || x in table) && 0 !in table
    requires table[a].parent == x && table[b].parent == x
    ensures !(Below(ParentIds(table), m, a) && Below(ParentIds(table), m, b))
  {
    SiblingNotAbove(table, x, a, b);
    SiblingNotAbove(table, x, b, a);
    if Below(ParentIds(table), m, a) && Below(ParentIds(table), m, b) {
      AncestorsComparable(ParentIds(table), m, a, b);
    }
  }

  lemma SiblingNotAbove(table: Menus, x: Id, a: Id, b: Id)
    requires Acyclic(ParentIds(table)) && a in table && b in table && a != b && (x == 0 || x in table) && 0 !in table
    requires table[a].parent == x && table[b].parent == x
    ensures !Below(ParentIds(table), a, b)
  {
    var p := ParentIds(table);
    BelowByStep(p, a, b);
    if x != 0 {
      assert p[b] == Some(x) && Up(p, x, 0) == Some(x) && Up(p, b, 1) == Some(x);
      NotBelowChild(p, x, b);
    }
  }

  /** Each menu under `x` occurs exactly once, and nothing else does. */
  lemma {:induction false} TreeHolds(items: seq<Item>, rest: seq<Item>, x: Id, table: Menus)
    requires Nestable(items, table) && (x == 0 || x in table)
    requires DistinctIds(rest) && forall it :: it in rest ==> it in items
    ensures NoRepeat(Flatten(BuildTree(items, rest, x, table)))
    ensures forall m :: m in Flatten(BuildTree(items, rest, x, table)) <==> UnderOne(rest, x, table, m)
    decreases |Span(table, x)|, |rest|
  {
    if rest != [] {
      var it, tail := rest[0], rest[1..];
      TreeHolds(items, tail, x, table);
      if it.row.parent != x {
        forall m ensures UnderOne(rest, x, table, m) <==> UnderOne(tail, x, table, m) {
          assert rest == [it] + tail;
        }
      } else {
        ChildSpan(table, x, it.id);
        TreeHolds(items, items, it.id, table);
        OneMoreTree(items, it, tail, x, table);
        assert rest == [it] + tail;
      }
    }
  }

  lemma OneMoreTree(items: seq<Item>, it: Item, tail: seq<Item>, x: Id, table: Menus)
    requires Nestable(items, table) && (x == 0 || x in table) && it in items && it.row.parent == x
    requires DistinctIds([it] + tail) && forall t :: t in tail ==> t in items
    requires |Span(table, it.id)| < |Span(table, x)|
    requires var inner := Flatten(BuildTree(items, items, it.id, table));
             NoRepeat(inner) && forall m :: m in inner <==> UnderOne(items, it.id, table, m)
    requires var others := Flatten(BuildTree(items, tail, x, table));
             NoRepeat(others) && forall m :: m in others <==> UnderOne(tail, x, table, m)
    ensures var inner, others := Flatten(BuildTree(items, items, it.id, table)), Flatten(BuildTree(items, tail, x, table));
            && NoRepeat([it.id] + inner + others)
            && (forall m :: m in [it.id] + inner + others <==> UnderOne([it] + tail, x, table, m))
  {
    var p := ParentIds(table);
    var inner, others := Flatten(BuildTree(items, items, it.id, table)), Flatten(BuildTree(items, tail, x, table));
    assert Up(p, it.id, 0) == Some(it.id);
    forall m ensures m == it.id || m in inner <==> Below(p, m, it.id) {
      if m != it.id {
        BelowOneChild(items, it.id, table, m);
      }
    }
    NotUnderItself(items, it.id, table);
    forall m | m in others ensures m != it.id && m !in inner {
      NotUnderTwo(items, it, tail, x, table, m);
    }
    ThreeParts(it.id, inner, others);
    forall m ensures UnderOne([it] + tail, x, table, m) <==> Below(p, m, it.id) || UnderOne(tail, x, table, m) {
      SplitUnder(it, tail, x, table, m);
    }
  }

  lemma NotUnderItself(items: seq<Item>, x: Id, table: Menus)
    requires Nestable(items, table) && x in table
    ensures !UnderOne(items, x, table, x)
  {
    var p := ParentIds(table);
    forall it | it in items && it.row.parent == x ensures !Below(p, x, it.id) {
      assert p[it.id] == Some(x) && Up(p, x, 0) == Some(x) && Up(p, it.id, 1) == Some(x);
      NotBelowChild(p, x, it.id);
    }
  }

  lemma NotUnderTwo(items: seq<Item>, it: Item, tail: seq<Item>, x: Id, table: Menus, m: Id)
    requires Nestable(items, table) && (x == 0 || x in table) && it in items && it.row.parent == x
    requires DistinctIds([it] + tail) && forall t :: t in tail ==> t in items
    requires UnderOne(tail, x, table, m)
    ensures !Below(ParentIds(table), m, it.id)
  {
    var other :| other in tail && other.row.parent == x && Below(ParentIds(table), m, other.id);
    var j :| 0 <= j < |tail| && tail[j] == other;
    assert ([it] + tail)[j + 1] == other && ([it] + tail)[0] == it;
    ChildrenDisjoint(table, x, it.id, other.id, m);
  }

  lemma SplitUnder(it: Item, tail: seq<Item>, x: Id, table: Menus, m: Id)
    requires it.row.parent == x
    ensures UnderOne([it] + tail, x, table, m) <==> Below(ParentIds(table), m, it.id) || UnderOne(tail, x, table, m)
  {
    assert it in [it] + tail;
    if UnderOne(tail, x, table, m) {
      var t :| t in tail && t.row.parent == x && Below(ParentIds(table), m, t.id);
      assert t in [it] + tail;
    }
  }

  lemma ThreeParts(x: Id, a: seq<Id>, b: seq<Id>)
    requires NoRepeat(a) && NoRepeat(b) && x !in a && x !in b && forall m :: m in b ==> m !in a
    ensures NoRepeat([x] + a + b)
  {
    var all := [x] + a + b;
    forall i, j | 0 <= i < j < |all| ensures all[i] != all[j] {
      if i == 0 {
        assert all[j] in a || all[j] in b;
      } else if i <= |a| < j {
        assert all[i] in a && all[j] in b;
      }
    }
  }

  /** Siblings stand in display order on every level. */
  ghost predicate InOrder(trees: seq<Tree>) {
    && (forall i, j :: 0 <= i < j < |trees| ==>
          || trees[i].item.row.sortOrder < trees[j].item.row.sortOrder
          || (trees[i].item.row.sortOrder == trees[j].item.row.sortOrder && trees[i].item.id <= trees[j].item.id))
    && (forall i :: 0 <= i < |trees| ==> InOrder(trees[i].children))
  }

  lemma InOrderCons(first: Tree, others: seq<Tree>)
    requires InOrder(first.children) && InOrder(others) && forall i :: 0 <= i < |others| ==> Leq(first.item, others[i].item)
    ensures InOrder([first] + others)
  {
  }

  /** The items on the top of a tree list. */
  function Tops(trees: seq<Tree>): seq<Item> {
    seq(|trees|, i requires 0 <= i < |trees| => trees[i].item)
  }

  lemma HeadLeads(rest: seq<Item>, others: seq<Tree>)
    requires rest != [] && SortedBy(rest, Leq) && forall it :: it in Tops(others) ==> it in rest[1..]
    ensures forall i :: 0 <= i < |others| ==> Leq(rest[0], others[i].item)
  {
    forall i | 0 <= i < |others| ensures Leq(rest[0], others[i].item) {
      assert Tops(others)[i] in rest[1..];
      var j :| 0 <= j < |rest[1..]| && rest[1..][j] == others[i].item;
      assert rest[j + 1] == others[i].item;
    }
  }

  lemma {:induction false} TopsFromList(items: seq<Item>, rest: seq<Item>, x: Id, table: Menus)
    requires Nestable(items, table) && (x == 0 || x in table) && forall it :: it in rest ==> it in items
    ensures forall it :: it in Tops(BuildTree(items, rest, x, table)) ==> it in rest
    decreases |rest|
  {
    if rest != [] {
      TopsFromList(items, rest[1..], x, table);
      if rest[0].row.parent == x {
        var others := BuildTree(items, rest[1..], x, table);
        ChildSpan(table, x, rest[0].id);
        var first := Tree(rest[0], BuildTree(items, items, rest[0].id, table));
        assert Tops([first] + others) == [rest[0]] + Tops(others);
      }
    }
  }

  lemma SortedTail(rest: seq<Item>)
    requires rest != [] && SortedBy(rest, Leq)
    ensures SortedBy(rest[1..], Leq)
  {
  }

  lemma {:induction false} TreeInOrder(items: seq<Item>, rest: seq<Item>, x: Id, table: Menus)
    requires Nestable(items, table) && (x == 0 || x in table) && forall it :: it in rest ==> it in items
    requires SortedBy(items, Leq) && SortedBy(rest, Leq)
    ensures InOrder(BuildTree(items, rest, x, table))
    decreases |Span(table, x)|, |rest|
  {
    if rest != [] {
      var it := rest[0];
      SortedTail(rest);
      TreeInOrder(items, rest[1..], x, table);
      if it.row.parent == x {
        ChildSpan(table, x, it.id);
        TreeInOrder(items, items, it.id, table);
        TopsFromList(items, rest[1..], x, table);
        var others := BuildTree(items, rest[1..], x, table);
        HeadLeads(rest, others);
        InOrderCons(Tree(it, BuildTree(items, items, it.id, table)), others);
      }
    }
  }

  /** Every menu stands right under its own parent, on every level, and shows its table row. */
  ghost predicate Nested(trees: seq<Tree>, x: Id, all: Menus) {
    && (forall i :: 0 <= i < |trees| ==>
          trees[i].item.id in all && all[trees[i].item.id] == trees[i].item.row && trees[i].item.row.parent == x)
    && (forall i :: 0 <= i < |trees| ==> Nested(trees[i].children, trees[i].item.id, all))
  }

  lemma NestedCons(first: Tree, others: seq<Tree>, x: Id, all: Menus)
    requires first.item.id in all && all[first.item.id] == first.item.row && first.item.row.parent == x
    requires Nested(first.children, first.item.id, all) && Nested(others, x, all)
    ensures Nested([first] + others, x, all)
  {
  }

  lemma {:induction false} TreeNests(items: seq<Item>, rest: seq<Item>, x: Id, table: Menus)
    requires Nestable(items, table) && (x == 0 || x in table) && forall it :: it in rest ==> it in items
    ensures Nested(BuildTree(items, rest, x, table), x, table)
    decreases |Span(table, x)|, |rest|
  {
    if rest != [] {
      var it := rest[0];
      TreeNests(items, rest[1..], x, table);
      if it.row.parent == x {
        ChildSpan(table, x, it.id);
        TreeNests(items, items, it.id, table);
        NestedCons(Tree(it, BuildTree(items, items, it.id, table)), BuildTree(items, rest[1..], x, table), x, table);
      }
    }
  }

  lemma {:induction false} NestedInMore(trees: seq<Tree>, x: Id, some: Menus, all: Menus)
    requires Nested(trees, x, some) && forall id :: id in some ==> id in all && all[id] == some[id]
    ensures Nested(trees, x, all)
    decreases trees
  {
    forall i | 0 <= i < |trees| ensures Nested(trees[i].children, trees[i].item.id, all) {
      NestedInMore(trees[i].children, trees[i].item.id, some, all);
    }
  }

  // ----- the tree of a user ---------------------------------------------------------------

  /** Every ancestor of `m`, up to the top level, exists and may be shown. */
  ghost predicate Anchored(all: Menus, m: Id) {
    exists r :: r in all && all[r].parent == 0 && Below(ShownParents(all), m, r)
  }

  /** Inside a set that is closed under showable parents and holds showable menus
      only, walking up the members is walking up the showable parents. */
  lemma {:induction false} MemberWalk(all: Menus, members: Menus, m: Id, k: nat)
    requires members.Keys <= all.Keys && forall id :: id in members ==> members[id] == all[id] && Showable(all[id])
    requires ClosedUp(all, members.Keys) && m in members && 0 !in all
    ensures Up(ParentIds(members), m, k) == Up(ShownParents(all), m, k)
    decreases k
  {
    if k > 0 && members[m].parent != 0 && members[m].parent in members {
      assert ShownParents(all)[m] == Some(members[m].parent);
      MemberWalk(all, members, members[m].parent, k - 1);
    }
  }

  lemma AnchoredIsRooted(all: Menus, members: Menus, items: seq<Item>, m: Id)
    requires members.Keys <= all.Keys && forall id :: id in members ==> members[id] == all[id] && Showable(all[id])
    requires ClosedUp(all, members.Keys) && 0 !in all && FromTable(items, members) && IdSet(items) == members.Keys
    ensures UnderOne(items, 0, members, m) <==> m in members && Anchored(all, m)
  {
    var p, e := ParentIds(members), ShownParents(all);
    if UnderOne(items, 0, members, m) {
      var it :| it in items && it.row.parent == 0 && Below(p, m, it.id);
      var k: nat :| Up(p, m, k) == Some(it.id);
      assert m in members;
      MemberWalk(all, members, m, k);
      assert Up(e, m, k) == Some(it.id) && all[it.id].parent == 0;
    }
    if m in members && Anchored(all, m) {
      var r :| r in all && all[r].parent == 0 && Below(e, m, r);
      var k: nat :| Up(e, m, k) == Some(r);
      MemberWalk(all, members, m, k);
      UpStays(p, m, k);
      assert r in IdSet(items);
      var it :| it in items && it.id == r;
      assert it.row.parent == 0 && Below(p, m, it.id);
    }
  }

  /** Dropping parents keeps a parent map free of cycles. */
  lemma FewerParents(p: Parents, q: Parents)
    requires Acyclic(p) && q.Keys <= p.Keys && forall m :: m in q && q[m].Some? ==> p[m] == q[m]
    ensures Acyclic(q)
  {
    var rank := RankOf(p);
    RankedIsAcyclic(q, rank);
  }

  /** A walk over showable parents is a walk over parents that meets showable rows only. */
  lemma {:induction false} ShownWalk(all: Menus, v: Id, k: nat)
    requires 0 !in all
    ensures Up(ShownParents(all), v, k).Some? <==> Up(ParentIds(all), v, k).Some? && ShownOnTheWay(all, v, k)
    ensures Up(ShownParents(all), v, k).Some? ==> Up(ShownParents(all), v, k) == Up(ParentIds(all), v, k)
    decreases k
  {
    var e, p := ShownParents(all), ParentIds(all);
    if k > 0 && v in all && all[v].parent != 0 {
      var q := all[v].parent;
      ShownWalk(all, q, k - 1);
      assert forall j: nat :: Up(p, v, j + 1) == Up(p, q, j);
      if q in all {
        assert Up(p, v, 1) == Up(p, q, 0) == Some(q);
        if Up(e, v, k).Some? {
          forall j: nat | 1 <= j <= k ensures ShownAt(all, v, j) {
            assert j == 1 || ShownAt(all, q, j - 1);
          }
        }
        if Up(p, v, k).Some? && ShownOnTheWay(all, v, k) {
          assert ShownAt(all, v, 1);
          forall j: nat | 1 <= j <= k - 1 ensures ShownAt(all, q, j) {
            assert ShownAt(all, v, j + 1);
          }
        }
      } else {
        assert Up(p, q, k - 1).None?;
      }
    }
  }

  /** The row `j` steps above `v`, if there is one, may be shown. */
  ghost predicate ShownAt(all: Menus, v: Id, j: nat) {
    var a := Up(ParentIds(all), v, j);
    a.Some? && a.value in all ==> all[a.value].enabled && !all[a.value].hidden && all[a.value].kind != Button
  }

  ghost predicate ShownOnTheWay(all: Menus, v: Id, k: nat) {
    forall j: nat :: 1 <= j <= k ==> ShownAt(all, v, j)
  }

  /** Menu `m` lies on the way from the openable menu `v` up to the top level, `t` steps above,
      and every row on that way may be shown. */
  ghost predicate OnShownPath(all: Menus, v: Id, m: Id, t: nat) {
    && Up(ParentIds(all), v, t).Some? && Up(ParentIds(all), v, t).value in all
    && all[Up(ParentIds(all), v, t).value].parent == 0 && ShownOnTheWay(all, v, t)
    && exists k: nat :: k <= t && Up(ParentIds(all), v, k) == Some(m)
  }

  /** The closure together with the anchor condition, in terms of the parent column alone. */
  lemma InTreeIsOnPath(all: Menus, start: set<Id>, m: Id)
    requires Acyclic(ParentIds(all)) && 0 !in all && start <= all.Keys
    ensures m in Closure(all, start) && Anchored(all, m) <==> exists v, t: nat :: v in start && OnShownPath(all, v, m, t)
  {
    var e, p := ShownParents(all), ParentIds(all);
    if m in Closure(all, start) && Anchored(all, m) {
      var v :| v in start && Below(e, v, m);
      var k: nat :| Up(e, v, k) == Some(m);
      var r :| r in all && all[r].parent == 0 && Below(e, m, r);
      var i: nat :| Up(e, m, i) == Some(r);
      UpAdd(e, v, k, i);
      ShownWalk(all, v, k + i);
      ShownWalk(all, v, k);
      assert OnShownPath(all, v, m, k + i);
    }
    if v, t: nat :| v in start && OnShownPath(all, v, m, t) {
      var k: nat :| k <= t && Up(p, v, k) == Some(m);
      ShownWalk(all, v, t);
      ShownWalk(all, v, k);
      UpAdd(e, v, k, t - k);
      assert Up(e, v, k) == Some(m) && Below(e, v, m);
      UpStays(p, v, k);
      assert Below(e, m, Up(p, v, t).value);
    }
  }

  // ----- access ---------------------------------------------------------------------------

  predicate StartsWith(s: string, prefix: string) {
    prefix <= s
  }

  /** menuAccessible. */
  predicate Accessible(row: MenuRow, isSuperAdmin: bool, permissionSet: set<string>) {
    if row.code == "dashboard" || row.code == "workspaces" then true
    else if StartsWith(row.code, "system-") then isSuperAdmin
    else if row.code == "system" then false
    else isSuperAdmin || row.permissions == [] || exists q :: q in row.permissions && q in permissionSet
  }

  /** menuRequiresWorkspace. */
  predicate RequiresWorkspace(row: MenuRow) {
    row.code == "files" || row.code == "shares" || row.code == "audit" || row.code == "roles" || row.code == "backups"
  }

  predicate MayOpen(row: MenuRow, isSuperAdmin: bool, hasWorkspace: bool, permissionSet: set<string>) {
    Showable(row) && (hasWorkspace || !RequiresWorkspace(row)) && Accessible(row, isSuperAdmin, permissionSet)
  }

  /** Who may open a shown menu. The pages of the system section are for super administrators,
      the section itself is never opened but only comes with them, everyone opens the two start
      pages, and any other menu asks for one of its permissions, unless it has none or a super
      administrator asks. Five menus need a workspace. */
  lemma WhoMayOpen(row: MenuRow, isSuperAdmin: bool, hasWorkspace: bool, permissionSet: set<string>)
    requires row.enabled && !row.hidden && row.kind != Button
    ensures !hasWorkspace && row.code in {"files", "shares", "audit", "roles", "backups"} ==>
              !MayOpen(row, isSuperAdmin, hasWorkspace, permissionSet)
    ensures row.code in {"dashboard", "workspaces"} ==> MayOpen(row, isSuperAdmin, hasWorkspace, permissionSet)
    ensures "system-" <= row.code ==> (MayOpen(row, isSuperAdmin, hasWorkspace, permissionSet) <==> isSuperAdmin)
    ensures row.code == "system" ==> !MayOpen(row, isSuperAdmin, hasWorkspace, permissionSet)
    ensures row.code !in {"dashboard", "workspaces", "system"} && !("system-" <= row.code)
            && (hasWorkspace || row.code !in {"files", "shares", "audit", "roles", "backups"}) ==>
              (MayOpen(row, isSuperAdmin, hasWorkspace, permissionSet) <==>
                 isSuperAdmin || row.permissions == [] || exists q :: q in row.permissions && q in permissionSet)
  {
    assert row.code == "dashboard" ==> row.code[0] == 'd';
    assert row.code == "workspaces" ==> row.code[0] == 'w';
    assert row.code == "files" ==> row.code[0] == 'f';
    assert row.code == "shares" ==> row.code[1] == 'h';
    assert row.code == "audit" ==> row.code[0] == 'a';
    assert row.code == "roles" ==> row.code[0] == 'r';
    assert row.code == "backups" ==> row.code[0] == 'b';
    if "system-" <= row.code {
      assert row.code[0] == "system-"[0] == 's' && row.code[1] == "system-"[1] == 'y';
    }
  }

  /** Hidden or disabled menus and buttons are opened by nobody. */
  lemma NobodyOpens(row: MenuRow, isSuperAdmin: bool, hasWorkspace: bool, permissionSet: set<string>)
    requires !row.enabled || row.hidden || row.kind == Button
    ensures !MayOpen(row, isSuperAdmin, hasWorkspace, permissionSet)
  {
  }

  function Openable(all: Menus, isSuperAdmin: bool, hasWorkspace: bool, permissionSet: set<string>): set<Id> {
    set id | id in all && MayOpen(all[id], isSuperAdmin, hasWorkspace, permissionSet)
  }

  /** The filter loop over all menus. */
  method Filter(items: seq<Item>, all: Menus, isSuperAdmin: bool, hasWorkspace: bool, permissionSet: set<string>)
    returns (visible: seq<Item>)
    requires FromTable(items, all) && IdSet(items) == all.Keys
    ensures FromTable(visible, all) && IdSet(visible) == Openable(all, isSuperAdmin, hasWorkspace, permissionSet)
  {
    visible := [];
    var i := 0;
    while i < |items|
      invariant 0 <= i <= |items| && FromTable(visible, all)
      invariant forall id :: id in IdSet(visible) <==>
                  exists j :: 0 <= j < i && items[j].id == id && MayOpen(items[j].row, isSuperAdmin, hasWorkspace, permissionSet)
    {
      var menu := items[i];
      assert menu in items;
      if Showable(menu.row) && (hasWorkspace || !RequiresWorkspace(menu.row))
         && Accessible(menu.row, isSuperAdmin, permissionSet) {
        OneMoreItem(visible, menu, all);
        visible := visible + [menu];
      }
      i := i + 1;
    }
    forall id ensures id in IdSet(visible) <==> id in Openable(all, isSuperAdmin, hasWorkspace, permissionSet) {
      if id in Openable(all, isSuperAdmin, hasWorkspace, permissionSet) {
        assert id in IdSet(items);
        var it :| it in items && it.id == id;
        var j :| 0 <= j < |items| && items[j] == it;
      }
      if j :| 0 <= j < |items| && items[j].id == id && MayOpen(items[j].row, isSuperAdmin, hasWorkspace, permissionSet) {
        assert items[j] in items;
      }
    }
  }

  /** ListTreeForAccess: every menu the user may open, and every showable menu above
      one, occurs in the tree exactly once if all its own ancestors may be shown, and
      not at all otherwise; siblings stand in display order. */
  method ListTreeForAccess(items: seq<Item>, all: Menus, isSuperAdmin: bool, hasWorkspace: bool, permissionSet: set<string>)
    returns (tree: seq<Tree>)
    requires FromTable(items, all) && IdSet(items) == all.Keys && Acyclic(ParentIds(all)) && 0 !in all
    ensures NoRepeat(Flatten(tree)) && InOrder(tree)
    ensures forall m :: m in Flatten(tree) <==>
              m in Closure(all, Openable(all, isSuperAdmin, hasWorkspace, permissionSet)) && Anchored(all, m)
    ensures forall m :: m in Flatten(tree) <==>
              exists v, t: nat :: v in all && MayOpen(all[v], isSuperAdmin, hasWorkspace, permissionSet) && OnShownPath(all, v, m, t)
    ensures Nested(tree, 0, all)
  {
    var visible := Filter(items, all, isSuperAdmin, hasWorkspace, permissionSet);
    ghost var s := Closure(all, IdSet(visible));
    ClosureShowable(all, IdSet(visible));
    visible := EnsureMenuParents(visible, all);
    tree := Nest(visible, all, s);
    forall m ensures m in s && Anchored(all, m) <==>
                     exists v, t: nat :: v in all && MayOpen(all[v], isSuperAdmin, hasWorkspace, permissionSet) && OnShownPath(all, v, m, t)
    {
      InTreeIsOnPath(all, Openable(all, isSuperAdmin, hasWorkspace, permissionSet), m);
    }
  }

  /** buildMenuTree from the top level over a closed list of showable menus. */
  method Nest(visible: seq<Item>, all: Menus, ghost s: set<Id>) returns (tree: seq<Tree>)
    requires Acyclic(ParentIds(all)) && 0 !in all && FromTable(visible, all) && IdSet(visible) == s && SortedBy(visible, Leq)
    requires ClosedUp(all, s) && forall id :: id in s ==> id in all && Showable(all[id])
    ensures NoRepeat(Flatten(tree)) && InOrder(tree) && Nested(tree, 0, all)
    ensures forall m :: m in Flatten(tree) <==> m in s && Anchored(all, m)
  {
    ghost var members := map id | id in s && id in all :: all[id];
    MembersNest(all, s, visible, members);
    tree := BuildTree(visible, visible, 0, members);
    TreeHolds(visible, visible, 0, members);
    TreeInOrder(visible, visible, 0, members);
    TreeNests(visible, visible, 0, members);
    NestedInMore(tree, 0, members, all);
    forall m ensures UnderOne(visible, 0, members, m) <==> m in members && Anchored(all, m) {
      AnchoredIsRooted(all, members, visible, m);
    }
  }

  lemma ClosureShowable(all: Menus, start: set<Id>)
    requires start <= all.Keys && forall id :: id in start ==> Showable(all[id])
    ensures ClosedUp(all, Closure(all, start)) && forall id :: id in Closure(all, start) ==> id in all && Showable(all[id])
  {
    ClosureIsLeast(all, start);
    var shown := set id | id in all && Showable(all[id]);
    ShownClosed(all, shown);
    assert Closure(all, start) <= shown;
  }

  lemma ShownClosed(all: Menus, shown: set<Id>)
    requires shown == set id | id in all && Showable(all[id])
    ensures ClosedUp(all, shown)
  {
  }

  lemma MembersNest(all: Menus, s: set<Id>, visible: seq<Item>, members: Menus)
    requires Acyclic(ParentIds(all)) && 0 !in all && FromTable(visible, all) && IdSet(visible) == s
    requires members == map id | id in s && id in all :: all[id]
    ensures Nestable(visible, members) && members.Keys == s
  {
    InTable(visible, all);
    FewerParents(ParentIds(all), ParentIds(members));
    forall it | it in visible ensures it.id in members && members[it.id] == it.row {
      Listed(visible, it);
    }
  }
}
