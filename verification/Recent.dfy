/** Recently opened nodes: one row per user and node, of which only the newest
    hundred of each user are kept. */
module Recent {
  import opened Sorting

  const LIMIT: nat := 100

  datatype Owner = Owner(ws: nat, user: nat)
  datatype Key = Key(owner: Owner, node: nat)
  datatype Row = Row(id: nat, owner: Owner, node: nat, count: nat, at: nat)

  function KeyOfRow(r: Row): Key {
    Key(r.owner, r.node)
  }

  // ----- lists of nodes -----------------------------------------------------------------

  function Without(s: seq<nat>, x: nat): seq<nat> {
    if s == [] then [] else (if s[0] == x then [] else [s[0]]) + Without(s[1..], x)
  }

  /** The distinct nodes of a history that starts with the newest access, each at its
      newest place. */
  function Distinct(history: seq<nat>): seq<nat> {
    if history == [] then [] else [history[0]] + Without(Distinct(history[1..]), history[0])
  }

  lemma {:induction false} WithoutElements(s: seq<nat>, x: nat)
    ensures forall y :: y in Without(s, x) <==> y in s && y != x
  {
    if s != [] {
      WithoutElements(s[1..], x);
      assert s == [s[0]] + s[1..];
    }
  }

  lemma {:induction false} WithoutNoRepeat(s: seq<nat>, x: nat)
    requires NoRepeat(s)
    ensures NoRepeat(Without(s, x))
  {
    if s != [] {
      WithoutNoRepeat(s[1..], x);
      WithoutElements(s[1..], x);
      HeadAbsent(s);
      NoRepeatCons(s[0], Without(s[1..], x));
    }
  }

  lemma HeadAbsent(s: seq<nat>)
    requires s != [] && NoRepeat(s)
    ensures s[0] !in s[1..]
  {
    assert forall i :: 0 <= i < |s[1..]| ==> s[1..][i] == s[i + 1];
  }

  lemma NoRepeatCons(x: nat, s: seq<nat>)
    ensures NoRepeat(s) && x !in s ==> NoRepeat([x] + s)
  {
  }

  lemma {:induction false} WithoutAbsent(s: seq<nat>, x: nat)
    requires x !in s
    ensures Without(s, x) == s
  {
    if s != [] {
      assert s[0] in s;
      assert forall y :: y in s[1..] ==> y in s;
      WithoutAbsent(s[1..], x);
      assert s == [s[0]] + s[1..];
    }
  }

  lemma {:induction false} DistinctElements(history: seq<nat>)
    ensures NoRepeat(Distinct(history)) && forall y :: y in Distinct(history) <==> y in history
  {
    if history != [] {
      DistinctElements(history[1..]);
      WithoutElements(Distinct(history[1..]), history[0]);
      WithoutNoRepeat(Distinct(history[1..]), history[0]);
      NoRepeatCons(history[0], Without(Distinct(history[1..]), history[0]));
      assert history == [history[0]] + history[1..];
    }
  }

  /** Cutting a list short before taking out one element loses nothing that one
      place less would keep. */
  lemma {:induction false} CutThenTakeOut(s: seq<nat>, x: nat, n: nat)
    requires NoRepeat(s) && n >= 1
    ensures First(Without(First(s, n), x), n - 1) == First(Without(s, x), n - 1)
  {
    if s != [] && n > 1 {
      var rest := s[1..];
      assert First(s, n) == [s[0]] + First(rest, n - 1);
      assert ([s[0]] + First(rest, n - 1))[1..] == First(rest, n - 1);
      if s[0] == x {
        HeadAbsent(s);
        WithoutAbsent(rest, x);
        FirstElements(rest, n - 1);
        WithoutAbsent(First(rest, n - 1), x);
      } else {
        CutThenTakeOut(rest, x, n - 1);
        FirstCons(s[0], Without(First(rest, n - 1), x), n - 1);
        FirstCons(s[0], Without(rest, x), n - 1);
      }
    }
  }

  lemma FirstCons(x: nat, s: seq<nat>, n: nat)
    requires n >= 1
    ensures First([x] + s, n) == [x] + First(s, n - 1)
  {
  }

  lemma FirstElements(s: seq<nat>, n: nat)
    ensures forall x :: x in First(s, n) ==> x in s
  {
  }

  /** One access on the bounded list is one access on the whole history. */
  lemma TouchIsDistinct(history: seq<nat>, x: nat)
    ensures First([x] + Without(First(Distinct(history), LIMIT), x), LIMIT) == First(Distinct([x] + history), LIMIT)
  {
    DistinctElements(history);
    var d := Distinct(history);
    CutThenTakeOut(d, x, LIMIT);
    assert ([x] + history)[1..] == history;
    FirstCons(x, Without(First(d, LIMIT), x), LIMIT);
    FirstCons(x, Without(d, x), LIMIT);
  }

  // ----- lists of rows --------------------------------------------------------------------

  function Nodes(rows: seq<Row>): seq<nat> {
    if rows == [] then [] else [rows[0].node] + Nodes(rows[1..])
  }

  function WithoutNode(rows: seq<Row>, x: nat): seq<Row> {
    if rows == [] then [] else (if rows[0].node == x then [] else [rows[0]]) + WithoutNode(rows[1..], x)
  }

  /** ORDER BY last_accessed_at DESC, id DESC. */
  predicate Newer(a: Row, b: Row) {
    a.at > b.at || (a.at == b.at && a.id > b.id)
  }

  predicate NotOlder(a: Row, b: Row) {
    a.at > b.at || (a.at == b.at && a.id >= b.id)
  }

  ghost predicate NewestFirst(rows: seq<Row>) {
    forall i, j :: 0 <= i < j < |rows| ==> Newer(rows[i], rows[j])
  }

  lemma {:induction false} NodesElements(rows: seq<Row>)
    ensures |Nodes(rows)| == |rows| && forall i :: 0 <= i < |rows| ==> Nodes(rows)[i] == rows[i].node
  {
    if rows != [] {
      NodesElements(rows[1..]);
    }
  }

  lemma {:induction false} WithoutNodeElements(rows: seq<Row>, x: nat)
    ensures forall r :: r in WithoutNode(rows, x) <==> r in rows && r.node != x
  {
    if rows != [] {
      WithoutNodeElements(rows[1..], x);
      assert rows == [rows[0]] + rows[1..];
    }
  }

  lemma {:induction false} WithoutNodeNodes(rows: seq<Row>, x: nat)
    ensures Nodes(WithoutNode(rows, x)) == Without(Nodes(rows), x)
  {
    if rows != [] {
      WithoutNodeNodes(rows[1..], x);
      assert Nodes(rows)[1..] == Nodes(rows[1..]);
      var rest := WithoutNode(rows[1..], x);
      assert ([rows[0]] + rest)[1..] == rest && Nodes([rows[0]] + rest) == [rows[0].node] + Nodes(rest);
      assert WithoutNode(rows, x) == if rows[0].node == x then rest else [rows[0]] + rest;
    }
  }

  lemma {:induction false} WithoutNodeOrder(rows: seq<Row>, x: nat)
    requires NewestFirst(rows)
    ensures NewestFirst(WithoutNode(rows, x))
  {
    if rows != [] {
      WithoutNodeOrder(rows[1..], x);
      WithoutNodeElements(rows[1..], x);
      forall r | r in WithoutNode(rows[1..], x) ensures Newer(rows[0], r) {
        var i :| 0 <= i < |rows[1..]| && rows[1..][i] == r;
        assert rows[i + 1] == r;
      }
      NewerFirst(rows[0], WithoutNode(rows[1..], x));
    }
  }

  lemma NewerFirst(row: Row, rows: seq<Row>)
    requires NewestFirst(rows) && forall r :: r in rows ==> Newer(row, r)
    ensures NewestFirst([row] + rows)
  {
  }

  /** The place of a row in a list that is ordered. */
  function Placed(row: Row, rows: seq<Row>): seq<Row> {
    if rows == [] || Newer(row, rows[0]) then [row] + rows else [rows[0]] + Placed(row, rows[1..])
  }

  lemma {:induction false} PlacedElements(row: Row, rows: seq<Row>)
    ensures |Placed(row, rows)| == |rows| + 1
    ensures forall r :: r in Placed(row, rows) <==> r == row || r in rows
  {
    if rows != [] && !Newer(row, rows[0]) {
      PlacedElements(row, rows[1..]);
      assert rows == [rows[0]] + rows[1..];
    }
  }

  lemma {:induction false} PlacedOrder(row: Row, rows: seq<Row>)
    requires NewestFirst(rows) && forall r :: r in rows ==> Newer(row, r) || Newer(r, row)
    ensures NewestFirst(Placed(row, rows))
  {
    if rows != [] {
      assert rows[0] in rows;
      forall r | r in rows[1..] ensures Newer(rows[0], r) && r in rows {
        var i :| 0 <= i < |rows[1..]| && rows[1..][i] == r;
        assert rows[i + 1] == r;
      }
      if Newer(row, rows[0]) {
        NewerFirst(row, rows);
      } else {
        PlacedOrder(row, rows[1..]);
        PlacedElements(row, rows[1..]);
        NewerFirst(rows[0], Placed(row, rows[1..]));
      }
    }
  }

  lemma NodesFirst(rows: seq<Row>, n: nat)
    ensures Nodes(First(rows, n)) == First(Nodes(rows), n)
  {
    NodesElements(rows);
    NodesElements(First(rows, n));
  }

  /** The list of an owner after one more access. */
  function TouchedList(list: seq<Row>, row: Row): seq<Row> {
    First(Placed(row, WithoutNode(list, row.node)), LIMIT)
  }

  /** Another row stays in front of the one just written: it is as new, to the stored
      precision, and has the higher id, or the clock went back. */
  ghost predicate Overtaken(list: seq<Row>, row: Row) {
    exists r :: r in list && r.node != row.node && Newer(r, row)
  }

  // ----- the table ------------------------------------------------------------------------

  /** The rows of an owner are exactly those in `list`. */
  ghost predicate Holds(o: Owner, list: seq<Row>, rows: map<Key, Row>) {
    && (forall k :: k in rows && k.owner == o ==> KeyOfRow(rows[k]) == k && rows[k] in list)
    && (forall r :: r in list ==> r.owner == o && KeyOfRow(r) in rows && rows[KeyOfRow(r)] == r)
  }

  ghost predicate OwnerOk(o: Owner, list: seq<Row>, history: seq<nat>, rows: map<Key, Row>,
                          overtaken: set<Owner>) {
    && Holds(o, list, rows) && NewestFirst(list) && |list| <= LIMIT
    && (o !in overtaken ==> Nodes(list) == First(Distinct(history), LIMIT))
  }

  lemma UpsertHolds(o: Owner, list: seq<Row>, rows: map<Key, Row>, row: Row)
    requires Holds(o, list, rows) && NewestFirst(list) && row.owner == o
    ensures Holds(o, Placed(row, WithoutNode(list, row.node)), rows[KeyOfRow(row) := row])
  {
    WithoutNodeElements(list, row.node);
    PlacedElements(row, WithoutNode(list, row.node));
  }

  lemma CutHolds(o: Owner, list: seq<Row>, rows: map<Key, Row>, n: nat)
    requires Holds(o, list, rows) && NewestFirst(list) && n <= |list|
    ensures Holds(o, list[..n], map k | k in rows && rows[k] !in list[n..] :: rows[k])
  {
    forall r ensures r in list <==> r in list[..n] || r in list[n..] {
      assert list == list[..n] + list[n..];
    }
    forall r | r in list[..n] ensures r !in list[n..] {
      var i :| 0 <= i < n && list[..n][i] == r;
      assert forall j :: n <= j < |list| ==> Newer(list[i], list[j]);
    }
  }

  /** What an access leaves on the list is the bounded distinct history, exactly when no
      other row stays in front of it. */
  lemma TouchedNodes(list: seq<Row>, history: seq<nat>, row: Row)
    requires NewestFirst(list) && Nodes(list) == First(Distinct(history), LIMIT)
    requires forall r :: r in list && r.node != row.node ==> Newer(row, r) || Newer(r, row)
    ensures Nodes(TouchedList(list, row)) == First(Distinct([row.node] + history), LIMIT) <==> !Overtaken(list, row)
  {
    var others := WithoutNode(list, row.node);
    WithoutNodeElements(list, row.node);
    WithoutNodeOrder(list, row.node);
    if Overtaken(list, row) {
      OthersInFront(others, row);
      NodesElements(TouchedList(list, row));
      assert ([row.node] + history)[0] == row.node;
    } else {
      InFront(others, row);
      WithoutNodeNodes(list, row.node);
      NodesFirst([row] + others, LIMIT);
      assert ([row] + others)[1..] == others;
      assert Nodes([row] + others) == [row.node] + Without(Nodes(list), row.node);
      TouchIsDistinct(history, row.node);
    }
  }

  lemma InFront(others: seq<Row>, row: Row)
    requires forall r :: r in others ==> Newer(row, r)
    ensures Placed(row, others) == [row] + others
  {
    assert others != [] ==> others[0] in others;
  }

  lemma OthersInFront(others: seq<Row>, row: Row)
    requires NewestFirst(others) && exists r :: r in others && Newer(r, row)
    requires forall r :: r in others ==> r.node != row.node
    ensures Placed(row, others) != [] && Placed(row, others)[0].node != row.node
    ensures First(Placed(row, others), LIMIT) != [] && First(Placed(row, others), LIMIT)[0].node != row.node
  {
    var r :| r in others && Newer(r, row);
    var i :| 0 <= i < |others| && others[i] == r;
    assert i == 0 || Newer(others[0], others[i]);
    assert others[0] in others;
  }

  lemma TouchedNewestFirst(list: seq<Row>, row: Row)
    requires NewestFirst(list) && forall r :: r in list && r.node != row.node ==> Newer(row, r) || Newer(r, row)
    ensures NewestFirst(Placed(row, WithoutNode(list, row.node))) && NewestFirst(TouchedList(list, row))
  {
    WithoutNodeElements(list, row.node);
    WithoutNodeOrder(list, row.node);
    PlacedOrder(row, WithoutNode(list, row.node));
  }

  /** An access later than all earlier ones of the owner is overtaken by none. */
  lemma LaterIsInFront(list: seq<Row>, row: Row)
    requires forall r :: r in list ==> r.at < row.at
    ensures !Overtaken(list, row)
  {
  }

  /** Nodes 1 and 2 opened, in this order, and node 1 again, all at one stored time: node 2
      stays in front although node 1 was opened last. */
  lemma SameMillisecond(o: Owner)
    ensures var first, second := Row(1, o, 1, 1, 50), Row(2, o, 2, 1, 50);
            var again := first.(count := 2);
            && TouchedList(TouchedList([], first), second) == [second, first]
            && Overtaken([second, first], again) && TouchedList([second, first], again) == [second, again]
            && Distinct([1, 2, 1]) == [1, 2]
  {
    var first, second := Row(1, o, 1, 1, 50), Row(2, o, 2, 1, 50);
    var again := first.(count := 2);
    assert WithoutNode([first], 2) == [first] + WithoutNode([first][1..], 2) == [first];
    assert [second, first][1..] == [first] && [first][1..] == [];
    assert WithoutNode([second, first], 1) == [second] + WithoutNode([first], 1) == [second];
    assert [second][1..] == [] && Placed(again, [second]) == [second] + Placed(again, []);
    assert second in [second, first];
    OneTwoOne();
  }

  lemma OneTwoOne()
    ensures Distinct([1, 2, 1]) == [1, 2]
  {
    var none: seq<nat> := [];
    assert [1, 2, 1][1..] == [2, 1] && [2, 1][1..] == [1] && [1][1..] == none;
    assert Distinct([1]) == [1] && Without([1], 2) == [1] + Without([1][1..], 2) == [1];
    assert Distinct([2, 1]) == [2, 1] && [2, 1][1..] == [1];
    assert Without([2, 1], 1) == [2] + Without([1], 1) == [2];
  }

  /** Key `k` has the same row, or none, in both tables. */
  predicate OldRow(k: Key, rows: map<Key, Row>, rows': map<Key, Row>) {
    (k in rows <==> k in rows') && (k in rows ==> rows'[k] == rows[k])
  }

  lemma OthersHold(o: Owner, list: seq<Row>, rows: map<Key, Row>, rows': map<Key, Row>)
    requires Holds(o, list, rows)
    requires forall k: Key | k.owner == o :: OldRow(k, rows, rows')
    ensures Holds(o, list, rows')
  {
    forall r | r in list ensures KeyOfRow(r) in rows' && rows'[KeyOfRow(r)] == r {
      assert OldRow(KeyOfRow(r), rows, rows');
    }
    forall k | k in rows' && k.owner == o ensures KeyOfRow(rows'[k]) == k && rows'[k] in list {
      assert OldRow(k, rows, rows');
    }
  }

  function ListOf<T>(lists: map<Owner, seq<T>>, o: Owner): seq<T> {
    if o in lists then lists[o] else []
  }

  ghost predicate AllOk(lists: map<Owner, seq<Row>>, histories: map<Owner, seq<nat>>, rows: map<Key, Row>,
                        overtaken: set<Owner>) {
    forall o {:trigger OwnerOk(o, ListOf(lists, o), ListOf(histories, o), rows, overtaken)} ::
      OwnerOk(o, ListOf(lists, o), ListOf(histories, o), rows, overtaken)
  }

  predicate Keyed(rows: map<Key, Row>) {
    forall k :: k in rows ==> KeyOfRow(rows[k]) == k
  }

  /** Row ids come from a counter. */
  ghost predicate IdsOk(rows: map<Key, Row>, nextId: nat) {
    && (forall k :: k in rows ==> rows[k].id < nextId)
    && (forall j, k | j in rows && k in rows && rows[j].id == rows[k].id :: j == k)
  }

  lemma {:induction false} OrderedUnique(a: seq<Row>, b: seq<Row>)
    requires NewestFirst(a) && NewestFirst(b) && forall r :: r in a <==> r in b
    ensures a == b
  {
    assert (a != [] ==> a[0] in b) && (b != [] ==> b[0] in a);
    if a != [] {
      var i :| 0 <= i < |b| && b[i] == a[0];
      var j :| 0 <= j < |a| && a[j] == b[0];
      FirstIsNewest(a, j);
      FirstIsNewest(b, i);
      assert a[0] == b[0];
      forall r ensures r in a[1..] <==> r in b[1..] {
        InRest(a, r);
        InRest(b, r);
      }
      OrderedUnique(a[1..], b[1..]);
    }
  }

  lemma FirstIsNewest(a: seq<Row>, i: nat)
    requires NewestFirst(a) && i < |a|
    ensures a[i] == a[0] || Newer(a[0], a[i])
  {
  }

  lemma InRest(a: seq<Row>, r: Row)
    requires a != [] && NewestFirst(a)
    ensures r in a[1..] <==> r in a && r != a[0]
  {
    if r in a && r != a[0] {
      var i :| 0 <= i < |a| && a[i] == r;
      assert a[1..][i - 1] == r;
    }
    if r in a[1..] {
      var i :| 0 <= i < |a[1..]| && a[1..][i] == r;
      assert a[i + 1] == r && Newer(a[0], a[i + 1]);
    }
  }

  /** Rows with different ids, listed without repeat in the order of the query, are listed
      strictly. */
  lemma ListedStrictly(listed: seq<Row>, list: seq<Row>)
    requires NoRepeat(listed) && SortedBy(listed, NotOlder) && NewestFirst(list) && forall r :: r in listed <==> r in list
    ensures listed == list
  {
    forall i, j | 0 <= i < j < |listed| ensures Newer(listed[i], listed[j]) {
      assert listed[i] in list && listed[j] in list && NotOlder(listed[i], listed[j]);
      var k :| 0 <= k < |list| && list[k] == listed[i];
      var l :| 0 <= l < |list| && list[l] == listed[j];
      assert k != l && (k < l ==> Newer(list[k], list[l])) && (l < k ==> Newer(list[l], list[k]));
    }
    OrderedUnique(listed, list);
  }

  lemma NotOlderTotal()
    ensures Total(NotOlder)
  {
  }

  class RecentTable {
    var rows: map<Key, Row>
    var nextId: nat
    ghost var lists: map<Owner, seq<Row>>
    ghost var histories: map<Owner, seq<nat>>
    ghost var overtaken: set<Owner>

    /** An owner in `overtaken` once made an access that another row stayed in front of. */
    ghost predicate Valid()
      reads this
    {
      AllOk(lists, histories, rows, overtaken) && Keyed(rows) && IdsOk(rows, nextId)
    }

    constructor ()
      ensures Valid() && lists == map[] && histories == map[] && overtaken == {}
    {
      rows, nextId, lists, histories, overtaken := map[], 1, map[], map[], {};
    }

    /** TouchRecent at any time of the clock. */
    method TouchRecent(o: Owner, node: nat, now: nat)
      requires Valid()
      modifies this
      ensures Valid()
      ensures histories == old(histories)[o := [node] + ListOf(old(histories), o)]
      ensures var known := Key(o, node) in old(rows);
              var row := Row(if known then old(rows)[Key(o, node)].id else old(nextId), o, node,
                             if known then old(rows)[Key(o, node)].count + 1 else 1, now);
              && lists == old(lists)[o := TouchedList(ListOf(old(lists), o), row)]
              && overtaken == old(overtaken) + if Overtaken(ListOf(old(lists), o), row) then {o} else {}
    {
      var key := Key(o, node);
      var id, count := nextId, 1;
      if key in rows {
        id, count := rows[key].id, rows[key].count + 1;
      } else {
        nextId := nextId + 1;
      }
      var row := Row(id, o, node, count, now);
      ghost var before, list := rows, ListOf(lists, o);
      assert OwnerOk(o, list, ListOf(histories, o), rows, overtaken);
      Comparable(rows, list, row);
      TouchRow(row, list);
      TouchedAll(before, rows, lists, histories, overtaken, o, row);
      TouchedIds(before, rows, row, nextId);
      overtaken := overtaken + if Overtaken(list, row) then {o} else {};
      lists := lists[o := TouchedList(list, row)];
      histories := histories[o := [node] + ListOf(histories, o)];
    }

    /** Write the row, then drop the stale tail of its owner. */
    method TouchRow(row: Row, ghost list: seq<Row>)
      requires Holds(row.owner, list, rows) && NewestFirst(list) && |list| <= LIMIT && Keyed(rows)
      requires forall r :: r in list && r.node != row.node ==> Newer(row, r) || Newer(r, row)
      modifies this`rows
      ensures Holds(row.owner, TouchedList(list, row), rows) && Keyed(rows)
      ensures forall k: Key | k.owner != row.owner :: OldRow(k, old(rows), rows)
      ensures forall k :: k in rows ==> (rows[k] == row && k == KeyOfRow(row)) || (k in old(rows) && rows[k] == old(rows)[k] && k != KeyOfRow(row))
    {
      ghost var longer := Placed(row, WithoutNode(list, row.node));
      TouchedNewestFirst(list, row);
      UpsertHolds(row.owner, list, rows, row);
      AtMostOneStale(list, row);
      rows := rows[KeyOfRow(row) := row];
      Prune(row.owner, longer);
    }

    /** Delete what lies behind the newest hundred rows of the owner. */
    method Prune(o: Owner, ghost list: seq<Row>)
      requires Holds(o, list, rows) && NewestFirst(list) && Keyed(rows) && |list| <= LIMIT + 1
      modifies this`rows
      ensures Holds(o, First(list, LIMIT), rows) && Keyed(rows)
      ensures forall k: Key | k.owner != o :: OldRow(k, old(rows), rows)
      ensures forall k :: k in rows ==> k in old(rows) && rows[k] == old(rows)[k]
    {
      var listed := SelectNewest(o, list);
      if |listed| > LIMIT {
        var stale := First(listed[LIMIT..], 1000);
        CutHolds(o, list, rows, LIMIT);
        rows := map k | k in rows && rows[k] !in stale :: rows[k];
      }
    }

    /** SELECT ... WHERE owner ORDER BY last_accessed_at DESC, id DESC. */
    method SelectNewest(o: Owner, ghost list: seq<Row>) returns (listed: seq<Row>)
      requires Holds(o, list, rows) && NewestFirst(list) && Keyed(rows)
      ensures listed == list
    {
      NotOlderTotal();
      listed := SelectBy(rows, (r: Row) => r.owner == o, NotOlder);
      forall r ensures r in listed <==> r in list {
        assert r in list ==> rows[KeyOfRow(r)] == r;
      }
      ListedStrictly(listed, list);
    }

    /** ListRecentNodes: the kept nodes that are active, newest first. */
    method ListRecentNodes(o: Owner, active: set<nat>) returns (list: seq<Row>)
      requires Valid()
      ensures list == First(ActiveRows(ListOf(lists, o), active), LIMIT) && NewestFirst(ListOf(lists, o))
      ensures NewestFirst(list) && forall r :: r in list <==> r in ListOf(lists, o) && r.node in active
      ensures o !in overtaken ==> Nodes(ListOf(lists, o)) == First(Distinct(ListOf(histories, o)), LIMIT)
    {
      assert OwnerOk(o, ListOf(lists, o), ListOf(histories, o), rows, overtaken);
      var listed := SelectNewest(o, ListOf(lists, o));
      list := First(ActiveRows(listed, active), LIMIT);
      ActiveRowsListed(listed, active);
    }
  }

  function ActiveRows(rows: seq<Row>, active: set<nat>): seq<Row> {
    if rows == [] then [] else (if rows[0].node in active then [rows[0]] else []) + ActiveRows(rows[1..], active)
  }

  /** Leaving out inactive nodes loses no other row and keeps the order. */
  lemma {:induction false} ActiveRowsListed(rows: seq<Row>, active: set<nat>)
    requires NewestFirst(rows)
    ensures |ActiveRows(rows, active)| <= |rows| && NewestFirst(ActiveRows(rows, active))
    ensures forall r :: r in ActiveRows(rows, active) <==> r in rows && r.node in active
  {
    if rows != [] {
      ActiveRowsListed(rows[1..], active);
      assert rows == [rows[0]] + rows[1..];
      forall r | r in ActiveRows(rows[1..], active) ensures Newer(rows[0], r) {
        var i :| 0 <= i < |rows[1..]| && rows[1..][i] == r;
        assert rows[i + 1] == r;
      }
      NewerFirst(rows[0], ActiveRows(rows[1..], active));
    }
  }

  /** The row written for a node differs from the owner's other rows in time or id. */
  lemma Comparable(rows: map<Key, Row>, list: seq<Row>, row: Row)
    requires Holds(row.owner, list, rows)
    requires forall k :: k in rows && rows[k].id == row.id ==> k == KeyOfRow(row)
    ensures forall r :: r in list && r.node != row.node ==> Newer(row, r) || Newer(r, row)
  {
    forall r | r in list && r.node != row.node ensures r.id != row.id {
      assert KeyOfRow(r) in rows && rows[KeyOfRow(r)] == r;
    }
  }

  lemma TouchedIds(before: map<Key, Row>, after: map<Key, Row>, row: Row, nextId: nat)
    requires forall k :: k in before ==> before[k].id < nextId
    requires forall j, k | j in before && k in before && before[j].id == before[k].id :: j == k
    requires row.id < nextId && forall k :: k in before && before[k].id == row.id ==> k == KeyOfRow(row)
    requires forall k :: k in after ==>
               (after[k] == row && k == KeyOfRow(row)) || (k in before && after[k] == before[k] && k != KeyOfRow(row))
    ensures IdsOk(after, nextId)
  {
  }

  lemma AtMostOneStale(list: seq<Row>, row: Row)
    requires |list| <= LIMIT
    ensures |Placed(row, WithoutNode(list, row.node))| <= LIMIT + 1
  {
    PlacedElements(row, WithoutNode(list, row.node));
    WithoutNodeShort(list, row.node);
  }

  lemma {:induction false} WithoutNodeShort(list: seq<Row>, x: nat)
    ensures |WithoutNode(list, x)| <= |list|
  {
    if list != [] {
      WithoutNodeShort(list[1..], x);
    }
  }

  lemma TouchedAll(before: map<Key, Row>, after: map<Key, Row>, lists: map<Owner, seq<Row>>, histories: map<Owner, seq<nat>>,
                   overtaken: set<Owner>, o: Owner, row: Row)
    requires AllOk(lists, histories, before, overtaken)
    requires row.owner == o && Holds(o, TouchedList(ListOf(lists, o), row), after)
    requires forall r :: r in ListOf(lists, o) && r.node != row.node ==> Newer(row, r) || Newer(r, row)
    requires forall k: Key | k.owner != o :: OldRow(k, before, after)
    ensures AllOk(lists[o := TouchedList(ListOf(lists, o), row)], histories[o := [row.node] + ListOf(histories, o)], after,
                  overtaken + if Overtaken(ListOf(lists, o), row) then {o} else {})
  {
    var lists', histories' := lists[o := TouchedList(ListOf(lists, o), row)], histories[o := [row.node] + ListOf(histories, o)];
    var overtaken' := overtaken + if Overtaken(ListOf(lists, o), row) then {o} else {};
    forall p ensures OwnerOk(p, ListOf(lists', p), ListOf(histories', p), after, overtaken') {
      assert OwnerOk(p, ListOf(lists, p), ListOf(histories, p), before, overtaken);
      if p == o {
        if o !in overtaken {
          TouchedNodes(ListOf(lists, o), ListOf(histories, o), row);
        }
        TouchedNewestFirst(ListOf(lists, o), row);
      } else {
        OthersHold(p, ListOf(lists, p), before, after);
      }
    }
  }
}
