/** Sorting by a total order, as the sort package and ORDER BY do it. */
module Sorting {

  ghost predicate Total<T(!new)>(leq: (T, T) -> bool) {
    && (forall a, b :: leq(a, b) || leq(b, a))
    && (forall a, b, c :: leq(a, b) && leq(b, c) ==> leq(a, c))
  }

  ghost predicate SortedBy<T>(s: seq<T>, leq: (T, T) -> bool) {
    forall i, j :: 0 <= i < j < |s| ==> leq(s[i], s[j])
  }

  function Insert<T>(x: T, s: seq<T>, leq: (T, T) -> bool): seq<T> {
    if s == [] || leq(x, s[0]) then [x] + s else [s[0]] + Insert(x, s[1..], leq)
  }

  function SortBy<T>(s: seq<T>, leq: (T, T) -> bool): seq<T> {
    if s == [] then [] else Insert(s[0], SortBy(s[1..], leq), leq)
  }

  lemma {:induction false} InsertElements<T>(x: T, s: seq<T>, leq: (T, T) -> bool)
    ensures multiset(Insert(x, s, leq)) == multiset(s) + multiset{x}
  {
    if s != [] && !leq(x, s[0]) {
      InsertElements(x, s[1..], leq);
      assert s == [s[0]] + s[1..];
    }
  }

  lemma {:induction false} SortElements<T>(s: seq<T>, leq: (T, T) -> bool)
    ensures multiset(SortBy(s, leq)) == multiset(s)
    ensures |SortBy(s, leq)| == |s|
    ensures forall x :: x in SortBy(s, leq) <==> x in s
  {
    if s != [] {
      SortElements(s[1..], leq);
      InsertElements(s[0], SortBy(s[1..], leq), leq);
      assert s == [s[0]] + s[1..];
    }
    SameElements(SortBy(s, leq), s);
  }

  lemma SameElements<T>(a: seq<T>, b: seq<T>)
    requires multiset(a) == multiset(b)
    ensures |a| == |b| && forall x :: x in a <==> x in b
  {
    assert |multiset(a)| == |a| && |multiset(b)| == |b|;
    forall x ensures x in a <==> x in b {
      assert x in a <==> x in multiset(a);
      assert x in b <==> x in multiset(b);
    }
  }

  lemma {:induction false} InsertSorted<T(!new)>(x: T, s: seq<T>, leq: (T, T) -> bool)
    requires Total(leq) && SortedBy(s, leq)
    ensures SortedBy(Insert(x, s, leq), leq)
  {
    if s != [] && !leq(x, s[0]) {
      InsertSorted(x, s[1..], leq);
      InsertElements(x, s[1..], leq);
      var rest := Insert(x, s[1..], leq);
      assert s == [s[0]] + s[1..];
      forall j | 0 <= j < |rest| ensures leq(s[0], rest[j]) {
        assert rest[j] in multiset(rest);
        assert rest[j] == x || rest[j] in s[1..];
      }
    } else if s != [] {
      forall j | 0 <= j < |s| ensures leq(x, s[j]) {
        assert j == 0 || leq(s[0], s[j]);
      }
    }
  }

  lemma {:induction false} SortSorted<T(!new)>(s: seq<T>, leq: (T, T) -> bool)
    requires Total(leq)
    ensures SortedBy(SortBy(s, leq), leq)
  {
    if s != [] {
      SortSorted(s[1..], leq);
      InsertSorted(s[0], SortBy(s[1..], leq), leq);
    }
  }

  /** A list that is already in order is left alone. */
  lemma {:induction false} SortStays<T(!new)>(s: seq<T>, leq: (T, T) -> bool)
    requires Total(leq) && SortedBy(s, leq)
    ensures SortBy(s, leq) == s
  {
    if s != [] {
      SortStays(s[1..], leq);
      assert s == [s[0]] + s[1..];
      if |s| > 1 {
        assert leq(s[0], s[1]);
      }
    }
  }

  /** Elements that cannot be told apart by the order are equal. */
  ghost predicate Strict<T>(s: seq<T>, leq: (T, T) -> bool) {
    forall i, j :: 0 <= i < |s| && 0 <= j < |s| && leq(s[i], s[j]) && leq(s[j], s[i]) ==> s[i] == s[j]
  }

  // ----- lists with rising keys -----------------------------------------------------

  ghost predicate Rising<T>(s: seq<T>, rank: T -> nat) {
    forall i, j :: 0 <= i < j < |s| ==> rank(s[i]) < rank(s[j])
  }

  /** LIMIT n. */
  function First<T>(s: seq<T>, n: nat): seq<T> {
    if n <= |s| then s[..n] else s
  }

  ghost predicate NoRepeat<T>(s: seq<T>) {
    forall i, j :: 0 <= i < j < |s| ==> s[i] != s[j]
  }

  lemma {:induction false} InsertNoRepeat<T>(x: T, s: seq<T>, leq: (T, T) -> bool)
    requires NoRepeat(s) && x !in s
    ensures NoRepeat(Insert(x, s, leq))
  {
    if s != [] && !leq(x, s[0]) {
      InsertNoRepeat(x, s[1..], leq);
      InsertElements(x, s[1..], leq);
      var rest := Insert(x, s[1..], leq);
      forall j | 0 <= j < |rest| ensures rest[j] != s[0] {
        assert rest[j] in multiset(rest);
        assert rest[j] == x || rest[j] in s[1..];
      }
    }
  }

  lemma {:induction false} SortedNoRepeat<T>(s: seq<T>, leq: (T, T) -> bool)
    requires NoRepeat(s)
    ensures NoRepeat(SortBy(s, leq))
  {
    if s != [] {
      SortedNoRepeat(s[1..], leq);
      SortElements(s[1..], leq);
      InsertNoRepeat(s[0], SortBy(s[1..], leq), leq);
    }
  }

  /** Rising lists over the same elements are the same list. */
  lemma {:induction false} RisingUnique<T>(a: seq<T>, b: seq<T>, rank: T -> nat)
    requires Rising(a, rank) && Rising(b, rank) && forall x :: x in a <==> x in b
    ensures a == b
  {
    assert (a != [] ==> a[0] in b) && (b != [] ==> b[0] in a);
    if a != [] {
      FirstIsLeast(a, b, rank);
      FirstIsLeast(b, a, rank);
      var i :| 0 <= i < |b| && b[i] == a[0];
      assert a[0] == b[0];
      forall x ensures x in a[1..] <==> x in b[1..] {
        InTail(a, x, rank);
        InTail(b, x, rank);
      }
      RisingUnique(a[1..], b[1..], rank);
    }
  }

  lemma FirstIsLeast<T>(a: seq<T>, b: seq<T>, rank: T -> nat)
    requires a != [] && a[0] in b && Rising(b, rank)
    ensures rank(b[0]) <= rank(a[0])
  {
    var i :| 0 <= i < |b| && b[i] == a[0];
  }

  lemma InTail<T>(a: seq<T>, x: T, rank: T -> nat)
    requires a != [] && Rising(a, rank)
    ensures x in a[1..] <==> x in a && x != a[0]
  {
    if x in a && x != a[0] {
      var i :| 0 <= i < |a| && a[i] == x;
      assert a[1..][i - 1] == x;
    }
    if x in a[1..] {
      var i :| 0 <= i < |a[1..]| && a[1..][i] == x;
      assert a[i + 1] == x && rank(a[0]) < rank(a[i + 1]);
    }
  }

  /** A list in order without repeats, over the elements of a rising list, is that
      list: ORDER BY a unique column leaves the engine no choice. */
  lemma ListedIs<T>(rows: seq<T>, expected: seq<T>, rank: T -> nat)
    requires Rising(expected, rank) && NoRepeat(rows) && forall x :: x in rows <==> x in expected
    requires forall i, j :: 0 <= i < j < |rows| ==> rank(rows[i]) <= rank(rows[j])
    ensures rows == expected
  {
    forall i, j | 0 <= i < j < |rows| ensures rank(rows[i]) < rank(rows[j]) {
      assert rows[i] in rows && rows[j] in rows;
      var k :| 0 <= k < |expected| && expected[k] == rows[i];
      var l :| 0 <= l < |expected| && expected[l] == rows[j];
      assert k != l;
    }
    RisingUnique(rows, expected, rank);
  }

  /** SELECT ... WHERE p ORDER BY leq. */
  method SelectBy<K(==), V(==, !new)>(table: map<K, V>, p: V -> bool, leq: (V, V) -> bool) returns (rows: seq<V>)
    requires Total(leq) && forall i, j | i in table && j in table && table[i] == table[j] :: i == j
    ensures forall v :: v in rows <==> exists i :: i in table && table[i] == v && p(v)
    ensures NoRepeat(rows) && SortedBy(rows, leq)
  {
    var found := [];
    var todo := table.Keys;
    while todo != {}
      invariant todo <= table.Keys && NoRepeat(found)
      invariant forall v :: v in found <==> exists i :: i in table && i !in todo && table[i] == v && p(v)
      decreases todo
    {
      var i :| i in todo;
      if p(table[i]) {
        found := found + [table[i]];
      }
      todo := todo - {i};
    }
    rows := SortBy(found, leq);
    SortElements(found, leq);
    SortSorted(found, leq);
    SortedNoRepeat(found, leq);
  }

  /** SELECT ... WHERE p ORDER BY rank. */
  method Select<K(==), V(==, !new)>(table: map<K, V>, p: V -> bool, rank: V -> nat) returns (rows: seq<V>)
    requires forall i, j | i in table && j in table && table[i] == table[j] :: i == j
    ensures forall v :: v in rows <==> exists i :: i in table && table[i] == v && p(v)
    ensures NoRepeat(rows) && forall i, j :: 0 <= i < j < |rows| ==> rank(rows[i]) <= rank(rows[j])
  {
    var leq := (a: V, b: V) => rank(a) <= rank(b);
    rows := SelectBy(table, p, leq);
    forall i, j | 0 <= i < j < |rows| ensures rank(rows[i]) <= rank(rows[j]) {
      assert leq(rows[i], rows[j]);
    }
  }
}
