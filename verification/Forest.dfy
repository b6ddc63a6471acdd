/** Parent maps and their transitive closure.

    A parent map gives every row its optional parent. `Up` walks parent
    pointers; everything the closure table promises is stated against it. */
module Forest {
  import opened Common

  type Id = nat
  type Parents = map<Id, Option<Id>>

  /** The row reached from `n` by exactly `k` parent steps, if there is one. */
  ghost function Up(p: Parents, n: Id, k: nat): Option<Id>
    decreases k
  {
    if n !in p then None
    else if k == 0 then Some(n)
    else match p[n]
      case None => None
      case Some(q) => Up(p, q, k - 1)
  }

  /** `d` lies in the subtree of `a` (`a` included). */
  ghost predicate Below(p: Parents, d: Id, a: Id) {
    exists k: nat :: Up(p, d, k) == Some(a)
  }

  ghost predicate Closed(p: Parents) {
    forall n :: n in p && p[n].Some? ==> p[n].value in p
  }

  ghost predicate Acyclic(p: Parents) {
    forall n: Id, k: nat :: k > 0 ==> Up(p, n, k) != Some(n)
  }

  /** Every parent exists and no row is its own proper ancestor. */
  ghost predicate IsForest(p: Parents) {
    Closed(p) && Acyclic(p)
  }

  lemma {:induction false} UpAdd(p: Parents, n: Id, i: nat, j: nat)
    ensures Up(p, n, i).Some? ==> Up(p, n, i + j) == Up(p, Up(p, n, i).value, j)
    ensures Up(p, n, i).None? ==> Up(p, n, i + j).None?
    decreases i
  {
    if i > 0 && n in p && p[n].Some? {
      UpAdd(p, p[n].value, i - 1, j);
    }
  }

  lemma {:induction false} UpStays(p: Parents, n: Id, k: nat)
    ensures Up(p, n, k).Some? ==> Up(p, n, k).value in p
    decreases k
  {
    if k > 0 && n in p && p[n].Some? {
      UpStays(p, p[n].value, k - 1);
    }
  }

  /** A ranking that falls along every parent pointer. */
  ghost predicate Ranked(p: Parents, rank: map<Id, nat>) {
    && p.Keys <= rank.Keys
    && forall n :: n in p && p[n].Some? && p[n].value in p ==> rank[n] > rank[p[n].value]
  }

  lemma {:induction false} RankFalls(p: Parents, rank: map<Id, nat>, n: Id, k: nat)
    requires Ranked(p, rank)
    ensures Up(p, n, k).Some? ==> Up(p, n, k).value in p && rank[n] >= rank[Up(p, n, k).value] + k
    decreases k
  {
    if k > 0 && n in p && p[n].Some? {
      RankFalls(p, rank, p[n].value, k - 1);
    }
  }

  lemma RankedIsAcyclic(p: Parents, rank: map<Id, nat>)
    requires Ranked(p, rank)
    ensures Acyclic(p)
  {
    forall n: Id, k: nat | k > 0 ensures Up(p, n, k) != Some(n) {
      RankFalls(p, rank, n, k);
    }
  }

  ghost function Ancestors(p: Parents, n: Id): set<Id> {
    set a | a in p && Below(p, n, a)
  }

  /** On an acyclic map the ancestor set shrinks at every step up. */
  lemma AncestorsShrink(p: Parents, n: Id)
    requires Acyclic(p) && n in p && p[n].Some? && p[n].value in p
    ensures Ancestors(p, p[n].value) < Ancestors(p, n)
  {
    var q := p[n].value;
    forall a | a in Ancestors(p, q) ensures a in Ancestors(p, n) {
      var k: nat :| Up(p, q, k) == Some(a);
      assert Up(p, n, k + 1) == Some(a);
    }
    assert Up(p, n, 0) == Some(n);
    forall k: nat ensures Up(p, q, k) != Some(n) {
      assert Up(p, n, k + 1) == Up(p, q, k);
    }
    assert n in Ancestors(p, n) && n !in Ancestors(p, q);
  }

  lemma SubsetSmaller(a: set<Id>, b: set<Id>)
    requires a < b
    ensures |a| < |b|
  {
    var x :| x in b && x !in a;
    assert a <= b - {x};
    SubsetNoBigger(a, b - {x});
  }

  lemma {:induction false} SubsetNoBigger(a: set<Id>, b: set<Id>)
    requires a <= b
    ensures |a| <= |b|
    decreases a
  {
    if a != {} {
      var x :| x in a;
      SubsetNoBigger(a - {x}, b - {x});
    }
  }

  /** Acyclic finite maps are exactly the ranked ones. */
  lemma RankOf(p: Parents) returns (rank: map<Id, nat>)
    requires Acyclic(p)
    ensures Ranked(p, rank) && rank.Keys == p.Keys
  {
    rank := map n | n in p :: |Ancestors(p, n)|;
    forall n | n in p && p[n].Some? && p[n].value in p ensures rank[n] > rank[p[n].value] {
      AncestorsShrink(p, n);
      SubsetSmaller(Ancestors(p, p[n].value), Ancestors(p, n));
    }
  }

  /** In a forest a row is at one distance only from each of its ancestors. */
  lemma DepthUnique(p: Parents, n: Id, i: nat, j: nat)
    requires Acyclic(p)
    requires Up(p, n, i).Some? && Up(p, n, i) == Up(p, n, j)
    ensures i == j
  {
    var lo, hi := if i < j then i else j, if i < j then j else i;
    UpAdd(p, n, lo, hi - lo);
  }

  /** Two ancestors of the same row lie on one chain. */
  lemma AncestorsComparable(p: Parents, d: Id, a: Id, b: Id)
    requires Below(p, d, a) && Below(p, d, b)
    ensures Below(p, a, b) || Below(p, b, a)
  {
    var i: nat :| Up(p, d, i) == Some(a);
    var j: nat :| Up(p, d, j) == Some(b);
    if i <= j {
      UpAdd(p, d, i, j - i);
      assert Up(p, a, j - i) == Some(b);
    } else {
      UpAdd(p, d, j, i - j);
      assert Up(p, b, i - j) == Some(a);
    }
  }

  lemma BelowTrans(p: Parents, d: Id, m: Id, a: Id)
    requires Below(p, d, m) && Below(p, m, a)
    ensures Below(p, d, a)
  {
    var i: nat :| Up(p, d, i) == Some(m);
    var j: nat :| Up(p, m, j) == Some(a);
    UpAdd(p, d, i, j);
    assert Up(p, d, i + j) == Some(a);
  }

  // ----- changing a parent map ------------------------------------------------

  /** A fresh row under an existing parent (or none) changes no other walk. */
  lemma {:induction false} UpAfterCreate(p: Parents, n: Id, q: Option<Id>, d: Id, k: nat)
    requires n !in p && forall m :: m in p ==> p[m] != Some(n)
    requires d != n
    ensures Up(p[n := q], d, k) == Up(p, d, k)
    decreases k
  {
    if k > 0 && d in p && p[d].Some? {
      UpAfterCreate(p, n, q, p[d].value, k - 1);
    }
  }

  lemma CreateKeepsForest(p: Parents, n: Id, q: Option<Id>)
    requires IsForest(p) && n !in p
    ensures IsForest(p[n := q]) <==> (q.None? || q.value in p)
  {
    var p' := p[n := q];
    if q.None? || q.value in p {
      var rank := RankOf(p);
      var top := if q.None? then 0 else rank[q.value] + 1;
      RankedIsAcyclic(p', rank[n := top]);
    } else if q.value == n {
      assert Up(p', n, 1) == Up(p', n, 0) == Some(n);
    } else {
      assert p'[n].value !in p';
    }
  }

  /** Outside the moved subtree nothing changes. */
  lemma {:induction false} UpOutside(p: Parents, n: Id, q: Option<Id>, d: Id, k: nat)
    requires n in p && !Below(p, d, n)
    ensures Up(p[n := q], d, k) == Up(p, d, k)
    decreases k
  {
    assert d in p ==> Up(p, d, 0) == Some(d);
    if k > 0 && d in p && p[d].Some? {
      var u := p[d].value;
      forall i: nat | Up(p, u, i) == Some(n) ensures false {
        assert Up(p, d, i + 1) == Some(n);
      }
      UpOutside(p, n, q, u, k - 1);
    }
  }

  /** Inside the moved subtree the walk is unchanged up to its root, and then
      continues above the new parent. */
  lemma {:induction false} UpInside(p: Parents, n: Id, q: Option<Id>, d: Id, j: nat, k: nat)
    requires Acyclic(p) && n in p && Up(p, d, j) == Some(n)
    requires q.Some? ==> !Below(p, q.value, n)
    ensures k <= j ==> Up(p[n := q], d, k) == Up(p, d, k)
    ensures k > j ==> Up(p[n := q], d, k) == if q.None? then None else Up(p, q.value, k - j - 1)
    decreases k
  {
    if k > 0 {
      if j == 0 {
        assert d == n;
        if q.Some? {
          UpOutside(p, n, q, q.value, k - 1);
        }
      } else {
        assert d != n;
        UpInside(p, n, q, p[d].value, j - 1, k - 1);
      }
    }
  }

  /** Re-hanging `n` under `q` keeps the forest exactly when `q` is not in the
      subtree of `n`. */
  lemma MoveKeepsForest(p: Parents, n: Id, q: Option<Id>)
    requires IsForest(p) && n in p
    requires q.Some? ==> q.value in p
    ensures IsForest(p[n := q]) <==> (q.Some? ==> !Below(p, q.value, n))
  {
    var p' := p[n := q];
    if q.Some? && Below(p, q.value, n) {
      var k: nat :| Up(p, q.value, k) == Some(n);
      CycleClosed(p, n, q.value, k);
    } else {
      var rank := RankOf(p);
      var lift := if q.None? then 0 else rank[q.value] + 1;
      var rank' := map d | d in p :: if Below(p, d, n) then rank[d] + lift else rank[d];
      assert Up(p, n, 0) == Some(n);
      forall d | d in p' && p'[d].Some? ensures rank'[d] > rank'[p'[d].value] {
        if d != n {
          var u := p[d].value;
          if Below(p, u, n) {
            var i: nat :| Up(p, u, i) == Some(n);
            assert Up(p, d, i + 1) == Some(n);
          }
        }
      }
      RankedIsAcyclic(p', rank');
    }
  }

  /** Hanging `n` below its own descendant closes a loop. */
  lemma CycleClosed(p: Parents, n: Id, q: Id, k: nat)
    requires Acyclic(p) && n in p && Up(p, q, k) == Some(n)
    ensures !Acyclic(p[n := Some(q)])
  {
    var p' := p[n := Some(q)];
    PathKept(p, n, Some(q), q, k);
    assert Up(p', n, k + 1) == Up(p', q, k) == Some(n);
  }

  lemma {:induction false} PathKept(p: Parents, n: Id, q: Option<Id>, d: Id, k: nat)
    requires Acyclic(p) && n in p && Up(p, d, k) == Some(n)
    ensures Up(p[n := q], d, k) == Some(n)
    decreases k
  {
    if k > 0 {
      assert d != n;
      PathKept(p, n, q, p[d].value, k - 1);
    }
  }

  /** Dropping a set of rows that contains whole subtrees only. */
  ghost predicate DownClosed(p: Parents, gone: set<Id>) {
    forall d :: d in p && p[d].Some? && p[d].value in gone ==> d in gone
  }

  lemma {:induction false} UpAfterDrop(p: Parents, gone: set<Id>, d: Id, k: nat)
    requires DownClosed(p, gone)
    ensures d !in gone ==> Up(p - gone, d, k) == Up(p, d, k)
    ensures d in gone ==> Up(p - gone, d, k) == None
    decreases k
  {
    if k > 0 && d in p && p[d].Some? {
      UpAfterDrop(p, gone, p[d].value, k - 1);
    }
  }

  lemma DropKeepsForest(p: Parents, gone: set<Id>)
    requires IsForest(p) && DownClosed(p, gone)
    ensures IsForest(p - gone)
  {
    var rank := RankOf(p);
    RankedIsAcyclic(p - gone, rank);
  }

  lemma SubtreeDownClosed(p: Parents, root: Id)
    ensures DownClosed(p, set d | d in p && Below(p, d, root))
  {
    forall d | d in p && p[d].Some? && Below(p, p[d].value, root) ensures Below(p, d, root) {
      var k: nat :| Up(p, p[d].value, k) == Some(root);
      assert Up(p, d, k + 1) == Some(root);
    }
  }
}
