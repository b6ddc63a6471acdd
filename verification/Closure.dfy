/** The table node_closures: an index (ancestor, descendant) -> depth over the
    parent pointers, edited by set algebra and never recomputed. The primary key
    (ancestor, descendant) makes it a map. */
module Closure {
  import opened Common
  import opened Forest

  datatype Edge = Edge(anc: Id, desc: Id)
  type Closures = map<Edge, nat>

  /** The table holds (a, d, k) exactly when `a` is `k` parent steps above `d`. */
  ghost predicate Exact(c: Closures, p: Parents) {
    && (forall e :: e in c ==> Up(p, e.desc, c[e]) == Some(e.anc))
    && (forall d: Id, k: nat :: Up(p, d, k).Some? ==> Edge(Up(p, d, k).value, d) in c)
  }

  // ----- the statements that edit the table -------------------------------------

  /** INSERT the row (n, n, 0). */
  function SelfRow(n: Id): Closures {
    map[Edge(n, n) := 0]
  }

  /** INSERT ... SELECT ancestor_id, n, depth + 1 WHERE descendant_id = q. */
  function InheritedRows(c: Closures, n: Id, q: Id): Closures {
    map e | e in c.Keys && e.desc == q :: Edge(e.anc, n) := c[e] + 1
  }

  /** DELETE every path from a proper ancestor of `n` into the subtree of `n`. */
  function WithoutUpperPaths(c: Closures, n: Id): Closures {
    c - set e | e in c.Keys && Edge(n, e.desc) in c && Edge(e.anc, n) in c && e.anc != n
  }

  /** INSERT ... SELECT supertree x subtree: every ancestor of `q` becomes an
      ancestor of every row below `n`. */
  function GraftedRows(c: Closures, n: Id, q: Id): Closures {
    var pairs := set x, y | x in c.Keys && y in c.Keys && x.desc == q && y.anc == n :: Edge(x.anc, y.desc);
    map e | e in pairs :: c[Edge(e.anc, q)] + c[Edge(n, e.desc)] + 1
  }

  /** DELETE every row that touches a removed node. */
  function WithoutNodes(c: Closures, gone: set<Id>): Closures {
    c - set e | e in c.Keys && (e.anc in gone || e.desc in gone)
  }

  /** The whole edit of a move. */
  function Rehang(c: Closures, n: Id, q: Option<Id>): Closures {
    var cut := WithoutUpperPaths(c, n);
    if q.None? then cut else cut + GraftedRows(cut, n, q.value)
  }

  // ----- what the edits achieve -------------------------------------------------

  /** Membership in an exact table decides the subtree relation. */
  lemma ExactDecidesBelow(c: Closures, p: Parents, d: Id, a: Id)
    requires Exact(c, p)
    ensures Edge(a, d) in c <==> Below(p, d, a)
  {
    if Below(p, d, a) {
      var k: nat :| Up(p, d, k) == Some(a);
    }
  }

  /** Move's count test on the table finds exactly the moves that close a cycle. */
  lemma CountTestFindsCycles(c: Closures, p: Parents, n: Id, q: Id)
    requires Exact(c, p) && IsForest(p) && n in p && q in p
    ensures Edge(n, q) in c <==> !IsForest(p[n := Some(q)])
  {
    ExactDecidesBelow(c, p, q, n);
    MoveKeepsForest(p, n, Some(q));
  }

  lemma ExactDepth(c: Closures, p: Parents, d: Id, k: nat)
    requires Exact(c, p) && Acyclic(p) && Up(p, d, k).Some?
    ensures Edge(Up(p, d, k).value, d) in c && c[Edge(Up(p, d, k).value, d)] == k
  {
    var e := Edge(Up(p, d, k).value, d);
    DepthUnique(p, d, k, c[e]);
  }

  /** A forest has exactly one exact table, so equal forests have equal rows. */
  lemma ExactUnique(c1: Closures, c2: Closures, p: Parents)
    requires Acyclic(p) && Exact(c1, p) && Exact(c2, p)
    ensures c1 == c2
  {
    forall e | e in c1 ensures e in c2 && c2[e] == c1[e] {
      ExactDepth(c2, p, e.desc, c1[e]);
    }
    forall e | e in c2 ensures e in c1 {
      ExactDepth(c1, p, e.desc, c2[e]);
    }
  }

  lemma NewIsUnknown(c: Closures, p: Parents, n: Id)
    requires Exact(c, p) && IsForest(p) && n !in p
    ensures forall e :: e in c ==> e.anc != n && e.desc != n
  {
    forall e | e in c ensures e.anc != n && e.desc != n {
      UpStays(p, e.desc, c[e]);
      assert e.desc in p;
    }
  }

  /** The inserts of a create produce the exact table of the grown forest and
      meet no existing key. */
  lemma CreateKeepsExact(c: Closures, p: Parents, n: Id, q: Option<Id>)
    requires Exact(c, p) && IsForest(p) && n !in p
    requires q.Some? ==> q.value in p
    ensures var grown := c + SelfRow(n);
            var rows := if q.None? then grown else grown + InheritedRows(grown, n, q.value);
            Exact(rows, p[n := q])
    ensures Edge(n, n) !in c
    ensures q.Some? ==> (c + SelfRow(n)).Keys !! InheritedRows(c + SelfRow(n), n, q.value).Keys
  {
    var p' := p[n := q];
    var grown := c + SelfRow(n);
    var rows := if q.None? then grown else grown + InheritedRows(grown, n, q.value);
    NewIsUnknown(c, p, n);
    forall e | e in rows ensures Up(p', e.desc, rows[e]) == Some(e.anc) {
      CreatedRowSound(c, p, n, q, e);
    }
    forall d: Id, k: nat | Up(p', d, k).Some? ensures Edge(Up(p', d, k).value, d) in rows {
      CreatedRowListed(c, p, n, q, d, k);
    }
  }

  /** An inherited row counts one step more than the row it comes from. */
  lemma InheritedRowSound(c: Closures, p: Parents, n: Id, q: Id, a: Id)
    requires Exact(c, p) && IsForest(p) && n !in p && q in p && Edge(a, q) in c && q != n
    ensures Up(p[n := Some(q)], n, c[Edge(a, q)] + 1) == Some(a)
  {
    NewIsUnknown(c, p, n);
    NoneBelowNew(p, n);
    UpAfterCreate(p, n, Some(q), q, c[Edge(a, q)]);
  }

  lemma NoneBelowNew(p: Parents, n: Id)
    requires Closed(p) && n !in p
    ensures forall m :: m in p ==> p[m] != Some(n)
  {
  }

  lemma CreatedRowSound(c: Closures, p: Parents, n: Id, q: Option<Id>, e: Edge)
    requires Exact(c, p) && IsForest(p) && n !in p
    requires q.Some? ==> q.value in p
    ensures var grown := c + SelfRow(n);
            var rows := if q.None? then grown else grown + InheritedRows(grown, n, q.value);
            e in rows ==> Up(p[n := q], e.desc, rows[e]) == Some(e.anc)
  {
    NewIsUnknown(c, p, n);
    NoneBelowNew(p, n);
    if e in c {
      UpAfterCreate(p, n, q, e.desc, c[e]);
    } else if q.Some? && Edge(e.anc, q.value) in c {
      InheritedRowSound(c, p, n, q.value, e.anc);
    }
  }

  lemma CreatedRowListed(c: Closures, p: Parents, n: Id, q: Option<Id>, d: Id, k: nat)
    requires Exact(c, p) && IsForest(p) && n !in p
    requires q.Some? ==> q.value in p
    requires Up(p[n := q], d, k).Some?
    ensures var grown := c + SelfRow(n);
            var rows := if q.None? then grown else grown + InheritedRows(grown, n, q.value);
            Edge(Up(p[n := q], d, k).value, d) in rows
  {
    if d != n {
      UpAfterCreate(p, n, q, d, k);
    } else if k > 0 {
      UpAfterCreate(p, n, q, q.value, k - 1);
      assert Edge(Up(p, q.value, k - 1).value, q.value) in c + SelfRow(n);
    }
  }

  /** A row survives the delete of a move. */
  predicate Kept(c: Closures, n: Id, e: Edge) {
    e in c && !(Edge(n, e.desc) in c && Edge(e.anc, n) in c && e.anc != n)
  }

  /** A row is produced by the insert of a move. */
  predicate Grafted(c: Closures, n: Id, q: Option<Id>, e: Edge) {
    q.Some? && Edge(e.anc, q.value) in c && Edge(n, e.desc) in c
  }

  /** Row by row, what the two statements of a move leave in the table. */
  lemma RehangRows(c: Closures, p: Parents, n: Id, q: Option<Id>)
    requires Exact(c, p) && IsForest(p) && n in p
    requires q.Some? ==> q.value in p && !Below(p, q.value, n)
    ensures forall e :: Kept(c, n, e) ==> e in Rehang(c, n, q) && Rehang(c, n, q)[e] == c[e]
    ensures forall e :: Grafted(c, n, q, e) ==>
              e in Rehang(c, n, q) && Rehang(c, n, q)[e] == c[Edge(e.anc, q.value)] + c[Edge(n, e.desc)] + 1
    ensures forall e :: e in Rehang(c, n, q) ==> Kept(c, n, e) || Grafted(c, n, q, e)
    ensures q.Some? ==> WithoutUpperPaths(c, n).Keys !! GraftedRows(WithoutUpperPaths(c, n), n, q.value).Keys
  {
    var cut := WithoutUpperPaths(c, n);
    assert forall e :: e in cut <==> Kept(c, n, e);
    if q.Some? {
      var added := GraftedRows(cut, n, q.value);
      forall e ensures e in added <==> Grafted(c, n, q, e) {
        GraftSource(c, p, n, q.value, e);
        if Grafted(c, n, q, e) {
          var x, y := Edge(e.anc, q.value), Edge(n, e.desc);
          assert x in cut && y in cut && e == Edge(x.anc, y.desc);
        }
      }
      forall e | e in added ensures e !in cut {
        GraftedIsNew(c, p, n, q.value, e);
      }
    }
  }

  /** The rows the insert reads are untouched by the delete. */
  lemma GraftSource(c: Closures, p: Parents, n: Id, q: Id, e: Edge)
    requires Exact(c, p) && IsForest(p) && n in p && !Below(p, q, n)
    ensures Edge(e.anc, q) in c ==> Kept(c, n, Edge(e.anc, q))
    ensures Edge(n, e.desc) in c ==> Kept(c, n, Edge(n, e.desc))
  {
    ExactDecidesBelow(c, p, q, n);
  }

  lemma GraftedIsNew(c: Closures, p: Parents, n: Id, q: Id, e: Edge)
    requires Exact(c, p) && IsForest(p) && n in p && q in p && !Below(p, q, n)
    requires Edge(e.anc, q) in c && Edge(n, e.desc) in c
    ensures !Kept(c, n, e)
  {
    ExactDecidesBelow(c, p, e.desc, n);
    ExactDecidesBelow(c, p, q, e.anc);
    if Below(p, e.anc, n) {
      BelowTrans(p, q, e.anc, n);
    }
    if e in c {
      KeptRow(c, p, n, e);
    }
  }

  /** After the delete, a row ends in the subtree of `n` only if it starts there. */
  lemma KeptRow(c: Closures, p: Parents, n: Id, e: Edge)
    requires Exact(c, p) && Acyclic(p) && n in p && e in c
    ensures Kept(c, n, e) <==> (Below(p, e.desc, n) ==> Below(p, e.anc, n))
  {
    assert Up(p, n, 0) == Some(n);
    ExactDecidesBelow(c, p, e.desc, n);
    ExactDecidesBelow(c, p, n, e.anc);
    ExactDecidesBelow(c, p, e.desc, e.anc);
    if Below(p, e.desc, n) {
      AncestorsComparable(p, e.desc, n, e.anc);
      if Below(p, n, e.anc) && Below(p, e.anc, n) {
        MutuallyBelow(p, n, e.anc);
      }
    }
  }

  lemma MutuallyBelow(p: Parents, a: Id, b: Id)
    requires Acyclic(p) && Below(p, a, b) && Below(p, b, a)
    ensures a == b
  {
    var i: nat :| Up(p, a, i) == Some(b);
    var j: nat :| Up(p, b, j) == Some(a);
    UpAdd(p, a, i, j);
    assert i + j == 0;
  }

  lemma KeptRowSound(c: Closures, p: Parents, n: Id, q: Option<Id>, e: Edge)
    requires Exact(c, p) && IsForest(p) && n in p
    requires q.Some? ==> !Below(p, q.value, n)
    requires e in c && (Below(p, e.desc, n) ==> Below(p, e.anc, n))
    ensures Up(p[n := q], e.desc, c[e]) == Some(e.anc)
  {
    if Below(p, e.desc, n) {
      var i: nat :| Up(p, e.anc, i) == Some(n);
      UpAdd(p, e.desc, c[e], i);
      UpInside(p, n, q, e.desc, c[e] + i, c[e]);
    } else {
      UpOutside(p, n, q, e.desc, c[e]);
    }
  }

  lemma GraftedRowSound(c: Closures, p: Parents, n: Id, q: Id, a: Id, d: Id)
    requires Exact(c, p) && IsForest(p) && n in p && !Below(p, q, n)
    requires Edge(a, q) in c && Edge(n, d) in c
    ensures Up(p[n := Some(q)], d, c[Edge(a, q)] + c[Edge(n, d)] + 1) == Some(a)
  {
    UpInside(p, n, Some(q), d, c[Edge(n, d)], c[Edge(a, q)] + c[Edge(n, d)] + 1);
  }

  lemma MovedRowComplete(c: Closures, p: Parents, n: Id, q: Option<Id>, d: Id, k: nat)
    requires Exact(c, p) && IsForest(p) && n in p
    requires q.Some? ==> q.value in p && !Below(p, q.value, n)
    requires Up(p[n := q], d, k).Some?
    ensures var e := Edge(Up(p[n := q], d, k).value, d); Kept(c, n, e) || Grafted(c, n, q, e)
  {
    if Below(p, d, n) {
      var j: nat :| Up(p, d, j) == Some(n);
      UpInside(p, n, q, d, j, k);
      if k <= j {
        UpAdd(p, d, k, j - k);
        assert Up(p, Up(p, d, k).value, j - k) == Some(n);
        KeptRow(c, p, n, Edge(Up(p, d, k).value, d));
      }
    } else {
      UpOutside(p, n, q, d, k);
      KeptRow(c, p, n, Edge(Up(p, d, k).value, d));
    }
  }

  /** The two statements of a move turn the exact table of the old forest into
      the exact table of the new one, and the insert meets no existing key. */
  lemma MoveKeepsExact(c: Closures, p: Parents, n: Id, q: Option<Id>)
    requires Exact(c, p) && IsForest(p) && n in p
    requires q.Some? ==> q.value in p && !Below(p, q.value, n)
    ensures Exact(Rehang(c, n, q), p[n := q])
    ensures q.Some? ==> WithoutUpperPaths(c, n).Keys !! GraftedRows(WithoutUpperPaths(c, n), n, q.value).Keys
  {
    RehangRows(c, p, n, q);
    RehungIsExact(c, p, n, q, Rehang(c, n, q));
  }

  lemma RehungIsExact(c: Closures, p: Parents, n: Id, q: Option<Id>, rows: Closures)
    requires Exact(c, p) && IsForest(p) && n in p
    requires q.Some? ==> q.value in p && !Below(p, q.value, n)
    requires forall e :: Kept(c, n, e) ==> e in rows && rows[e] == c[e]
    requires forall e :: Grafted(c, n, q, e) ==>
               e in rows && rows[e] == c[Edge(e.anc, q.value)] + c[Edge(n, e.desc)] + 1
    requires forall e :: e in rows ==> Kept(c, n, e) || Grafted(c, n, q, e)
    ensures Exact(rows, p[n := q])
  {
    var p' := p[n := q];
    forall e | e in rows ensures Up(p', e.desc, rows[e]) == Some(e.anc) {
      if Kept(c, n, e) {
        KeptRow(c, p, n, e);
        KeptRowSound(c, p, n, q, e);
      } else {
        assert Grafted(c, n, q, e);
        GraftedRowSound(c, p, n, q.value, e.anc, e.desc);
      }
    }
    forall d: Id, k: nat | Up(p', d, k).Some? ensures Edge(Up(p', d, k).value, d) in rows {
      MovedRowComplete(c, p, n, q, d, k);
    }
  }

  lemma DropKeepsExact(c: Closures, p: Parents, gone: set<Id>)
    requires Exact(c, p) && DownClosed(p, gone)
    ensures Exact(WithoutNodes(c, gone), p - gone)
  {
    var rows := WithoutNodes(c, gone);
    forall e | e in rows ensures Up(p - gone, e.desc, rows[e]) == Some(e.anc) {
      UpAfterDrop(p, gone, e.desc, rows[e]);
    }
    forall d: Id, k: nat | Up(p - gone, d, k).Some? ensures Edge(Up(p - gone, d, k).value, d) in rows {
      UpAfterDrop(p, gone, d, k);
      UpStays(p - gone, d, k);
    }
  }

  /** Moving a node away and back restores every closure row. */
  lemma MoveAwayAndBack(c: Closures, p: Parents, n: Id, q: Option<Id>)
    requires Exact(c, p) && IsForest(p) && n in p
    requires q.Some? ==> q.value in p && !Below(p, q.value, n)
    ensures Rehang(Rehang(c, n, q), n, p[n]) == c
  {
    var p' := p[n := q];
    MoveKeepsExact(c, p, n, q);
    MoveKeepsForest(p, n, q);
    assert p'[n := p[n]] == p;
    MoveKeepsForest(p', n, p[n]);
    MoveKeepsExact(Rehang(c, n, q), p', n, p[n]);
    ExactUnique(Rehang(Rehang(c, n, q), n, p[n]), c, p);
  }
}
