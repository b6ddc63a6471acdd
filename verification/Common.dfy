/** Small shared definitions: optional values, the outcome of a transaction,
    and sums over the rows of a table. */
module Common {

  datatype Option<+T> = None | Some(value: T) {
    function GetOr(default: T): T {
      if Some? then value else default
    }
  }

  /** Truncated subtraction: SQL's GREATEST(a - b, 0). */
  function Monus(a: nat, b: nat): nat {
    if a < b then 0 else a - b
  }

  /** The sum of all values of a finite map (SQL's SUM over a selection). */
  ghost function Sum<K>(m: map<K, nat>): nat {
    if m == map[] then 0
    else
      var k :| k in m;
      m[k] + Sum(m - {k})
  }

  lemma {:induction false} SumRemove<K>(m: map<K, nat>, k: K)
    requires k in m
    ensures Sum(m) == m[k] + Sum(m - {k})
    decreases |m|
  {
    var j :| j in m && Sum(m) == m[j] + Sum(m - {j});
    if j != k {
      SumRemove(m - {j}, k);
      SumRemove(m - {k}, j);
      assert m - {j} - {k} == m - {k} - {j};
    }
  }

  lemma {:induction false} SumSplit<K>(m: map<K, nat>, part: set<K>)
    ensures Sum(m) == Sum(map k | k in m && k in part :: m[k]) + Sum(m - part)
    decreases |m|
  {
    var inside := map k | k in m && k in part :: m[k];
    if forall k :: k in m ==> k !in part {
      assert inside == map[];
      assert m - part == m;
    } else {
      var k :| k in m && k in part;
      SumRemove(m, k);
      SumRemove(inside, k);
      SumSplit(m - {k}, part);
      assert (map j | j in (m - {k}) && j in part :: (m - {k})[j]) == inside - {k};
      assert m - {k} - part == m - part;
    }
  }
}
