/** The received_chunks column of an upload session: decoding, marking a part,
    and why the bare length test of finalize is a completeness test. */
module Chunks {
  import opened Common
  import opened Sorting

  /** The stored text: empty, not JSON, or a JSON array of integers. */
  datatype ChunkText = Empty | Malformed | Json(chunks: seq<int>)

  ghost predicate StrictlyAscending(s: seq<int>) {
    forall i, j :: 0 <= i < j < |s| ==> s[i] < s[j]
  }

  function AtMost(a: int, b: int): bool {
    a <= b
  }

  /** sort.Ints. */
  function SortInts(s: seq<int>): seq<int> {
    SortBy(s, AtMost)
  }

  /** DecodeReceivedChunks: malformed text and negative indices are errors. */
  function Decode(t: ChunkText): Option<seq<int>> {
    match t
    case Empty => Some([])
    case Malformed => None
    case Json(s) => if exists i :: 0 <= i < |s| && s[i] < 0 then None else Some(SortInts(s))
  }

  /** The list MarkPartReceived stores for one more part. */
  function Marked(received: seq<int>, part: int): seq<int> {
    if part in received then received else SortInts(received + [part])
  }

  function MarkedAll(received: seq<int>, parts: seq<int>): seq<int>
    decreases |parts|
  {
    if parts == [] then received
    else Marked(MarkedAll(received, parts[..|parts| - 1]), parts[|parts| - 1])
  }

  /** An empty column is an empty list, broken text and negative indices are errors, and any
      other list comes back with the same indices in order. */
  lemma DecodeTells(s: seq<int>)
    ensures Decode(Empty) == Some([]) && Decode(Malformed).None?
    ensures Decode(Json(s)).Some? <==> forall x :: x in s ==> x >= 0
    ensures Decode(Json(s)).Some? ==>
              var list := Decode(Json(s)).value;
              multiset(list) == multiset(s) && forall i, j :: 0 <= i < j < |list| ==> list[i] <= list[j]
  {
    SortElements(s, AtMost);
    SortSorted(s, AtMost);
    if i :| 0 <= i < |s| && s[i] < 0 {
      assert s[i] in s;
    }
    var list := SortInts(s);
    forall i, j | 0 <= i < j < |list| ensures list[i] <= list[j] {
      assert AtMost(list[i], list[j]);
    }
  }

  /** A strictly ascending list is left alone by sorting. */
  lemma SortedStays(s: seq<int>)
    requires StrictlyAscending(s)
    ensures SortInts(s) == s
  {
    SortStays(s, AtMost);
  }

  lemma {:induction false} DistinctAscending(s: seq<int>)
    requires SortedBy(s, AtMost) && forall x :: x in s ==> multiset(s)[x] == 1
    ensures StrictlyAscending(s)
  {
    forall i, j | 0 <= i < j < |s| ensures s[i] < s[j] {
      assert s == s[..j] + s[j..];
      assert s[i] in s[..j] && s[j] in s[j..];
      assert s[i] in multiset(s[..j]) && s[j] in multiset(s[j..]);
      assert multiset(s) == multiset(s[..j]) + multiset(s[j..]);
      assert s[i] in s;
    }
  }

  lemma {:induction false} OnceEach(s: seq<int>)
    requires StrictlyAscending(s)
    ensures forall x :: x in s ==> multiset(s)[x] == 1
  {
    if s != [] {
      OnceEach(s[..|s| - 1]);
      assert s == s[..|s| - 1] + [s[|s| - 1]];
    }
  }

  /** Marking a part keeps the list strictly ascending and adds that part only. */
  lemma MarkedKeeps(received: seq<int>, part: int)
    requires StrictlyAscending(received)
    ensures StrictlyAscending(Marked(received, part))
    ensures forall x :: x in Marked(received, part) <==> x in received || x == part
  {
    if part !in received {
      var r := Marked(received, part);
      SortElements(received + [part], AtMost);
      SortSorted(received + [part], AtMost);
      OnceEach(received);
      assert part !in multiset(received);
      forall x | x in r ensures multiset(r)[x] == 1 {
        assert multiset(r)[x] == multiset(received)[x] + multiset{part}[x];
      }
      DistinctAscending(r);
    }
  }

  lemma {:induction false} MarkedAllKeeps(received: seq<int>, parts: seq<int>)
    requires StrictlyAscending(received)
    ensures StrictlyAscending(MarkedAll(received, parts))
    ensures forall x :: x in MarkedAll(received, parts) <==> x in received || x in parts
    decreases |parts|
  {
    if parts != [] {
      var front, last := parts[..|parts| - 1], parts[|parts| - 1];
      MarkedAllKeeps(received, front);
      MarkedKeeps(MarkedAll(received, front), last);
      assert parts == front + [last];
    }
  }

  lemma {:induction false} Spread(s: seq<int>, i: nat, j: nat)
    requires StrictlyAscending(s) && i <= j < |s|
    ensures s[j] - s[i] >= j - i
    decreases j
  {
    if i < j {
      Spread(s, i, j - 1);
    }
  }

  /** A strictly ascending list holding 0..k holds `i` at position `i`. */
  lemma {:induction false} AtOwnIndex(s: seq<int>, k: nat)
    requires StrictlyAscending(s) && (forall x :: x in s ==> 0 <= x) && forall x :: 0 <= x <= k ==> x in s
    ensures k < |s| && s[k] == k
  {
    if k > 0 {
      AtOwnIndex(s, k - 1);
    }
    assert k in s;
    var j :| 0 <= j < |s| && s[j] == k;
    assert s[0] in s;
    Spread(s, 0, j);
    assert k > 0 ==> j > k - 1;
  }

  /** Pigeonhole: `n` strictly ascending indices below `n` are all of them. */
  lemma FullWhenLong(s: seq<int>, n: nat)
    requires StrictlyAscending(s) && forall x :: x in s ==> 0 <= x < n
    ensures |s| <= n
    ensures |s| == n <==> forall x :: 0 <= x < n ==> x in s
  {
    if s != [] {
      var last := |s| - 1;
      assert s[0] in s && s[last] in s;
      Spread(s, 0, last);
      if |s| == n {
        forall x | 0 <= x < n ensures x in s {
          Spread(s, 0, x);
          Spread(s, x, last);
          assert s[x] == x;
        }
      }
    }
    if n > 0 && forall x :: 0 <= x < n ==> x in s {
      AtOwnIndex(s, n - 1);
    }
  }

  /** Whatever the order and the repeats in which the parts of a fresh session
      arrive, the length test holds exactly when each part arrived. */
  lemma LengthTestIsCompleteness(parts: seq<int>, total: nat)
    requires forall x :: x in parts ==> 0 <= x < total
    ensures |MarkedAll([], parts)| == total <==> forall x :: 0 <= x < total ==> x in parts
  {
    MarkedAllKeeps([], parts);
    FullWhenLong(MarkedAll([], parts), total);
  }
}
