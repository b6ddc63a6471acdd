/** The activity list of a node: two tables are read newest first, only as deep as
    the page needs, and merged. The pages are slices of the whole merged list exactly
    when no row is reached too late. */
module Activity {
  import opened Sorting

  datatype Source = AuditSource | VersionSource
  datatype Record = Record(source: Source, id: nat, at: int)

  // ----- the two orders -------------------------------------------------------------------

  const DIGITS := "0123456789"

  function Digits(n: nat): string {
    if n < 10 then [DIGITS[n]] else Digits(n / 10) + [DIGITS[n % 10]]
  }

  /** The id text of a merged row. */
  function IdText(r: Record): string {
    (if r.source == AuditSource then "audit:" else "version:") + Digits(r.id)
  }

  /** Byte-wise string comparison. */
  predicate TextLeq(a: string, b: string) {
    if a == [] then true
    else if b == [] then false
    else if a[0] == b[0] then TextLeq(a[1..], b[1..])
    else a[0] < b[0]
  }

  /** The order of the merge: newest first, then by id text, descending. */
  predicate Merged(a: Record, b: Record) {
    a.at > b.at || (a.at == b.at && TextLeq(IdText(b), IdText(a)))
  }

  /** ORDER BY created_at DESC, id DESC within one table. */
  predicate Newest(a: Record, b: Record) {
    a.at > b.at || (a.at == b.at && a.id >= b.id)
  }

  lemma {:induction false} TextTotal(a: string, b: string)
    ensures TextLeq(a, b) || TextLeq(b, a)
    ensures TextLeq(a, b) && TextLeq(b, a) ==> a == b
  {
    if a != [] && b != [] && a[0] == b[0] {
      TextTotal(a[1..], b[1..]);
      assert a == [a[0]] + a[1..] && b == [b[0]] + b[1..];
    }
  }

  lemma {:induction false} TextTrans(a: string, b: string, c: string)
    requires TextLeq(a, b) && TextLeq(b, c)
    ensures TextLeq(a, c)
  {
    if a != [] && a[0] == b[0] && b[0] == c[0] {
      TextTrans(a[1..], b[1..], c[1..]);
    }
  }

  lemma MergedTotal()
    ensures Total(Merged)
  {
    forall a, b ensures Merged(a, b) || Merged(b, a) {
      TextTotal(IdText(a), IdText(b));
    }
    forall a, b, c | Merged(a, b) && Merged(b, c) ensures Merged(a, c) {
      if a.at == b.at == c.at {
        TextTrans(IdText(c), IdText(b), IdText(a));
      }
    }
  }

  lemma {:induction false} DigitsDiffer(m: nat, n: nat)
    requires Digits(m) == Digits(n)
    ensures m == n
    decreases m
  {
    var a, b := Digits(m), Digits(n);
    assert a[|a| - 1] == b[|b| - 1];
    assert m >= 10 ==> |a| > 1 && a[..|a| - 1] == Digits(m / 10);
    assert n >= 10 ==> |b| > 1 && b[..|b| - 1] == Digits(n / 10);
    if m >= 10 && n >= 10 {
      DigitsDiffer(m / 10, n / 10);
    }
  }

  lemma IdTextsDiffer(a: Record, b: Record)
    requires IdText(a) == IdText(b)
    ensures a.source == b.source && a.id == b.id
  {
    assert IdText(a)[0] == IdText(b)[0];
    assert IdText(a)[if a.source == AuditSource then 6 else 8..] == Digits(a.id);
    assert IdText(b)[if b.source == AuditSource then 6 else 8..] == Digits(b.id);
    DigitsDiffer(a.id, b.id);
  }

  // ----- pages ------------------------------------------------------------------------------

  /** Both tables as their queries list them in full. */
  ghost predicate Listings(audit: seq<Record>, versions: seq<Record>) {
    && (forall r :: r in audit ==> r.source == AuditSource) && (forall r :: r in versions ==> r.source == VersionSource)
    && SortedBy(audit, Newest) && SortedBy(versions, Newest)
    && (forall i, j :: 0 <= i < j < |audit| ==> audit[i].id != audit[j].id)
    && (forall i, j :: 0 <= i < j < |versions| ==> versions[i].id != versions[j].id)
  }

  /** Where page `page` ends in the merged list. */
  function EndOf(page: nat, size: nat): nat {
    page * size
  }

  function Slice(s: seq<Record>, page: nat, size: nat): seq<Record>
    requires page >= 1
  {
    var start, end := (page - 1) * size, page * size;
    if start >= |s| then [] else if end >= |s| then s[start..] else s[start..end]
  }

  /** All activity in merge order. */
  function Whole(audit: seq<Record>, versions: seq<Record>): seq<Record> {
    SortBy(audit + versions, Merged)
  }

  function Page(audit: seq<Record>, versions: seq<Record>, page: nat, size: nat): seq<Record>
    requires page >= 1
  {
    Slice(Whole(First(audit, page * size), First(versions, page * size)), page, size)
  }

  /** No row stands further down its table than in the merged list. */
  ghost predicate InTime(audit: seq<Record>, versions: seq<Record>) {
    var whole := Whole(audit, versions);
    forall k :: 0 <= k < |whole| ==> whole[k] in First(audit, k + 1) || whole[k] in First(versions, k + 1)
  }

  predicate Tied(s: seq<Record>, i: nat, j: nat)
    requires i < |s| && j < |s|
  {
    Merged(s[i], s[j]) && Merged(s[j], s[i])
  }

  /** The merge order tells all rows apart. */
  ghost predicate NoTies(s: seq<Record>) {
    forall i, j | 0 <= i < |s| && 0 <= j < |s| && Tied(s, i, j) :: s[i] == s[j]
  }

  lemma DistinctRows(audit: seq<Record>, versions: seq<Record>)
    requires Listings(audit, versions)
    ensures NoRepeat(audit + versions) && Strict(audit + versions, Merged)
  {
    var all := audit + versions;
    forall i, j | 0 <= i < j < |all| ensures all[i] != all[j] && IdText(all[i]) != IdText(all[j]) {
      assert i < |audit| ==> all[i] in audit;
      assert j >= |audit| ==> all[j] in versions;
      if IdText(all[i]) == IdText(all[j]) {
        IdTextsDiffer(all[i], all[j]);
      }
    }
    forall i, j | 0 <= i < |all| && 0 <= j < |all| && Merged(all[i], all[j]) && Merged(all[j], all[i])
      ensures all[i] == all[j]
    {
      TextTotal(IdText(all[i]), IdText(all[j]));
    }
  }

  lemma WholeFacts(audit: seq<Record>, versions: seq<Record>)
    requires Listings(audit, versions)
    ensures SortedBy(Whole(audit, versions), Merged) && NoRepeat(Whole(audit, versions))
    ensures |Whole(audit, versions)| == |audit| + |versions|
    ensures forall r :: r in Whole(audit, versions) <==> r in audit || r in versions
    ensures NoTies(Whole(audit, versions))
  {
    MergedTotal();
    DistinctRows(audit, versions);
    SortSorted(audit + versions, Merged);
    SortElements(audit + versions, Merged);
    SortedNoRepeat(audit + versions, Merged);
    StillNoTies(audit + versions, Whole(audit, versions));
  }

  lemma StillNoTies(a: seq<Record>, b: seq<Record>)
    requires Strict(a, Merged) && forall r :: r in b ==> r in a
    ensures NoTies(b)
  {
    forall i, j | 0 <= i < |b| && 0 <= j < |b| && Tied(b, i, j) ensures b[i] == b[j] {
      assert b[i] in a && b[j] in a;
      var k :| 0 <= k < |a| && a[k] == b[i];
      var l :| 0 <= l < |a| && a[l] == b[j];
    }
  }

  lemma FirstTables(audit: seq<Record>, versions: seq<Record>, n: nat)
    requires Listings(audit, versions)
    ensures Listings(First(audit, n), First(versions, n))
    ensures forall r :: r in First(audit, n) ==> r in audit
    ensures forall r :: r in First(versions, n) ==> r in versions
  {
  }

  /** A sorted part that holds the first `n` rows of the sorted whole starts with them. */
  lemma {:induction false} SamePrefix(whole: seq<Record>, part: seq<Record>, n: nat)
    requires n <= |whole| && SortedBy(whole, Merged) && SortedBy(part, Merged) && NoTies(whole) && NoRepeat(part) && NoRepeat(whole)
    requires forall r :: r in part ==> r in whole
    requires forall k :: 0 <= k < n ==> whole[k] in part
    ensures n <= |part| && forall l :: 0 <= l < n ==> part[l] == whole[l]
  {
    if n > 0 {
      SamePrefix(whole, part, n - 1);
      assert whole[n - 1] in part;
      SameNext(whole, part, n - 1);
    }
  }

  lemma SameNext(whole: seq<Record>, part: seq<Record>, n: nat)
    requires n < |whole| && SortedBy(whole, Merged) && SortedBy(part, Merged) && NoTies(whole) && NoRepeat(part) && NoRepeat(whole)
    requires forall r :: r in part ==> r in whole
    requires whole[n] in part && n <= |part| && forall l :: 0 <= l < n ==> part[l] == whole[l]
    ensures n < |part| && part[n] == whole[n]
  {
    var i :| 0 <= i < |part| && part[i] == whole[n];
    assert i >= n;
    assert part[n] in part;
    var j :| 0 <= j < |whole| && whole[j] == part[n];
    assert j >= n;
    MergedTotal();
    assert Merged(part[n], part[i]) && Merged(whole[n], whole[j]);
    assert Tied(whole, j, n);
  }

  /** The rows fetched for a page begin like the whole list. */
  lemma FetchedPrefix(audit: seq<Record>, versions: seq<Record>, end: nat)
    requires Listings(audit, versions) && InTime(audit, versions)
    ensures var whole, part := Whole(audit, versions), Whole(First(audit, end), First(versions, end));
            var n := if end <= |whole| then end else |whole|;
            n <= |part| <= |whole| && part[..n] == whole[..n]
  {
    var whole, part := Whole(audit, versions), Whole(First(audit, end), First(versions, end));
    var n := if end <= |whole| then end else |whole|;
    FirstTables(audit, versions, end);
    WholeFacts(audit, versions);
    WholeFacts(First(audit, end), First(versions, end));
    forall k | 0 <= k < n ensures whole[k] in part {
      if whole[k] in First(audit, k + 1) {
        FirstGrows(audit, k + 1, end, whole[k]);
      } else {
        FirstGrows(versions, k + 1, end, whole[k]);
      }
    }
    SamePrefix(whole, part, n);
    assert part[..n] == whole[..n];
  }

  lemma FirstGrows(s: seq<Record>, m: nat, n: nat, r: Record)
    requires m <= n && r in First(s, m)
    ensures r in First(s, n)
  {
    var i :| 0 <= i < |First(s, m)| && First(s, m)[i] == r;
    assert First(s, n)[i] == r;
  }

  lemma PageIsSlice(audit: seq<Record>, versions: seq<Record>, page: nat, size: nat)
    requires Listings(audit, versions) && InTime(audit, versions) && page >= 1 && size >= 1
    ensures Page(audit, versions, page, size) == Slice(Whole(audit, versions), page, size)
  {
    var end := page * size;
    FetchedPrefix(audit, versions, end);
    SlicesAgree(Whole(audit, versions), Whole(First(audit, end), First(versions, end)), page, size);
  }

  lemma SlicesAgree(whole: seq<Record>, part: seq<Record>, page: nat, size: nat)
    requires page >= 1 && size >= 1
    requires var n := if page * size <= |whole| then page * size else |whole|;
             n <= |part| <= |whole| && part[..n] == whole[..n]
    ensures Slice(part, page, size) == Slice(whole, page, size)
  {
    var start, end := (page - 1) * size, page * size;
    assert start + size == end;
    if end <= |whole| {
      assert part[start..end] == part[..end][start..] == whole[..end][start..] == whole[start..end];
      if end == |part| {
        assert part[start..] == part[start..end];
      }
      if end == |whole| {
        assert whole[start..] == whole[start..end];
      }
    } else {
      assert part == part[..|whole|] && whole == whole[..|whole|];
    }
  }

  /** Fetching only page * size rows of each table gives the right page for every
      page and size exactly when no row stands too far down its table. */
  lemma PagesAreSlices(audit: seq<Record>, versions: seq<Record>)
    requires Listings(audit, versions)
    ensures InTime(audit, versions) <==>
            forall page: nat, size: nat | page >= 1 && size >= 1 ::
              Page(audit, versions, page, size) == Slice(Whole(audit, versions), page, size)
  {
    var whole := Whole(audit, versions);
    if InTime(audit, versions) {
      forall page: nat, size: nat | page >= 1 && size >= 1
        ensures Page(audit, versions, page, size) == Slice(whole, page, size)
      {
        PageIsSlice(audit, versions, page, size);
      }
    } else {
      var k :| 0 <= k < |whole| && whole[k] !in First(audit, k + 1) && whole[k] !in First(versions, k + 1);
      FirstPageMisses(audit, versions, k);
    }
  }

  lemma FirstSlice(s: seq<Record>, n: nat)
    ensures Slice(s, 1, n) == First(s, n)
  {
    assert 1 * n == n && (1 - 1) * n == 0;
  }

  lemma FirstPageMisses(audit: seq<Record>, versions: seq<Record>, k: nat)
    requires Listings(audit, versions) && k < |Whole(audit, versions)|
    requires Whole(audit, versions)[k] !in First(audit, k + 1) && Whole(audit, versions)[k] !in First(versions, k + 1)
    ensures Page(audit, versions, 1, k + 1) != Slice(Whole(audit, versions), 1, k + 1)
  {
    assert 1 * (k + 1) == k + 1;
    FirstTables(audit, versions, k + 1);
    WholeFacts(First(audit, k + 1), First(versions, k + 1));
    MissedRow(Whole(audit, versions), Whole(First(audit, k + 1), First(versions, k + 1)), k);
  }

  lemma MissedRow(whole: seq<Record>, part: seq<Record>, k: nat)
    requires k < |whole| && whole[k] !in part
    ensures Slice(part, 1, k + 1) != Slice(whole, 1, k + 1)
  {
    FirstSlice(part, k + 1);
    FirstSlice(whole, k + 1);
    assert First(whole, k + 1)[k] == whole[k];
    if |part| > k {
      assert First(part, k + 1)[k] == part[k];
    }
  }

  // ----- when rows are in time --------------------------------------------------------------

  lemma {:induction false} SizeOfSeq(s: seq<Record>)
    requires NoRepeat(s)
    ensures |set r | r in s| == |s|
  {
    if s != [] {
      var before, last := s[..|s| - 1], s[|s| - 1];
      SizeOfSeq(before);
      assert s == before + [last];
      assert (set r | r in s) == (set r | r in before) + {last};
      assert last !in before;
    }
  }

  lemma {:induction false} SmallerSet(a: set<Record>, b: set<Record>)
    requires a <= b
    ensures |a| <= |b|
  {
    if a != {} {
      var x :| x in a;
      SmallerSet(a - {x}, b - {x});
    }
  }

  /** A row is found no further down a table than in the whole list, when the table
      is in merge order. */
  lemma RankInTable(table: seq<Record>, whole: seq<Record>, j: nat, k: nat)
    requires SortedBy(table, Merged) && SortedBy(whole, Merged) && NoRepeat(table) && NoRepeat(whole)
    requires forall r :: r in table ==> r in whole
    requires NoTies(whole)
    requires j < |table| && k < |whole| && table[j] == whole[k]
    ensures j <= k
  {
    var above, before := table[..j], whole[..k];
    forall r | r in above ensures r in before {
      var i :| 0 <= i < |above| && above[i] == r;
      assert table[i] == r && r in table;
      var l :| 0 <= l < |whole| && whole[l] == r;
      assert Merged(r, whole[k]) && r != whole[k];
      assert forall m :: k < m < |whole| ==> Merged(whole[k], whole[m]);
      assert Tied(whole, k, l) || l < k;
      assert before[l] == r;
    }
    SizeOfSeq(above);
    SizeOfSeq(before);
    SmallerSet(set r | r in above, set r | r in before);
  }

  /** If both tables list their rows in merge order, every row is in time. */
  lemma AgreeingOrdersInTime(audit: seq<Record>, versions: seq<Record>)
    requires Listings(audit, versions) && SortedBy(audit, Merged) && SortedBy(versions, Merged)
    ensures InTime(audit, versions)
  {
    var whole := Whole(audit, versions);
    WholeFacts(audit, versions);
    forall k | 0 <= k < |whole| ensures whole[k] in First(audit, k + 1) || whole[k] in First(versions, k + 1) {
      assert whole[k] in whole;
      if whole[k] in audit {
        var j :| 0 <= j < |audit| && audit[j] == whole[k];
        RankInTable(audit, whole, j, k);
        assert First(audit, k + 1)[j] == whole[k];
      } else {
        var j :| 0 <= j < |versions| && versions[j] == whole[k];
        RankInTable(versions, whole, j, k);
        assert First(versions, k + 1)[j] == whole[k];
      }
    }
  }

  /** With distinct timestamps in each table the two orders agree. */
  lemma DistinctTimesAgree(table: seq<Record>)
    requires SortedBy(table, Newest) && forall i, j :: 0 <= i < j < |table| ==> table[i].at != table[j].at
    ensures SortedBy(table, Merged)
  {
  }

  /** For one table alone, agreement of the two orders is also needed. */
  lemma OneTableInTime(audit: seq<Record>)
    requires Listings(audit, [])
    ensures InTime(audit, []) <==> SortedBy(audit, Merged)
  {
    if SortedBy(audit, Merged) {
      AgreeingOrdersInTime(audit, []);
    }
    if InTime(audit, []) {
      WholeFacts(audit, []);
      assert audit + [] == audit;
      forall k | 0 <= k < |audit| ensures EarlyEnough(audit, Whole(audit, []), k) {
      }
      NothingMoves(audit, Whole(audit, []), |audit|);
      assert Whole(audit, []) == audit;
    }
  }

  /** Row `k` of the list is among the first k + 1 of the table. */
  ghost predicate EarlyEnough(table: seq<Record>, whole: seq<Record>, k: nat)
    requires k < |whole|
  {
    whole[k] in First(table, k + 1)
  }

  lemma {:induction false} NothingMoves(table: seq<Record>, whole: seq<Record>, n: nat)
    requires n <= |table| == |whole| && NoRepeat(whole)
    requires forall k :: 0 <= k < |whole| ==> EarlyEnough(table, whole, k)
    ensures forall l :: 0 <= l < n ==> whole[l] == table[l]
  {
    if n > 0 {
      NothingMoves(table, whole, n - 1);
      assert EarlyEnough(table, whole, n - 1);
      var j :| 0 <= j < n && table[..n][j] == whole[n - 1];
      assert forall l :: 0 <= l < n - 1 ==> table[l] != whole[n - 1];
    }
  }

  // ----- the same condition on the rows ------------------------------------------------------

  /** The rows of both tables that the merge puts before `r`. */
  ghost function Ahead(audit: seq<Record>, versions: seq<Record>, r: Record): set<Record> {
    set x | x in audit + versions && x != r && Merged(x, r)
  }

  /** Row `j` of a table has at least `j` rows ahead of it in the merge. */
  ghost predicate EnoughAhead(table: seq<Record>, audit: seq<Record>, versions: seq<Record>, j: nat)
    requires j < |table|
  {
    j <= |Ahead(audit, versions, table[j])|
  }

  ghost predicate RowsInTime(audit: seq<Record>, versions: seq<Record>) {
    && (forall j :: 0 <= j < |audit| ==> EnoughAhead(audit, audit, versions, j))
    && (forall j :: 0 <= j < |versions| ==> EnoughAhead(versions, audit, versions, j))
  }

  /** A row stands in the merged list behind exactly the rows ahead of it. */
  lemma PlaceIsCount(audit: seq<Record>, versions: seq<Record>, k: nat)
    requires Listings(audit, versions) && k < |Whole(audit, versions)|
    ensures |Ahead(audit, versions, Whole(audit, versions)[k])| == k
  {
    var whole := Whole(audit, versions);
    WholeFacts(audit, versions);
    SortedBefore(whole, k);
    assert forall x :: x in audit + versions <==> x in whole;
    assert Ahead(audit, versions, whole[k]) == set x | x in whole[..k];
    SizeOfSeq(whole[..k]);
  }

  lemma SortedBefore(whole: seq<Record>, k: nat)
    requires SortedBy(whole, Merged) && NoRepeat(whole) && NoTies(whole) && k < |whole|
    ensures forall x :: x in whole[..k] <==> x in whole && x != whole[k] && Merged(x, whole[k])
  {
    forall x | x in whole && x != whole[k] && Merged(x, whole[k]) ensures x in whole[..k] {
      var l :| 0 <= l < |whole| && whole[l] == x;
      assert Tied(whole, l, k) || l < k;
      assert l < k ==> whole[..k][l] == x;
    }
    forall x | x in whole[..k] ensures x in whole && x != whole[k] && Merged(x, whole[k]) {
      var l :| 0 <= l < k && whole[..k][l] == x;
      assert whole[l] == x;
    }
  }

  /** Rows are in time exactly when each has, in both tables together, at least as many
      rows ahead of it in the merge as it has in its own table. */
  lemma InTimeByRows(audit: seq<Record>, versions: seq<Record>)
    requires Listings(audit, versions)
    ensures InTime(audit, versions) <==> RowsInTime(audit, versions)
  {
    var whole := Whole(audit, versions);
    WholeFacts(audit, versions);
    if InTime(audit, versions) {
      forall j | 0 <= j < |audit| ensures EnoughAhead(audit, audit, versions, j) {
        assert audit[j] in whole;
        var k :| 0 <= k < |whole| && whole[k] == audit[j];
        PlaceIsCount(audit, versions, k);
        EarlyHere(audit, versions, j, k);
      }
      forall j | 0 <= j < |versions| ensures EnoughAhead(versions, audit, versions, j) {
        assert versions[j] in whole;
        var k :| 0 <= k < |whole| && whole[k] == versions[j];
        PlaceIsCount(audit, versions, k);
        EarlyHere(versions, audit, j, k);
      }
    }
    if RowsInTime(audit, versions) {
      forall k | 0 <= k < |whole| ensures whole[k] in First(audit, k + 1) || whole[k] in First(versions, k + 1) {
        PlaceIsCount(audit, versions, k);
        assert whole[k] in whole;
        if whole[k] in audit {
          var j :| 0 <= j < |audit| && audit[j] == whole[k];
          assert EnoughAhead(audit, audit, versions, j);
          assert First(audit, k + 1)[j] == whole[k];
        } else {
          var j :| 0 <= j < |versions| && versions[j] == whole[k];
          assert EnoughAhead(versions, audit, versions, j);
          assert First(versions, k + 1)[j] == whole[k];
        }
      }
    }
  }

  /** A row found among the first k + 1 of either table stands there in its own. */
  lemma EarlyHere(table: seq<Record>, other: seq<Record>, j: nat, k: nat)
    requires j < |table| && (table[j] in First(table, k + 1) || table[j] in First(other, k + 1))
    requires forall r, t :: r in table && t in other ==> r.source != t.source
    requires forall i, l :: 0 <= i < l < |table| ==> table[i].id != table[l].id
    ensures j <= k
  {
    if table[j] in First(other, k + 1) {
      var i :| 0 <= i < |First(other, k + 1)| && First(other, k + 1)[i] == table[j];
      assert other[i] in other && table[j] in table;
    }
    var i :| 0 <= i < |First(table, k + 1)| && First(table, k + 1)[i] == table[j];
    assert table[i] == table[j];
  }

  lemma NineBeforeTen()
    ensures Merged(Record(AuditSource, 9, 0), Record(AuditSource, 10, 0)) && !Merged(Record(AuditSource, 10, 0), Record(AuditSource, 9, 0))
  {
    assert Digits(10) == Digits(1) + Digits(0) == "10" && Digits(9) == "9";
    SameStart("audit:", "10", "9");
    SameStart("audit:", "9", "10");
  }

  /** Audit rows 10 and 9 with one timestamp: the first page and the second page of
      size one both show row 10, and row 9 is never shown. */
  lemma NineAndTen()
    ensures var audit := [Record(AuditSource, 10, 0), Record(AuditSource, 9, 0)];
            && Listings(audit, []) && Page(audit, [], 1, 1) == [audit[0]] && Page(audit, [], 2, 1) == [audit[0]]
            && Slice(Whole(audit, []), 1, 1) == [audit[1]]
  {
    var ten, nine := Record(AuditSource, 10, 0), Record(AuditSource, 9, 0);
    var audit := [ten, nine];
    NineBeforeTen();
    SortTwo(ten, nine);
    SortOne(ten);
    assert audit + [] == audit && [ten] + [] == [ten];
    assert Whole(audit, []) == [nine, ten];
    assert First(audit, 2 * 1) == audit;
    assert First(audit, 1 * 1) == [ten] && Whole([ten], []) == [ten];
  }

  lemma {:induction false} SameStart(prefix: string, a: string, b: string)
    ensures TextLeq(prefix + a, prefix + b) <==> TextLeq(a, b)
  {
    if prefix == [] {
      assert prefix + a == a && prefix + b == b;
    } else {
      assert (prefix + a)[1..] == prefix[1..] + a && (prefix + b)[1..] == prefix[1..] + b;
      SameStart(prefix[1..], a, b);
    }
  }

  lemma SortTwo(x: Record, y: Record)
    requires !Merged(x, y)
    ensures SortBy([x, y], Merged) == [y, x]
  {
    assert [x, y][1..] == [y] && [y][1..] == [];
    assert SortBy([y], Merged) == [y];
    assert Insert(x, [], Merged) == [x];
  }

  lemma SortOne(x: Record)
    ensures SortBy([x], Merged) == [x]
  {
    assert [x][1..] == [];
  }

  // ----- reading on -------------------------------------------------------------------------

  /** The first `n` pages one after the other. */
  function Pages(audit: seq<Record>, versions: seq<Record>, n: nat, size: nat): seq<Record> {
    if n == 0 then [] else Pages(audit, versions, n - 1, size) + Page(audit, versions, n, size)
  }

  ghost predicate PageFits(audit: seq<Record>, versions: seq<Record>, page: nat, size: nat)
    requires page >= 1
  {
    Page(audit, versions, page, size) == Slice(Whole(audit, versions), page, size)
  }

  /** Successive pages over unchanged tables join without gap or repeat. */
  lemma PagesJoin(audit: seq<Record>, versions: seq<Record>, n: nat, size: nat)
    requires Listings(audit, versions) && InTime(audit, versions) && size >= 1
    ensures Pages(audit, versions, n, size) == First(Whole(audit, versions), EndOf(n, size))
  {
    forall page: nat | 1 <= page <= n ensures PageFits(audit, versions, page, size) {
      PageIsSlice(audit, versions, page, size);
    }
    SlicesJoin(audit, versions, n, size);
  }

  lemma {:induction false} SlicesJoin(audit: seq<Record>, versions: seq<Record>, n: nat, size: nat)
    requires forall page: nat :: 1 <= page <= n ==> PageFits(audit, versions, page, size)
    ensures Pages(audit, versions, n, size) == First(Whole(audit, versions), EndOf(n, size))
  {
    var whole := Whole(audit, versions);
    if n == 0 {
      NoPages(whole, size);
    } else {
      SlicesJoin(audit, versions, n - 1, size);
      assert PageFits(audit, versions, n, size);
      SliceJoins(whole, n, size);
    }
  }

  lemma NoPages(s: seq<Record>, size: nat)
    ensures First(s, EndOf(0, size)) == []
  {
    assert 0 * size == 0;
  }

  lemma SliceJoins(s: seq<Record>, n: nat, size: nat)
    requires n >= 1
    ensures First(s, EndOf(n - 1, size)) + Slice(s, n, size) == First(s, EndOf(n, size))
  {
    var start, end := (n - 1) * size, n * size;
    assert start + size == end;
    if end <= |s| {
      assert s[..start] + s[start..end] == s[..end];
    }
  }

  // ----- what a page shows ------------------------------------------------------------------

  /** Where a page begins and ends in a list. */
  lemma SliceRows(s: seq<Record>, page: nat, size: nat)
    requires page >= 1
    ensures var start := EndOf(page - 1, size);
            && |Slice(s, page, size)| <= size
            && (forall i :: 0 <= i < |Slice(s, page, size)| ==> start + i < |s| && Slice(s, page, size)[i] == s[start + i])
            && (forall k :: start <= k < EndOf(page, size) && k < |s| ==> s[k] in Slice(s, page, size))
  {
    PageEnds(page, size);
    RangeRows(s, Slice(s, page, size), EndOf(page - 1, size), EndOf(page, size), size);
  }

  lemma PageEnds(page: nat, size: nat)
    requires page >= 1
    ensures EndOf(page - 1, size) + size == EndOf(page, size)
  {
  }

  lemma RangeRows(s: seq<Record>, part: seq<Record>, start: nat, end: nat, size: nat)
    requires start + size == end
    requires part == if start >= |s| then [] else if end >= |s| then s[start..] else s[start..end]
    ensures |part| <= size && forall i :: 0 <= i < |part| ==> start + i < |s| && part[i] == s[start + i]
    ensures forall k :: start <= k < end && k < |s| ==> s[k] in part
  {
    forall k | start <= k < end && k < |s| ensures s[k] in part {
      assert part[k - start] == s[k];
    }
  }

  /** A page shows rows of the two tables, each once, never an older one before a newer one,
      and never more than asked for. */
  ghost predicate ShowsNewest(list: seq<Record>, audit: seq<Record>, versions: seq<Record>, size: nat) {
    && |list| <= size && (forall r :: r in list ==> r in audit || r in versions)
    && (forall i, j :: 0 <= i < j < |list| ==> list[i] != list[j] && list[i].at >= list[j].at)
  }

  lemma PageShowsNewest(audit: seq<Record>, versions: seq<Record>, page: nat, size: nat)
    requires Listings(audit, versions) && page >= 1
    ensures ShowsNewest(Page(audit, versions, page, size), audit, versions, size)
  {
    var end := page * size;
    var part := Whole(First(audit, end), First(versions, end));
    FirstTables(audit, versions, end);
    WholeFacts(First(audit, end), First(versions, end));
    SliceRows(part, page, size);
    var list, start := Slice(part, page, size), EndOf(page - 1, size);
    forall r | r in list ensures r in audit || r in versions {
      var i :| 0 <= i < |list| && list[i] == r;
      assert part[start + i] in part;
    }
    forall i, j | 0 <= i < j < |list| ensures list[i] != list[j] && list[i].at >= list[j].at {
      assert Merged(part[start + i], part[start + j]);
    }
  }

  lemma PlaceInSlice(s: seq<Record>, page: nat, size: nat, k: nat)
    requires page >= 1 && k < |s| && NoRepeat(s)
    ensures s[k] in Slice(s, page, size) <==> EndOf(page - 1, size) <= k < EndOf(page, size)
  {
    SliceRows(s, page, size);
    var list, start := Slice(s, page, size), EndOf(page - 1, size);
    PageEnds(page, size);
    if s[k] in list {
      var i :| 0 <= i < |list| && list[i] == s[k];
      assert s[start + i] == s[k];
    }
  }

  /** With rows in time, a page shows exactly the rows that have as many rows ahead of them as
      the pages before it hold, but fewer than the pages up to it. */
  lemma PageByRank(audit: seq<Record>, versions: seq<Record>, page: nat, size: nat, r: Record)
    requires Listings(audit, versions) && InTime(audit, versions) && page >= 1 && size >= 1 && (r in audit || r in versions)
    ensures r in Page(audit, versions, page, size) <==>
            EndOf(page - 1, size) <= |Ahead(audit, versions, r)| < EndOf(page, size)
  {
    var whole := Whole(audit, versions);
    PageIsSlice(audit, versions, page, size);
    WholeFacts(audit, versions);
    var k :| 0 <= k < |whole| && whole[k] == r;
    PlaceIsCount(audit, versions, k);
    PlaceInSlice(whole, page, size, k);
  }

  /** The rows ahead of a row are the newer ones, and at its own time those with a greater id
      text. */
  lemma AheadAreNewer(audit: seq<Record>, versions: seq<Record>, r: Record, x: Record)
    requires Listings(audit, versions) && (r in audit || r in versions)
    ensures x in Ahead(audit, versions, r) <==>
            (x in audit || x in versions) && (x.at > r.at || (x.at == r.at && x != r && TextLeq(IdText(r), IdText(x))))
  {
  }

  /** Append the rows of both tables to one list. */
  method Collect(logs: seq<Record>, rows: seq<Record>) returns (items: seq<Record>)
    ensures items == logs + rows
  {
    items := [];
    var i := 0;
    while i < |logs|
      invariant 0 <= i <= |logs| && items == logs[..i]
    {
      items := items + [logs[i]];
      i := i + 1;
    }
    i := 0;
    while i < |rows|
      invariant 0 <= i <= |rows| && items == logs + rows[..i]
    {
      items := items + [rows[i]];
      i := i + 1;
    }
    assert items == logs + rows;
  }

  method Cut(items: seq<Record>, page: nat, size: nat) returns (list: seq<Record>)
    requires page >= 1
    ensures list == Slice(items, page, size)
  {
    var start, end := (page - 1) * size, page * size;
    assert start + size == end;
    if start > |items| {
      start := |items|;
    }
    if end > |items| {
      end := |items|;
    }
    list := items[start..end];
  }

  /** ListActivity: two limited queries, one list, one stable sort, one slice. */
  method ListActivity(audit: seq<Record>, versions: seq<Record>, page: nat, size: nat) returns (list: seq<Record>, total: nat)
    requires Listings(audit, versions) && page >= 1 && size >= 1
    ensures list == Page(audit, versions, page, size) && total == |audit| + |versions|
    ensures InTime(audit, versions) ==> list == Slice(Whole(audit, versions), page, size)
    ensures ShowsNewest(list, audit, versions, size)
  {
    var end := page * size;
    var items := Collect(First(audit, end), First(versions, end));
    items := SortBy(items, Merged);
    list := Cut(items, page, size);
    total := |audit| + |versions|;
    PageShowsNewest(audit, versions, page, size);
    if InTime(audit, versions) {
      PageIsSlice(audit, versions, page, size);
    }
  }
}
