/** Group membership: replacing the members of a group bumps the auth version of
    exactly the users whose membership changed. */
module Group {
  import opened Sorting

  predicate AtMost(a: nat, b: nat) {
    a <= b
  }

  ghost predicate StrictlyRising(s: seq<nat>) {
    forall i, j :: 0 <= i < j < |s| ==> s[i] < s[j]
  }

  lemma AtMostTotal()
    ensures Total(AtMost)
  {
  }

  lemma RisingAppend(s: seq<nat>, x: nat)
    requires StrictlyRising(s) && forall y :: y in s ==> y < x
    ensures StrictlyRising(s + [x])
  {
    forall i | 0 <= i < |s| ensures (s + [x])[i] < x {
      assert s[i] in s;
    }
  }

  /** uniqueUintIDs: sort, then drop equal neighbours. */
  method UniqueIds(ids: seq<nat>) returns (unique: seq<nat>)
    ensures StrictlyRising(unique) && forall x :: x in unique <==> x in ids
  {
    if |ids| == 0 {
      return [];
    }
    AtMostTotal();
    var sorted := SortBy(ids, AtMost);
    SortSorted(ids, AtMost);
    SortElements(ids, AtMost);
    unique := Compact(sorted);
  }

  method Compact(sorted: seq<nat>) returns (unique: seq<nat>)
    requires SortedBy(sorted, AtMost)
    ensures StrictlyRising(unique) && forall x :: x in unique <==> x in sorted
  {
    unique := [];
    var i := 0;
    while i < |sorted|
      invariant 0 <= i <= |sorted| && StrictlyRising(unique)
      invariant forall x :: x in unique <==> x in sorted[..i]
      invariant i > 0 ==> unique != [] && unique[|unique| - 1] == sorted[i - 1]
    {
      assert sorted[..i + 1] == sorted[..i] + [sorted[i]];
      if i == 0 || sorted[i] != sorted[i - 1] {
        forall y | y in unique ensures y < sorted[i] {
          var j :| 0 <= j < i && sorted[..i][j] == y;
          assert AtMost(sorted[j], sorted[i - 1]) || j == i - 1;
          assert AtMost(sorted[i - 1], sorted[i]);
        }
        RisingAppend(unique, sorted[i]);
        unique := unique + [sorted[i]];
      }
      i := i + 1;
    }
    assert sorted[..i] == sorted;
  }

  /** In one of the two lists, but not in both. */
  predicate InOne(before: seq<nat>, after: seq<nat>, x: nat) {
    (x in before) != (x in after)
  }

  /** changedMembershipUserIDs: the symmetric difference, in order, by one pass over
      both lists. */
  method ChangedMembershipUserIds(before: seq<nat>, after: seq<nat>) returns (changed: seq<nat>)
    ensures StrictlyRising(changed) && forall x :: x in changed <==> InOne(before, after, x)
  {
    var earlier := UniqueIds(before);
    var later := UniqueIds(after);
    changed := MergeDifference(earlier, later);
  }

  /** Everything collected is below both heads, and is what differs below them. */
  ghost predicate Progress(a: seq<nat>, b: seq<nat>, i: nat, j: nat, changed: seq<nat>)
    requires i <= |a| && j <= |b|
  {
    && StrictlyRising(changed)
    && (forall x :: x in changed <==> InOne(a[..i], b[..j], x))
    && (forall x, k | x in a[..i] && j <= k < |b| :: x < b[k])
    && (forall x, k | x in b[..j] && i <= k < |a| :: x < a[k])
  }

  lemma TakeOne(a: seq<nat>, b: seq<nat>, i: nat, j: nat, changed: seq<nat>)
    requires StrictlyRising(a) && StrictlyRising(b) && i < |a| && j <= |b| && Progress(a, b, i, j, changed)
    requires j < |b| ==> a[i] < b[j]
    ensures Progress(a, b, i + 1, j, changed + [a[i]])
  {
    assert a[..i + 1] == a[..i] + [a[i]];
    forall x | x in changed ensures x < a[i] {
      if x in a[..i] {
        var k :| 0 <= k < i && a[..i][k] == x;
      }
    }
    RisingAppend(changed, a[i]);
    NotYet(a, i);
    assert a[i] !in b[..j];
  }

  lemma NotYet(a: seq<nat>, i: nat)
    requires StrictlyRising(a) && i < |a|
    ensures a[i] !in a[..i]
  {
  }

  lemma Swap(a: seq<nat>, b: seq<nat>, i: nat, j: nat, changed: seq<nat>)
    requires i <= |a| && j <= |b|
    ensures Progress(a, b, i, j, changed) <==> Progress(b, a, j, i, changed)
  {
  }

  lemma TakeBoth(a: seq<nat>, b: seq<nat>, i: nat, j: nat, changed: seq<nat>)
    requires StrictlyRising(a) && StrictlyRising(b) && i < |a| && j < |b| && a[i] == b[j] && Progress(a, b, i, j, changed)
    ensures Progress(a, b, i + 1, j + 1, changed)
  {
    assert a[..i + 1] == a[..i] + [a[i]] && b[..j + 1] == b[..j] + [b[j]];
    NotYet(a, i);
    NotYet(b, j);
  }

  method MergeDifference(before: seq<nat>, after: seq<nat>) returns (changed: seq<nat>)
    requires StrictlyRising(before) && StrictlyRising(after)
    ensures StrictlyRising(changed) && forall x :: x in changed <==> InOne(before, after, x)
  {
    if |before| == 0 && |after| == 0 {
      return [];
    }
    changed := [];
    var beforeIndex, afterIndex := 0, 0;
    while beforeIndex < |before| || afterIndex < |after|
      invariant beforeIndex <= |before| && afterIndex <= |after|
      invariant Progress(before, after, beforeIndex, afterIndex, changed)
      decreases |before| - beforeIndex + |after| - afterIndex
    {
      if beforeIndex >= |before| {
        Swap(before, after, beforeIndex, afterIndex, changed);
        TakeRest(after, before, afterIndex, changed);
        Swap(before, after, beforeIndex, |after|, changed + after[afterIndex..]);
        changed, afterIndex := changed + after[afterIndex..], |after|;
        break;
      }
      if afterIndex >= |after| {
        TakeRest(before, after, beforeIndex, changed);
        changed, beforeIndex := changed + before[beforeIndex..], |before|;
        break;
      }
      if before[beforeIndex] == after[afterIndex] {
        TakeBoth(before, after, beforeIndex, afterIndex, changed);
        beforeIndex, afterIndex := beforeIndex + 1, afterIndex + 1;
      } else if before[beforeIndex] < after[afterIndex] {
        TakeOne(before, after, beforeIndex, afterIndex, changed);
        changed, beforeIndex := changed + [before[beforeIndex]], beforeIndex + 1;
      } else {
        Swap(before, after, beforeIndex, afterIndex, changed);
        TakeOne(after, before, afterIndex, beforeIndex, changed);
        Swap(before, after, beforeIndex, afterIndex + 1, changed + [after[afterIndex]]);
        changed, afterIndex := changed + [after[afterIndex]], afterIndex + 1;
      }
    }
    assert before[..|before|] == before && after[..|after|] == after;
  }

  /** One list is used up: the rest of the other one follows as it is. */
  lemma {:induction false} TakeRest(a: seq<nat>, b: seq<nat>, i: nat, changed: seq<nat>)
    requires StrictlyRising(a) && StrictlyRising(b) && i <= |a| && Progress(a, b, i, |b|, changed)
    ensures Progress(a, b, |a|, |b|, changed + a[i..])
    decreases |a| - i
  {
    if i < |a| {
      TakeOne(a, b, i, |b|, changed);
      TakeRest(a, b, i + 1, changed + [a[i]]);
      assert changed + [a[i]] + a[i + 1..] == changed + a[i..];
    } else {
      assert changed + a[i..] == changed;
    }
  }

  // ----- the tables ---------------------------------------------------------------------

  datatype Member = Member(group: nat, user: nat)

  class GroupTable {
    var groups: map<nat, nat>
    var members: set<Member>
    var authVersions: map<nat, nat>

    constructor ()
      ensures groups == map[] && members == {} && authVersions == map[]
    {
      groups, members, authVersions := map[], {}, map[];
    }

    /** SELECT user_id WHERE group_id = group. */
    method PluckUsers(group: nat) returns (users: seq<nat>)
      ensures forall u :: u in users <==> Member(group, u) in members
    {
      users := [];
      var todo := set m | m in members && m.group == group;
      while todo != {}
        invariant todo <= members && forall m :: m in todo ==> m.group == group
        invariant forall u :: u in users <==> Member(group, u) in members && Member(group, u) !in todo
        decreases todo
      {
        var m :| m in todo;
        users := users + [m.user];
        todo := todo - {m};
      }
    }

    /** incrementUsersAuthVersion: +1 for the listed users that exist. */
    method IncrementUsersAuthVersion(users: seq<nat>)
      modifies this`authVersions
      ensures authVersions == map u | u in old(authVersions) :: old(authVersions)[u] + if u in users then 1 else 0
    {
      if |users| == 0 {
        return;
      }
      authVersions := map u | u in authVersions :: if u in users then authVersions[u] + 1 else authVersions[u];
    }

    /** ReplaceGroupMembers. `found` tells whether the group exists in the workspace. */
    method ReplaceGroupMembers(ws: nat, group: nat, userIds: seq<nat>) returns (found: bool, changed: bool)
      modifies this`members, this`authVersions
      ensures found == (group in groups && groups[group] == ws)
      ensures !found ==> !changed && members == old(members) && authVersions == old(authVersions)
      ensures found ==>
                && (forall m :: m in members <==> if m.group == group then m.user in userIds else m in old(members))
                && (changed <==> exists u :: (u in userIds) != (Member(group, u) in old(members)))
                && authVersions == map u | u in old(authVersions) ::
                     old(authVersions)[u] + if (u in userIds) != (Member(group, u) in old(members)) then 1 else 0
    {
      if group !in groups || groups[group] != ws {
        return false, false;
      }
      found := true;
      var normalized := UniqueIds(userIds);
      var existing := PluckUsers(group);
      var changedIds := ChangedMembershipUserIds(existing, normalized);
      changed := |changedIds| > 0;
      if !changed {
        NoChange(existing, normalized, changedIds);
        return;
      }
      assert changedIds[0] in changedIds;
      members := set m | m in members && m.group != group;
      var created := set u | u in normalized :: Member(group, u);
      members := members + created;
      IncrementUsersAuthVersion(changedIds);
    }
  }

  lemma NoChange(a: seq<nat>, b: seq<nat>, changed: seq<nat>)
    requires changed == [] && forall x :: x in changed <==> InOne(a, b, x)
    ensures forall x :: x in a <==> x in b
  {
    forall x ensures x in a <==> x in b {
      assert x in changed <==> InOne(a, b, x);
    }
  }
}
