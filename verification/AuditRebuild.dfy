/** Rebuilding the chain of a workspace from its rows in id order. */
module AuditRebuild {
  import opened Common
  import opened Sorting
  import opened Audit
  import opened AuditBooks

  function RebuiltRow(h: Digests, k: StreamKey, e: Event, no: nat, prev: Option<Hash>): Event {
    var row := e.(stream := k, no := no, prev := prev,
                  actorType := if e.no == 0 || IsBlank(e.actorType) then ActorOf(e.body) else e.actorType);
    row.(current := Some(HashOf(h, row, prev)))
  }

  /** The rows as RebuildChain leaves them, numbered from `no`. */
  function Rebuilt(h: Digests, k: StreamKey, rows: seq<Event>, no: nat, prev: Option<Hash>): seq<Event> {
    if rows == [] then []
    else
      var row := RebuiltRow(h, k, rows[0], no, prev);
      [row] + Rebuilt(h, k, rows[1..], no + 1, row.current)
  }

  /** Only the chain columns of a row differ. */
  predicate SameContent(a: Event, b: Event) {
    a.id == b.id && a.ws == b.ws && a.body == b.body && a.created == b.created
  }

  /** Whatever the rows held, the result is a chain over the same contents. */
  lemma {:induction false} RebuiltIsChain(h: Digests, k: StreamKey, rows: seq<Event>, no: nat, prev: Option<Hash>)
    ensures |Rebuilt(h, k, rows, no, prev)| == |rows| && IsChain(h, Rebuilt(h, k, rows, no, prev), no, prev)
    ensures forall i :: 0 <= i < |rows| ==>
              && SameContent(Rebuilt(h, k, rows, no, prev)[i], rows[i])
              && Rebuilt(h, k, rows, no, prev)[i].stream == k && Rebuilt(h, k, rows, no, prev)[i].no == no + i
  {
    if rows != [] {
      var row := RebuiltRow(h, k, rows[0], no, prev);
      var rest := Rebuilt(h, k, rows[1..], no + 1, row.current);
      RebuiltIsChain(h, k, rows[1..], no + 1, row.current);
      ChainCons(h, row, rest, no, prev);
    }
  }

  /** A row without a number or an actor type gets the type its user implies; any other row
      keeps the one it has. */
  lemma {:induction false} RebuiltActors(h: Digests, k: StreamKey, rows: seq<Event>, no: nat, prev: Option<Hash>, i: nat)
    requires i < |rows|
    ensures |Rebuilt(h, k, rows, no, prev)| == |rows|
    ensures Rebuilt(h, k, rows, no, prev)[i].actorType ==
            if rows[i].no > 0 && !IsBlank(rows[i].actorType) then rows[i].actorType
            else if rows[i].body.user > 0 then "user"
            else if rows[i].body.username == "external_share" then "external_share" else "system"
    decreases i
  {
    RebuiltIsChain(h, k, rows, no, prev);
    if i > 0 {
      RebuiltActors(h, k, rows[1..], no + 1, RebuiltRow(h, k, rows[0], no, prev).current, i - 1);
    }
  }

  /** The loop's view: row `i` follows from its predecessor. */
  lemma {:induction false} RebuiltAt(h: Digests, k: StreamKey, rows: seq<Event>, no: nat, prev: Option<Hash>, i: nat)
    requires i < |rows|
    ensures |Rebuilt(h, k, rows, no, prev)| == |rows|
    ensures Rebuilt(h, k, rows, no, prev)[i] == RebuiltRow(h, k, rows[i], no + i, PrevAt(Rebuilt(h, k, rows, no, prev), prev, i))
    decreases i
  {
    RebuiltIsChain(h, k, rows, no, prev);
    if i > 0 {
      var row := RebuiltRow(h, k, rows[0], no, prev);
      RebuiltAt(h, k, rows[1..], no + 1, row.current, i - 1);
    }
  }

  lemma ChainCons(h: Digests, row: Event, rest: seq<Event>, no: nat, prev: Option<Hash>)
    requires row.no == no && row.prev == prev && row.current == Some(HashOf(h, row, prev))
    requires IsChain(h, rest, no + 1, row.current)
    ensures IsChain(h, [row] + rest, no, prev)
  {
    var all := [row] + rest;
    forall i | 0 <= i < |all| ensures Linked(h, all, no, prev, i) {
      if i > 0 {
        assert Linked(h, rest, no + 1, row.current, i - 1);
      }
    }
  }

  function LastHash(rows: seq<Event>): Hash {
    if rows == [] || rows[|rows| - 1].current.None? then "" else rows[|rows| - 1].current.value
  }

  /** Without a completed archive, the rebuilt rows and the new stream row verify. */
  lemma RebuildMakesIntact(h: Digests, k: StreamKey, rows: seq<Event>)
    ensures var rebuilt := Rebuilt(h, k, rows, 1, None);
            Intact(h, [], rebuilt, Some(StreamRow(|rows| + 1, LastHash(rebuilt))))
  {
    RebuiltIsChain(h, k, rows, 1, None);
    if rows != [] {
      assert Linked(h, Rebuilt(h, k, rows, 1, None), 1, None, |rows| - 1);
    }
  }

  /** A chain is left as it is. */
  lemma {:induction false} RebuildKeepsChains(h: Digests, k: StreamKey, rows: seq<Event>, no: nat, prev: Option<Hash>)
    requires IsChain(h, rows, no, prev) && no >= 1
    requires forall i :: 0 <= i < |rows| ==> rows[i].stream == k && !IsBlank(rows[i].actorType)
    ensures Rebuilt(h, k, rows, no, prev) == rows
  {
    if rows != [] {
      assert Linked(h, rows, no, prev, 0);
      assert RebuiltRow(h, k, rows[0], no, prev) == rows[0];
      ChainPart(h, rows, no, prev, 1, |rows|);
      assert rows[1..|rows|] == rows[1..];
      RebuildKeepsChains(h, k, rows[1..], no + 1, rows[0].current);
    }
  }

  // ----- the table ----------------------------------------------------------------------

  function IdOf(e: Event): nat {
    e.id
  }

  /** `rows` are the rows of workspace `ws` in id order. */
  ghost predicate ByIds(logs: map<nat, Event>, ws: nat, rows: seq<Event>) {
    && Rising(rows, IdOf)
    && forall e :: e in rows <==> exists id :: id in logs && logs[id] == e && e.ws == Some(ws)
  }

  ghost predicate KeyedById(logs: map<nat, Event>) {
    forall id :: id in logs ==> logs[id].id == id
  }

  /** The table after each of `rows` was updated under its id. */
  ghost predicate Updated(logs: map<nat, Event>, logs': map<nat, Event>, rows: seq<Event>) {
    && logs'.Keys == logs.Keys
    && (forall i :: 0 <= i < |rows| ==> rows[i].id in logs' && logs'[rows[i].id] == rows[i])
    && (forall id :: id in logs && (forall i :: 0 <= i < |rows| ==> rows[i].id != id) ==> logs'[id] == logs[id])
  }

  /** What the verifier's query returns after the rebuild. */
  lemma RebuiltListing(h: Digests, logs: map<nat, Event>, logs': map<nat, Event>, ws: nat, order: seq<Event>, rows: seq<Event>)
    requires KeyedById(logs) && ByIds(logs, ws, order)
    requires Updated(logs, logs', Rebuilt(h, WorkspaceStream(ws), order, 1, None))
    requires NoRepeat(rows) && forall e :: e in rows <==> exists id :: id in logs' && logs'[id] == e && e.ws == Some(ws)
    requires forall i, j :: 0 <= i < j < |rows| ==> Number(rows[i]) <= Number(rows[j])
    ensures rows == Rebuilt(h, WorkspaceStream(ws), order, 1, None)
  {
    var rebuilt := Rebuilt(h, WorkspaceStream(ws), order, 1, None);
    RebuiltIsChain(h, WorkspaceStream(ws), order, 1, None);
    forall e ensures e in rows <==> e in rebuilt {
      RebuiltRowListed(logs, logs', ws, order, rebuilt, e);
    }
    ListedIs(rows, rebuilt, Number);
  }

  /** The updated ids are those of the workspace. */
  lemma UpdatedIds(logs: map<nat, Event>, ws: nat, order: seq<Event>, rebuilt: seq<Event>, id: nat)
    requires KeyedById(logs) && ByIds(logs, ws, order) && |rebuilt| == |order| && id in logs
    requires forall i :: 0 <= i < |order| ==> SameContent(rebuilt[i], order[i])
    ensures logs[id].ws == Some(ws) <==> exists i :: 0 <= i < |rebuilt| && rebuilt[i].id == id
  {
    if logs[id].ws == Some(ws) {
      assert logs[id] in order;
      var i :| 0 <= i < |order| && order[i] == logs[id];
      assert rebuilt[i].id == id;
    }
    if i :| 0 <= i < |rebuilt| && rebuilt[i].id == id {
      assert order[i] in order;
    }
  }

  lemma RebuiltRowListed(logs: map<nat, Event>, logs': map<nat, Event>, ws: nat, order: seq<Event>, rebuilt: seq<Event>, e: Event)
    requires KeyedById(logs) && ByIds(logs, ws, order) && Updated(logs, logs', rebuilt) && |rebuilt| == |order|
    requires forall i :: 0 <= i < |order| ==> SameContent(rebuilt[i], order[i])
    ensures e in rebuilt <==> exists id :: id in logs' && logs'[id] == e && e.ws == Some(ws)
  {
    if e in rebuilt {
      var i :| 0 <= i < |rebuilt| && rebuilt[i] == e;
      assert order[i] in order;
      assert logs'[e.id] == e;
    }
    if id :| id in logs' && logs'[id] == e && e.ws == Some(ws) {
      UpdatedIds(logs, ws, order, rebuilt, id);
      var i :| 0 <= i < |rebuilt| && rebuilt[i].id == id;
    }
  }

  /** After a rebuild, a workspace without completed archives verifies, whatever its
      rows held before. */
  lemma RebuildMakesValid(h: Digests, logs: map<nat, Event>, logs': map<nat, Event>, ws: nat, order: seq<Event>, rows: seq<Event>)
    requires KeyedById(logs) && ByIds(logs, ws, order)
    requires Updated(logs, logs', Rebuilt(h, WorkspaceStream(ws), order, 1, None))
    requires NoRepeat(rows) && forall e :: e in rows <==> exists id :: id in logs' && logs'[id] == e && e.ws == Some(ws)
    requires forall i, j :: 0 <= i < j < |rows| ==> Number(rows[i]) <= Number(rows[j])
    ensures Intact(h, [], rows, Some(StreamRow(|order| + 1, LastHash(Rebuilt(h, WorkspaceStream(ws), order, 1, None)))))
  {
    RebuiltListing(h, logs, logs', ws, order, rows);
    RebuildMakesIntact(h, WorkspaceStream(ws), order);
  }

  lemma RebuiltKeyed(h: Digests, k: StreamKey, logs: map<nat, Event>, logs': map<nat, Event>, ws: nat, order: seq<Event>)
    requires KeyedById(logs) && ByIds(logs, ws, order) && Updated(logs, logs', Rebuilt(h, k, order, 1, None))
    ensures KeyedById(logs')
  {
    var rebuilt := Rebuilt(h, k, order, 1, None);
    RebuiltIsChain(h, k, order, 1, None);
    forall id | id in logs' ensures logs'[id].id == id {
      if i :| 0 <= i < |rebuilt| && rebuilt[i].id == id {
        assert logs'[rebuilt[i].id] == rebuilt[i];
      }
    }
  }

  // ----- the unique index on stream and number --------------------------------------------

  /** Another row than `own` holds number `no` of stream `k`. */
  ghost predicate Clashes(logs: map<nat, Event>, k: StreamKey, own: nat, no: nat) {
    exists id :: id in logs && id != own && logs[id].stream == k && logs[id].no == no
  }

  /** Two rows never hold the same number of one stream. */
  ghost predicate UniqueNumbers(logs: map<nat, Event>) {
    forall id :: id in logs ==> !Clashes(logs, logs[id].stream, id, logs[id].no)
  }

  /** The new number of row `i` is held by a later row of the workspace or by a row of
      another one. */
  ghost predicate Blocked(logs: map<nat, Event>, ws: nat, order: seq<Event>, i: nat)
    requires i < |order|
  {
    || (exists j :: i < j < |order| && HoldsNumber(order[j], WorkspaceStream(ws), i + 1))
    || (exists id :: id in logs && logs[id].ws != Some(ws) && HoldsNumber(logs[id], WorkspaceStream(ws), i + 1))
  }

  predicate HoldsNumber(e: Event, k: StreamKey, no: nat) {
    e.stream == k && e.no == no
  }

  /** None of the first `n` rows is blocked. */
  ghost predicate UnblockedTo(logs: map<nat, Event>, ws: nat, order: seq<Event>, n: nat)
    requires n <= |order|
  {
    forall i :: 0 <= i < n ==> !Blocked(logs, ws, order, i)
  }

  ghost predicate Unblocked(logs: map<nat, Event>, ws: nat, order: seq<Event>) {
    UnblockedTo(logs, ws, order, |order|)
  }

  /** `all` are the rebuilt rows, the first `i` of which are stored. */
  ghost predicate RebuiltTo(h: Digests, logs: map<nat, Event>, logs': map<nat, Event>, ws: nat, order: seq<Event>, all: seq<Event>, i: nat) {
    && all == Rebuilt(h, WorkspaceStream(ws), order, 1, None) && i <= |all| == |order|
    && Updated(logs, logs', all[..i])
  }

  /** Where a row stands while the first `i` rows are renumbered. */
  lemma RowMeanwhile(h: Digests, logs: map<nat, Event>, logs': map<nat, Event>, ws: nat, order: seq<Event>,
                     all: seq<Event>, i: nat, j: nat)
    requires KeyedById(logs) && ByIds(logs, ws, order) && i < |order| && j < |order|
    requires RebuiltTo(h, logs, logs', ws, order, all, i)
    ensures order[j].id in logs'
    ensures j < i ==> logs'[order[j].id].no == j + 1
    ensures j >= i ==> logs'[order[j].id] == order[j]
  {
    RebuiltIsChain(h, WorkspaceStream(ws), order, 1, None);
    assert order[j] in order;
    if j < i {
      assert all[..i][j] == all[j] && SameContent(all[j], order[j]);
    } else {
      forall l | 0 <= l < i ensures all[..i][l].id != order[j].id {
        assert SameContent(all[l], order[l]) && IdOf(order[l]) < IdOf(order[j]);
      }
    }
  }

  lemma OutsideMeanwhile(h: Digests, logs: map<nat, Event>, logs': map<nat, Event>, ws: nat, order: seq<Event>,
                     all: seq<Event>, i: nat, id: nat)
    requires KeyedById(logs) && ByIds(logs, ws, order) && i < |order| && id in logs && logs[id].ws != Some(ws)
    requires RebuiltTo(h, logs, logs', ws, order, all, i)
    ensures id in logs' && logs'[id] == logs[id]
  {
    RebuiltIsChain(h, WorkspaceStream(ws), order, 1, None);
    forall l | 0 <= l < i ensures all[..i][l].id != id {
      assert SameContent(all[l], order[l]) && order[l] in order;
    }
  }

  /** At its turn a row meets the index exactly when its number was taken from the start. */
  lemma ClashIsBlocked(h: Digests, logs: map<nat, Event>, logs': map<nat, Event>, ws: nat, order: seq<Event>,
                     all: seq<Event>, i: nat)
    requires KeyedById(logs) && ByIds(logs, ws, order) && i < |order|
    requires RebuiltTo(h, logs, logs', ws, order, all, i)
    ensures Clashes(logs', WorkspaceStream(ws), order[i].id, i + 1) <==> Blocked(logs, ws, order, i)
  {
    var k := WorkspaceStream(ws);
    if Clashes(logs', k, order[i].id, i + 1) {
      var id :| id in logs' && id != order[i].id && logs'[id].stream == k && logs'[id].no == i + 1;
      if logs[id].ws == Some(ws) {
        assert logs[id] in order;
        var j :| 0 <= j < |order| && order[j] == logs[id];
        RowMeanwhile(h, logs, logs', ws, order, all, i, j);
        assert j > i && HoldsNumber(order[j], k, i + 1);
      } else {
        OutsideMeanwhile(h, logs, logs', ws, order, all, i, id);
        assert HoldsNumber(logs[id], k, i + 1);
      }
    }
    if j :| i < j < |order| && HoldsNumber(order[j], k, i + 1) {
      RowMeanwhile(h, logs, logs', ws, order, all, i, j);
      assert IdOf(order[i]) < IdOf(order[j]);
    } else if id :| id in logs && logs[id].ws != Some(ws) && HoldsNumber(logs[id], k, i + 1) {
      OutsideMeanwhile(h, logs, logs', ws, order, all, i, id);
      assert order[i] in order;
    }
  }

  /** Storing the next rebuilt row. */
  lemma TurnStores(h: Digests, logs: map<nat, Event>, logs': map<nat, Event>, ws: nat, order: seq<Event>,
                   all: seq<Event>, i: nat)
    requires KeyedById(logs) && ByIds(logs, ws, order) && i < |order|
    requires RebuiltTo(h, logs, logs', ws, order, all, i)
    ensures RebuiltTo(h, logs, logs'[all[i].id := all[i]], ws, order, all, i + 1)
    ensures all[i].id == order[i].id && all[i].current == PrevAt(all, None, i + 1)
    ensures all[i] == RebuiltRow(h, WorkspaceStream(ws), order[i], i + 1, PrevAt(all, None, i))
  {
    RebuiltIsChain(h, WorkspaceStream(ws), order, 1, None);
    RebuiltAt(h, WorkspaceStream(ws), order, 1, None, i);
    assert order[i] in order;
    UpdatedMore(logs, logs', order, all, i);
  }

  lemma StartsRebuilt(h: Digests, logs: map<nat, Event>, ws: nat, order: seq<Event>)
    ensures RebuiltTo(h, logs, logs, ws, order, Rebuilt(h, WorkspaceStream(ws), order, 1, None), 0)
  {
    RebuiltIsChain(h, WorkspaceStream(ws), order, 1, None);
  }

  lemma EndsRebuilt(h: Digests, logs: map<nat, Event>, logs': map<nat, Event>, ws: nat, order: seq<Event>, all: seq<Event>)
    requires RebuiltTo(h, logs, logs', ws, order, all, |order|)
    ensures Updated(logs, logs', all) && PrevAt(all, None, |order|).GetOr("") == LastHash(all)
  {
    assert all[..|order|] == all;
    RebuiltIsChain(h, WorkspaceStream(ws), order, 1, None);
  }

  lemma UpdatedMore(logs: map<nat, Event>, logs': map<nat, Event>, rows: seq<Event>, all: seq<Event>, i: nat)
    requires i < |all| == |rows| && Updated(logs, logs', all[..i]) && all[i].id in logs
    requires Rising(rows, IdOf) && forall j :: 0 <= j < |rows| ==> SameContent(all[j], rows[j])
    ensures Updated(logs, logs'[all[i].id := all[i]], all[..i + 1])
  {
    var done, more, next := all[..i], all[..i + 1], logs'[all[i].id := all[i]];
    forall j | 0 <= j < |more| ensures more[j].id in next && next[more[j].id] == more[j] {
      if j < i {
        assert done[j] == more[j] && IdOf(rows[j]) < IdOf(rows[i]);
        assert SameContent(all[j], rows[j]) && SameContent(all[i], rows[i]);
      }
    }
    forall id | id in logs && forall j :: 0 <= j < |more| ==> more[j].id != id ensures next[id] == logs[id] {
      assert more[i].id != id;
      assert forall j :: 0 <= j < |done| ==> done[j] == more[j];
    }
  }

  /** Rows whose numbers rise with their ids, from 1 on or from later, are never in each
      other's way. */
  lemma RisingNeverBlocked(logs: map<nat, Event>, ws: nat, order: seq<Event>)
    requires Rising(order, Number) && forall i :: 0 <= i < |order| ==> order[i].no >= 1
    requires forall id :: id in logs && logs[id].ws != Some(ws) ==> logs[id].stream != WorkspaceStream(ws)
    ensures Unblocked(logs, ws, order)
  {
    forall i | 0 <= i < |order| ensures !Blocked(logs, ws, order, i) {
      forall j | i < j < |order| ensures !HoldsNumber(order[j], WorkspaceStream(ws), i + 1) {
        RisingAtLeast(order, j);
      }
    }
  }

  lemma {:induction false} RisingAtLeast(order: seq<Event>, j: nat)
    requires Rising(order, Number) && j < |order| && order[0].no >= 1
    ensures order[j].no >= j + 1
  {
    if j > 0 {
      RisingAtLeast(order, j - 1);
      assert Number(order[j - 1]) < Number(order[j]);
    }
  }

  /** Rows 1 and 2 of a workspace hold numbers 2 and 1. The index allows that, but the
      first update of a rebuild meets it. */
  lemma SwappedRowsBlocked(ws: nat, e: Event)
    requires e.ws == Some(ws) && e.stream == WorkspaceStream(ws)
    ensures var a, b := e.(id := 1, no := 2), e.(id := 2, no := 1);
            && KeyedById(map[1 := a, 2 := b]) && UniqueNumbers(map[1 := a, 2 := b]) && ByIds(map[1 := a, 2 := b], ws, [a, b])
            && Blocked(map[1 := a, 2 := b], ws, [a, b], 0)
  {
    var a, b := e.(id := 1, no := 2), e.(id := 2, no := 1);
    var logs := map[1 := a, 2 := b];
    assert logs[1] == a && logs[2] == b;
    assert [a, b][1] == b && HoldsNumber(b, WorkspaceStream(ws), 1);
  }

  // ----- rows without a time ------------------------------------------------------------

  /** calculateHash at clock `now`: a row without a time is hashed with the clock. */
  function HashAt(h: Digests, e: Event, prev: Option<Hash>, now: nat): Hash {
    HashOf(h, e.(created := NormTime(e.created, now)), prev)
  }

  /** With a time in the row the clock does not matter; without one, and with a
      collision-free digest, a later calculation gives the same digest only within the
      same millisecond. All statements about `HashOf` are about rows with a time. */
  lemma HashNeedsTime(h: Digests, e: Event, prev: Option<Hash>, now: nat, later: nat)
    requires Injective(h)
    ensures e.created != 0 ==> HashAt(h, e, prev, now) == HashOf(h, e, prev)
    ensures HashAt(h, e, prev, now) == HashAt(h, e, prev, later) <==>
            e.created != 0 || now / MILLISECOND == later / MILLISECOND
  {
    SameMillisecond(e.created, now);
    SameMillisecond(e.created, later);
    var a, b := e.(created := NormTime(e.created, now)), e.(created := NormTime(e.created, later));
    assert HashAt(h, e, prev, now) == HashAt(h, e, prev, later) <==> Payload(h, a, prev) == Payload(h, b, prev);
  }

  lemma SameMillisecond(t: nat, now: nat)
    ensures NormTime(t, now) / MILLISECOND == (if t == 0 then now else t) / MILLISECOND
  {
    var x := if t == 0 then now else t;
    assert x - x % MILLISECOND == x / MILLISECOND * MILLISECOND;
  }

  // ----- on a stream written by appends only ----------------------------------------------

  lemma HistoryById(k: StreamKey, h: Digests, history: seq<Event>)
    requires HistoryOk(h, k, history)
    ensures Rising(history, IdOf)
  {
    forall i, j | 0 <= i < j < |history| ensures IdOf(history[i]) < IdOf(history[j]) {
      assert Before(history, i, j);
    }
  }

  /** Rows in id order are the history, and rebuilding leaves them alone. */
  lemma RebuildKeepsHistory(h: Digests, k: StreamKey, history: seq<Event>, order: seq<Event>)
    requires HistoryOk(h, k, history) && Rising(order, IdOf) && forall e :: e in order <==> e in history
    ensures order == history && Rebuilt(h, k, order, 1, None) == order
  {
    HistoryById(k, h, history);
    RisingUnique(order, history, IdOf);
    forall i | 0 <= i < |history| ensures history[i].stream == k && !IsBlank(history[i].actorType) {
      assert EventOk(k, history[i]);
    }
    RebuildKeepsChains(h, k, history, 1, None);
  }

  lemma UpdatedSame(logs: map<nat, Event>, logs': map<nat, Event>, ws: nat, order: seq<Event>)
    requires KeyedById(logs) && ByIds(logs, ws, order) && Updated(logs, logs', order)
    ensures logs' == logs
  {
    forall id | id in logs ensures logs'[id] == logs[id] {
      if i :| 0 <= i < |order| && order[i].id == id {
        assert order[i] in order;
      }
    }
  }
}
