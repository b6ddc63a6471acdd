/** The menu table: parents form a forest under every operation. The upward walk that
    guards an update lets no cycle through, but refuses every nested parent as well. */
module Menu {
  import opened Common
  import opened Forest

  datatype MenuType = Directory | Page | Button

  /** Parent 0 marks a top-level menu. */
  datatype MenuRow = MenuRow(code: string, parent: Id, kind: MenuType, sortOrder: int, hidden: bool,
                             enabled: bool, permissions: seq<string>)
  type Menus = map<Id, MenuRow>

  function ParentIds(menus: Menus): Parents {
    map id | id in menus :: if menus[id].parent == 0 then None else Some(menus[id].parent)
  }

  datatype MenuError = OwnParent | ParentMissing | ButtonParent | OwnChild | RecordNotFound | MenuMissing | HasChildren | CodeTaken

  /** A menu may hang under `parent`: it exists, is no button, and is not the menu
      itself nor below it. A new menu has self = 0. */
  ghost predicate MayHangUnder(menus: Menus, self: Id, parent: Id) {
    parent == 0 ||
      (&& parent in menus && menus[parent].kind != Button
       && (self != 0 ==> !Below(ParentIds(menus), parent, self)))
  }

  /** One step up the walk. */
  lemma BelowByStep(p: Parents, x: Id, a: Id)
    requires x in p && x != a
    ensures Below(p, x, a) <==> p[x].Some? && Below(p, p[x].value, a)
  {
    if Below(p, x, a) {
      var k: nat :| Up(p, x, k) == Some(a);
      assert k > 0 && Up(p, p[x].value, k - 1) == Some(a);
    }
    if p[x].Some? && Below(p, p[x].value, a) {
      var k: nat :| Up(p, p[x].value, k) == Some(a);
      assert Up(p, x, k + 1) == Some(a);
    }
  }

  // ----- the guard of an update -----------------------------------------------------------

  /** A lookup by id through a row variable that still holds `held`: the query
      builder adds the primary key of that row to the condition, so that only the row
      already held can be found. */
  function LookupHeld(menus: Menus, wanted: Id, held: Id): Option<Id> {
    if wanted == held && wanted in menus then Some(wanted) else None
  }

  /** The upward walk from `parent`. All its lookups go through one row variable. */
  method WalkUp(menus: Menus, self: Id, parent: Id) returns (err: Option<MenuError>)
    requires IsForest(ParentIds(menus)) && 0 !in menus && parent in menus && self in menus
    ensures err == if menus[parent].parent == 0 then None
                   else if menus[parent].parent == self then Some(OwnChild)
                   else Some(RecordNotFound)
  {
    var current, found := parent, true;
    while found && menus[current].parent != 0
      invariant current == parent
      invariant !found ==> menus[parent].parent != 0 && menus[parent].parent != self
      decreases found
    {
      var next := menus[current].parent;
      if next == self {
        return Some(OwnChild);
      }
      NotOwnParent(menus, current);
      var row := LookupHeld(menus, next, current);
      found, current := row.Some?, row.GetOr(current);
    }
    return if found then None else Some(RecordNotFound);
  }

  /** No menu of a forest is its own parent. */
  lemma NotOwnParent(menus: Menus, m: Id)
    requires IsForest(ParentIds(menus)) && m in menus && menus[m].parent != 0
    ensures menus[m].parent != m
  {
    var p := ParentIds(menus);
    assert Up(p, m, 1) == Up(p, menus[m].parent, 0);
  }

  /** What validateMenuParent accepts: a top-level place, or a parent that exists, is
      no button, is not the menu itself and, when an existing menu is updated, stands
      on the top level. */
  predicate Accepted(menus: Menus, self: Id, parent: Id) {
    || parent == 0
    || (&& parent != self && parent in menus && menus[parent].kind != Button
        && (self == 0 || menus[parent].parent == 0))
  }

  /** validateMenuParent. */
  method ValidateMenuParent(menus: Menus, self: Id, parent: Id) returns (err: Option<MenuError>)
    requires IsForest(ParentIds(menus)) && 0 !in menus && (self != 0 ==> self in menus)
    ensures err.None? <==> Accepted(menus, self, parent)
    ensures err == Some(OwnChild) ==> parent in menus && Below(ParentIds(menus), parent, self)
  {
    if parent == 0 {
      return None;
    }
    if self > 0 && parent == self {
      return Some(OwnParent);
    }
    if parent !in menus {
      return Some(ParentMissing);
    }
    if menus[parent].kind == Button {
      return Some(ButtonParent);
    }
    if self == 0 {
      return None;
    }
    err := WalkUp(menus, self, parent);
    if err == Some(OwnChild) {
      assert Up(ParentIds(menus), self, 0) == Some(self) == Up(ParentIds(menus), parent, 1);
    }
  }

  /** A top-level menu lies below no other one. */
  lemma TopBelowNone(menus: Menus, self: Id, parent: Id)
    requires parent in menus && menus[parent].parent == 0 && parent != self
    ensures !Below(ParentIds(menus), parent, self)
  {
    BelowByStep(ParentIds(menus), parent, self);
  }

  /** Every accepted update keeps the forest. */
  lemma AcceptedKeepsForest(menus: Menus, self: Id, parent: Id)
    requires IsForest(ParentIds(menus)) && 0 !in menus && self in menus && Accepted(menus, self, parent)
    ensures MayHangUnder(menus, self, parent)
    ensures IsForest(ParentIds(menus)[self := if parent == 0 then None else Some(parent)])
  {
    if parent == 0 {
      MoveKeepsForest(ParentIds(menus), self, None);
    } else {
      TopBelowNone(menus, self, parent);
      MoveKeepsForest(ParentIds(menus), self, Some(parent));
    }
  }

  /** For an existing parent that is no button, refusal and closing a cycle are the
      same thing exactly when the parent stands on the top level or lies below the
      menu. */
  lemma RefusalIsCycle(menus: Menus, self: Id, parent: Id)
    requires IsForest(ParentIds(menus)) && 0 !in menus && self in menus
    requires parent in menus && menus[parent].kind != Button
    ensures (Accepted(menus, self, parent) <==> IsForest(ParentIds(menus)[self := Some(parent)])) <==>
            (menus[parent].parent == 0 || Below(ParentIds(menus), parent, self))
  {
    MoveKeepsForest(ParentIds(menus), self, Some(parent));
    assert Up(ParentIds(menus), parent, 0) == Some(parent);
    if menus[parent].parent == 0 && parent != self {
      TopBelowNone(menus, self, parent);
    }
  }

  /** Menu 2 stands under menu 1, menu 3 on the top level. Hanging 3 under 2 closes no
      cycle, and is refused. */
  lemma NestedParentRefused(page: MenuRow)
    requires page.kind == Page
    ensures var menus := map[1 := page.(parent := 0), 2 := page.(parent := 1), 3 := page.(parent := 0)];
            && IsForest(ParentIds(menus)) && MayHangUnder(menus, 3, 2) && !Accepted(menus, 3, 2)
            && IsForest(ParentIds(menus)[3 := Some(2)])
  {
    var menus := map[1 := page.(parent := 0), 2 := page.(parent := 1), 3 := page.(parent := 0)];
    var p := ParentIds(menus);
    assert p == map[1 := None, 2 := Some(1), 3 := None];
    RankedIsAcyclic(p, map[1 := 0, 2 := 1, 3 := 0]);
    TopBelowNone(menus, 3, 1);
    BelowByStep(p, 2, 3);
    MoveKeepsForest(p, 3, Some(2));
  }

  function IdsOf(menus: Menus, code: string): set<Id> {
    set id | id in menus && menus[id].code == code
  }

  /** The unique index on code. */
  ghost predicate CodesUnique(menus: Menus) {
    forall i, j | i in menus && j in menus && menus[i].code == menus[j].code :: i == j
  }

  // ----- built-in menus ---------------------------------------------------------------

  /** One built-in menu; `parentCode` is empty for a top-level one, and the parent
      in `row` is filled in when it is stored. */
  datatype Definition = Definition(parentCode: string, row: MenuRow)

  function Top(code: string, kind: MenuType, sortOrder: int, permissions: seq<string>): Definition {
    Definition("", MenuRow(code, 0, kind, sortOrder, false, true, permissions))
  }

  function Under(parentCode: string, code: string, sortOrder: int, permissions: seq<string>): Definition {
    Definition(parentCode, MenuRow(code, 0, Page, sortOrder, false, true, permissions))
  }

  function Action(parentCode: string, code: string, sortOrder: int, permission: string): Definition {
    Definition(parentCode, MenuRow(code, 0, Button, sortOrder, true, true, [permission]))
  }

  const BUILTIN_MENUS: seq<Definition> := [
    Top("dashboard", Page, 10, []), Top("workspaces", Page, 20, []), Top("files", Page, 30, ["file:list"]),
    Action("files", "files-upload", 31, "file:upload"), Action("files", "files-download", 32, "file:download"),
    Action("files", "files-delete", 33, "file:delete"), Action("files", "files-restore", 34, "file:restore"),
    Action("files", "files-acl", 35, "acl:manage"), Top("shares", Page, 40, ["file:share:create"]),
    Top("audit", Page, 50, ["audit:list"]), Action("audit", "audit-export", 51, "audit:export"),
    Action("audit", "audit-archive", 52, "audit:archive"), Top("system", Directory, 90, []),
    Under("system", "system-users", 91, []), Under("system", "system-menu", 92, []),
    Under("system", "system-ldap", 93, []), Under("system", "system-clamav", 94, []),
    Under("system", "system-backup-storage", 95, []), Under("system", "system-notifications", 96, []),
    Under("system", "roles", 97, ["workspace:role:manage"]), Under("system", "backups", 98, ["backup:manage"])]

  /** Codes are distinct and a parent is defined before its children. */
  ghost predicate ParentsFirst(defs: seq<Definition>) {
    && (forall i, j :: 0 <= i < j < |defs| ==> defs[i].row.code != defs[j].row.code)
    && (forall i :: 0 <= i < |defs| ==> DefinedBefore(defs, i))
  }

  ghost predicate DefinedBefore(defs: seq<Definition>, i: nat)
    requires i < |defs|
  {
    defs[i].parentCode != "" ==> exists j :: 0 <= j < i && defs[j].row.code == defs[i].parentCode
  }

  lemma BuiltinsParentsFirst()
    ensures ParentsFirst(BUILTIN_MENUS)
  {
    BuiltinCodesDiffer();
    forall i | 0 <= i < |BUILTIN_MENUS| ensures DefinedBefore(BUILTIN_MENUS, i) {
      BuiltinParentsEarlier(i);
    }
  }

  lemma BuiltinCodesDiffer()
    ensures forall i, j :: 0 <= i < j < |BUILTIN_MENUS| ==> BUILTIN_MENUS[i].row.code != BUILTIN_MENUS[j].row.code
  {
  }

  lemma BuiltinParentsEarlier(i: nat)
    requires i < |BUILTIN_MENUS|
    ensures DefinedBefore(BUILTIN_MENUS, i)
  {
    var d := BUILTIN_MENUS;
    assert d[2].row.code == "files" && d[9].row.code == "audit" && d[12].row.code == "system";
  }

  function ParentIdOf(ids: map<string, Id>, d: Definition): Id {
    if d.parentCode != "" && d.parentCode in ids then ids[d.parentCode] else 0
  }

  /** Some of the first `i` definitions has this code. */
  ghost predicate Named(defs: seq<Definition>, i: nat, code: string)
    requires i <= |defs|
  {
    exists j :: 0 <= j < i && defs[j].row.code == code
  }

  /** Definition `j` is stored as it is, under its id. */
  ghost predicate SeededAt(menus: Menus, ids: map<string, Id>, defs: seq<Definition>, j: nat)
    requires j < |defs|
  {
    && defs[j].row.code in ids && ids[defs[j].row.code] in menus
    && menus[ids[defs[j].row.code]] == defs[j].row.(parent := ParentIdOf(ids, defs[j]))
  }

  /** The definitions `defs[..i]` are stored, under the ids in `ids`. */
  ghost predicate Seeded(menus: Menus, ids: map<string, Id>, defs: seq<Definition>, i: nat)
    requires i <= |defs|
  {
    && (forall code :: code in ids ==> Named(defs, i, code))
    && (forall j :: 0 <= j < i ==> SeededAt(menus, ids, defs, j))
  }

  /** Rows under other codes are untouched. */
  ghost predicate OthersKept(before: Menus, after: Menus, defs: seq<Definition>, i: nat)
    requires i <= |defs|
  {
    && before.Keys <= after.Keys
    && (forall m :: m in before ==> after[m].code == before[m].code)
    && (forall m :: m in before && !Named(defs, i, before[m].code) ==> after[m] == before[m])
    && (forall m :: m in after && m !in before ==> Named(defs, i, after[m].code))
  }

  lemma {:induction false} UpClosedStays(p: Parents, s: set<Id>, x: Id, k: nat)
    requires forall y :: y in s && y in p && p[y].Some? ==> p[y].value in s
    requires x in s
    ensures Up(p, x, k).Some? ==> Up(p, x, k).value in s
    decreases k
  {
    if k > 0 && x in p && p[x].Some? {
      UpClosedStays(p, s, p[x].value, k - 1);
    }
  }

  /** A menu not seeded yet is above none of the seeded ones. */
  lemma SeededAbove(menus: Menus, ids: map<string, Id>, defs: seq<Definition>, i: nat, id: Id)
    requires i < |defs| && ParentsFirst(defs) && Seeded(menus, ids, defs, i)
    requires id in menus && menus[id].code == defs[i].row.code
    ensures var q := ParentIdOf(ids, defs[i]); q == 0 || (q in menus && !Below(ParentIds(menus), q, id))
  {
    var q := ParentIdOf(ids, defs[i]);
    if q != 0 {
      var s := set code | code in ids :: ids[code];
      var p := ParentIds(menus);
      forall code | code in ids
        ensures ids[code] in menus && ids[code] != id
        ensures p[ids[code]].Some? ==> p[ids[code]].value in s
      {
        SeededParent(menus, ids, defs, i, id, code);
      }
      SeededParent(menus, ids, defs, i, id, defs[i].parentCode);
      assert q in s;
      forall k: nat ensures Up(p, q, k) != Some(id) {
        UpClosedStays(p, s, q, k);
      }
    }
  }

  /** A seeded menu is another menu, and its parent is top level or seeded. */
  lemma SeededParent(menus: Menus, ids: map<string, Id>, defs: seq<Definition>, i: nat, id: Id, code: string)
    requires i < |defs| && ParentsFirst(defs) && Seeded(menus, ids, defs, i) && code in ids
    requires id in menus && menus[id].code == defs[i].row.code
    ensures ids[code] in menus && ids[code] != id
    ensures menus[ids[code]].parent != 0 ==> exists c :: c in ids && ids[c] == menus[ids[code]].parent
  {
    assert Named(defs, i, code);
    var j :| 0 <= j < i && defs[j].row.code == code;
    assert SeededAt(menus, ids, defs, j);
    if menus[ids[code]].parent != 0 {
      assert defs[j].parentCode in ids;
    }
  }

  /** Menu `id` stands for definition `d`: it has its code and columns, and hangs under the menu
      with the definition's parent code, or on the top level without one. */
  predicate StandsFor(menus: Menus, id: Id, d: Definition) {
    && id in menus && menus[id].code == d.row.code && menus[id].kind == d.row.kind
    && menus[id].sortOrder == d.row.sortOrder && menus[id].hidden == d.row.hidden && menus[id].enabled == d.row.enabled
    && menus[id].permissions == d.row.permissions
    && (d.parentCode == "" ==> menus[id].parent == 0)
    && (d.parentCode != "" ==> menus[id].parent in menus && menus[menus[id].parent].code == d.parentCode)
  }

  /** Every definition has its menu. */
  ghost predicate Stocked(menus: Menus, defs: seq<Definition>) {
    forall j :: 0 <= j < |defs| ==> InStock(menus, defs[j])
  }

  ghost predicate InStock(menus: Menus, d: Definition) {
    exists id :: StandsFor(menus, id, d)
  }

  lemma SeededIsStocked(menus: Menus, ids: map<string, Id>, defs: seq<Definition>)
    requires ParentsFirst(defs) && Seeded(menus, ids, defs, |defs|)
    ensures Stocked(menus, defs)
  {
    forall j | 0 <= j < |defs| ensures InStock(menus, defs[j]) {
      assert SeededAt(menus, ids, defs, j) && DefinedBefore(defs, j);
      if defs[j].parentCode != "" {
        var i :| 0 <= i < j && defs[i].row.code == defs[j].parentCode;
        assert SeededAt(menus, ids, defs, i);
      }
      assert StandsFor(menus, ids[defs[j].row.code], defs[j]);
    }
  }

  class MenuTable {
    var menus: Menus
    var nextId: Id

    ghost predicate Valid()
      reads this
    {
      && IsForest(ParentIds(menus)) && CodesUnique(menus)
      && nextId >= 1 && (forall id :: id in menus ==> 1 <= id < nextId)
    }

    constructor ()
      ensures Valid() && menus == map[]
    {
      menus, nextId := map[], 1;
      new;
      RankedIsAcyclic(ParentIds(menus), map[]);
    }

    method Create(row: MenuRow) returns (err: Option<MenuError>)
      requires Valid()
      modifies this
      ensures Valid()
      ensures err.None? <==> MayHangUnder(old(menus), 0, row.parent) && forall id :: id in old(menus) ==> old(menus)[id].code != row.code
      ensures if err.None? then menus == old(menus)[old(nextId) := row] else menus == old(menus)
    {
      err := ValidateMenuParent(menus, 0, row.parent);
      if err.Some? {
        return;
      }
      var holders := IdsOf(menus, row.code);
      if |holders| > 0 {
        assert exists id :: id in holders;
        return Some(CodeTaken);
      }
      assert forall id :: id in menus && menus[id].code == row.code ==> id in holders;
      var _ := AddMenu(row);
    }

    method AddMenu(row: MenuRow) returns (id: Id)
      requires Valid() && (row.parent == 0 || row.parent in menus)
      requires forall id :: id in menus ==> menus[id].code != row.code
      modifies this
      ensures Valid() && id == old(nextId) && id !in old(menus) && menus == old(menus)[id := row] && nextId == id + 1
    {
      id := nextId;
      var q := if row.parent == 0 then None else Some(row.parent);
      CreateKeepsForest(ParentIds(menus), id, q);
      ghost var before := menus;
      menus, nextId := menus[id := row], id + 1;
      assert ParentIds(menus) == ParentIds(before)[id := q];
    }

    /** Everything but the code is replaced. */
    method Update(id: Id, updates: MenuRow) returns (err: Option<MenuError>)
      requires Valid()
      modifies this`menus
      ensures Valid()
      ensures err.None? <==> id in old(menus) && Accepted(old(menus), id, updates.parent)
      ensures if err.None? then menus == old(menus)[id := updates.(code := old(menus)[id].code)] else menus == old(menus)
    {
      if id !in menus {
        return Some(MenuMissing);
      }
      err := ValidateMenuParent(menus, id, updates.parent);
      if err.Some? {
        return;
      }
      AcceptedKeepsForest(menus, id, updates.parent);
      SetMenu(id, updates.(code := menus[id].code));
    }

    method SetMenu(id: Id, row: MenuRow)
      requires Valid() && id in menus && row.code == menus[id].code
      requires row.parent == 0 || (row.parent in menus && !Below(ParentIds(menus), row.parent, id))
      modifies this`menus
      ensures Valid() && menus == old(menus)[id := row]
    {
      var q := if row.parent == 0 then None else Some(row.parent);
      MoveKeepsForest(ParentIds(menus), id, q);
      ghost var before := menus;
      menus := menus[id := row];
      assert ParentIds(menus) == ParentIds(before)[id := q];
    }

    method Delete(id: Id) returns (err: Option<MenuError>)
      requires Valid()
      modifies this`menus
      ensures Valid()
      ensures err.None? <==> id in old(menus) && forall m :: m in old(menus) ==> old(menus)[m].parent != id
      ensures menus == if err.None? then old(menus) - {id} else old(menus)
    {
      if id !in menus {
        return Some(MenuMissing);
      }
      var children := set m | m in menus && menus[m].parent == id;
      if |children| > 0 {
        assert exists m :: m in children;
        return Some(HasChildren);
      }
      assert forall m :: m in menus && menus[m].parent == id ==> m in children;
      RemoveMenu(id);
      return None;
    }

    method RemoveMenu(id: Id)
      requires Valid() && id in menus && forall m :: m in menus ==> menus[m].parent != id
      modifies this`menus
      ensures Valid() && menus == old(menus) - {id}
    {
      DropKeepsForest(ParentIds(menus), {id});
      ghost var before := menus;
      menus := menus - {id};
      assert ParentIds(menus) == ParentIds(before) - {id};
    }

    /** Upsert every definition by its code, in order. */
    method EnsureBuiltinMenus(defs: seq<Definition>)
      requires Valid() && ParentsFirst(defs)
      modifies this
      ensures Valid() && OthersKept(old(menus), menus, defs, |defs|)
      ensures Stocked(menus, defs)
    {
      var codeToId: map<string, Id> := map[];
      var i := 0;
      while i < |defs|
        invariant 0 <= i <= |defs| && Valid()
        invariant Seeded(menus, codeToId, defs, i) && OthersKept(old(menus), menus, defs, i)
      {
        var id := Upsert(defs, i, codeToId, old(menus));
        codeToId := codeToId[defs[i].row.code := id];
        i := i + 1;
      }
      SeededIsStocked(menus, codeToId, defs);
    }

    method Upsert(defs: seq<Definition>, i: nat, codeToId: map<string, Id>, ghost before: Menus) returns (id: Id)
      requires Valid() && i < |defs| && ParentsFirst(defs)
      requires Seeded(menus, codeToId, defs, i) && OthersKept(before, menus, defs, i)
      modifies this
      ensures Valid()
      ensures Seeded(menus, codeToId[defs[i].row.code := id], defs, i + 1) && OthersKept(before, menus, defs, i + 1)
    {
      var definition := defs[i];
      var parentId := 0;
      if definition.parentCode != "" {
        ParentSeeded(menus, codeToId, defs, i);
        parentId := codeToId[definition.parentCode];
      }
      ghost var mid := menus;
      var row := definition.row.(parent := parentId);
      var holders := IdsOf(menus, row.code);
      if |holders| > 0 {
        assert exists h :: h in holders;
        id :| id in holders;
        SeededAbove(menus, codeToId, defs, i, id);
        SetMenu(id, row);
      } else {
        assert forall m :: m in menus && menus[m].code == row.code ==> m in holders;
        id := AddMenu(row);
      }
      SeededMore(before, mid, codeToId, defs, i, id);
    }
  }

  lemma ParentSeeded(menus: Menus, ids: map<string, Id>, defs: seq<Definition>, i: nat)
    requires i < |defs| && ParentsFirst(defs) && Seeded(menus, ids, defs, i) && defs[i].parentCode != ""
    ensures defs[i].parentCode in ids && ids[defs[i].parentCode] in menus
  {
    assert DefinedBefore(defs, i);
    var j :| 0 <= j < i && defs[j].row.code == defs[i].parentCode;
    assert SeededAt(menus, ids, defs, j);
  }

  lemma SeededMore(before: Menus, menus: Menus, ids: map<string, Id>, defs: seq<Definition>, i: nat, id: Id)
    requires i < |defs| && ParentsFirst(defs) && Seeded(menus, ids, defs, i) && OthersKept(before, menus, defs, i)
    requires id in menus ==> menus[id].code == defs[i].row.code
    ensures var menus' := menus[id := defs[i].row.(parent := ParentIdOf(ids, defs[i]))];
            Seeded(menus', ids[defs[i].row.code := id], defs, i + 1) && OthersKept(before, menus', defs, i + 1)
  {
    var ids' := ids[defs[i].row.code := id];
    var menus' := menus[id := defs[i].row.(parent := ParentIdOf(ids, defs[i]))];
    forall code | code in ids' ensures Named(defs, i + 1, code) {
      NamedMore(defs, i, code);
      assert code in ids ==> Named(defs, i, code);
    }
    forall j | 0 <= j < i + 1 ensures SeededAt(menus', ids', defs, j) {
      SeededRow(menus, ids, defs, i, id, j);
    }
    KeptMore(before, menus, defs[i].row.(parent := ParentIdOf(ids, defs[i])), defs, i, id);
  }

  lemma NamedMore(defs: seq<Definition>, i: nat, code: string)
    requires i < |defs|
    ensures Named(defs, i + 1, code) <==> Named(defs, i, code) || code == defs[i].row.code
  {
    if Named(defs, i + 1, code) && code != defs[i].row.code {
      var j :| 0 <= j < i + 1 && defs[j].row.code == code;
    }
  }

  lemma SeededRow(menus: Menus, ids: map<string, Id>, defs: seq<Definition>, i: nat, id: Id, j: nat)
    requires j <= i < |defs| && ParentsFirst(defs) && (j < i ==> SeededAt(menus, ids, defs, j))
    requires id in menus ==> menus[id].code == defs[i].row.code
    ensures SeededAt(menus[id := defs[i].row.(parent := ParentIdOf(ids, defs[i]))], ids[defs[i].row.code := id], defs, j)
  {
    SameParentId(ids, defs, i, id, j);
    if j < i {
      assert menus[ids[defs[j].row.code]].code == defs[j].row.code != defs[i].row.code;
    }
  }

  lemma KeptMore(before: Menus, menus: Menus, row: MenuRow, defs: seq<Definition>, i: nat, id: Id)
    requires i < |defs| && OthersKept(before, menus, defs, i) && row.code == defs[i].row.code
    requires id in menus ==> menus[id].code == row.code
    ensures OthersKept(before, menus[id := row], defs, i + 1)
  {
    var after := menus[id := row];
    forall m | m in before && !Named(defs, i + 1, before[m].code) ensures after[m] == before[m] {
      NamedMore(defs, i, before[m].code);
    }
    forall m | m in after && m !in before ensures Named(defs, i + 1, after[m].code) {
      NamedMore(defs, i, after[m].code);
    }
  }

  /** Later entries do not change the parent of an earlier definition. */
  lemma SameParentId(ids: map<string, Id>, defs: seq<Definition>, i: nat, id: Id, j: nat)
    requires j <= i < |defs| && ParentsFirst(defs)
    ensures ParentIdOf(ids[defs[i].row.code := id], defs[j]) == ParentIdOf(ids, defs[j])
  {
    assert DefinedBefore(defs, j);
  }
}
