/**
 When an operation is applied: for every kind of operation the exact condition,
 in terms of what was sent and of the rows that are there.
 */
module ControlRefusals {
  import opened Prelude
  import opened Control
  import opened ControlRuns
  import opened ControlSync
  import opened ControlEffects

  /** The text fits its field once white space around it is taken off. */
  predicate Fits(text: string, required: bool, limit: nat) {
    |Strip(text)| <= limit && (required ==> Strip(text) != "")
  }

  predicate IdFits(id: Id, limit: nat) {
    id.Given? ==> Fits(id.text, true, limit)
  }

  function Stripped(id: Id): Id {
    match id case Given(text) => Given(Strip(text)) case Digest(_, _) => id
  }

  lemma CleanIs(text: string, required: bool, limit: nat)
    ensures Clean(text, required, limit) == if Fits(text, required, limit) then Some(Strip(text)) else None
  {
    hide Strip;
  }

  lemma CleanIdIs(id: Id, limit: nat)
    ensures CleanId(id, limit) == if IdFits(id, limit) then Some(Stripped(id)) else None
  {
    hide Strip;
  }

  // ---------------------------------------------------------------------
  // Positions
  // ---------------------------------------------------------------------

  ghost predicate MayUpsertPosition(t: Tables, op: Operation)
    requires op.action.UpsertPosition?
  {
    var a := op.action;
    && IdFits(a.code, 80) && ValidCode(Stripped(a.code)) && Fits(a.title, true, 200) && Fits(a.description, false, 1000)
    && op.baseRevision == (if op.entityId in t.positions then t.positions[op.entityId].revision else 0)
    && forall id | id in t.positions && SameCode(t.positions[id].code, Stripped(a.code)) :: id == op.entityId
  }

  lemma UpsertPositionExactlyWhen(t: Tables, op: Operation)
    requires op.action.UpsertPosition?
    ensures HandleUpsertPosition(t, op).Ok? <==> MayUpsertPosition(t, op)
  {
    hide Fits, Strip, Clean, CleanId, ValidCode, Fold, LinkedTo;
    var a := op.action;
    CleanIdIs(a.code, 80);
    CleanIs(a.title, true, 200);
    CleanIs(a.description, false, 1000);
  }

  ghost predicate MayReplacePermissions(t: Tables, op: Operation)
    requires op.action.ReplacePermissions?
  {
    && op.entityId in t.positions && !t.positions[op.entityId].deleted
    && op.baseRevision == t.positions[op.entityId].revision
    && |op.action.keys| <= 100
    && forall i | 0 <= i < |op.action.keys| :: Strip(op.action.keys[i]) in PERMISSION_KEYS
  }

  lemma {:induction false} KnownKeysAreCleaned(keys: seq<string>)
    ensures (forall i | 0 <= i < |keys| :: Strip(keys[i]) in PERMISSION_KEYS)
       <==> CleanKeys(keys).Some? && CleanKeys(keys).value <= PERMISSION_KEYS
  {
    hide Strip, PERMISSION_KEYS;
    if keys != [] {
      KnownKeysAreCleaned(keys[1..]);
      KnownKeyFits(keys[0]);
      assert forall i | 0 <= i < |keys[1..]| :: keys[1..][i] == keys[i + 1];
      if forall i | 0 <= i < |keys[1..]| :: Strip(keys[1..][i]) in PERMISSION_KEYS {
        forall i | 0 <= i < |keys| && Strip(keys[0]) in PERMISSION_KEYS ensures Strip(keys[i]) in PERMISSION_KEYS {
          assert i > 0 ==> keys[i] == keys[1..][i - 1];
        }
      }
    }
  }

  lemma KnownKeyFits(key: string)
    ensures Strip(key) in PERMISSION_KEYS ==> Clean(key, true, 100) == Some(Strip(key)) && ValidPermission(Strip(key))
    ensures Clean(key, true, 100).Some? ==> Clean(key, true, 100).value == Strip(key)
  {
    hide Strip, PERMISSION_KEYS, ValidPermission;
    if Strip(key) in PERMISSION_KEYS {
      KnownPermissionIsValid(Strip(key));
    }
  }

  lemma KnownPermissionIsValid(k: string)
    requires k in PERMISSION_KEYS
    ensures ValidPermission(k) && 2 <= |k| <= 100
  {
  }

  lemma KnownPermissionsAreValid()
    ensures forall k | k in PERMISSION_KEYS :: ValidPermission(k)
  {
    hide PERMISSION_KEYS, ValidPermission;
    forall k | k in PERMISSION_KEYS ensures ValidPermission(k) {
      KnownPermissionIsValid(k);
    }
  }

  lemma ReplacePermissionsExactlyWhen(t: Tables, op: Operation)
    requires op.action.ReplacePermissions?
    ensures HandleReplacePermissions(t, op).Ok? <==> MayReplacePermissions(t, op)
  {
    hide Strip, PERMISSION_KEYS, ValidPermission, CleanKeys;
    KnownPermissionsAreValid();
    KnownKeysAreCleaned(op.action.keys);
  }

  // ---------------------------------------------------------------------
  // Personnel
  // ---------------------------------------------------------------------

  predicate PersonFits(a: Action)
    requires a.UpsertPersonnel?
  {
    && Fits(a.personnelCode, true, 80) && Fits(a.fullName, true, 200) && IdFits(a.position, 100)
    && Fits(a.username, false, 100) && Fits(a.phone, false, 30) && Fits(a.branch, false, 200)
    && Fits(a.salesLine, false, 200)
  }

  /** The record is for a live position and an account that is there, keeps the account it has, and
      shares its code and account with no other. */
  ghost predicate MayUpsertPersonnel(t: Tables, op: Operation)
    requires op.action.UpsertPersonnel?
  {
    var a := op.action;
    var account := Fold(Strip(a.username));
    && PersonFits(a)
    && Stripped(a.position) in t.positions && !t.positions[Stripped(a.position)].deleted
    && (Strip(a.username) != "" ==> account in t.users)
    && op.baseRevision == (if op.entityId in t.personnel then t.personnel[op.entityId].revision else 0)
    && (op.entityId in t.personnel ==> KeepsAccount(t, t.personnel[op.entityId].username, a.username))
    && (forall id | id in t.personnel && Fold(t.personnel[id].code) == Fold(Strip(a.personnelCode)) ::
          id == op.entityId)
    && (Strip(a.username) != "" ==>
          forall id | id in t.personnel && t.personnel[id].username.Some?
                      && Fold(t.personnel[id].username.value) == account ::
            id == op.entityId)
  }

  predicate KeepsAccount(t: Tables, username: Option<string>, asked: string) {
    username.None? || username.value == ""
    || (Strip(asked) != "" && Fold(Strip(asked)) in t.users && username.value == t.users[Fold(Strip(asked))].name)
  }

  lemma CleanPersonIs(a: Action)
    requires a.UpsertPersonnel?
    ensures CleanPerson(a) ==
      if !PersonFits(a) then None
      else Some(PersonFields(Strip(a.personnelCode), Strip(a.fullName), Stripped(a.position), Strip(a.username),
                             Strip(a.phone), Strip(a.branch), Strip(a.salesLine), a.isActive != Some(false)))
  {
    hide Strip;
  }

  lemma UpsertPersonnelExactlyWhen(t: Tables, op: Operation)
    requires op.action.UpsertPersonnel? && Keyed(t)
    ensures HandleUpsertPersonnel(t, op).Ok? <==> MayUpsertPersonnel(t, op)
  {
    hide Strip, CleanPerson, PersonFits, Fold;
    CleanPersonIs(op.action);
  }

  // ---------------------------------------------------------------------
  // Views
  // ---------------------------------------------------------------------

  predicate ViewFits(a: Action)
    requires a.UpsertView?
  {
    && a.pageSize in {50, 100, 500, 1000}
    && (a.statusFilter == "" || Strip(a.statusFilter) in {"all", "active", "inactive"})
    && 1 <= |a.columns| <= |DIRECTORY_KEYS| && |a.filters| <= |DIRECTORY_KEYS| && Fits(a.name, true, 100)
    && (forall i | 0 <= i < |a.columns| :: Strip(a.columns[i]) in DIRECTORY_KEYS)
    && (forall i | 0 <= i < |a.filters| ::
          Strip(a.filters[i].0) in DIRECTORY_KEYS && |Strip(a.filters[i].1)| <= 200)
  }

  lemma CleanStatusIs(status: string)
    ensures var r := Clean(if status == "" then "all" else status, true, 20);
            r.Some? && r.value in STATUS_FILTERS <==> status == "" || Strip(status) in {"all", "active", "inactive"}
  {
    AllIsAll();
    hide Strip;
  }

  /** Its parts are sound, one by one. */
  predicate PartsAreClean(a: Action)
    requires a.UpsertView?
  {
    var status := Clean(if a.statusFilter == "" then "all" else a.statusFilter, true, 20);
    && a.pageSize in PAGE_SIZES && status.Some? && status.value in STATUS_FILTERS
    && 1 <= |a.columns| <= |DIRECTORY_KEYS| && |a.filters| <= |DIRECTORY_KEYS|
    && Clean(a.name, true, 100).Some? && CleanColumns(a.columns, []).Some? && CleanFilters(a.filters, map[]).Some?
  }

  lemma CleanInParts(a: Action)
    requires a.UpsertView?
    ensures CleanView(a).Some? <==> PartsAreClean(a)
    ensures CleanView(a).Some? ==> Some(CleanView(a).value.name) == Clean(a.name, true, 100)
  {
    hide Clean, CleanColumns, CleanFilters, DIRECTORY_KEYS, STATUS_FILTERS, PAGE_SIZES;
  }

  lemma ColumnsFit(columns: seq<string>)
    ensures CleanColumns(columns, []).Some? <==> forall i | 0 <= i < |columns| :: Strip(columns[i]) in DIRECTORY_KEYS
  {
    hide Strip, CleanColumns, FirstMentions, DIRECTORY_KEYS;
    CleanedColumns(columns, |columns|);
    assert columns[..|columns|] == columns;
  }

  lemma FiltersFit(filters: seq<(string, string)>)
    ensures CleanFilters(filters, map[]).Some? <==>
      forall i | 0 <= i < |filters| :: Strip(filters[i].0) in DIRECTORY_KEYS && |Strip(filters[i].1)| <= 200
  {
    hide Strip, CleanFilters, LastValues, DIRECTORY_KEYS;
    CleanedFilters(filters, |filters|);
    assert filters[..|filters|] == filters;
  }

  lemma CleanViewExactlyWhen(a: Action)
    requires a.UpsertView?
    ensures CleanView(a).Some? <==> ViewFits(a)
    ensures CleanView(a).Some? ==> CleanView(a).value.name == Strip(a.name)
  {
    hide Strip, Clean, Fits, CleanView, CleanColumns, CleanFilters, DIRECTORY_KEYS, STATUS_FILTERS;
    CleanInParts(a);
    CleanStatusIs(a.statusFilter);
    CleanIs(a.name, true, 100);
    ColumnsFit(a.columns);
    FiltersFit(a.filters);
  }

  /** The view is new or the user's own at its revision, and no other live view of the user has its name. */
  ghost predicate MayUpsertView(t: Tables, user: string, op: Operation)
    requires op.action.UpsertView?
  {
    var row := FindView(t.views, op.entityId);
    && ViewFits(op.action)
    && (row.Some? ==> row.value < |t.views| && Owns(user, t.views[row.value]))
    && op.baseRevision == (if row.Some? then t.views[row.value].revision else 0)
    && forall j | 0 <= j < |t.views| && !t.views[j].deleted && Owns(user, t.views[j])
                  && Fold(t.views[j].settings.name) == Fold(Strip(op.action.name)) :: row == Some(j)
  }

  lemma UpsertViewExactlyWhen(t: Tables, user: string, op: Operation)
    requires op.action.UpsertView?
    ensures HandleUpsertView(t, user, op).Ok? <==> MayUpsertView(t, user, op)
  {
    hide ViewFits, CleanView, Strip, Fold, ClearedDefaults, NameTaken;
    CleanViewExactlyWhen(op.action);
    ClearingKeepsNames(t.views, user, op.entityId);
    if CleanView(op.action).Some? {
      var v := CleanView(op.action).value;
      FoundViews(t.views, op.entityId, user, v.name);
      var row, recyclable := FindView(t.views, op.entityId), FindRecyclable(t.views, user, v.name);
      var cleared := if v.isDefault then ClearedDefaults(t.views, user, op.entityId) else t.views;
      if row.Some? {
        if Owns(user, t.views[row.value]) {
          var was := t.views[row.value];
          NameTakenIs(t.views, cleared, user, row.value, View(op.entityId, was.username, v, was.revision + 1, false));
        }
      } else if recyclable.Some? {
        var i, was := recyclable.value, t.views[recyclable.value];
        NameTakenIs(t.views, cleared, user, i, View(op.entityId, was.username, v, was.revision + 1, false));
      } else {
        NewNameTakenIs(t.views, cleared, user, View(op.entityId, user, v, 1, false));
      }
    }
  }

  /** The same rows as far as names are concerned. */
  ghost predicate SameNames(views: seq<View>, cleared: seq<View>) {
    && |views| == |cleared|
    && forall i | 0 <= i < |views| ::
         && cleared[i].username == views[i].username && cleared[i].deleted == views[i].deleted
         && cleared[i].settings.name == views[i].settings.name
  }

  lemma ClearingKeepsNames(views: seq<View>, user: string, except: Id)
    ensures SameNames(views, views) && SameNames(views, ClearedDefaults(views, user, except))
  {
    hide Fold;
  }

  predicate Takes(v: View, user: string, name: string) {
    !v.deleted && Owns(user, v) && Fold(v.settings.name) == Fold(name)
  }

  lemma NameTakenIs(views: seq<View>, cleared: seq<View>, user: string, i: nat, v: View)
    requires SameNames(views, cleared) && i < |views| && Owns(user, views[i]) && v.username == views[i].username
    ensures NameTaken(cleared[i := v], i)
            <==> exists j | 0 <= j < |views| :: j != i && Takes(views[j], user, v.settings.name)
  {
    hide Fold;
    var next := cleared[i := v];
    forall j | 0 <= j < |views| && j != i
      ensures (!next[j].deleted && Fold(next[j].username) == Fold(v.username)
               && Fold(next[j].settings.name) == Fold(v.settings.name)) <==> Takes(views[j], user, v.settings.name)
    {
      assert next[j] == cleared[j];
    }
  }

  lemma NewNameTakenIs(views: seq<View>, cleared: seq<View>, user: string, v: View)
    requires SameNames(views, cleared) && v.username == user
    ensures NameTaken(cleared + [v], |cleared|)
            <==> exists j | 0 <= j < |views| :: Takes(views[j], user, v.settings.name)
  {
    hide Fold;
    var next := cleared + [v];
    forall j | 0 <= j < |views|
      ensures (!next[j].deleted && Fold(next[j].username) == Fold(v.username)
               && Fold(next[j].settings.name) == Fold(v.settings.name)) <==> Takes(views[j], user, v.settings.name)
    {
      assert next[j] == cleared[j];
    }
  }

  // ---------------------------------------------------------------------
  // Every operation
  // ---------------------------------------------------------------------

  /** The operation fits the rows as they are. */
  ghost predicate MayApply(t: Tables, user: string, op: Operation) {
    var id := op.entityId;
    match op.action
    case UpsertPosition(_, _, _, _) => MayUpsertPosition(t, op)
    case ReplacePermissions(_) => MayReplacePermissions(t, op)
    case UpsertPersonnel(_, _, _, _, _, _, _, _) => MayUpsertPersonnel(t, op)
    case UpsertView(_, _, _, _, _, _) => MayUpsertView(t, user, op)
    case ReplaceRoster(ids) =>
      && id.Given? && id.text in {"alborz", "tehran", "qazvin", "rasht", "headquarters"}
      && |ids| <= 100_000 && (forall i | 0 <= i < |ids| :: 0 <= ids[i] <= 2_147_483_647)
      && op.baseRevision == t.branchRevision
    case DeletePosition =>
      && id in t.positions && op.baseRevision == t.positions[id].revision
      && forall p | p in t.personnel && !t.personnel[p].deleted :: t.personnel[p].position != id
    case DeletePersonnel =>
      && id in t.personnel && op.baseRevision == t.personnel[id].revision
      && !OwnRecord(t.personnel[id], user)
    case DeleteView =>
      var row := FindView(t.views, id);
      && row.Some? && row.value < |t.views| && Owns(user, t.views[row.value])
      && op.baseRevision == t.views[row.value].revision
    case Unsupported => false
  }

  predicate OwnRecord(p: Person, user: string) {
    Fold(if p.username.Some? then p.username.value else "") == Fold(user)
  }

  lemma HandledExactlyWhen(t: Tables, user: string, op: Operation)
    requires Keyed(t)
    ensures Handle(t, user, op).Ok? <==> MayApply(t, user, op)
  {
    hide HandleUpsertPosition, HandleReplacePermissions, HandleUpsertPersonnel, HandleUpsertView, MayUpsertPosition,
         MayReplacePermissions, MayUpsertPersonnel, MayUpsertView, Fold, Keyed;
    match op.action
    case UpsertPosition(_, _, _, _) => UpsertPositionExactlyWhen(t, op);
    case ReplacePermissions(_) => ReplacePermissionsExactlyWhen(t, op);
    case UpsertPersonnel(_, _, _, _, _, _, _, _) => UpsertPersonnelExactlyWhen(t, op);
    case UpsertView(_, _, _, _, _, _) => UpsertViewExactlyWhen(t, user, op);
    case DeleteView => FoundViews(t.views, op.entityId, user, "");
    case _ =>
  }

  predicate Identifies(id: Id) {
    id.Given? ==> 1 <= |id.text| <= 100 && forall i | 0 <= i < |id.text| :: IdChar(id.text[i])
  }

  /**
   A delivery is applied exactly when its identifiers and revision are well
   formed, seeding succeeds, no receipt of it is on record, and the operation
   fits the seeded rows.
   */
  lemma AppliedExactlyWhen(c: Console, d: Audited)
    requires Keyed(c.tables)
    ensures Deliver(c, d.user, d.op).1.Applied?
       <==> && Identifies(Given(d.op.id)) && Identifies(d.op.entityId) && d.op.baseRevision >= 0
            && Seed(c.tables).Ok? && d.op.id !in c.receipts
            && MayApply(Seed(c.tables).value, d.user, d.op)
  {
    hide Handle, MayApply, SeedUsers, IdChar, Fold;
    if Seed(c.tables).Ok? {
      SeedingTwiceIsSeedingOnce(c.tables);
      HandledExactlyWhen(Seed(c.tables).value, d.user, d.op);
    }
  }

  /** A conflict is reported only for a revision that is not the present one of the row. */
  lemma ConflictMeansStale(t: Tables, user: string, op: Operation)
    requires Handle(t, user, op) == Err(Conflict)
    ensures match op.action
            case UpsertView(_, _, _, _, _, _) => IsStaleView(t, op)
            case DeleteView => IsStaleView(t, op)
            case _ => op.baseRevision != RevisionOf(t, CounterOf(op))
  {
    hide CodeTaken, CleanId, Clean, ValidCode, CleanPerson, CleanKeys, PersonnelCodeTaken, UsernameTaken, CleanView,
         ClearedDefaults, NameTaken, Fold;
    FoundViews(t.views, op.entityId, user, "");
  }

  predicate IsStaleView(t: Tables, op: Operation) {
    var row := FindView(t.views, op.entityId);
    op.baseRevision != if row.Some? && row.value < |t.views| then t.views[row.value].revision else 0
  }
}
