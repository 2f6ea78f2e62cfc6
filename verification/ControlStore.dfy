/**
 The local store behind the console, changed in place.  Every handler may stop
 half-way; `ApplyOperation` then puts back what was there when the transaction
 began.
 */
module ControlStore {
  import opened Prelude
  import opened Control
  import opened ControlRuns

  /** A handler answers what its specification answers, and leaves its tables when it succeeds. */
  ghost predicate Agrees(spec: Result<(Tables, nat), Failure>, now: Tables, r: Result<nat, Failure>) {
    match spec
    case Err(e) => r == Err(e)
    case Ok((tables, revision)) => r == Ok(revision) && now == tables
  }

  /** The columns of a view, in the order of their first mention. */
  method VisibleColumns(raw: seq<string>) returns (r: Option<seq<string>>)
    ensures r == CleanColumns(raw, [])
  {
    var columns: seq<string> := [];
    for i := 0 to |raw|
      invariant CleanColumns(raw[i..], columns) == CleanColumns(raw, [])
    {
      assert raw[i..][0] == raw[i] && raw[i..][1..] == raw[i + 1..];
      var key := Clean(raw[i], true, 80);
      if key.None? || key.value !in DIRECTORY_KEYS {
        return None;
      }
      if key.value !in columns {
        columns := columns + [key.value];
      }
    }
    return Some(columns);
  }

  method ColumnFilters(raw: seq<(string, string)>) returns (r: Option<map<string, string>>)
    ensures r == CleanFilters(raw, map[])
  {
    var filters: map<string, string> := map[];
    for i := 0 to |raw|
      invariant CleanFilters(raw[i..], filters) == CleanFilters(raw, map[])
    {
      assert raw[i..][0] == raw[i] && raw[i..][1..] == raw[i + 1..];
      var key, value := Clean(raw[i].0, true, 80), Clean(raw[i].1, false, 200);
      if key.None? || key.value !in DIRECTORY_KEYS || value.None? {
        return None;
      }
      if value.value != "" {
        filters := filters[key.value := value.value];
      }
    }
    return Some(filters);
  }

  lemma OneMoreElement(s: seq<int>, x: int)
    ensures Elements(s + [x]) == Elements(s) + {x}
    ensures x in s ==> Elements(s) + {x} == Elements(s)
  {
    assert forall y :: y in Elements(s + [x]) <==> y in s || y == x;
  }

  /** The listed people, each once; nothing when one of them cannot be a personnel number. */
  method RosterMembers(raw: seq<int>) returns (r: Option<seq<int>>)
    ensures r.Some? <==> ValidPersonnelIds(raw)
    ensures r.Some? ==> Distinct(r.value) && Elements(r.value) == Elements(raw)
  {
    var members: seq<int> := [];
    for i := 0 to |raw|
      invariant ValidPersonnelIds(raw[..i])
      invariant Distinct(members)
      invariant Elements(members) == Elements(raw[..i])
    {
      if raw[i] < 0 || raw[i] > MAX_PERSONNEL_ID {
        return None;
      }
      assert raw[..i + 1] == raw[..i] + [raw[i]];
      OneMoreElement(raw[..i], raw[i]);
      OneMoreElement(members, raw[i]);
      if raw[i] !in members {
        members := members + [raw[i]];
      }
    }
    assert raw[..|raw|] == raw;
    return Some(members);
  }

  lemma AssigningOneMore(assignments: map<int, string>, branch: string, done: seq<int>, next: int)
    ensures Reassigned(assignments, branch, Elements(done + [next]))
            == Reassigned(assignments, branch, Elements(done))[next := branch]
  {
  }

  class ControlDatabase {
    var accounts: seq<string>
    var users: map<string, User>
    var positions: map<Id, Position>
    var links: set<(Id, string)>
    var personnel: map<Id, Person>
    var views: seq<View>
    var branchRevision: nat
    var assignments: map<int, string>
    var receipts: map<string, Response>
    var audit: seq<Audited>

    function Contents(): Tables
      reads this
    {
      Tables(accounts, users, positions, links, personnel, views, branchRevision, assignments)
    }

    function State(): Console
      reads this
    {
      Console(Contents(), receipts, audit)
    }

    constructor (accounts: seq<string>, users: map<string, User>)
      ensures State() == Fresh(Tables(accounts, users, map[], {}, map[], [], 0, map[]))
    {
      this.accounts, this.users := accounts, users;
      positions, links, personnel, views := map[], {}, map[], [];
      branchRevision, assignments := 0, map[];
      receipts, audit := map[], [];
    }

    method UpsertPosition(op: Operation) returns (r: Result<nat, Failure>)
      requires op.action.UpsertPosition?
      modifies this`positions, this`users
      ensures Agrees(HandleUpsertPosition(old(Contents()), op), Contents(), r)
    {
      var a := op.action;
      var code, title, description := CleanId(a.code, 80), Clean(a.title, true, 200), Clean(a.description, false, 1000);
      if code.None? || !ValidCode(code.value) || title.None? || description.None? {
        return Err(Invalid);
      }
      if op.entityId !in positions {
        if op.baseRevision != 0 {
          return Err(Conflict);
        }
        if CodeTaken(positions, code.value, None) {
          return Err(Invalid);
        }
        positions := positions[
          op.entityId := Position(code.value, title.value, description.value, OrTrue(a.active), 1, false)];
        return Ok(1);
      }
      var revision := positions[op.entityId].revision;
      if revision != op.baseRevision {
        return Err(Conflict);
      }
      if CodeTaken(positions, code.value, Some(op.entityId)) {
        return Err(Invalid);
      }
      positions := positions[
        op.entityId := Position(code.value, title.value, description.value, OrTrue(a.active), revision + 1, false)];
      users := map u | u in users ::
        if LinkedTo(personnel, op.entityId, u) then users[u].(role := title.value) else users[u];
      return Ok(revision + 1);
    }

    method ReplacePermissions(op: Operation) returns (r: Result<nat, Failure>)
      requires op.action.ReplacePermissions?
      modifies this`positions, this`links
      ensures Agrees(HandleReplacePermissions(old(Contents()), op), Contents(), r)
    {
      hide CleanKeys, ValidPermission;
      if op.entityId !in positions || positions[op.entityId].deleted {
        return Err(Invalid);
      }
      var row := positions[op.entityId];
      if row.revision != op.baseRevision {
        return Err(Conflict);
      }
      if |op.action.keys| > 100 {
        return Err(Invalid);
      }
      var keys := CleanKeys(op.action.keys);
      if keys.None? || (exists k | k in keys.value :: !ValidPermission(k)) || !(keys.value <= PERMISSION_KEYS) {
        return Err(Invalid);
      }
      links := set l | l in links && l.0 != op.entityId;
      links := links + set k | k in keys.value :: (op.entityId, k);
      positions := positions[op.entityId := row.(revision := row.revision + 1)];
      return Ok(row.revision + 1);
    }

    method UpsertPersonnel(op: Operation) returns (r: Result<nat, Failure>)
      requires op.action.UpsertPersonnel?
      modifies this`personnel, this`users
      ensures Agrees(HandleUpsertPersonnel(old(Contents()), op), Contents(), r)
    {
      hide PersonnelCodeTaken, UsernameTaken, Fold, CleanPerson;
      var fields := CleanPerson(op.action);
      if fields.None? {
        return Err(Invalid);
      }
      var f := fields.value;
      if f.position !in positions || positions[f.position].deleted {
        return Err(Invalid);
      }
      var title := positions[f.position].title;
      var username: Option<string> := None;
      if f.username != "" {
        if Fold(f.username) !in users {
          return Err(Invalid);
        }
        username := Some(users[Fold(f.username)].name);
      }
      var revision := 1;
      if op.entityId !in personnel {
        if op.baseRevision != 0 {
          return Err(Conflict);
        }
      } else {
        var row := personnel[op.entityId];
        if row.revision != op.baseRevision {
          return Err(Conflict);
        }
        if row.username.Some? && row.username.value != "" && username != row.username {
          return Err(Invalid);
        }
        revision := row.revision + 1;
      }
      if PersonnelCodeTaken(personnel, f.code, Some(op.entityId)) {
        return Err(Invalid);
      }
      if username.Some? && UsernameTaken(personnel, username.value, Some(op.entityId)) {
        return Err(Invalid);
      }
      personnel := personnel[op.entityId := Person(f.code, f.fullName, f.position, username, f.phone, f.branch,
                                                   f.salesLine, f.active, revision, false)];
      if username.Some? && Fold(username.value) in users {
        var key := Fold(username.value);
        users := users[key := users[key].(fullName := f.fullName, role := title, branch := f.branch,
                                          salesLine := f.salesLine, phone := f.phone, active := f.active)];
      }
      return Ok(revision);
    }

    method UpsertView(user: string, op: Operation) returns (r: Result<nat, Failure>)
      requires op.action.UpsertView?
      modifies this`views
      ensures Agrees(HandleUpsertView(old(Contents()), user, op), Contents(), r)
    {
      hide Fold, NameTaken, FindView, FindRecyclable, CleanColumns, CleanFilters, Clean, ClearedDefaults;
      var a := op.action;
      var status := Clean(if a.statusFilter == "" then "all" else a.statusFilter, true, 20);
      var name := Clean(a.name, true, 100);
      if name.None? || a.pageSize !in PAGE_SIZES || status.None? || status.value !in STATUS_FILTERS {
        return Err(Invalid);
      }
      if !(1 <= |a.columns| <= |DIRECTORY_KEYS|) {
        return Err(Invalid);
      }
      var columns := VisibleColumns(a.columns);
      if columns.None? || |a.filters| > |DIRECTORY_KEYS| {
        return Err(Invalid);
      }
      var filters := ColumnFilters(a.filters);
      if filters.None? {
        return Err(Invalid);
      }
      var v :=
        ViewSettings(name.value, a.isDefault == Some(true), a.pageSize, status.value, columns.value, filters.value);
      assert CleanView(a) == Some(v);
      r := StoreSettings(user, op, v);
    }

    method StoreSettings(user: string, op: Operation, v: ViewSettings) returns (r: Result<nat, Failure>)
      requires op.action.UpsertView? && CleanView(op.action) == Some(v)
      modifies this`views
      ensures Agrees(HandleUpsertView(old(Contents()), user, op), Contents(), r)
    {
      hide Fold, NameTaken, FindView, FindRecyclable, CleanView;
      FoundViews(views, op.entityId, user, v.name);
      var row, recyclable := FindView(views, op.entityId), FindRecyclable(views, user, v.name);
      if row.Some? && !Owns(user, views[row.value]) {
        return Err(Invalid);
      }
      if v.isDefault {
        views := ClearedDefaults(views, user, op.entityId);
      }
      var i, revision := |views|, 1;
      if row.None? {
        if op.baseRevision != 0 {
          return Err(Conflict);
        }
        if recyclable.Some? {
          i := recyclable.value;
          revision := views[i].revision + 1;
          views := views[i := View(op.entityId, views[i].username, v, revision, false)];
        } else {
          views := views + [View(op.entityId, user, v, 1, false)];
        }
      } else {
        i := row.value;
        if views[i].revision != op.baseRevision {
          return Err(Conflict);
        }
        revision := views[i].revision + 1;
        views := views[i := View(op.entityId, views[i].username, v, revision, false)];
      }
      if NameTaken(views, i) {
        return Err(Invalid);
      }
      return Ok(revision);
    }

    method ReplaceBranchRoster(op: Operation) returns (r: Result<nat, Failure>)
      requires op.action.ReplaceRoster?
      modifies this`assignments, this`branchRevision
      ensures Agrees(HandleReplaceRoster(old(Contents()), op), Contents(), r)
    {
      var raw := op.action.personnelIds;
      if !op.entityId.Given? || op.entityId.text !in BRANCH_CODES || |raw| > MAX_ROSTER {
        return Err(Invalid);
      }
      var branch := op.entityId.text;
      var members := RosterMembers(raw);
      if members.None? {
        return Err(Invalid);
      }
      if branchRevision != op.baseRevision {
        return Err(Conflict);
      }
      ghost var before := assignments;
      assignments := map p | p in assignments && assignments[p] != branch :: assignments[p];
      var ids := members.value;
      for i := 0 to |ids|
        invariant branchRevision == old(branchRevision)
        invariant assignments == Reassigned(before, branch, Elements(ids[..i]))
      {
        assert ids[..i + 1] == ids[..i] + [ids[i]];
        AssigningOneMore(before, branch, ids[..i], ids[i]);
        assignments := assignments[ids[i] := branch];
      }
      assert ids[..|ids|] == ids;
      branchRevision := branchRevision + 1;
      return Ok(branchRevision);
    }

    method DeletePosition(op: Operation) returns (r: Result<nat, Failure>)
      modifies this`positions
      ensures Agrees(HandleDeletePosition(old(Contents()), op), Contents(), r)
    {
      if op.entityId !in positions {
        return Err(Invalid);
      }
      var row := positions[op.entityId];
      if row.revision != op.baseRevision {
        return Err(Conflict);
      }
      if exists id | id in personnel :: personnel[id].position == op.entityId && !personnel[id].deleted {
        return Err(Invalid);
      }
      positions := positions[op.entityId := row.(active := false, revision := row.revision + 1, deleted := true)];
      return Ok(row.revision + 1);
    }

    method DeletePersonnel(user: string, op: Operation) returns (r: Result<nat, Failure>)
      modifies this`personnel, this`users
      ensures Agrees(HandleDeletePersonnel(old(Contents()), user, op), Contents(), r)
    {
      hide Fold;
      if op.entityId !in personnel {
        return Err(Invalid);
      }
      var row := personnel[op.entityId];
      if row.revision != op.baseRevision {
        return Err(Conflict);
      }
      var username := match row.username case Some(u) => u case None => "";
      if Fold(username) == Fold(user) {
        return Err(Invalid);
      }
      personnel := personnel[op.entityId := row.(active := false, revision := row.revision + 1, deleted := true)];
      if username != "" && Fold(username) in users {
        var u := users[Fold(username)].(active := false);
        users := users[Fold(username) := u.(revocations := u.revocations + 1)];
      }
      return Ok(row.revision + 1);
    }

    method DeleteView(user: string, op: Operation) returns (r: Result<nat, Failure>)
      modifies this`views
      ensures Agrees(HandleDeleteView(old(Contents()), user, op), Contents(), r)
    {
      hide Fold, FindView;
      FoundViews(views, op.entityId, user, "");
      var row := FindView(views, op.entityId);
      if row.None? || !Owns(user, views[row.value]) {
        return Err(Invalid);
      }
      var v := views[row.value];
      if v.revision != op.baseRevision {
        return Err(Conflict);
      }
      views := views[
        row.value := v.(settings := v.settings.(isDefault := false), revision := v.revision + 1, deleted := true)];
      return Ok(v.revision + 1);
    }

    /** The handler for the operation; nothing but the tables can change. */
    method Dispatch(user: string, op: Operation) returns (r: Result<nat, Failure>)
      modifies this
      ensures Agrees(Handle(old(Contents()), user, op), Contents(), r)
      ensures receipts == old(receipts) && audit == old(audit)
    {
      hide HandleUpsertPosition, HandleReplacePermissions, HandleUpsertPersonnel, HandleUpsertView, HandleReplaceRoster,
        HandleDeletePosition, HandleDeletePersonnel, HandleDeleteView;
      match op.action
      case UpsertPosition(_, _, _, _) => r := UpsertPosition(op);
      case ReplacePermissions(_) => r := ReplacePermissions(op);
      case UpsertPersonnel(_, _, _, _, _, _, _, _) => r := UpsertPersonnel(op);
      case UpsertView(_, _, _, _, _, _) => r := UpsertView(user, op);
      case ReplaceRoster(_) => r := ReplaceBranchRoster(op);
      case DeletePosition => r := DeletePosition(op);
      case DeletePersonnel => r := DeletePersonnel(user, op);
      case DeleteView => r := DeleteView(user, op);
      case Unsupported => r := Err(Invalid);
    }

    /** The rows of one account: its position, the default links of that position, its record. */
    method EnsureAccount(account: string) returns (ok: bool)
      modifies this`positions, this`links, this`personnel
      ensures ok <==> SeedUser(old(Contents()), account).Ok?
      ensures ok ==> Contents() == SeedUser(old(Contents()), account).value
    {
      hide CodeTaken, DefaultPermissions, RoleTitle, Decimal, Fold, PersonnelCodeTaken, UsernameTaken;
      if account !in users {
        return true;
      }
      var u := users[account];
      var position := LegacyPosition(u);
      if position !in positions && !CodeTaken(positions, LegacyCode(u), None) {
        positions := positions[position := Position(LegacyCode(u), RoleTitle(u), "", true, 1, false)];
      }
      if DefaultPermissions(u) != {} && position !in positions {
        return false;
      }
      links := links + set k | k in DefaultPermissions(u) :: (position, k);
      assert DefaultPermissions(u) == {} ==> links == old(links);
      if !PersonExists(Contents(), u) {
        if position !in positions {
          return false;
        }
        personnel := personnel[SeededPersonId(u) := SeededPerson(u)];
      }
      return true;
    }

    method EnsureDefaults() returns (ok: bool)
      modifies this`positions, this`links, this`personnel
      ensures ok <==> Seed(old(Contents())).Ok?
      ensures ok ==> Contents() == Seed(old(Contents())).value
    {
      hide SeedUser;
      for i := 0 to |accounts|
        invariant unchanged(`accounts) && unchanged(`users) && unchanged(`views) && unchanged(`assignments)
        invariant SeedUsers(Contents(), accounts[i..]) == Seed(old(Contents()))
      {
        assert accounts[i..][0] == accounts[i] && accounts[i..][1..] == accounts[i + 1..];
        ok := EnsureAccount(accounts[i]);
        if !ok {
          return false;
        }
      }
      assert accounts[|accounts|..] == [];
      return true;
    }

    /** One transaction: what it wrote stays only when it reaches its end. */
    method ApplyOperation(user: string, op: Operation) returns (status: Status)
      modifies this
      ensures (State(), status) == Deliver(old(State()), user, op)
    {
      hide Seed, Handle, ValidOperation;
      if !ValidOperation(op) {
        return Rejected;
      }
      var savedUsers, savedPositions, savedLinks, savedPersonnel := users, positions, links, personnel;
      var savedAccounts, savedViews, savedBranch, savedAssignments := accounts, views, branchRevision, assignments;
      var ok := EnsureDefaults();
      if ok && op.id in receipts {
        return Replayed(receipts[op.id]);
      }
      if ok {
        var r := Dispatch(user, op);
        if r.Ok? {
          var response := Response(op.entityId, r.value);
          receipts := receipts[op.id := response];
          audit := audit + [Audited(user, op)];
          return Applied(response);
        }
        status := if r.error.Conflict? then Conflicted else Rejected;
      } else {
        status := Rejected;
      }
      users, positions, links, personnel := savedUsers, savedPositions, savedLinks, savedPersonnel;
      accounts, views, branchRevision, assignments := savedAccounts, savedViews, savedBranch, savedAssignments;
    }

    /** A batch from one device: between 1 and 100 operations, each answered on its own. */
    method SyncOperations(user: string, operations: seq<Operation>) returns (results: Option<seq<Status>>)
      modifies this
      ensures results.None? <==> !(1 <= |operations| <= 100)
      ensures results.None? ==> State() == old(State())
      ensures results.Some? ==> State() == Run(old(State()), From(user, operations))
      ensures results.Some? ==> results.value == Answers(old(State()), From(user, operations))
    {
      hide Deliver;
      if operations == [] || |operations| > 100 {
        return None;
      }
      var answers: seq<Status> := [];
      for i := 0 to |operations|
        invariant State() == Run(old(State()), From(user, operations[..i]))
        invariant answers == Answers(old(State()), From(user, operations[..i]))
      {
        var status := ApplyOperation(user, operations[i]);
        answers := answers + [status];
        assert From(user, operations[..i + 1]) == From(user, operations[..i]) + [Audited(user, operations[i])];
        assert From(user, operations[..i + 1])[..i] == From(user, operations[..i]);
      }
      assert operations[..|operations|] == operations;
      return Some(answers);
    }
  }

  function From(user: string, operations: seq<Operation>): seq<Audited> {
    seq(|operations|, i requires 0 <= i < |operations| => Audited(user, operations[i]))
  }
}
