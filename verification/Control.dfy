/**
 Positions, personnel, permissions, saved views and branch rosters of the
 management console: the local tables, what every operation does to them, and
 the seeding step that runs before each operation.

 Digests stand for the text they are taken from, so two digests are equal
 exactly when the texts are.  Timestamps are not kept.
 */
module Control {
  import opened Prelude

  // ---------------------------------------------------------------------
  // Tables
  // ---------------------------------------------------------------------

  /** An identifier or code: written out, or the digest of a text under a prefix. */
  datatype Id = Given(text: string) | Digest(prefix: string, of: string)

  datatype User = User(
    name: string,
    personnelId: Option<int>,
    fullName: string,
    role: string,
    branch: string,
    salesLine: string,
    phone: string,
    active: bool,
    revocations: nat)

  datatype Position = Position(code: Id, title: string, description: string, active: bool, revision: nat, deleted: bool)

  datatype Person = Person(
    code: string,
    fullName: string,
    position: Id,
    username: Option<string>,
    phone: string,
    branch: string,
    salesLine: string,
    active: bool,
    revision: nat,
    deleted: bool)

  datatype ViewSettings = ViewSettings(
    name: string,
    isDefault: bool,
    pageSize: int,
    statusFilter: string,
    columns: seq<string>,
    filters: map<string, string>)

  datatype View = View(id: Id, username: string, settings: ViewSettings, revision: nat, deleted: bool)

  /** `accounts` lists the keys of `users` in the order in which they are seeded. */
  datatype Tables = Tables(
    accounts: seq<string>,
    users: map<string, User>,
    positions: map<Id, Position>,
    links: set<(Id, string)>,
    personnel: map<Id, Person>,
    views: seq<View>,
    branchRevision: nat,
    assignments: map<int, string>)

  datatype Failure = Conflict | Invalid

  // ---------------------------------------------------------------------
  // Text fields
  // ---------------------------------------------------------------------

  /** The text without surrounding white space, unless it is missing or too long. */
  function Clean(value: string, required: bool, limit: nat): Option<string> {
    var s := Strip(value);
    if (required && s == "") || |s| > limit then None else Some(s)
  }

  predicate IdChar(c: char) {
    'A' <= c <= 'Z' || 'a' <= c <= 'z' || '0' <= c <= '9' || c in "._:-"
  }

  predicate ValidId(id: Id) {
    match id
    case Given(text) => 1 <= |text| <= 100 && forall i | 0 <= i < |text| :: IdChar(text[i])
    case Digest(_, _) => true
  }

  function CleanId(id: Id, limit: nat): Option<Id> {
    match id
    case Given(text) => (match Clean(text, true, limit) case Some(s) => Some(Given(s)) case None => None)
    case Digest(_, _) => Some(id)
  }

  /** Position codes: latin letters, digits, dot, dash and underscore. */
  predicate ValidCode(code: Id) {
    match code
    case Given(text) => 1 <= |text| <= 80 && forall i | 0 <= i < |text| :: IdChar(text[i]) && text[i] != ':'
    case Digest(_, _) => true
  }

  /** Codes are unique without regard to case. */
  function CodeKey(code: Id): Id {
    match code
    case Given(text) => Given(Fold(text))
    case Digest(_, _) => code
  }

  predicate ValidPermission(key: string) {
    && 2 <= |key| <= 100
    && 'a' <= key[0] <= 'z'
    && forall i | 0 <= i < |key| :: 'a' <= key[i] <= 'z' || '0' <= key[i] <= '9' || key[i] in "_.-"
  }

  const PERMISSION_KEYS := {
    "control.manage", "planning.manage", "organization.manage", "reports.full", "seller.workspace",
    "warehouse.assistant.view", "warehouse.order.suggest", "warehouse.order.draft", "warehouse.data.refresh"}

  const DIRECTORY_KEYS := {
    "personnel_code", "personnel_id", "full_name", "first_name", "last_name", "status_title", "personnel_type",
    "mobile"}

  const PAGE_SIZES := {50, 100, 500, 1000}
  const STATUS_FILTERS := {"all", "active", "inactive"}
  const BRANCH_CODES := {"alborz", "tehran", "qazvin", "rasht", "headquarters"}
  const MAX_ROSTER := 100_000
  const MAX_PERSONNEL_ID := 2_147_483_647

  // ---------------------------------------------------------------------
  // Operations
  // ---------------------------------------------------------------------

  /** `Unsupported` also stands for payloads that do not have the expected JSON types. */
  datatype Action =
    | UpsertPosition(code: Id, title: string, description: string, active: Option<bool>)
    | ReplacePermissions(keys: seq<string>)
    | UpsertPersonnel(personnelCode: string, fullName: string, position: Id, username: string,
                      phone: string, branch: string, salesLine: string, isActive: Option<bool>)
    | UpsertView(name: string, isDefault: Option<bool>, pageSize: int, statusFilter: string,
                 columns: seq<string>, filters: seq<(string, string)>)
    | ReplaceRoster(personnelIds: seq<int>)
    | DeletePosition
    | DeletePersonnel
    | DeleteView
    | Unsupported

  datatype Operation = Operation(id: string, entityId: Id, baseRevision: int, action: Action)

  function OrTrue(b: Option<bool>): bool {
    match b case Some(v) => v case None => true
  }

  // ---------------------------------------------------------------------
  // Positions
  // ---------------------------------------------------------------------

  /** Another row than `own` already has this code. */
  predicate CodeTaken(positions: map<Id, Position>, code: Id, own: Option<Id>) {
    exists id | id in positions :: Some(id) != own && CodeKey(positions[id].code) == CodeKey(code)
  }

  /** The accounts linked to personnel of a position, deleted personnel included. */
  predicate LinkedTo(personnel: map<Id, Person>, position: Id, account: string) {
    exists id | id in personnel :: personnel[id].position == position
      && personnel[id].username.Some? && Fold(personnel[id].username.value) == account
  }

  function WithRoleOf(t: Tables, position: Id, title: string): map<string, User> {
    map u | u in t.users :: if LinkedTo(t.personnel, position, u) then t.users[u].(role := title) else t.users[u]
  }

  function HandleUpsertPosition(t: Tables, op: Operation): Result<(Tables, nat), Failure>
    requires op.action.UpsertPosition?
  {
    var a := op.action;
    var code, title, description := CleanId(a.code, 80), Clean(a.title, true, 200), Clean(a.description, false, 1000);
    if code.None? || !ValidCode(code.value) || title.None? || description.None? then Err(Invalid)
    else if op.entityId !in t.positions then
      if op.baseRevision != 0 then Err(Conflict)
      else if CodeTaken(t.positions, code.value, None) then Err(Invalid)
      else
        var row := Position(code.value, title.value, description.value, OrTrue(a.active), 1, false);
        Ok((t.(positions := t.positions[op.entityId := row]), 1))
    else
      var row := t.positions[op.entityId];
      if row.revision != op.baseRevision then Err(Conflict)
      else if CodeTaken(t.positions, code.value, Some(op.entityId)) then Err(Invalid)
      else
        var next := Position(code.value, title.value, description.value, OrTrue(a.active), row.revision + 1, false);
        Ok((t.(positions := t.positions[op.entityId := next], users := WithRoleOf(t, op.entityId, title.value)),
            row.revision + 1))
  }

  function CleanKeys(keys: seq<string>): Option<set<string>> {
    if keys == [] then Some({})
    else
      match (CleanKeys(keys[1..]), Clean(keys[0], true, 100))
      case (Some(rest), Some(k)) => Some(rest + {k})
      case _ => None
  }

  function HandleReplacePermissions(t: Tables, op: Operation): Result<(Tables, nat), Failure>
    requires op.action.ReplacePermissions?
  {
    if op.entityId !in t.positions || t.positions[op.entityId].deleted then Err(Invalid)
    else
      var row := t.positions[op.entityId];
      if row.revision != op.baseRevision then Err(Conflict)
      else if |op.action.keys| > 100 then Err(Invalid)
      else
        var keys := CleanKeys(op.action.keys);
        if || keys.None?
           || (exists k | k in keys.value :: !ValidPermission(k))
           || !(keys.value <= PERMISSION_KEYS)
        then Err(Invalid)
        else
          var kept := set l | l in t.links && l.0 != op.entityId;
          var added := set k | k in keys.value :: (op.entityId, k);
          Ok((t.(links := kept + added, positions := t.positions[op.entityId := row.(revision := row.revision + 1)]),
              row.revision + 1))
  }

  function HandleDeletePosition(t: Tables, op: Operation): Result<(Tables, nat), Failure> {
    if op.entityId !in t.positions then Err(Invalid)
    else
      var row := t.positions[op.entityId];
      if row.revision != op.baseRevision then Err(Conflict)
      else if exists id | id in t.personnel :: t.personnel[id].position == op.entityId && !t.personnel[id].deleted
      then Err(Invalid)
      else
        Ok((t.(positions := t.positions[
                 op.entityId := row.(active := false, revision := row.revision + 1, deleted := true)]),
            row.revision + 1))
  }

  // ---------------------------------------------------------------------
  // Personnel
  // ---------------------------------------------------------------------

  predicate PersonnelCodeTaken(personnel: map<Id, Person>, code: string, own: Option<Id>) {
    exists id | id in personnel :: Some(id) != own && Fold(personnel[id].code) == Fold(code)
  }

  predicate UsernameTaken(personnel: map<Id, Person>, username: string, own: Option<Id>) {
    exists id | id in personnel :: Some(id) != own
      && personnel[id].username.Some? && Fold(personnel[id].username.value) == Fold(username)
  }

  datatype PersonFields = PersonFields(code: string, fullName: string, position: Id, username: string,
                                       phone: string, branch: string, salesLine: string, active: bool)

  function CleanPerson(a: Action): Option<PersonFields>
    requires a.UpsertPersonnel?
  {
    match (Clean(a.personnelCode, true, 80), Clean(a.fullName, true, 200), CleanId(a.position, 100),
           Clean(a.username, false, 100), Clean(a.phone, false, 30), Clean(a.branch, false, 200),
           Clean(a.salesLine, false, 200))
    case (Some(code), Some(name), Some(position), Some(username), Some(phone), Some(branch), Some(line)) =>
      Some(PersonFields(code, name, position, username, phone, branch, line, OrTrue(a.isActive)))
    case _ => None
  }

  /** The account takes over the fields of its personnel record and the title of the position. */
  function WithPerson(users: map<string, User>, username: Option<string>, f: PersonFields,
      title: string): map<string, User> {
    if username.None? || Fold(username.value) !in users then users
    else
      var key := Fold(username.value);
      users[key := users[key].(fullName := f.fullName, role := title, branch := f.branch,
                               salesLine := f.salesLine, phone := f.phone, active := f.active)]
  }

  function HandleUpsertPersonnel(t: Tables, op: Operation): Result<(Tables, nat), Failure>
    requires op.action.UpsertPersonnel?
  {
    var fields := CleanPerson(op.action);
    if fields.None? then Err(Invalid)
    else
      var f := fields.value;
      if f.position !in t.positions || t.positions[f.position].deleted then Err(Invalid)
      else if f.username != "" && Fold(f.username) !in t.users then Err(Invalid)
      else
        var title := t.positions[f.position].title;
        var username := if f.username == "" then None else Some(t.users[Fold(f.username)].name);
        var isNew := op.entityId !in t.personnel;
        if isNew && op.baseRevision != 0 then Err(Conflict)
        else if !isNew && t.personnel[op.entityId].revision != op.baseRevision then Err(Conflict)
        else if !isNew && t.personnel[op.entityId].username.Some? && t.personnel[op.entityId].username.value != ""
                && username != t.personnel[op.entityId].username then Err(Invalid)
        else if PersonnelCodeTaken(t.personnel, f.code, Some(op.entityId)) then Err(Invalid)
        else if username.Some? && UsernameTaken(t.personnel, username.value, Some(op.entityId)) then Err(Invalid)
        else
          var revision := if isNew then 1 else t.personnel[op.entityId].revision + 1;
          var row :=
            Person(f.code, f.fullName, f.position, username, f.phone, f.branch, f.salesLine, f.active, revision, false);
          Ok((t.(personnel := t.personnel[op.entityId := row],
                 users := WithPerson(t.users, username, f, title)), revision))
  }

  /** Deactivates the account and revokes its sessions and credentials. */
  function Revoked(users: map<string, User>, username: Option<string>): map<string, User> {
    if username.None? || username.value == "" || Fold(username.value) !in users then users
    else
      var u := users[Fold(username.value)];
      users[Fold(username.value) := u.(active := false, revocations := u.revocations + 1)]
  }

  function HandleDeletePersonnel(t: Tables, user: string, op: Operation): Result<(Tables, nat), Failure> {
    if op.entityId !in t.personnel then Err(Invalid)
    else
      var row := t.personnel[op.entityId];
      if row.revision != op.baseRevision then Err(Conflict)
      else if Fold(match row.username case Some(u) => u case None => "") == Fold(user) then Err(Invalid)
      else
        Ok((t.(personnel := t.personnel[
                 op.entityId := row.(active := false, revision := row.revision + 1, deleted := true)],
               users := Revoked(t.users, row.username)),
            row.revision + 1))
  }

  // ---------------------------------------------------------------------
  // Saved views
  // ---------------------------------------------------------------------

  function CleanColumns(columns: seq<string>, seen: seq<string>): Option<seq<string>>
    decreases |columns|
  {
    if columns == [] then Some(seen)
    else
      match Clean(columns[0], true, 80)
      case None => None
      case Some(k) =>
        if k !in DIRECTORY_KEYS then None
        else CleanColumns(columns[1..], if k in seen then seen else seen + [k])
  }

  function CleanFilters(filters: seq<(string, string)>, kept: map<string, string>): Option<map<string, string>>
    decreases |filters|
  {
    if filters == [] then Some(kept)
    else
      match (Clean(filters[0].0, true, 80), Clean(filters[0].1, false, 200))
      case (Some(k), Some(v)) =>
        if k !in DIRECTORY_KEYS then None
        else CleanFilters(filters[1..], if v != "" then kept[k := v] else kept)
      case _ => None
  }

  function CleanView(a: Action): Option<ViewSettings>
    requires a.UpsertView?
  {
    var status := Clean(if a.statusFilter == "" then "all" else a.statusFilter, true, 20);
    if a.pageSize !in PAGE_SIZES || status.None? || status.value !in STATUS_FILTERS then None
    else if !(1 <= |a.columns| <= |DIRECTORY_KEYS|) || |a.filters| > |DIRECTORY_KEYS| then None
    else
      match (Clean(a.name, true, 100), CleanColumns(a.columns, []), CleanFilters(a.filters, map[]))
      case (Some(name), Some(columns), Some(filters)) =>
        Some(ViewSettings(name, a.isDefault == Some(true), a.pageSize, status.value, columns, filters))
      case _ => None
  }

  function FindView(views: seq<View>, id: Id): Option<nat> {
    if views == [] then None
    else if views[0].id == id then Some(0)
    else match FindView(views[1..], id) case Some(i) => Some(i + 1) case None => None
  }

  predicate Owns(user: string, v: View) {
    Fold(v.username) == Fold(user)
  }

  /** A deleted view of the user with this name, to be used again. */
  function FindRecyclable(views: seq<View>, user: string, name: string): Option<nat> {
    if views == [] then None
    else if Owns(user, views[0]) && Fold(views[0].settings.name) == Fold(name) && views[0].deleted then Some(0)
    else match FindRecyclable(views[1..], user, name) case Some(i) => Some(i + 1) case None => None
  }

  function ClearedDefaults(views: seq<View>, user: string, except: Id): seq<View> {
    seq(|views|, i requires 0 <= i < |views| =>
      if Owns(user, views[i]) && views[i].id != except && views[i].settings.isDefault && !views[i].deleted
      then views[i].(settings := views[i].settings.(isDefault := false), revision := views[i].revision + 1)
      else views[i])
  }

  /** The unique index on the names of live views, looked at from row `i`. */
  predicate NameTaken(views: seq<View>, i: nat)
    requires i < |views|
  {
    exists j | 0 <= j < |views| :: j != i && !views[j].deleted
      && Fold(views[j].username) == Fold(views[i].username)
         && Fold(views[j].settings.name) == Fold(views[i].settings.name)
  }

  function StoreView(t: Tables, views: seq<View>, i: nat): Result<(Tables, nat), Failure>
    requires i < |views|
  {
    if NameTaken(views, i) then Err(Invalid) else Ok((t.(views := views), views[i].revision))
  }

  lemma {:induction false} FoundViews(views: seq<View>, id: Id, user: string, name: string)
    ensures var r := FindView(views, id);
            r.Some? ==> r.value < |views| && views[r.value].id == id
    ensures var r := FindView(views, id);
            r.None? ==> forall i | 0 <= i < |views| :: views[i].id != id
    ensures var r := FindRecyclable(views, user, name);
            r.Some? ==> r.value < |views| && Owns(user, views[r.value]) && views[r.value].deleted
  {
    if views != [] {
      FoundViews(views[1..], id, user, name);
    }
  }

  function HandleUpsertView(t: Tables, user: string, op: Operation): Result<(Tables, nat), Failure>
    requires op.action.UpsertView?
  {
    var settings := CleanView(op.action);
    if settings.None? then Err(Invalid)
    else
      var v := settings.value;
      FoundViews(t.views, op.entityId, user, v.name);
      var row, recyclable := FindView(t.views, op.entityId), FindRecyclable(t.views, user, v.name);
      if row.Some? && !Owns(user, t.views[row.value]) then Err(Invalid)
      else
        var views := if v.isDefault then ClearedDefaults(t.views, user, op.entityId) else t.views;
        if row.None? && op.baseRevision != 0 then Err(Conflict)
        else if row.None? && recyclable.Some? then
          var i := recyclable.value;
          StoreView(t, views[i := View(op.entityId, views[i].username, v, t.views[i].revision + 1, false)], i)
        else if row.None? then
          StoreView(t, views + [View(op.entityId, user, v, 1, false)], |views|)
        else
          var i := row.value;
          if t.views[i].revision != op.baseRevision then Err(Conflict)
          else StoreView(t, views[i := View(op.entityId, views[i].username, v, t.views[i].revision + 1, false)], i)
  }

  function HandleDeleteView(t: Tables, user: string, op: Operation): Result<(Tables, nat), Failure> {
    FoundViews(t.views, op.entityId, user, "");
    var row := FindView(t.views, op.entityId);
    if row.None? || !Owns(user, t.views[row.value]) then Err(Invalid)
    else
      var v := t.views[row.value];
      if v.revision != op.baseRevision then Err(Conflict)
      else
        var gone := v.(settings := v.settings.(isDefault := false), revision := v.revision + 1, deleted := true);
        Ok((t.(views := t.views[row.value := gone]), v.revision + 1))
  }

  // ---------------------------------------------------------------------
  // Branch rosters
  // ---------------------------------------------------------------------

  predicate ValidPersonnelIds(ids: seq<int>) {
    forall i | 0 <= i < |ids| :: 0 <= ids[i] <= MAX_PERSONNEL_ID
  }

  function Elements(ids: seq<int>): set<int> {
    set p | p in ids
  }

  /** Exactly these people are assigned to the branch; everybody else stays where they were. */
  function Reassigned(assignments: map<int, string>, branch: string, ids: set<int>): map<int, string> {
    map p | p in assignments.Keys + ids && (p in ids || assignments[p] != branch) ::
      if p in ids then branch else assignments[p]
  }

  function HandleReplaceRoster(t: Tables, op: Operation): Result<(Tables, nat), Failure>
    requires op.action.ReplaceRoster?
  {
    var ids := op.action.personnelIds;
    if !op.entityId.Given? || op.entityId.text !in BRANCH_CODES then Err(Invalid)
    else if |ids| > MAX_ROSTER || !ValidPersonnelIds(ids) then Err(Invalid)
    else if t.branchRevision != op.baseRevision then Err(Conflict)
    else
      Ok((t.(assignments := Reassigned(t.assignments, op.entityId.text, Elements(ids)),
             branchRevision := t.branchRevision + 1),
          t.branchRevision + 1))
  }

  /** The new tables and the revision that is reported, or the reason why nothing happens. */
  function Handle(t: Tables, user: string, op: Operation): Result<(Tables, nat), Failure> {
    match op.action
    case UpsertPosition(_, _, _, _) => HandleUpsertPosition(t, op)
    case ReplacePermissions(_) => HandleReplacePermissions(t, op)
    case UpsertPersonnel(_, _, _, _, _, _, _, _) => HandleUpsertPersonnel(t, op)
    case UpsertView(_, _, _, _, _, _) => HandleUpsertView(t, user, op)
    case ReplaceRoster(_) => HandleReplaceRoster(t, op)
    case DeletePosition => HandleDeletePosition(t, op)
    case DeletePersonnel => HandleDeletePersonnel(t, user, op)
    case DeleteView => HandleDeleteView(t, user, op)
    case Unsupported => Err(Invalid)
  }

  // ---------------------------------------------------------------------
  // Seeding
  // ---------------------------------------------------------------------

  const NO_ROLE := "بدون سمت"
  const SELLER_ROLE := "فروشنده"
  const ADMIN_ROLES := {"admin", "administrator", "مدیر", "مدیر سیستم", "مدیر سامانه"}

  function RoleTitle(u: User): string {
    if Strip(u.role) == "" then NO_ROLE else Strip(u.role)
  }

  function DefaultPermissions(u: User): set<string> {
    if Fold(u.name) == "admin" || Fold(RoleTitle(u)) in ADMIN_ROLES
    then {"control.manage", "planning.manage", "organization.manage", "reports.full"}
    else if Fold(RoleTitle(u)) == SELLER_ROLE then {"seller.workspace"}
    else {}
  }

  function LegacyPosition(u: User): Id {
    Digest("position", Fold(RoleTitle(u)))
  }

  function LegacyCode(u: User): Id {
    Digest("legacy", Fold(RoleTitle(u)))
  }

  function SeededPersonId(u: User): Id {
    match u.personnelId
    case Some(n) => Given("personnel-" + Decimal(n))
    case None => Digest("user", Fold(u.name))
  }

  function SeededPerson(u: User): Person {
    Person(match u.personnelId case Some(n) => Decimal(n) case None => u.name,
           if u.fullName == "" then u.name else u.fullName,
           LegacyPosition(u), Some(u.name), u.phone, u.branch, u.salesLine, u.active, 1, false)
  }

  /** An insert that gives way to any row with the same identifier or code. */
  function SeedPosition(t: Tables, u: User): Tables {
    if LegacyPosition(u) in t.positions || CodeTaken(t.positions, LegacyCode(u), None) then t
    else t.(positions := t.positions[LegacyPosition(u) := Position(LegacyCode(u), RoleTitle(u), "", true, 1, false)])
  }

  /** Links need their position: this fails when its code was taken by another one. */
  function SeedLinks(t: Tables, u: User): Result<Tables, Failure> {
    if DefaultPermissions(u) == {} then Ok(t)
    else if LegacyPosition(u) !in t.positions then Err(Invalid)
    else Ok(t.(links := t.links + set k | k in DefaultPermissions(u) :: (LegacyPosition(u), k)))
  }

  predicate PersonExists(t: Tables, u: User) {
    || SeededPersonId(u) in t.personnel
    || PersonnelCodeTaken(t.personnel, SeededPerson(u).code, None)
    || UsernameTaken(t.personnel, u.name, None)
  }

  function SeedPerson(t: Tables, u: User): Result<Tables, Failure> {
    if PersonExists(t, u) then Ok(t)
    else if LegacyPosition(u) !in t.positions then Err(Invalid)
    else Ok(t.(personnel := t.personnel[SeededPersonId(u) := SeededPerson(u)]))
  }

  function SeedUser(t: Tables, account: string): Result<Tables, Failure> {
    if account !in t.users then Ok(t)
    else
      var u := t.users[account];
      match SeedLinks(SeedPosition(t, u), u)
      case Err(e) => Err(e)
      case Ok(t2) => SeedPerson(t2, u)
  }

  function SeedUsers(t: Tables, accounts: seq<string>): Result<Tables, Failure>
    decreases |accounts|
  {
    if accounts == [] then Ok(t)
    else
      match SeedUser(t, accounts[0])
      case Err(e) => Err(e)
      case Ok(t2) => SeedUsers(t2, accounts[1..])
  }

  function Seed(t: Tables): Result<Tables, Failure> {
    SeedUsers(t, t.accounts)
  }

  // ---------------------------------------------------------------------
  // Delivery of an operation
  // ---------------------------------------------------------------------

  datatype Audited = Audited(user: string, op: Operation)

  datatype Response = Response(entityId: Id, revision: nat)

  datatype Console = Console(tables: Tables, receipts: map<string, Response>, audit: seq<Audited>)

  datatype Status = Applied(response: Response) | Replayed(response: Response) | Conflicted | Rejected

  predicate ValidOperation(op: Operation) {
    ValidId(Given(op.id)) && ValidId(op.entityId) && op.baseRevision >= 0
  }

  /** One transaction: a refused operation takes back the seeding as well. */
  function Deliver(c: Console, user: string, op: Operation): (Console, Status) {
    if !ValidOperation(op) then (c, Rejected)
    else
      match Seed(c.tables)
      case Err(_) => (c, Rejected)
      case Ok(seeded) =>
        if op.id in c.receipts then (c.(tables := seeded), Replayed(c.receipts[op.id]))
        else
          match Handle(seeded, user, op)
          case Err(Conflict) => (c, Conflicted)
          case Err(Invalid) => (c, Rejected)
          case Ok((tables, revision)) =>
            var response := Response(op.entityId, revision);
            (Console(tables, c.receipts[op.id := response], c.audit + [Audited(user, op)]), Applied(response))
  }
}
