/**
 What every handler keeps: live personnel point at live positions, a linked
 account has the title of that position as its role, and each user has at most
 one live default view and no two live views of the same name.
 */
module ControlSync {
  import opened Prelude
  import opened Control
  import opened ControlRuns

  // ---------------------------------------------------------------------
  // Personnel, positions and accounts
  // ---------------------------------------------------------------------

  /** Accounts are kept under the folded name. */
  predicate Keyed(t: Tables) {
    forall k | k in t.users :: Fold(t.users[k].name) == k
  }

  predicate HasAccount(t: Tables, p: Person) {
    p.username.Some? && Fold(p.username.value) in t.users
  }

  /** No account is linked to two personnel records, deleted ones included. */
  ghost predicate OneRecordPerAccount(t: Tables) {
    forall i, j | i in t.personnel && j in t.personnel && t.personnel[i].username.Some? && t.personnel[j].username.Some?
      && Fold(t.personnel[i].username.value) == Fold(t.personnel[j].username.value) :: i == j
  }

  /** The account carries what its personnel record says. */
  predicate Mirrors(u: User, p: Person) {
    && u.fullName == p.fullName && u.branch == p.branch && u.salesLine == p.salesLine
    && u.phone == p.phone && u.active == p.active
  }

  predicate PersonInSync(t: Tables, p: Person) {
    !p.deleted ==>
      && p.position in t.positions
      && !t.positions[p.position].deleted
      && (HasAccount(t, p) ==>
        && t.users[Fold(p.username.value)].role == t.positions[p.position].title
        && Mirrors(t.users[Fold(p.username.value)], p))
  }

  ghost predicate InSync(t: Tables) {
    && Keyed(t)
    && OneRecordPerAccount(t)
    && forall id | id in t.personnel :: PersonInSync(t, t.personnel[id])
  }

  lemma OtherPositionsAreNotLinked(t: Tables, id: Id, position: Id)
    requires OneRecordPerAccount(t)
    requires id in t.personnel && t.personnel[id].username.Some? && t.personnel[id].position != position
    ensures !LinkedTo(t.personnel, position, Fold(t.personnel[id].username.value))
  {
  }

  lemma UpsertPositionKeepsSync(t: Tables, op: Operation)
    requires InSync(t)
    requires op.action.UpsertPosition? && HandleUpsertPosition(t, op).Ok?
    ensures InSync(HandleUpsertPosition(t, op).value.0)
  {
    hide CodeTaken, CleanId, Clean, ValidCode, Fold;
    var next := HandleUpsertPosition(t, op).value.0;
    forall id | id in next.personnel ensures PersonInSync(next, next.personnel[id]) {
      var p := t.personnel[id];
      assert PersonInSync(t, p);
      if !p.deleted && HasAccount(t, p) {
        var k := Fold(p.username.value);
        if p.position == op.entityId {
          assert LinkedTo(t.personnel, op.entityId, k);
        } else {
          OtherPositionsAreNotLinked(t, id, op.entityId);
        }
      }
    }
  }

  lemma ReplacePermissionsKeepsSync(t: Tables, op: Operation)
    requires InSync(t)
    requires op.action.ReplacePermissions? && HandleReplacePermissions(t, op).Ok?
    ensures InSync(HandleReplacePermissions(t, op).value.0)
  {
    hide CleanKeys, Fold;
    var next := HandleReplacePermissions(t, op).value.0;
    forall id | id in next.personnel ensures PersonInSync(next, next.personnel[id]) {
      assert PersonInSync(t, t.personnel[id]);
    }
  }

  lemma DeletePositionKeepsSync(t: Tables, op: Operation)
    requires InSync(t)
    requires HandleDeletePosition(t, op).Ok?
    ensures InSync(HandleDeletePosition(t, op).value.0)
  {
    hide Fold;
    var next := HandleDeletePosition(t, op).value.0;
    forall id | id in next.personnel ensures PersonInSync(next, next.personnel[id]) {
      assert PersonInSync(t, t.personnel[id]);
    }
  }

  lemma UpsertPersonnelKeepsSync(t: Tables, op: Operation)
    requires InSync(t)
    requires op.action.UpsertPersonnel? && HandleUpsertPersonnel(t, op).Ok?
    ensures InSync(HandleUpsertPersonnel(t, op).value.0)
  {
    hide CleanPerson, PersonnelCodeTaken, Fold;
    var next := HandleUpsertPersonnel(t, op).value.0;
    var row := next.personnel[op.entityId];
    forall id | id in next.personnel ensures PersonInSync(next, next.personnel[id]) {
      if id != op.entityId {
        assert PersonInSync(t, t.personnel[id]);
      }
    }
  }

  lemma DeletePersonnelKeepsSync(t: Tables, user: string, op: Operation)
    requires InSync(t)
    requires HandleDeletePersonnel(t, user, op).Ok?
    ensures InSync(HandleDeletePersonnel(t, user, op).value.0)
  {
    hide Fold;
    var next := HandleDeletePersonnel(t, user, op).value.0;
    forall id | id in next.personnel ensures PersonInSync(next, next.personnel[id]) {
      assert PersonInSync(t, t.personnel[id]);
    }
  }

  /** Every applied operation keeps personnel, positions and account roles together. */
  lemma HandlersKeepSync(t: Tables, user: string, op: Operation)
    requires InSync(t)
    requires Handle(t, user, op).Ok?
    ensures InSync(Handle(t, user, op).value.0)
  {
    hide InSync, HandleUpsertPosition, HandleReplacePermissions, HandleUpsertPersonnel, HandleDeletePosition,
      HandleDeletePersonnel, CleanView, FindView, FindRecyclable, ClearedDefaults, NameTaken, Reassigned, Fold;
    match op.action
    case UpsertPosition(_, _, _, _) => UpsertPositionKeepsSync(t, op);
    case ReplacePermissions(_) => ReplacePermissionsKeepsSync(t, op);
    case UpsertPersonnel(_, _, _, _, _, _, _, _) => UpsertPersonnelKeepsSync(t, op);
    case DeletePosition => DeletePositionKeepsSync(t, op);
    case DeletePersonnel => DeletePersonnelKeepsSync(t, user, op);
    case UpsertView(_, _, _, _, _, _) => OtherTablesKeepSync(t, Handle(t, user, op).value.0);
    case DeleteView => OtherTablesKeepSync(t, Handle(t, user, op).value.0);
    case ReplaceRoster(_) => OtherTablesKeepSync(t, Handle(t, user, op).value.0);
    case Unsupported => assert false;
  }

  lemma OtherTablesKeepSync(t: Tables, next: Tables)
    requires InSync(t)
    requires next.users == t.users && next.positions == t.positions && next.personnel == t.personnel
    ensures InSync(next)
  {
    forall id | id in next.personnel ensures PersonInSync(next, next.personnel[id]) {
      assert PersonInSync(t, t.personnel[id]);
    }
  }

  /** Seeding one account keeps everything together exactly when it adds no personnel record, or
      adds one under a live position whose title is the account's role to the letter, and the
      account has a full name to go with it. */
  lemma SeedingKeepsSyncExactlyWhen(t: Tables, account: string)
    requires InSync(t) && account in t.users
    requires SeedUser(t, account).Ok?
    ensures InSync(SeedUser(t, account).value) <==>
              var u := t.users[account];
              var p := SeedPosition(t, u).positions;
              PersonExists(t, u)
              || (!p[LegacyPosition(u)].deleted
                  && p[LegacyPosition(u)].title == u.role && (u.fullName != "" || u.name == ""))
  {
    hide Fold, DefaultPermissions, Decimal, RoleTitle, LegacyCode, CodeTaken, PersonExists, InSync,
      SeededPerson, SeededPersonId;
    var u := t.users[account];
    var t1 := SeedPosition(t, u);
    var t2 := SeedLinks(t1, u).value;
    NewPositionsKeepSync(t, t2, u);
    SamePersonExists(t, t2, u);
    if !PersonExists(t, u) {
      NewPersonKeepsSyncExactlyWhen(t2, account);
    }
  }

  lemma SamePersonExists(a: Tables, b: Tables, u: User)
    requires a.personnel == b.personnel
    ensures PersonExists(a, u) == PersonExists(b, u)
  {
  }

  lemma NewPositionsKeepSync(t: Tables, next: Tables, u: User)
    requires InSync(t)
    requires next.users == t.users && next.personnel == t.personnel && next.positions == SeedPosition(t, u).positions
    ensures InSync(next)
  {
    hide Fold, RoleTitle, LegacyCode, CodeTaken;
    forall id | id in next.personnel ensures PersonInSync(next, next.personnel[id]) {
      assert PersonInSync(t, t.personnel[id]);
    }
  }

  lemma NewPersonKeepsSyncExactlyWhen(t: Tables, account: string)
    requires InSync(t) && account in t.users
    requires !PersonExists(t, t.users[account]) && LegacyPosition(t.users[account]) in t.positions
    ensures var u := t.users[account];
            var row := t.positions[LegacyPosition(u)];
            InSync(SeedPerson(t, u).value)
            <==> !row.deleted && row.title == u.role && (u.fullName != "" || u.name == "")
  {
    hide Fold, Decimal, RoleTitle, PersonnelCodeTaken, SeededPersonId;
    var u := t.users[account];
    var next := SeedPerson(t, u).value;
    forall id | id in t.personnel ensures PersonInSync(next, t.personnel[id]) {
      assert PersonInSync(t, t.personnel[id]);
    }
    var row := t.positions[LegacyPosition(u)];
    assert next.personnel[SeededPersonId(u)] == SeededPerson(u);
    assert forall id | id in next.personnel :: id == SeededPersonId(u) || next.personnel[id] == t.personnel[id];
    assert OneRecordPerAccount(next);
    assert PersonInSync(next, SeededPerson(u))
           <==> !row.deleted && row.title == u.role && (u.fullName != "" || u.name == "");
  }

  /** Every account that seeding looks at is linked to a personnel record. */
  ghost predicate AllLinked(t: Tables) {
    forall a | a in t.accounts && a in t.users :: LinkedAccount(t, a)
  }

  predicate LinkedAccount(t: Tables, account: string) {
    exists id | id in t.personnel :: t.personnel[id].username.Some? && t.personnel[id].username.value != ""
      && Fold(t.personnel[id].username.value) == account
  }

  /** Links are for life: once an account is linked, no operation takes its record away. */
  lemma HandlersKeepLinks(t: Tables, user: string, op: Operation, account: string)
    requires LinkedAccount(t, account)
    requires Handle(t, user, op).Ok?
    ensures LinkedAccount(Handle(t, user, op).value.0, account)
  {
    hide CodeTaken, CleanId, Clean, ValidCode, WithRoleOf, CleanPerson, CleanKeys, PersonnelCodeTaken, UsernameTaken,
      WithPerson, Revoked, CleanView, FindView, FindRecyclable, ClearedDefaults, NameTaken, Reassigned, Fold;
    var id :| id in t.personnel && t.personnel[id].username.Some? && t.personnel[id].username.value != ""
      && Fold(t.personnel[id].username.value) == account;
    var next := Handle(t, user, op).value.0;
    assert id in next.personnel && next.personnel[id].username == t.personnel[id].username;
  }

  lemma HandlersKeepAccounts(t: Tables, user: string, op: Operation)
    requires Handle(t, user, op).Ok?
    ensures var next := Handle(t, user, op).value.0; next.accounts == t.accounts && next.users.Keys == t.users.Keys
  {
    hide CodeTaken, CleanId, Clean, ValidCode, LinkedTo, CleanPerson, CleanKeys, PersonnelCodeTaken, UsernameTaken,
      CleanView, FindView, FindRecyclable, ClearedDefaults, NameTaken, Reassigned, Fold;
  }

  lemma LinkedAccountIsSeeded(t: Tables, account: string)
    requires InSync(t) && account in t.users
    requires LinkedAccount(t, account)
    requires SeedUser(t, account).Ok?
    ensures InSync(SeedUser(t, account).value)
  {
    hide InSync;
    SeedingKeepsSyncExactlyWhen(t, account);
    AccountHasRecord(t, account);
  }

  lemma AccountHasRecord(t: Tables, account: string)
    requires InSync(t) && account in t.users
    requires LinkedAccount(t, account)
    ensures PersonExists(t, t.users[account])
  {
    assert UsernameTaken(t.personnel, t.users[account].name, None);
  }

  lemma {:induction false} SeedingKeepsSync(t: Tables, accounts: seq<string>)
    requires InSync(t)
    requires forall a | a in accounts && a in t.users :: LinkedAccount(t, a)
    requires SeedUsers(t, accounts).Ok?
    ensures InSync(SeedUsers(t, accounts).value)
    decreases |accounts|
  {
    hide InSync, SeedUser;
    if accounts != [] {
      SeedUserSettles(t, accounts[0]);
      var next := SeedUser(t, accounts[0]).value;
      if accounts[0] in t.users {
        LinkedAccountIsSeeded(t, accounts[0]);
      } else {
        assert next == t by { SeedUnknown(t, accounts[0]); }
      }
      SeedingKeepsSync(next, accounts[1..]);
    }
  }

  lemma SeedUnknown(t: Tables, account: string)
    requires account !in t.users
    ensures SeedUser(t, account) == Ok(t)
  {
  }

  /** A delivery leaves the console as it was, or leaves what it does to the seeded tables. */
  lemma DeliveryAfterSeeding(c: Console, d: Audited)
    requires Settle(c).Ok? && InSync(Settle(c).value.tables) && AllLinked(Settle(c).value.tables)
    ensures Deliver(c, d.user, d.op).0 == c
         || (InSync(Deliver(c, d.user, d.op).0.tables) && AllLinked(Deliver(c, d.user, d.op).0.tables))
  {
    hide InSync, Deliver, SeedUsers, Handle;
    DeliveryCases(c, d);
    var seeded := Settle(c).value.tables;
    var (next, status) := Deliver(c, d.user, d.op);
    if status.Applied? {
      HandlersKeepSync(seeded, d.user, d.op);
      HandlersKeepAccounts(seeded, d.user, d.op);
      forall a | a in next.tables.accounts && a in next.tables.users ensures LinkedAccount(next.tables, a) {
        assert a in seeded.users.Keys;
        HandlersKeepLinks(seeded, d.user, d.op, a);
      }
    }
  }

  lemma DeliveryKeepsSync(c: Console, d: Audited)
    requires InSync(c.tables) && AllLinked(c.tables)
    ensures InSync(Deliver(c, d.user, d.op).0.tables) && AllLinked(Deliver(c, d.user, d.op).0.tables)
  {
    hide InSync, Deliver, SeedUsers, Handle;
    DeliveryCases(c, d);
    if Settle(c).Ok? {
      SeedingKeepsSync(c.tables, c.tables.accounts);
      SeedingTwiceIsSeedingOnce(c.tables);
      assert AllLinked(Settle(c).value.tables);
      DeliveryAfterSeeding(c, d);
    }
  }

  /** Once every account is linked, no run of deliveries separates them again. */
  lemma {:induction false} RunsKeepSync(c: Console, deliveries: seq<Audited>)
    requires InSync(c.tables) && AllLinked(c.tables)
    ensures InSync(Run(c, deliveries).tables) && AllLinked(Run(c, deliveries).tables)
  {
    hide InSync, AllLinked, Deliver;
    if deliveries != [] {
      var n := |deliveries| - 1;
      RunsKeepSync(c, deliveries[..n]);
      DeliveryKeepsSync(Run(c, deliveries[..n]), deliveries[n]);
    }
  }

  // ---------------------------------------------------------------------
  // The first seeding
  // ---------------------------------------------------------------------

  /** Accounts on a console without rows: every one has a name, a full name and a trimmed role, roles
      that differ in letter case only do not occur, and no two accounts ask for the same record. */
  ghost predicate Presentable(t: Tables) {
    && Keyed(t) && SeedsApart(t)
    && t.positions == map[] && t.personnel == map[]
    && (forall a | a in t.accounts :: a in t.users)
    && (forall a | a in t.accounts ::
          t.users[a].name != "" && t.users[a].fullName != "" && RoleTitle(t.users[a]) == t.users[a].role)
    && (forall a, b | a in t.accounts && b in t.accounts && Fold(t.users[a].role) == Fold(t.users[b].role) ::
          t.users[a].role == t.users[b].role)
  }

  /** Every position was seeded for one of the accounts, and is live under its role. */
  ghost predicate Titled(t: Tables, s: Tables) {
    && s.users == t.users
    && forall p | p in s.positions :: exists a | a in t.accounts && a in t.users ::
         && p == LegacyPosition(t.users[a])
         && s.positions[p] == Position(LegacyCode(t.users[a]), RoleTitle(t.users[a]), "", true, 1, false)
  }

  lemma TitledIsNotBarred(t: Tables, s: Tables, account: string)
    requires Titled(t, s) && account in t.users
    ensures !Barred(s, t.users[account])
  {
    hide Fold, RoleTitle;
    var u := t.users[account];
    if CodeTaken(s.positions, LegacyCode(u), None) {
      var p :| p in s.positions && CodeKey(s.positions[p].code) == CodeKey(LegacyCode(u));
      assert p == LegacyPosition(u);
    }
  }

  lemma TitledPositions(t: Tables, s: Tables, account: string)
    requires Presentable(t) && Titled(t, s) && account in t.accounts
    ensures Titled(t, SeedPosition(s, t.users[account]))
    ensures var u := t.users[account];
            var p := SeedPosition(s, u).positions;
            LegacyPosition(u) in p && !p[LegacyPosition(u)].deleted && p[LegacyPosition(u)].title == u.role
  {
    hide Fold, RoleTitle, SeedsApart, Keyed;
    var u := t.users[account];
    TitledIsNotBarred(t, s, account);
    if LegacyPosition(u) in s.positions {
      var a :| a in t.accounts && a in t.users && LegacyPosition(u) == LegacyPosition(t.users[a])
        && s.positions[LegacyPosition(u)]
           == Position(LegacyCode(t.users[a]), RoleTitle(t.users[a]), "", true, 1, false);
      assert Fold(t.users[a].role) == Fold(u.role);
    } else {
      assert SeedPosition(s, u).positions
             == s.positions[LegacyPosition(u) := Position(LegacyCode(u), RoleTitle(u), "", true, 1, false)];
    }
  }

  lemma SeedUserPositions(s: Tables, account: string)
    requires account in s.users && SeedUser(s, account).Ok?
    ensures SeedUser(s, account).value.positions == SeedPosition(s, s.users[account]).positions
    ensures SeedUser(s, account).value.users == s.users
    ensures !PersonExists(s, s.users[account]) ==>
              var next, u := SeedUser(s, account).value, s.users[account];
              SeededPersonId(u) in next.personnel && next.personnel[SeededPersonId(u)] == SeededPerson(u)
  {
    hide CodeTaken, RoleTitle, Fold, Decimal, DefaultPermissions, PersonExists;
    SamePersonExists(s, SeedLinks(SeedPosition(s, s.users[account]), s.users[account]).value, s.users[account]);
  }

  /** One more account of a presentable console. */
  lemma NextAccountIsLinked(t: Tables, s: Tables, n: nat)
    requires Presentable(t) && n < |t.accounts|
    requires InSync(s) && Titled(t, s) && SeededSoFar(t, s, Added(t, t.accounts[..n]))
    requires forall i | 0 <= i < n :: LinkedAccount(s, t.accounts[i])
    ensures SeedUser(s, t.accounts[n]).Ok?
    ensures var next := SeedUser(s, t.accounts[n]).value;
            InSync(next) && Titled(t, next) && forall i | 0 <= i <= n :: LinkedAccount(next, t.accounts[i])
  {
    hide Fold, RoleTitle, SeedPosition, DefaultPermissions, PersonExists, InSync, Titled, SeedUser, SeedsApart, Barred,
      SeededPerson, SeededPersonId;
    var a := t.accounts[n];
    assert a in t.accounts;
    var u := t.users[a];
    assert s.users == t.users;
    TitledIsNotBarred(t, s, a);
    SeedUserFailsExactlyWhenBarred(s, a);
    var next := SeedUser(s, a).value;
    TitledPositions(t, s, a);
    SeedUserPositions(s, a);
    SeedsApartUncovered(t, n);
    NobodyYet(t, u);
    assert !PersonExists(s, u);
    SeedingKeepsSyncExactlyWhen(s, a);
    TitledByPositions(t, SeedPosition(s, u), next);
    NewRecordLinks(next, u, a);
    SeedUserSettles(s, a);
    forall i | 0 <= i < n ensures LinkedAccount(next, t.accounts[i]) {
      LinkStays(s, next, t.accounts[i]);
    }
  }

  lemma NobodyYet(t: Tables, u: User)
    requires t.personnel == map[]
    ensures !PersonExists(t, u)
  {
  }

  lemma TitledByPositions(t: Tables, a: Tables, b: Tables)
    requires Titled(t, a) && b.positions == a.positions && b.users == t.users
    ensures Titled(t, b)
  {
  }

  lemma NewRecordLinks(t: Tables, u: User, account: string)
    requires SeededPersonId(u) in t.personnel && t.personnel[SeededPersonId(u)] == SeededPerson(u)
    requires Fold(u.name) == account && u.name != ""
    ensures LinkedAccount(t, account)
  {
    hide Fold, RoleTitle, Decimal;
  }

  lemma LinkStays(a: Tables, b: Tables, account: string)
    requires LinkedAccount(a, account) && Extends(a, b)
    ensures LinkedAccount(b, account)
  {
    hide Fold;
    var id :| id in a.personnel && a.personnel[id].username.Some? && a.personnel[id].username.value != ""
      && Fold(a.personnel[id].username.value) == account;
    assert b.personnel[id] == a.personnel[id];
  }

  lemma {:induction false} FirstAccountsAreLinked(t: Tables, n: nat)
    requires Presentable(t) && n <= |t.accounts|
    ensures SeedUsers(t, t.accounts[..n]).Ok?
    ensures var s := SeedUsers(t, t.accounts[..n]).value;
            InSync(s) && Titled(t, s) && forall i | 0 <= i < n :: LinkedAccount(s, t.accounts[i])
  {
    hide InSync, Titled, SeedUser, Presentable, SeededSoFar, LinkedAccount, FailsAt;
    if n == 0 {
      EmptyConsoleIsInSync(t);
    } else {
      var first := t.accounts[..n - 1];
      FirstAccountsAreLinked(t, n - 1);
      SeedingGoesAsPredicted(t, t.accounts, n - 1);
      assert t.accounts[..n] == first + [t.accounts[n - 1]];
      SeedingInTwoParts(t, first, t.accounts[n - 1]);
      NextAccountIsLinked(t, SeedUsers(t, first).value, n - 1);
    }
  }

  lemma EmptyConsoleIsInSync(t: Tables)
    requires Presentable(t)
    ensures InSync(t) && Titled(t, t)
  {
  }

  /** The first seeding of a presentable console succeeds, links every account and leaves it in step:
      from there on `RunsKeepSync` holds. */
  lemma FirstSeedingLinksEveryAccount(t: Tables)
    requires Presentable(t)
    ensures Seed(t).Ok? && InSync(Seed(t).value) && AllLinked(Seed(t).value)
  {
    hide InSync, Presentable, SeedUsers, LinkedAccount;
    FirstAccountsAreLinked(t, |t.accounts|);
    assert t.accounts[..|t.accounts|] == t.accounts;
    SeedingTwiceIsSeedingOnce(t);
    forall a | a in t.accounts ensures LinkedAccount(Seed(t).value, a) {
      var i :| 0 <= i < |t.accounts| && t.accounts[i] == a;
    }
  }

  /** From a presentable console on, no run ever separates accounts from their records. */
  lemma {:induction false} PresentableConsolesStayInSync(t: Tables, deliveries: seq<Audited>)
    requires Presentable(t)
    ensures var c := Run(Fresh(t), deliveries);
            c == Fresh(t) || (InSync(c.tables) && AllLinked(c.tables))
    ensures InSync(Run(Fresh(t), deliveries).tables)
  {
    hide InSync, AllLinked, Deliver, Presentable, Seed;
    if deliveries == [] {
      EmptyConsoleIsInSync(t);
    } else {
      var n := |deliveries| - 1;
      var before := Run(Fresh(t), deliveries[..n]);
      PresentableConsolesStayInSync(t, deliveries[..n]);
      if before == Fresh(t) {
        FirstSeedingLinksEveryAccount(t);
        DeliveryAfterSeeding(before, deliveries[n]);
      } else {
        DeliveryKeepsSync(before, deliveries[n]);
      }
    }
  }

  // ---------------------------------------------------------------------
  // Codes and permissions
  // ---------------------------------------------------------------------

  /** Codes are the same in any letter case. */
  predicate SameCode(a: Id, b: Id) {
    if a.Given? && b.Given? then Fold(a.text) == Fold(b.text) else a == b
  }

  /** Codes are unique without regard to case, and permissions are known ones of positions that exist. */
  ghost predicate Referenced(t: Tables) {
    && (forall i, j | i in t.positions && j in t.positions ::
          SameCode(t.positions[i].code, t.positions[j].code) ==> i == j)
    && (forall i, j | i in t.personnel && j in t.personnel ::
          Fold(t.personnel[i].code) == Fold(t.personnel[j].code) ==> i == j)
    && (forall l | l in t.links :: l.0 in t.positions && l.1 in PERMISSION_KEYS)
    && (forall id | id in t.personnel :: t.personnel[id].position in t.positions)
  }

  lemma UpsertPositionKeepsReferences(t: Tables, op: Operation)
    requires Referenced(t) && op.action.UpsertPosition? && HandleUpsertPosition(t, op).Ok?
    ensures Referenced(HandleUpsertPosition(t, op).value.0)
  {
    hide CleanId, Clean, ValidCode, WithRoleOf, Fold;
  }

  lemma PermissionsKeepReferences(t: Tables, op: Operation)
    requires Referenced(t) && op.action.ReplacePermissions? && HandleReplacePermissions(t, op).Ok?
    ensures Referenced(HandleReplacePermissions(t, op).value.0)
  {
    hide CleanKeys, Fold, CodeKey, ValidPermission;
  }

  lemma UpsertPersonnelKeepsReferences(t: Tables, op: Operation)
    requires Referenced(t) && op.action.UpsertPersonnel? && HandleUpsertPersonnel(t, op).Ok?
    ensures Referenced(HandleUpsertPersonnel(t, op).value.0)
  {
    hide CleanPerson, UsernameTaken, WithPerson, Fold, CodeKey;
  }

  lemma DeletesKeepReferences(t: Tables, user: string, op: Operation)
    requires Referenced(t)
    ensures HandleDeletePosition(t, op).Ok? ==> Referenced(HandleDeletePosition(t, op).value.0)
    ensures HandleDeletePersonnel(t, user, op).Ok? ==> Referenced(HandleDeletePersonnel(t, user, op).value.0)
  {
    hide Revoked, Fold, CodeKey;
  }

  lemma OtherTablesKeepReferences(t: Tables, next: Tables)
    requires Referenced(t)
    requires next.positions == t.positions && next.personnel == t.personnel && next.links == t.links
    ensures Referenced(next)
  {
  }

  lemma HandlersKeepReferences(t: Tables, user: string, op: Operation)
    requires Referenced(t) && Handle(t, user, op).Ok?
    ensures Referenced(Handle(t, user, op).value.0)
  {
    hide Referenced, HandleUpsertPosition, HandleReplacePermissions,
         HandleUpsertPersonnel, HandleUpsertView, HandleDeleteView,
      HandleReplaceRoster, HandleDeletePosition, HandleDeletePersonnel;
    match op.action
    case UpsertPosition(_, _, _, _) => UpsertPositionKeepsReferences(t, op);
    case ReplacePermissions(_) => PermissionsKeepReferences(t, op);
    case UpsertPersonnel(_, _, _, _, _, _, _, _) => UpsertPersonnelKeepsReferences(t, op);
    case DeletePosition => DeletesKeepReferences(t, user, op);
    case DeletePersonnel => DeletesKeepReferences(t, user, op);
    case UpsertView(_, _, _, _, _, _) =>
      ViewsChangeNothingElse(t, user, op);
      OtherTablesKeepReferences(t, Handle(t, user, op).value.0);
    case DeleteView =>
      ViewsChangeNothingElse(t, user, op);
      OtherTablesKeepReferences(t, Handle(t, user, op).value.0);
    case ReplaceRoster(_) =>
      RosterChangesNothingElse(t, op);
      OtherTablesKeepReferences(t, Handle(t, user, op).value.0);
    case Unsupported => assert false;
  }

  lemma RosterChangesNothingElse(t: Tables, op: Operation)
    requires op.action.ReplaceRoster? && HandleReplaceRoster(t, op).Ok?
    ensures var next := HandleReplaceRoster(t, op).value.0;
            next == t.(assignments := next.assignments, branchRevision := next.branchRevision)
  {
  }

  lemma SeedPositionKeepsReferences(t: Tables, u: User)
    requires Referenced(t)
    ensures Referenced(SeedPosition(t, u))
  {
    hide Fold, RoleTitle, CodeKey;
  }

  lemma SeedLinksKeepsReferences(t: Tables, u: User)
    requires Referenced(t) && SeedLinks(t, u).Ok?
    ensures Referenced(SeedLinks(t, u).value)
  {
    hide Fold, RoleTitle, CodeKey, DefaultPermissions;
    KnownDefaults(u);
  }

  lemma SeedPersonKeepsReferences(t: Tables, u: User)
    requires Referenced(t) && SeedPerson(t, u).Ok?
    ensures Referenced(SeedPerson(t, u).value)
  {
    hide Fold, Decimal, RoleTitle, UsernameTaken, SeededPersonId, CodeKey;
  }

  lemma SeedUserKeepsReferences(t: Tables, account: string)
    requires Referenced(t) && SeedUser(t, account).Ok?
    ensures Referenced(SeedUser(t, account).value)
  {
    hide Referenced, SeedPosition, SeedLinks, SeedPerson;
    if account in t.users {
      var u := t.users[account];
      SeedPositionKeepsReferences(t, u);
      SeedLinksKeepsReferences(SeedPosition(t, u), u);
      SeedPersonKeepsReferences(SeedLinks(SeedPosition(t, u), u).value, u);
    }
  }

  lemma KnownDefaults(u: User)
    ensures DefaultPermissions(u) <= PERMISSION_KEYS
  {
    hide Fold, RoleTitle;
  }

  lemma {:induction false} SeedingKeepsReferences(t: Tables, accounts: seq<string>)
    requires Referenced(t) && SeedUsers(t, accounts).Ok?
    ensures Referenced(SeedUsers(t, accounts).value)
    decreases |accounts|
  {
    hide SeedUser, Referenced;
    if accounts != [] {
      SeedUserKeepsReferences(t, accounts[0]);
      SeedingKeepsReferences(SeedUser(t, accounts[0]).value, accounts[1..]);
    }
  }

  /** Unique codes and valid references survive every run, seeding included. */
  lemma {:induction false} RunsKeepReferences(c: Console, deliveries: seq<Audited>)
    requires Referenced(c.tables)
    ensures Referenced(Run(c, deliveries).tables)
  {
    hide Referenced, Deliver, SeedUsers, Handle;
    if deliveries != [] {
      var n := |deliveries| - 1;
      RunsKeepReferences(c, deliveries[..n]);
      var before, d := Run(c, deliveries[..n]), deliveries[n];
      DeliveryCases(before, d);
      if Settle(before).Ok? {
        SeedingKeepsReferences(before.tables, before.tables.accounts);
        if Deliver(before, d.user, d.op).1.Applied? {
          HandlersKeepReferences(Settle(before).value.tables, d.user, d.op);
        }
      }
    }
  }

  function Permissions(t: Tables, position: Id): set<string> {
    set l | l in t.links && l.0 == position :: l.1
  }

  /** Replacing the permissions of a position gives it exactly the listed ones, without the white
      space around them, and leaves every other position its own. */
  lemma ReplacedPermissionsAreExact(t: Tables, op: Operation, other: Id, key: string)
    requires op.action.ReplacePermissions? && HandleReplacePermissions(t, op).Ok?
    requires other != op.entityId
    ensures var next := HandleReplacePermissions(t, op).value.0;
            && (key in Permissions(next, op.entityId)
                <==> exists i | 0 <= i < |op.action.keys| :: Strip(op.action.keys[i]) == key)
            && (key in Permissions(next, other) <==> key in Permissions(t, other))
  {
    hide Strip, ValidPermission, CleanKeys;
    var next := HandleReplacePermissions(t, op).value.0;
    CleanedKeys(op.action.keys, key);
    var keys := CleanKeys(op.action.keys).value;
    assert (op.entityId, key) in next.links <==> key in keys;
    assert (other, key) in next.links <==> (other, key) in t.links;
    assert key in Permissions(next, op.entityId) <==> (op.entityId, key) in next.links;
    assert key in Permissions(next, other) <==> (other, key) in next.links;
    assert key in Permissions(t, other) <==> (other, key) in t.links;
  }

  lemma {:induction false} CleanedKeys(keys: seq<string>, key: string)
    requires CleanKeys(keys).Some?
    ensures key in CleanKeys(keys).value <==> exists i | 0 <= i < |keys| :: Strip(keys[i]) == key
  {
    hide Strip;
    if keys != [] {
      CleanedKeys(keys[1..], key);
      if i :| 0 <= i < |keys[1..]| && Strip(keys[1..][i]) == key {
        assert keys[i + 1] == keys[1..][i];
      }
      if i :| 0 <= i < |keys| && Strip(keys[i]) == key {
        assert i > 0 ==> keys[1..][i - 1] == keys[i];
      }
    }
  }

  // ---------------------------------------------------------------------
  // Saved views
  // ---------------------------------------------------------------------

  predicate SameOwner(a: View, b: View) {
    Fold(a.username) == Fold(b.username)
  }

  /** Two rows of the view table that may stand side by side. */
  predicate Compatible(a: View, b: View) {
    && a.id != b.id
    && (!a.deleted && !b.deleted && SameOwner(a, b) ==>
      && !(a.settings.isDefault && b.settings.isDefault)
      && Fold(a.settings.name) != Fold(b.settings.name))
  }

  ghost predicate ViewsOk(views: seq<View>) {
    forall i, j | 0 <= i < j < |views| :: Compatible(views[i], views[j])
  }

  lemma ClearingKeepsViews(views: seq<View>, user: string, except: Id)
    requires ViewsOk(views)
    ensures ViewsOk(ClearedDefaults(views, user, except))
  {
    hide Fold;
    var cleared := ClearedDefaults(views, user, except);
    forall i, j | 0 <= i < j < |views| ensures Compatible(cleared[i], cleared[j]) {
      assert Compatible(views[i], views[j]);
    }
  }

  /** A row may be written where its identifier is free, its name is free, and it is not a
      second default. */
  lemma WritingARow(views: seq<View>, i: nat, row: View)
    requires ViewsOk(views) && i < |views|
    requires forall j | 0 <= j < |views| && j != i :: views[j].id != row.id
    requires !NameTaken(views[i := row], i) && !row.deleted
    requires row.settings.isDefault ==>
               forall j | 0 <= j < |views| && j != i && !views[j].deleted && SameOwner(views[j], row) ::
                 !views[j].settings.isDefault
    ensures ViewsOk(views[i := row])
  {
    hide Fold;
    var next := views[i := row];
    forall j, k | 0 <= j < k < |views| ensures Compatible(next[j], next[k]) {
      if j != i && k != i {
        assert Compatible(views[j], views[k]);
      } else {
        var other := if j == i then k else j;
        assert next[other] == views[other];
        assert !views[other].deleted && SameOwner(views[other], row) ==>
               Fold(views[other].settings.name) != Fold(row.settings.name);
      }
    }
  }

  lemma AppendingARow(views: seq<View>, row: View)
    requires ViewsOk(views)
    requires forall j | 0 <= j < |views| :: views[j].id != row.id
    requires !NameTaken(views + [row], |views|) && !row.deleted
    requires row.settings.isDefault ==>
               forall j | 0 <= j < |views| && !views[j].deleted && SameOwner(views[j], row) ::
                 !views[j].settings.isDefault
    ensures ViewsOk(views + [row])
  {
    hide Fold;
    var next := views + [row];
    forall j, k | 0 <= j < k < |next| ensures Compatible(next[j], next[k]) {
      if k < |views| {
        assert Compatible(views[j], views[k]);
      } else {
        assert next[j] == views[j];
      }
    }
  }

  lemma UpsertViewKeepsViews(t: Tables, user: string, op: Operation)
    requires ViewsOk(t.views)
    requires op.action.UpsertView? && HandleUpsertView(t, user, op).Ok?
    ensures ViewsOk(HandleUpsertView(t, user, op).value.0.views)
  {
    hide Fold, CleanView, FindView, FindRecyclable, NameTaken, ViewsOk;
    var v := CleanView(op.action).value;
    FoundViews(t.views, op.entityId, user, v.name);
    var row, recyclable := FindView(t.views, op.entityId), FindRecyclable(t.views, user, v.name);
    var views := if v.isDefault then ClearedDefaults(t.views, user, op.entityId) else t.views;
    ClearingKeepsViews(t.views, user, op.entityId);
    if row.Some? {
      assert forall j | 0 <= j < |t.views| && j != row.value ::
             t.views[j].id != op.entityId by { IdsDiffer(t.views, row.value); }
      var i := row.value;
      WritingARow(views, i, View(op.entityId, views[i].username, v, t.views[i].revision + 1, false));
    } else if recyclable.Some? {
      var i := recyclable.value;
      WritingARow(views, i, View(op.entityId, views[i].username, v, t.views[i].revision + 1, false));
    } else {
      AppendingARow(views, View(op.entityId, user, v, 1, false));
    }
  }

  lemma IdsDiffer(views: seq<View>, i: nat)
    requires ViewsOk(views) && i < |views|
    ensures forall j | 0 <= j < |views| && j != i :: views[j].id != views[i].id
  {
    forall j | 0 <= j < |views| && j != i ensures views[j].id != views[i].id {
      assert if j < i then Compatible(views[j], views[i]) else Compatible(views[i], views[j]);
    }
  }

  lemma DeleteViewKeepsViews(t: Tables, user: string, op: Operation)
    requires ViewsOk(t.views)
    requires HandleDeleteView(t, user, op).Ok?
    ensures ViewsOk(HandleDeleteView(t, user, op).value.0.views)
  {
    hide Fold, FindView;
    FoundViews(t.views, op.entityId, user, "");
    var next := HandleDeleteView(t, user, op).value.0.views;
    forall i, j | 0 <= i < j < |next| ensures Compatible(next[i], next[j]) {
      assert Compatible(t.views[i], t.views[j]);
    }
  }

  lemma HandlersKeepViews(t: Tables, user: string, op: Operation)
    requires ViewsOk(t.views)
    requires Handle(t, user, op).Ok?
    ensures ViewsOk(Handle(t, user, op).value.0.views)
  {
    hide ViewsOk, CodeTaken, CleanId, Clean, ValidCode, WithRoleOf,
         CleanPerson, CleanKeys, PersonnelCodeTaken, UsernameTaken,
      WithPerson, Revoked, Reassigned, HandleUpsertView, HandleDeleteView;
    if op.action.UpsertView? {
      UpsertViewKeepsViews(t, user, op);
    } else if op.action.DeleteView? {
      DeleteViewKeepsViews(t, user, op);
    }
  }

  /** In every reachable state each user has at most one live default view, and no two live
      views of a user have the same name. */
  lemma {:induction false} RunsKeepViews(c: Console, deliveries: seq<Audited>)
    requires ViewsOk(c.tables.views)
    ensures ViewsOk(Run(c, deliveries).tables.views)
  {
    hide ViewsOk, Deliver, Seed, Handle;
    if deliveries != [] {
      var n := |deliveries| - 1;
      RunsKeepViews(c, deliveries[..n]);
      var before, d := Run(c, deliveries[..n]), deliveries[n];
      DeliveryCases(before, d);
      if Settle(before).Ok? {
        SeedingTwiceIsSeedingOnce(before.tables);
        if Deliver(before, d.user, d.op).1.Applied? {
          HandlersKeepViews(Settle(before).value.tables, d.user, d.op);
        }
      }
    }
  }

  // ---------------------------------------------------------------------
  // Branch rosters
  // ---------------------------------------------------------------------

  function Roster(t: Tables, branch: string): set<int> {
    set p | p in t.assignments && t.assignments[p] == branch
  }

  /** Replacing a roster makes it exactly the listed people; they leave the other branches,
      which are otherwise untouched. */
  lemma ReplacedRosterIsExact(t: Tables, op: Operation, other: string)
    requires op.action.ReplaceRoster? && HandleReplaceRoster(t, op).Ok?
    requires op.entityId.Given? && other != op.entityId.text
    ensures var next := HandleReplaceRoster(t, op).value.0;
            var ids := Elements(op.action.personnelIds);
            Roster(next, op.entityId.text) == ids && Roster(next, other) == Roster(t, other) - ids
  {
    var next := HandleReplaceRoster(t, op).value.0;
    var ids := Elements(op.action.personnelIds);
    assert next.assignments == Reassigned(t.assignments, op.entityId.text, ids);
  }
}
