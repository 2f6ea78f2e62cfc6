/**
 Whole runs of deliveries against the console: repeated, reordered and
 interleaved operations leave the state that applying each audited operation
 once leaves, and no two applied operations ever started from the same revision.
 */
module ControlRuns {
  import opened Prelude
  import opened Control

  // ---------------------------------------------------------------------
  // Seeding twice is seeding once
  // ---------------------------------------------------------------------

  /** Rows were added to `a` and nothing else happened. */
  ghost predicate Extends(a: Tables, b: Tables) {
    && b == a.(positions := b.positions, links := b.links, personnel := b.personnel)
    && (forall id | id in a.positions :: id in b.positions && b.positions[id] == a.positions[id])
    && a.links <= b.links
    && (forall id | id in a.personnel :: id in b.personnel && b.personnel[id] == a.personnel[id])
  }

  predicate Settled(t: Tables, account: string) {
    SeedUser(t, account) == Ok(t)
  }

  lemma SeedingStepsExtend(t: Tables, u: User)
    ensures Extends(t, SeedPosition(t, u))
    ensures SeedLinks(t, u).Ok? ==> Extends(t, SeedLinks(t, u).value)
    ensures SeedPerson(t, u).Ok? ==> Extends(t, SeedPerson(t, u).value)
  {
    hide Fold, Decimal, RoleTitle, DefaultPermissions, CodeTaken, PersonnelCodeTaken, UsernameTaken;
  }

  lemma ExtendsFurther(a: Tables, b: Tables, c: Tables)
    requires Extends(a, b) && Extends(b, c)
    ensures Extends(a, c)
  {
  }

  lemma SeedUserSettles(t: Tables, account: string)
    requires SeedUser(t, account).Ok?
    ensures Extends(t, SeedUser(t, account).value)
    ensures Settled(SeedUser(t, account).value, account)
  {
    hide Fold, Decimal, RoleTitle, DefaultPermissions, CodeTaken,
         SeededPersonId, PersonnelCodeTaken, UsernameTaken, Extends;
    if account in t.users {
      var u := t.users[account];
      var t1 := SeedPosition(t, u);
      var t2 := SeedLinks(t1, u).value;
      var t3 := SeedPerson(t2, u).value;
      SeedingStepsExtend(t, u);
      SeedingStepsExtend(t1, u);
      SeedingStepsExtend(t2, u);
      ExtendsFurther(t, t1, t2);
      ExtendsFurther(t, t2, t3);
      PositionIsThere(t, t3, u);
      LinksAreThere(t3, u);
      assert PersonExists(t3, u);
    } else {
      SameTablesExtend(t);
    }
  }

  lemma SameTablesExtend(t: Tables)
    ensures Extends(t, t)
  {
  }

  lemma PositionIsThere(t: Tables, later: Tables, u: User)
    requires SeedPosition(t, u).positions == later.positions
    ensures SeedPosition(later, u) == later
  {
    if CodeTaken(t.positions, LegacyCode(u), None) && LegacyPosition(u) !in t.positions {
      assert later.positions == t.positions;
    }
  }

  lemma LinksAreThere(t: Tables, u: User)
    requires DefaultPermissions(u) != {} ==> LegacyPosition(u) in t.positions
    requires forall k | k in DefaultPermissions(u) :: (LegacyPosition(u), k) in t.links
    ensures SeedLinks(t, u) == Ok(t)
  {
    if DefaultPermissions(u) != {} {
      assert t.links + (set k | k in DefaultPermissions(u) :: (LegacyPosition(u), k)) == t.links;
    }
  }

  lemma SettledStays(a: Tables, b: Tables, account: string)
    requires Settled(a, account)
    requires Extends(a, b)
    ensures Settled(b, account)
  {
    if account in a.users {
      var u := a.users[account];
      var a1 := SeedPosition(a, u);
      var a2 := SeedLinks(a1, u).value;
      assert a1.positions == a.positions;
      assert LegacyPosition(u) in a.positions || CodeTaken(a.positions, LegacyCode(u), None);
      assert SeedPosition(b, u) == b;
      assert a2.links == a.links;
      LinksAreThere(b, u);
      assert PersonExists(a2, u);
      assert PersonExists(b, u);
    }
  }

  lemma {:induction false} SeedUsersSettle(t: Tables, accounts: seq<string>)
    requires SeedUsers(t, accounts).Ok?
    ensures Extends(t, SeedUsers(t, accounts).value)
    ensures forall a | a in accounts :: Settled(SeedUsers(t, accounts).value, a)
    decreases |accounts|
  {
    hide SeedUser;
    if accounts != [] {
      SeedUserSettles(t, accounts[0]);
      var t1 := SeedUser(t, accounts[0]).value;
      SeedUsersSettle(t1, accounts[1..]);
      SettledStays(t1, SeedUsers(t1, accounts[1..]).value, accounts[0]);
    }
  }

  lemma {:induction false} SettledAccountsNeedNoSeeding(t: Tables, accounts: seq<string>)
    requires forall a | a in accounts :: Settled(t, a)
    ensures SeedUsers(t, accounts) == Ok(t)
    decreases |accounts|
  {
    hide SeedUser;
    if accounts != [] {
      assert Settled(t, accounts[0]);
      SettledAccountsNeedNoSeeding(t, accounts[1..]);
    }
  }

  /** Seeding adds rows only, and a second seeding adds none. */
  lemma SeedingTwiceIsSeedingOnce(t: Tables)
    requires Seed(t).Ok?
    ensures Extends(t, Seed(t).value)
    ensures Seed(Seed(t).value) == Seed(t)
  {
    hide Settled;
    SeedUsersSettle(t, t.accounts);
    SettledAccountsNeedNoSeeding(Seed(t).value, t.accounts);
  }

  // ---------------------------------------------------------------------
  // Any run equals its audit applied once
  // ---------------------------------------------------------------------

  /** Deliveries that fail, repeat or overtake each other are all part of a run. */
  function Run(c: Console, deliveries: seq<Audited>): Console {
    if deliveries == [] then c
    else
      var last := deliveries[|deliveries| - 1];
      Deliver(Run(c, deliveries[..|deliveries| - 1]), last.user, last.op).0
  }

  /** The console once its tables have been seeded. */
  function Settle(c: Console): Result<Console, Failure> {
    match Seed(c.tables)
    case Err(e) => Err(e)
    case Ok(t) => Ok(c.(tables := t))
  }

  /** One audited operation on a seeded console, with no receipt looked at and nothing to take back. */
  function ApplyThenSeed(c: Console, a: Audited): Result<Console, Failure> {
    match Handle(c.tables, a.user, a.op)
    case Err(e) => Err(e)
    case Ok((t, revision)) =>
      Settle(Console(t, c.receipts[a.op.id := Response(a.op.entityId, revision)], c.audit + [a]))
  }

  function Rebuild(t: Tables, audit: seq<Audited>): Result<Console, Failure> {
    if audit == [] then Settle(Console(t, map[], []))
    else
      match Rebuild(t, audit[..|audit| - 1])
      case Err(e) => Err(e)
      case Ok(c) => ApplyThenSeed(c, audit[|audit| - 1])
  }

  function Fresh(t: Tables): Console {
    Console(t, map[], [])
  }

  function AuditIds(audit: seq<Audited>): seq<string> {
    seq(|audit|, i requires 0 <= i < |audit| => audit[i].op.id)
  }

  ghost predicate Distinct<T(!new)>(s: seq<T>) {
    forall i, j | 0 <= i < j < |s| :: s[i] != s[j]
  }

  ghost predicate ReceiptsMatchAudit(c: Console) {
    && Distinct(AuditIds(c.audit))
    && c.receipts.Keys == (set i | i in AuditIds(c.audit))
  }

  /** What one delivery does, by its answer. */
  lemma DeliveryCases(c: Console, d: Audited)
    ensures var (next, status) := Deliver(c, d.user, d.op);
            match status
            case Applied(r) =>
              && d.op.id !in c.receipts
              && Settle(c).Ok?
              && Handle(Settle(c).value.tables, d.user, d.op) == Ok((next.tables, r.revision))
              && r.entityId == d.op.entityId
              && next.receipts == c.receipts[d.op.id := r]
              && next.audit == c.audit + [d]
            case Replayed(r) => d.op.id in c.receipts && r == c.receipts[d.op.id] && Settle(c) == Ok(next)
            case Conflicted => next == c
            case Rejected => next == c
    ensures var (next, status) := Deliver(c, d.user, d.op);
            status.Applied? ==> Settle(next) == ApplyThenSeed(Settle(c).value, d)
  {
    hide Seed, Handle, ValidOperation;
  }

  /** After any run the seeded state, the answers on record and the audit are those of
      applying every audited operation exactly once, in audit order. */
  lemma {:induction false} RunIsItsAudit(t: Tables, deliveries: seq<Audited>)
    ensures Settle(Run(Fresh(t), deliveries)) == Rebuild(t, Run(Fresh(t), deliveries).audit)
  {
    if deliveries != [] {
      var before := Run(Fresh(t), deliveries[..|deliveries| - 1]);
      var d := deliveries[|deliveries| - 1];
      RunIsItsAudit(t, deliveries[..|deliveries| - 1]);
      DeliveryKeepsAudit(t, before, d);
    }
  }

  lemma DeliveryKeepsAudit(t: Tables, c: Console, d: Audited)
    requires Settle(c) == Rebuild(t, c.audit)
    ensures var next := Deliver(c, d.user, d.op).0; Settle(next) == Rebuild(t, next.audit)
  {
    hide Deliver, Seed, ApplyThenSeed;
    DeliveryCases(c, d);
    var (next, status) := Deliver(c, d.user, d.op);
    match status
    case Applied(_) =>
      assert next.audit[..|next.audit| - 1] == c.audit;
    case Replayed(_) =>
      SeedingTwiceIsSeedingOnce(c.tables);
    case Conflicted =>
    case Rejected =>
  }

  /** Receipts and audit list the same operations, each once. */
  lemma {:induction false} ReceiptsAreTheAudit(t: Tables, deliveries: seq<Audited>)
    ensures ReceiptsMatchAudit(Run(Fresh(t), deliveries))
  {
    if deliveries == [] {
      assert AuditIds([]) == [];
    } else {
      var c := Run(Fresh(t), deliveries[..|deliveries| - 1]);
      var d := deliveries[|deliveries| - 1];
      ReceiptsAreTheAudit(t, deliveries[..|deliveries| - 1]);
      DeliveryKeepsReceipts(c, d);
    }
  }

  lemma DeliveryKeepsReceipts(c: Console, d: Audited)
    requires ReceiptsMatchAudit(c)
    ensures ReceiptsMatchAudit(Deliver(c, d.user, d.op).0)
  {
    hide Deliver, Seed, ApplyThenSeed, Handle;
    DeliveryCases(c, d);
    var (next, status) := Deliver(c, d.user, d.op);
    if status.Applied? {
      assert AuditIds(next.audit) == AuditIds(c.audit) + [d.op.id];
      assert d.op.id !in AuditIds(c.audit);
    }
  }

  // ---------------------------------------------------------------------
  // Repeated deliveries are harmless
  // ---------------------------------------------------------------------

  /** What a run of deliveries is told, one answer each. */
  function Answers(c: Console, deliveries: seq<Audited>): seq<Status> {
    if deliveries == [] then []
    else
      var last := deliveries[|deliveries| - 1];
      var earlier := deliveries[..|deliveries| - 1];
      Answers(c, earlier) + [Deliver(Run(c, earlier), last.user, last.op).1]
  }

  /** Nobody can tell these consoles apart by delivering operations. */
  ghost predicate Alike(a: Console, b: Console) {
    Settle(a) == Settle(b) && a.receipts == b.receipts && a.audit == b.audit
  }

  lemma AlikeConsolesAnswerAlike(a: Console, b: Console, d: Audited)
    requires Alike(a, b)
    ensures Deliver(a, d.user, d.op).1 == Deliver(b, d.user, d.op).1
    ensures Alike(Deliver(a, d.user, d.op).0, Deliver(b, d.user, d.op).0)
  {
    hide Seed, Handle, ValidOperation;
    if Seed(a.tables).Ok? {
      SeedingTwiceIsSeedingOnce(a.tables);
    }
  }

  lemma {:induction false} AlikeConsolesRunAlike(a: Console, b: Console, deliveries: seq<Audited>)
    requires Alike(a, b)
    ensures Alike(Run(a, deliveries), Run(b, deliveries)) && Answers(a, deliveries) == Answers(b, deliveries)
  {
    hide Alike, Deliver;
    if deliveries != [] {
      var d := deliveries[|deliveries| - 1];
      AlikeConsolesRunAlike(a, b, deliveries[..|deliveries| - 1]);
      AlikeConsolesAnswerAlike(Run(a, deliveries[..|deliveries| - 1]), Run(b, deliveries[..|deliveries| - 1]), d);
    }
  }

  lemma {:induction false} RunInTwoParts(c: Console, first: seq<Audited>, second: seq<Audited>)
    ensures Run(c, first + second) == Run(Run(c, first), second)
  {
    hide Deliver;
    if second == [] {
      assert first + second == first;
    } else {
      var n := |second| - 1;
      assert (first + second)[..|first + second| - 1] == first + second[..n];
      RunInTwoParts(c, first, second[..n]);
    }
  }

  /** A delivery that is not answered "applied" can be left out of the run: afterwards every
      answer, the audit, the receipts and the seeded tables are the same without it. */
  lemma UnappliedDeliveryIsHarmless(c: Console, earlier: seq<Audited>, d: Audited, later: seq<Audited>)
    requires !Deliver(Run(c, earlier), d.user, d.op).1.Applied?
    ensures Alike(Run(c, earlier + [d] + later), Run(c, earlier + later))
    ensures Answers(Run(c, earlier + [d]), later) == Answers(Run(c, earlier), later)
  {
    hide Deliver, Seed;
    var before := Run(c, earlier);
    var after := Deliver(before, d.user, d.op).0;
    DeliveryCases(before, d);
    if Settle(before).Ok? {
      SeedingTwiceIsSeedingOnce(before.tables);
    }
    assert Alike(after, before);
    assert (earlier + [d])[..|earlier|] == earlier;
    assert Run(c, earlier + [d]) == after;
    RunInTwoParts(c, earlier + [d], later);
    RunInTwoParts(c, earlier, later);
    AlikeConsolesRunAlike(after, before, later);
  }

  /** An operation whose receipt is on record is answered from the receipt and is never applied again. */
  lemma ReceiptAnswers(c: Console, d: Audited)
    requires d.op.id in c.receipts
    ensures var status := Deliver(c, d.user, d.op).1;
            status == Replayed(c.receipts[d.op.id]) || status == Rejected
    ensures var status := Deliver(c, d.user, d.op).1;
            status.Rejected? <==> !ValidOperation(d.op) || Seed(c.tables).Err?
  {
    hide Seed, Handle, ValidOperation;
  }

  // ---------------------------------------------------------------------
  // When seeding cannot succeed
  // ---------------------------------------------------------------------

  /** The position that the account's role calls for is absent, its code belongs to another
      position, and something has to refer to it. */
  predicate Blocked(t: Tables, account: string) {
    && account in t.users
    && var u := t.users[account];
       && LegacyPosition(u) !in t.positions
       && CodeTaken(t.positions, LegacyCode(u), None)
       && (DefaultPermissions(u) != {} || !PersonExists(t, u))
  }

  lemma SeedUserFailsExactlyWhenBlocked(t: Tables, account: string)
    ensures SeedUser(t, account).Err? <==> Blocked(t, account)
  {
  }

  /** Rows that seeding added keep their legacy code under the legacy identifier of the same role. */
  lemma SeededCodesAreTheirOwn(t: Tables, other: User, u: User)
    requires LegacyPosition(u) !in SeedPosition(t, other).positions
    requires CodeTaken(SeedPosition(t, other).positions, LegacyCode(u), None)
    ensures CodeTaken(t.positions, LegacyCode(u), None)
  {
    var later := SeedPosition(t, other).positions;
    var id :| id in later && CodeKey(later[id].code) == CodeKey(LegacyCode(u));
    assert id in t.positions;
  }

  /** The records that seeding would add for two accounts get in each other's way. */
  predicate SameSeed(u: User, v: User) {
    || SeededPersonId(u) == SeededPersonId(v)
    || Fold(SeededPerson(u).code) == Fold(SeededPerson(v).code)
    || Fold(u.name) == Fold(v.name)
  }

  predicate Covered(t: Tables, added: set<string>, account: string) {
    account in t.users && exists a | a in added && a in t.users :: SameSeed(t.users[a], t.users[account])
  }

  /** The accounts in the list that find no record of their own, in the tables or among those
      added for earlier accounts. */
  function Added(t: Tables, accounts: seq<string>): set<string> {
    if accounts == [] then {}
    else
      var n := |accounts| - 1;
      var before, a := Added(t, accounts[..n]), accounts[n];
      if a !in t.users || PersonExists(t, t.users[a]) || Covered(t, before, a) then before else before + {a}
  }

  /** The position that the account's role calls for cannot be there. */
  predicate Barred(t: Tables, u: User) {
    LegacyPosition(u) !in t.positions && CodeTaken(t.positions, LegacyCode(u), None)
  }

  /** Account number `i` needs a position that cannot be there: for its permissions, or for a
      record that is not there by its turn. */
  predicate FailsAt(t: Tables, accounts: seq<string>, i: nat)
    requires i < |accounts|
  {
    && accounts[i] in t.users
    && var u := t.users[accounts[i]];
       Barred(t, u)
       && (DefaultPermissions(u) != {} || (!PersonExists(t, u) && !Covered(t, Added(t, accounts[..i]), accounts[i])))
  }

  /** Tables after some seeding, as far as later accounts are concerned. */
  ghost predicate SeededSoFar(t: Tables, s: Tables, added: set<string>) {
    && s.users == t.users
    && (forall k | k in t.users :: Barred(s, t.users[k]) == Barred(t, t.users[k]))
    && (forall k | k in t.users :: PersonExists(s, t.users[k]) == (PersonExists(t, t.users[k]) || Covered(t, added, k)))
  }

  lemma SeedPositionLeaves(t: Tables, other: User, u: User)
    requires LegacyPosition(u) !in t.positions && CodeTaken(t.positions, LegacyCode(u), None)
    ensures LegacyPosition(u) !in SeedPosition(t, other).positions
  {
  }

  lemma SeedingOneKeepsBars(s: Tables, other: User, u: User)
    ensures Barred(SeedPosition(s, other), u) == Barred(s, u)
  {
    hide Fold, RoleTitle;
    var later := SeedPosition(s, other);
    assert forall id | id in s.positions :: id in later.positions && later.positions[id] == s.positions[id];
    if Barred(later, u) {
      SeededCodesAreTheirOwn(s, other, u);
    }
    if Barred(s, u) {
      SeedPositionLeaves(s, other, u);
    }
  }

  lemma AddedRecordIsSeen(s: Tables, other: User, u: User)
    requires !PersonExists(s, other) && LegacyPosition(other) in s.positions
    ensures PersonExists(SeedPerson(s, other).value, u) == (PersonExists(s, u) || SameSeed(other, u))
  {
    hide Fold, Decimal, RoleTitle;
    var later := SeedPerson(s, other).value.personnel;
    var id, p := SeededPersonId(other), SeededPerson(other);
    assert later == s.personnel[id := p];
    assert forall i | i in s.personnel :: i != id && later[i] == s.personnel[i];
    assert PersonnelCodeTaken(later, SeededPerson(u).code, None)
      == (PersonnelCodeTaken(s.personnel, SeededPerson(u).code, None)
        || Fold(p.code) == Fold(SeededPerson(u).code)) by {
      assert later[id] == p;
    }
    assert UsernameTaken(later, u.name, None)
           == (UsernameTaken(s.personnel, u.name, None) || Fold(other.name) == Fold(u.name)) by {
      assert later[id] == p;
    }
  }

  lemma LinksLeaveTheRest(s: Tables, u: User)
    requires SeedLinks(s, u).Ok?
    ensures SeedLinks(s, u).value == s.(links := SeedLinks(s, u).value.links)
  {
  }

  /** One more account: it fails as predicted, and otherwise leaves what was predicted. */
  lemma OneMoreAccount(t: Tables, s: Tables, accounts: seq<string>, i: nat)
    requires i < |accounts| && SeededSoFar(t, s, Added(t, accounts[..i]))
    ensures SeedUser(s, accounts[i]).Err? <==> FailsAt(t, accounts, i)
    ensures SeedUser(s, accounts[i]).Ok? ==> SeededSoFar(t, SeedUser(s, accounts[i]).value, Added(t, accounts[..i + 1]))
  {
    hide Fold, Decimal, RoleTitle, Barred, PersonExists, SameSeed, DefaultPermissions, SeededPerson, SeededPersonId;
    var a, before := accounts[i], Added(t, accounts[..i]);
    assert accounts[..i + 1][..i] == accounts[..i] && accounts[..i + 1][i] == a;
    SeedUserFailsExactlyWhenBarred(s, a);
    if a in t.users && SeedUser(s, a).Ok? {
      var u := t.users[a];
      var s1 := SeedPosition(s, u);
      var s2 := SeedLinks(s1, u).value;
      var s3 := SeedUser(s, a).value;
      LinksLeaveTheRest(s1, u);
      SamePersonnel(s, s2, u);
      forall k | k in t.users
        ensures Barred(s3, t.users[k]) == Barred(t, t.users[k])
        ensures PersonExists(s3, t.users[k])
                == (PersonExists(s, t.users[k]) || (!PersonExists(s, u) && SameSeed(u, t.users[k])))
      {
        SeedingOneKeepsBars(s, u, t.users[k]);
        SamePositions(s1, s3, t.users[k]);
        SamePersonnel(s, s2, t.users[k]);
        if !PersonExists(s2, u) {
          AddedRecordIsSeen(s2, u, t.users[k]);
        }
      }
    }
  }

  lemma SeedUserFailsExactlyWhenBarred(s: Tables, account: string)
    ensures SeedUser(s, account).Err? <==>
      account in s.users && Barred(s, s.users[account])
      && (DefaultPermissions(s.users[account]) != {} || !PersonExists(s, s.users[account]))
  {
    SeedUserFailsExactlyWhenBlocked(s, account);
  }

  lemma SamePersonnel(a: Tables, b: Tables, u: User)
    requires a.personnel == b.personnel
    ensures PersonExists(a, u) == PersonExists(b, u)
  {
  }

  lemma SamePositions(a: Tables, b: Tables, u: User)
    requires a.positions == b.positions
    ensures Barred(a, u) == Barred(b, u)
  {
  }

  lemma {:induction false} SeedingInTwoParts(t: Tables, first: seq<string>, last: string)
    ensures SeedUsers(t, first + [last])
         == match SeedUsers(t, first) case Err(e) => Err(e) case Ok(s) => SeedUser(s, last)
    decreases |first|
  {
    hide SeedUser;
    if first == [] {
      assert first + [last] == [last] && [last][1..] == [];
    } else {
      assert (first + [last])[0] == first[0] && (first + [last])[1..] == first[1..] + [last];
      match SeedUser(t, first[0])
      case Err(_) =>
      case Ok(s) => SeedingInTwoParts(s, first[1..], last);
    }
  }

  lemma {:induction false} SeedingGoesAsPredicted(t: Tables, accounts: seq<string>, n: nat)
    requires n <= |accounts|
    ensures SeedUsers(t, accounts[..n]).Err? <==> exists i :: 0 <= i < n && FailsAt(t, accounts, i)
    ensures SeedUsers(t, accounts[..n]).Ok? ==>
            SeededSoFar(t, SeedUsers(t, accounts[..n]).value, Added(t, accounts[..n]))
  {
    hide SeedUser, FailsAt, SeededSoFar;
    if n == 0 {
      NothingSeededYet(t);
    } else {
      SeedingGoesAsPredicted(t, accounts, n - 1);
      assert accounts[..n] == accounts[..n - 1] + [accounts[n - 1]];
      SeedingInTwoParts(t, accounts[..n - 1], accounts[n - 1]);
      if SeedUsers(t, accounts[..n - 1]).Ok? {
        OneMoreAccount(t, SeedUsers(t, accounts[..n - 1]).value, accounts, n - 1);
      }
    }
  }

  lemma NothingSeededYet(t: Tables)
    ensures SeededSoFar(t, t, Added(t, []))
  {
    hide PersonExists, Barred;
  }

  /** Seeding fails exactly when, in the order of the accounts, one needs a position that cannot be
      there: for default permissions, or for a record that neither the tables nor an earlier
      account bring. */
  lemma SeedingFailsExactlyWhen(t: Tables)
    ensures Seed(t).Err? <==> exists i :: 0 <= i < |t.accounts| && FailsAt(t, t.accounts, i)
  {
    hide SeedUsers, FailsAt;
    SeedingGoesAsPredicted(t, t.accounts, |t.accounts|);
    assert t.accounts[..|t.accounts|] == t.accounts;
  }

  /** No two accounts are seeded under one identifier, code or name. */
  ghost predicate SeedsApart(t: Tables) {
    forall i, j | 0 <= i < j < |t.accounts| && t.accounts[i] in t.users && t.accounts[j] in t.users ::
      !SameSeed(t.users[t.accounts[i]], t.users[t.accounts[j]])
  }

  lemma {:induction false} AddedAreListed(t: Tables, accounts: seq<string>)
    ensures forall a | a in Added(t, accounts) :: a in accounts
  {
    hide PersonExists, Covered;
    if accounts != [] {
      AddedAreListed(t, accounts[..|accounts| - 1]);
    }
  }

  lemma FailsAtIsBlocked(t: Tables, i: nat)
    requires i < |t.accounts|
    ensures FailsAt(t, t.accounts, i) ==> Blocked(t, t.accounts[i])
    ensures Blocked(t, t.accounts[i]) && (NeedsPermissions(t, t.accounts[i]) || SeedsApart(t)) ==>
            FailsAt(t, t.accounts, i)
  {
    hide SameSeed, PersonExists, DefaultPermissions, CodeTaken, LegacyCode, LegacyPosition;
    AddedAreListed(t, t.accounts[..i]);
    if SeedsApart(t) && Covered(t, Added(t, t.accounts[..i]), t.accounts[i]) {
      SeedsApartUncovered(t, i);
    }
  }

  lemma SeedsApartUncovered(t: Tables, i: nat)
    requires i < |t.accounts| && SeedsApart(t)
    ensures !Covered(t, Added(t, t.accounts[..i]), t.accounts[i])
  {
    hide SameSeed, PersonExists;
    AddedAreListed(t, t.accounts[..i]);
    if t.accounts[i] in t.users {
      forall a | a in Added(t, t.accounts[..i]) && a in t.users ensures !SameSeed(t.users[a], t.users[t.accounts[i]]) {
        var j :| 0 <= j < i && t.accounts[..i][j] == a;
        assert t.accounts[j] == a;
      }
    }
  }

  predicate NeedsPermissions(t: Tables, account: string) {
    account in t.users && DefaultPermissions(t.users[account]) != {}
  }

  /** Seeding fails only when some account is blocked, and when accounts do not share identifiers,
      codes or names that is exactly when; a blocked account with default permissions is always
      enough.  From then on every delivery is refused and changes nothing. */
  lemma BlockedConsoleRefusesEverything(c: Console)
    ensures Seed(c.tables).Err? ==> exists a | a in c.tables.accounts :: Blocked(c.tables, a)
    ensures (exists a | a in c.tables.accounts :: Blocked(c.tables, a) && NeedsPermissions(c.tables, a)) ==>
            Seed(c.tables).Err?
    ensures SeedsApart(c.tables) ==>
            (Seed(c.tables).Err? <==> exists a | a in c.tables.accounts :: Blocked(c.tables, a))
    ensures Seed(c.tables).Err? ==> forall deliveries :: Run(c, deliveries) == c
  {
    hide Seed, Blocked, NeedsPermissions, Deliver, FailsAt, SeedsApart;
    var t := c.tables;
    SeedingFailsExactlyWhen(t);
    forall i | 0 <= i < |t.accounts| {
      FailsAtIsBlocked(t, i);
    }
    if Seed(t).Err? {
      var i :| 0 <= i < |t.accounts| && FailsAt(t, t.accounts, i);
      assert t.accounts[i] in t.accounts;
      forall deliveries ensures Run(c, deliveries) == c {
        StuckRun(c, deliveries);
      }
    }
    forall a | a in t.accounts && Blocked(t, a) && (NeedsPermissions(t, a) || SeedsApart(t)) ensures Seed(t).Err? {
      var i :| 0 <= i < |t.accounts| && t.accounts[i] == a;
    }
  }

  lemma {:induction false} StuckRun(c: Console, deliveries: seq<Audited>)
    requires Seed(c.tables).Err?
    ensures Run(c, deliveries) == c
  {
    hide Seed, Handle, ValidOperation;
    if deliveries != [] {
      StuckRun(c, deliveries[..|deliveries| - 1]);
    }
  }

  // ---------------------------------------------------------------------
  // No lost updates
  // ---------------------------------------------------------------------

  /** What an operation counts on: one counter per position, per personnel record, and one
      for the branch assignments.  Saved views are left out. */
  datatype Counter = OfPosition(id: Id) | OfPersonnel(id: Id) | OfAssignments | NoCounter

  function CounterOf(op: Operation): Counter {
    match op.action
    case UpsertPosition(_, _, _, _) => OfPosition(op.entityId)
    case ReplacePermissions(_) => OfPosition(op.entityId)
    case DeletePosition => OfPosition(op.entityId)
    case UpsertPersonnel(_, _, _, _, _, _, _, _) => OfPersonnel(op.entityId)
    case DeletePersonnel => OfPersonnel(op.entityId)
    case ReplaceRoster(_) => OfAssignments
    case UpsertView(_, _, _, _, _, _) => NoCounter
    case DeleteView => NoCounter
    case Unsupported => NoCounter
  }

  predicate Exists(t: Tables, c: Counter) {
    match c
    case OfPosition(id) => id in t.positions
    case OfPersonnel(id) => id in t.personnel
    case OfAssignments => true
    case NoCounter => true
  }

  /** A row that is not there yet counts as revision 0. */
  function RevisionOf(t: Tables, c: Counter): nat {
    match c
    case OfPosition(id) => if id in t.positions then t.positions[id].revision else 0
    case OfPersonnel(id) => if id in t.personnel then t.personnel[id].revision else 0
    case OfAssignments => t.branchRevision
    case NoCounter => 0
  }

  /** What an operation did to the counters: its own went up from its base, another one stayed. */
  ghost predicate Counted(t: Tables, op: Operation, next: Tables, revision: nat, other: Counter) {
    && (CounterOf(op) != NoCounter ==>
         && RevisionOf(t, CounterOf(op)) == op.baseRevision
         && RevisionOf(next, CounterOf(op)) == op.baseRevision + 1 == revision
         && Exists(next, CounterOf(op)))
    && (other != CounterOf(op) ==>
          RevisionOf(next, other) == RevisionOf(t, other) && (Exists(t, other) ==> Exists(next, other)))
  }

  lemma PositionsAreCounted(t: Tables, op: Operation, other: Counter)
    ensures op.action.UpsertPosition? && HandleUpsertPosition(t, op).Ok? ==>
              var (next, revision) := HandleUpsertPosition(t, op).value; Counted(t, op, next, revision, other)
    ensures op.action.ReplacePermissions? && HandleReplacePermissions(t, op).Ok? ==>
              var (next, revision) := HandleReplacePermissions(t, op).value; Counted(t, op, next, revision, other)
    ensures op.action.DeletePosition? && HandleDeletePosition(t, op).Ok? ==>
              var (next, revision) := HandleDeletePosition(t, op).value; Counted(t, op, next, revision, other)
  {
    hide CodeTaken, CleanId, Clean, ValidCode, WithRoleOf, CleanKeys, ValidPermission, Fold;
  }

  lemma PersonnelAreCounted(t: Tables, user: string, op: Operation, other: Counter)
    ensures op.action.UpsertPersonnel? && HandleUpsertPersonnel(t, op).Ok? ==>
              var (next, revision) := HandleUpsertPersonnel(t, op).value; Counted(t, op, next, revision, other)
    ensures op.action.DeletePersonnel? && HandleDeletePersonnel(t, user, op).Ok? ==>
              var (next, revision) := HandleDeletePersonnel(t, user, op).value; Counted(t, op, next, revision, other)
  {
    hide CleanPerson, PersonnelCodeTaken, UsernameTaken, WithPerson, Revoked, Fold;
  }

  /** An applied operation started from the current revision of its own counter, raises that
      one by exactly 1 and no other. */
  lemma AppliedOperationCounts(t: Tables, user: string, op: Operation, other: Counter)
    requires Handle(t, user, op).Ok?
    ensures var (next, revision) := Handle(t, user, op).value; Counted(t, op, next, revision, other)
  {
    hide HandleUpsertPosition, HandleReplacePermissions,
         HandleDeletePosition, HandleUpsertPersonnel, HandleDeletePersonnel,
      HandleUpsertView, HandleDeleteView, Reassigned;
    PositionsAreCounted(t, op, other);
    PersonnelAreCounted(t, user, op, other);
    if op.action.UpsertView? || op.action.DeleteView? {
      ViewsChangeNothingElse(t, user, op);
    }
  }

  lemma ViewsChangeNothingElse(t: Tables, user: string, op: Operation)
    requires op.action.UpsertView? || op.action.DeleteView?
    requires Handle(t, user, op).Ok?
    ensures Handle(t, user, op).value.0 == t.(views := Handle(t, user, op).value.0.views)
  {
    hide CleanView, FindView, FindRecyclable, ClearedDefaults, NameTaken, Fold;
  }

  lemma SeedingKeepsCounters(t: Tables, c: Counter)
    requires Seed(t).Ok? && Exists(t, c)
    ensures Exists(Seed(t).value, c) && RevisionOf(Seed(t).value, c) == RevisionOf(t, c)
  {
    hide Seed;
    SeedingTwiceIsSeedingOnce(t);
  }

  /** The revisions from which the audited operations on a counter started, in audit order. */
  function Bases(audit: seq<Audited>, c: Counter): seq<int> {
    if audit == [] then []
    else
      var last := audit[|audit| - 1].op;
      Bases(audit[..|audit| - 1], c) + if CounterOf(last) == c then [last.baseRevision] else []
  }

  /** The bases are consecutive and the counter now stands one above the last of them. */
  ghost predicate Unbroken(console: Console, c: Counter) {
    var bases := Bases(console.audit, c);
    bases != [] ==>
      && Exists(console.tables, c)
      && (forall k | 0 <= k < |bases| :: bases[k] == bases[0] + k)
      && RevisionOf(console.tables, c) == bases[0] + |bases|
  }

  lemma SettlingKeepsCounting(console: Console, c: Counter)
    requires Unbroken(console, c)
    requires Settle(console).Ok?
    ensures Unbroken(Settle(console).value, c)
  {
    hide Seed, Bases;
    if Bases(console.audit, c) != [] {
      SeedingKeepsCounters(console.tables, c);
    }
  }

  lemma AppliedKeepsCounting(before: Console, d: Audited, next: Console, revision: nat, c: Counter)
    requires Unbroken(before, c) && c != NoCounter
    requires Counted(before.tables, d.op, next.tables, revision, c) && next.audit == before.audit + [d]
    ensures Unbroken(next, c)
  {
    hide RevisionOf, Exists, CounterOf;
    assert next.audit[..|next.audit| - 1] == before.audit;
    var bases := Bases(before.audit, c);
    assert Bases(next.audit, c) == bases + if CounterOf(d.op) == c then [d.op.baseRevision] else [];
  }

  lemma DeliveryKeepsCounting(console: Console, d: Audited, c: Counter)
    requires Unbroken(console, c) && c != NoCounter
    ensures Unbroken(Deliver(console, d.user, d.op).0, c)
  {
    hide Deliver, Seed, Handle, Counted, Unbroken, Settle, ApplyThenSeed;
    DeliveryCases(console, d);
    var (next, status) := Deliver(console, d.user, d.op);
    if Settle(console).Ok? {
      SettlingKeepsCounting(console, c);
      SettlingKeepsRecords(console);
    }
    if status.Applied? {
      var seeded := Settle(console).value;
      AppliedOperationCounts(seeded.tables, d.user, d.op, c);
      AppliedKeepsCounting(seeded, d, next, status.response.revision, c);
    }
  }

  lemma SettlingKeepsRecords(console: Console)
    requires Settle(console).Ok?
    ensures Settle(console).value.audit == console.audit
  {
  }

  /** No lost updates: over any run, the operations applied to one counter started from
      consecutive revisions, so no revision was ever the base of two of them. */
  lemma {:induction false} NoUpdateIsLost(t: Tables, deliveries: seq<Audited>, c: Counter)
    requires c != NoCounter
    ensures Unbroken(Run(Fresh(t), deliveries), c)
    ensures Distinct(Bases(Run(Fresh(t), deliveries).audit, c))
  {
    hide Deliver;
    if deliveries != [] {
      var n := |deliveries| - 1;
      NoUpdateIsLost(t, deliveries[..n], c);
      DeliveryKeepsCounting(Run(Fresh(t), deliveries[..n]), deliveries[n], c);
    }
  }
}
