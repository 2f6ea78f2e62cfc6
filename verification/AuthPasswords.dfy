/**
 Who can log in with which password after any run, and what provisioning does to
 the accounts of a batch.
 */
module AuthPasswords {
  import opened Prelude
  import opened Auth
  import opened AuthRuns

  // ---------------------------------------------------------------------
  // One call
  // ---------------------------------------------------------------------

  /** This password, and no other, logs in under this name. */
  ghost predicate OnlyOpens(s: Identity, config: Option<Configured>, username: string, password: string) {
    forall p :: Authenticate(s, config, username, p).Some? <==> p == password
  }

  /** A password is changed exactly when the old one logs in and the new one is another that is long
      enough; from then on the new one logs in and no other. */
  lemma ChangedPasswordOpens(s: Identity, config: Option<Configured>, username: string, current: string, next: string)
    ensures var (later, r) := ChangePassword(s, username, current, next);
            && (r == Some(true) <==>
                  && 8 <= |next| <= 200 && current != next
                  && Fold(Strip(username)) in s.users && Authenticate(s, config, username, current).Some?)
            && (r == Some(true) ==> OnlyOpens(later, config, username, next))
            && (r != Some(true) ==> later == s)
  {
    hide Fold, Strip, GrantsRevoked, SecretsUsed;
  }

  /** A secret that activates an account puts the chosen password on it and no other. */
  lemma ActivatedPasswordOpens(s: Identity, config: Option<Configured>, secret: nat, password: string, now: int,
      username: string)
    requires Activate(s, secret, password, now).1 != Some(None)
    requires Activates(s, secret, now) == Some(Fold(Strip(username)))
    ensures var (later, r) := Activate(s, secret, password, now);
            if r.Some? then OnlyOpens(later, config, username, password)
            else later == s && !(8 <= |password| <= 200)
  {
    hide Fold, Strip, GrantsRevoked, SecretsUsed;
  }

  /** An upsert writes the password that from then on opens the account, while it is active. */
  lemma UpsertedPasswordOpens(s: Identity, config: Option<Configured>, username: string, password: string, active: bool)
    requires Upsert(s, username, password, active).Some?
    ensures var later := Upsert(s, username, password, active).value;
            if active then OnlyOpens(later, config, username, password)
            else forall p :: Authenticate(later, config, username, p) == None
  {
    hide Fold, Strip, GrantsRevoked, SecretsUsed;
  }

  // ---------------------------------------------------------------------
  // Whole runs
  // ---------------------------------------------------------------------

  /** What decides about logging in to an account, and whether its password has to be changed then. */
  datatype Login = Login(password: Password, active: bool, mustChange: bool)

  function LoginOf(s: Identity, key: string): Option<Login> {
    if key in s.users then Some(Login(s.users[key].password, s.users[key].active, s.users[key].mustChange)) else None
  }

  /** What an event makes of the login of an account, from what the caller was answered. */
  function LoginAfter(config: Option<Configured>, s: Identity, e: Event, key: string, l: Option<Login>): Option<Login> {
    match e
    case Provisions(items, temporary, ttl, at) =>
      if BatchAccepted(s, items, temporary, ttl) && InBatch(items, key) then Some(Login(Placeholder, true, true)) else l
    case Activating(secret, password, at) =>
      if l.Some? && AcceptablePassword(password) && Activates(s, secret, at) == Some(key)
      then Some(l.value.(password := Chosen(password), mustChange := false))
      else l
    case PasswordChange(username, current, next) =>
      if l.Some? && Fold(Strip(username)) == key && ChangePassword(s, username, current, next).1 == Some(true)
      then Some(l.value.(password := Chosen(next), mustChange := false))
      else l
    case Upserts(username, password, active) =>
      if Fold(Strip(username)) == key && 1 <= |Strip(username)| <= 100
      then Some(Login(Chosen(password), active, l.Some? && l.value.mustChange))
      else l
    case Configures =>
      if l.None? && config.Some? && config.value.username != "" && config.value.password != ""
         && Fold(config.value.username) == key
      then Some(Login(Chosen(config.value.password), true, false))
      else l
    case ConsoleSets(k, active, profile) => if k == key && l.Some? then Some(l.value.(active := active)) else l
    case _ => l
  }

  /** The last password given to the account, and whether it was last switched on or off. */
  function LastLogin(config: Option<Configured>, s: Identity, events: seq<Event>, key: string): Option<Login> {
    if events == [] then LoginOf(s, key)
    else
      var n := |events| - 1;
      LoginAfter(config, Run(config, s, events[..n]), events[n], key, LastLogin(config, s, events[..n], key))
  }

  lemma {:induction false} LoginAfterBatch(s: Identity, items: seq<Item>, expires: int, key: string)
    ensures LoginOf(AllProvisioned(s, items, expires), key)
            == if InBatch(items, key) then Some(Login(Placeholder, true, true)) else LoginOf(s, key)
  {
    hide Fold, Strip, CleanProfile, GrantsRevoked, SecretsUsed;
    if items != [] {
      LoginAfterBatch(s, items[..|items| - 1], expires, key);
      BatchOfOneMore(items);
    }
  }

  lemma StepLogin(config: Option<Configured>, s: Identity, e: Event, key: string)
    requires Keyed(s)
    ensures LoginOf(Step(config, s, e), key) == LoginAfter(config, s, e, key, LoginOf(s, key))
  {
    hide Fold, Strip, AllProvisioned, BatchAccepted, Authenticate, InBatch, Revoked, Activate, ChangePassword, Upsert;
    match e
    case Provisions(items, temporary, ttl, at) =>
      if items == [] {
        EmptyBatch(key);
      } else {
        LoginAfterBatch(s, items, at + ttl, key);
      }
    case Activating(secret, password, at) => ActivatedLogin(s, secret, password, at, key);
    case PasswordChange(username, current, next) => ChangedLogin(s, username, current, next, key);
    case Upserts(username, password, active) => UpsertedLogin(s, username, password, active, key);
    case RevokesCredentials(username) => UsersAfterRevoked(s, username);
    case _ =>
  }

  lemma ActivatedLogin(s: Identity, secret: nat, password: string, at: int, key: string)
    ensures LoginOf(Activate(s, secret, password, at).0, key)
            == LoginAfter(None, s, Activating(secret, password, at), key, LoginOf(s, key))
  {
    hide Fold, GrantsRevoked, SecretsUsed;
  }

  lemma ChangedLogin(s: Identity, username: string, current: string, next: string, key: string)
    ensures LoginOf(ChangePassword(s, username, current, next).0, key)
            == LoginAfter(None, s, PasswordChange(username, current, next), key, LoginOf(s, key))
  {
    hide Fold, Strip, GrantsRevoked, SecretsUsed;
  }

  lemma UpsertedLogin(s: Identity, username: string, password: string, active: bool, key: string)
    ensures LoginOf(Step(None, s, Upserts(username, password, active)), key)
            == LoginAfter(None, s, Upserts(username, password, active), key, LoginOf(s, key))
  {
    hide Fold, Strip, GrantsRevoked, SecretsUsed;
  }

  /**
   After any run an account is opened by the password it was given last, by a
   change, an activation or an upsert, while it is active, and by nothing else; a
   name without an account only by the pair in the configuration.
   */
  lemma {:induction false} LastPasswordOpens(config: Option<Configured>, s: Identity, events: seq<Event>,
      username: string, password: string)
    requires Good(s)
    ensures var later, l := Run(config, s, events), LastLogin(config, s, events, Fold(Strip(username)));
            && LoginOf(later, Fold(Strip(username))) == l
            && (l.Some? ==> (Authenticate(later, config, username, password).Some?
                             <==> l.value.active && l.value.password == Chosen(password)))
            && (l.None? ==> (Authenticate(later, config, username, password).Some?
                             <==> && config.Some? && username == config.value.username != ""
                                  && password == config.value.password != ""))
  {
    hide Fold, Strip, Step, SecretsOk, LoginAfter;
    var key := Fold(Strip(username));
    if events != [] {
      var n := |events| - 1;
      LastPasswordOpens(config, s, events[..n], username, password);
      RunIsGood(config, s, events[..n]);
      StepLogin(config, Run(config, s, events[..n]), events[n], key);
    }
  }

  // ---------------------------------------------------------------------
  // The accounts of a batch
  // ---------------------------------------------------------------------

  /** The account holds what its item says, and has to be activated. */
  ghost predicate FromItem(u: Account, item: Item) {
    && Fold(u.name) == ItemKey(item) && u.password == Placeholder && u.active && u.mustChange
    && u.personnelId == Some(item.personnelId)
    && u.profile.fullName == Strip(item.profile.fullName) && u.profile.role == Strip(item.profile.role)
    && u.profile.branch == Strip(item.profile.branch) && u.profile.salesLine == Strip(item.profile.salesLine)
    && u.profile.phone == Strip(item.profile.phone) && u.profile.phoneStatus == Strip(item.profile.phoneStatus)
    && u.profile.supervisor == item.profile.supervisor
  }

  lemma ProvisionedAccounts(s: Identity, item: Item, expires: int)
    requires Keyed(s)
    ensures var next := Provisioned(s, item, expires);
            && next.users.Keys == s.users.Keys + {ItemKey(item)}
            && FromItem(next.users[ItemKey(item)], item)
            && forall k | k in s.users && k != ItemKey(item) :: next.users[k] == s.users[k]
  {
    hide Fold, Strip, GrantsRevoked, SecretsUsed;
  }

  /** Each item of a batch becomes the account of its name, and other accounts stay as they are. */
  lemma {:induction false} BatchAccounts(s: Identity, items: seq<Item>, expires: int)
    requires Keyed(s) && ValidBatch(items)
    ensures var next := AllProvisioned(s, items, expires);
            && Keyed(next)
            && (forall k :: k in next.users <==> k in s.users || InBatch(items, k))
            && (forall i | 0 <= i < |items| ::
                  ItemKey(items[i]) in next.users && FromItem(next.users[ItemKey(items[i])], items[i]))
            && (forall k | k in s.users && !InBatch(items, k) :: next.users[k] == s.users[k])
  {
    hide FromItem, ItemKey, Provisioned, ValidUsername, Keyed, InBatch;
    if items == [] {
      forall k ensures !InBatch(items, k) {
        EmptyBatch(k);
      }
    } else {
      var n := |items| - 1;
      var before := AllProvisioned(s, items[..n], expires);
      BatchAccounts(s, items[..n], expires);
      ProvisionedAccounts(before, items[n], expires);
      BatchOfOneMore(items);
      GenerationAfterOne(before, items[n], expires, "");
      var next := AllProvisioned(s, items, expires);
      forall i | 0 <= i < |items|
        ensures ItemKey(items[i]) in next.users && FromItem(next.users[ItemKey(items[i])], items[i])
      {
        if i < n {
          assert items[..n][i] == items[i];
          assert ItemKey(items[i]) != ItemKey(items[n]);
        }
      }
    }
  }

  /** No personnel number belongs to two accounts. */
  ghost predicate OneAccountEach(s: Identity) {
    forall j, k | j in s.users && k in s.users && s.users[j].personnelId.Some? &&
      s.users[j].personnelId == s.users[k].personnelId :: j == k
  }

  lemma BatchKeepsNumbersApart(s: Identity, items: seq<Item>, temporary: Option<string>, ttl: int, expires: int)
    requires Keyed(s) && OneAccountEach(s) && BatchAccepted(s, items, temporary, ttl)
    ensures OneAccountEach(AllProvisioned(s, items, expires))
  {
    hide ItemKey, ValidUsername, AllProvisioned;
    BatchAccounts(s, items, expires);
    var next := AllProvisioned(s, items, expires);
    forall j, k | j in next.users && k in next.users && next.users[j].personnelId.Some? &&
      next.users[j].personnelId == next.users[k].personnelId
      ensures j == k
    {
      if InBatch(items, j) {
        NumberIsTheItems(s, items, next, j, k);
      } else if InBatch(items, k) {
        NumberIsTheItems(s, items, next, k, j);
      }
    }
  }

  lemma NumberIsTheItems(s: Identity, items: seq<Item>, next: Identity, j: string, k: string)
    requires ValidBatch(items) && (forall i | 0 <= i < |items| :: !Clashes(s.users, items[i]))
    requires forall i | 0 <= i < |items| ::
               ItemKey(items[i]) in next.users && FromItem(next.users[ItemKey(items[i])], items[i])
    requires j in next.users && k in next.users && next.users[j].personnelId == next.users[k].personnelId
    requires InBatch(items, j)
    requires !InBatch(items, k) ==> k in s.users && next.users[k] == s.users[k]
    ensures j == k
  {
    hide ItemKey, ValidUsername;
    var a :| 0 <= a < |items| && ItemKey(items[a]) == j;
    if InBatch(items, k) {
      var b :| 0 <= b < |items| && ItemKey(items[b]) == k;
      assert items[a].personnelId == items[b].personnelId;
      assert a == b;
    }
  }

  lemma StepKeepsNumbersApart(config: Option<Configured>, s: Identity, e: Event)
    requires Keyed(s) && OneAccountEach(s)
    ensures OneAccountEach(Step(config, s, e))
  {
    hide Step, AllProvisioned, OneAccountEach;
    if e.Provisions? {
      BatchStepIs(config, s, e);
      if e.items != [] && BatchAccepted(s, e.items, e.temporary, e.ttl) {
        BatchKeepsNumbersApart(s, e.items, e.temporary, e.ttl, e.at + e.ttl);
      }
    } else {
      OthersKeepNumbers(config, s, e);
      SameNumbersStayApart(s, Step(config, s, e));
    }
  }

  lemma BatchStepIs(config: Option<Configured>, s: Identity, e: Event)
    requires e.Provisions?
    ensures Step(config, s, e) == if e.items != [] && BatchAccepted(s, e.items, e.temporary, e.ttl)
                                  then AllProvisioned(s, e.items, e.at + e.ttl) else s
  {
    hide AllProvisioned, BatchAccepted;
  }

  ghost predicate SameNumbers(s: Identity, next: Identity) {
    forall k | k in next.users ::
      next.users[k].personnelId == if k in s.users then s.users[k].personnelId else None
  }

  lemma SameNumbersStayApart(s: Identity, next: Identity)
    requires OneAccountEach(s) && SameNumbers(s, next)
    ensures OneAccountEach(next)
  {
  }

  lemma OthersKeepNumbers(config: Option<Configured>, s: Identity, e: Event)
    requires !e.Provisions?
    ensures SameNumbers(s, Step(config, s, e))
  {
    hide Fold, Strip, Authenticate, GrantsRevoked, SecretsUsed;
  }

  /** In every reachable state a personnel number belongs to one account at most. */
  lemma {:induction false} NumbersStayApart(config: Option<Configured>, s: Identity, events: seq<Event>)
    requires Good(s) && OneAccountEach(s)
    ensures OneAccountEach(Run(config, s, events))
  {
    hide Step, SecretsOk, OneAccountEach;
    if events != [] {
      var n := |events| - 1;
      NumbersStayApart(config, s, events[..n]);
      RunIsGood(config, s, events[..n]);
      StepKeepsNumbersApart(config, Run(config, s, events[..n]), events[n]);
    }
  }

  /** Accounts keep the personnel number they have. */
  ghost predicate KeepNumbers(s: Identity, next: Identity) {
    forall k | k in s.users && s.users[k].personnelId.Some? ::
      k in next.users && next.users[k].personnelId == s.users[k].personnelId
  }

  lemma StepKeepsNumbers(config: Option<Configured>, s: Identity, e: Event)
    requires Keyed(s)
    ensures KeepNumbers(s, Step(config, s, e))
  {
    hide Step, AllProvisioned;
    if e.Provisions? {
      BatchStepIs(config, s, e);
      if e.items != [] && BatchAccepted(s, e.items, e.temporary, e.ttl) {
        BatchKeepsNumbers(s, e.items, e.temporary, e.ttl, e.at + e.ttl);
      }
    } else {
      OthersKeepNumbers(config, s, e);
      NoAccountGoes(config, s, e);
    }
  }

  lemma NoAccountGoes(config: Option<Configured>, s: Identity, e: Event)
    requires !e.Provisions?
    ensures s.users.Keys <= Step(config, s, e).users.Keys
  {
    hide Fold, Strip, Authenticate, GrantsRevoked, SecretsUsed;
  }

  lemma BatchKeepsNumbers(s: Identity, items: seq<Item>, temporary: Option<string>, ttl: int, expires: int)
    requires Keyed(s) && BatchAccepted(s, items, temporary, ttl)
    ensures KeepNumbers(s, AllProvisioned(s, items, expires))
  {
    hide ItemKey, ValidUsername, AllProvisioned;
    BatchAccounts(s, items, expires);
    var next := AllProvisioned(s, items, expires);
    forall k | k in s.users && s.users[k].personnelId.Some? && InBatch(items, k)
      ensures next.users[k].personnelId == s.users[k].personnelId
    {
      var i :| 0 <= i < |items| && ItemKey(items[i]) == k;
      assert FromItem(next.users[ItemKey(items[i])], items[i]) && !Clashes(s.users, items[i]);
    }
  }

  /** A personnel number is for life: no run gives its account another one, or none. */
  lemma {:induction false} NumbersAreForLife(config: Option<Configured>, s: Identity, events: seq<Event>)
    requires Good(s)
    ensures KeepNumbers(s, Run(config, s, events))
  {
    hide Step, SecretsOk, Keyed;
    if events != [] {
      var n := |events| - 1;
      NumbersAreForLife(config, s, events[..n]);
      RunIsGood(config, s, events[..n]);
      StepKeepsNumbers(config, Run(config, s, events[..n]), events[n]);
    }
  }

  predicate Letter(c: char) {
    'a' <= FoldChar(c) <= 'z'
  }

  /** Names are 2 to 100 latin letters, digits, dots, underscores and dashes, and begin with a letter. */
  lemma ValidUsernamesAre(name: string)
    ensures ValidUsername(name) <==>
      && 2 <= |name| <= 100 && Letter(name[0])
      && forall i | 0 <= i < |name| :: Letter(name[i]) || '0' <= name[i] <= '9' || name[i] in {'.', '_', '-'}
  {
  }

  /** Accounts with a personnel number have names under which sessions can be kept. */
  ghost predicate NumberedAreReadable(s: Identity) {
    forall k | k in s.users && s.users[k].personnelId.Some? :: '|' !in k
  }

  lemma {:induction false} FoldKeepsBars(s: string)
    ensures '|' in Fold(s) <==> '|' in s
  {
    if s != "" {
      FoldKeepsBars(s[1..]);
      assert s == [s[0]] + s[1..];
    }
  }

  lemma ItemsAreReadable(items: seq<Item>, key: string)
    requires ValidBatch(items) && InBatch(items, key)
    ensures '|' !in key
  {
    hide Fold, Strip;
    var i :| 0 <= i < |items| && ItemKey(items[i]) == key;
    FoldKeepsBars(Strip(items[i].username));
    assert ValidUsername(Strip(items[i].username));
  }

  lemma StepKeepsReadable(config: Option<Configured>, s: Identity, e: Event)
    requires Keyed(s) && NumberedAreReadable(s)
    ensures NumberedAreReadable(Step(config, s, e))
  {
    hide Step, AllProvisioned, ValidBatch, Keyed;
    if e.Provisions? {
      BatchStepIs(config, s, e);
      if e.items != [] && BatchAccepted(s, e.items, e.temporary, e.ttl) {
        BatchAccounts(s, e.items, e.at + e.ttl);
        forall k | InBatch(e.items, k) ensures '|' !in k {
          ItemsAreReadable(e.items, k);
        }
      }
    } else {
      OthersKeepNumbers(config, s, e);
    }
  }

  /** In every reachable state sessions can be kept for every account that was provisioned. */
  lemma {:induction false} NumberedStayReadable(config: Option<Configured>, s: Identity,
      events: seq<Event>, key: string, t: Session)
    requires Good(s) && NumberedAreReadable(s)
    ensures var later := Run(config, s, events);
            && NumberedAreReadable(later)
            && (key in later.users && later.users[key].personnelId.Some? && t.username == later.users[key].name ==>
                  Readable(t))
  {
    hide Step, SecretsOk, Fold;
    RunIsGood(config, s, events);
    FoldKeepsBars(t.username);
    if events != [] {
      var n := |events| - 1;
      NumberedStayReadable(config, s, events[..n], key, t);
      RunIsGood(config, s, events[..n]);
      StepKeepsReadable(config, Run(config, s, events[..n]), events[n]);
    }
  }

  /** The accounts with a personnel number. */
  function Numbered(s: Identity): set<string> {
    set k | k in s.users && s.users[k].personnelId.Some?
  }

  /** The report of a batch adds up: so many accounts are new, so many of the old ones were given a
      personnel number, and the rest had theirs already. */
  lemma {:induction false} BundleAddsUp(s: Identity, items: seq<Item>, expires: int)
    requires Keyed(s) && ValidBatch(items)
    ensures var next, b := AllProvisioned(s, items, expires), BundleOf(s, items, expires);
            && b.created + b.claimed + b.updated == |items|
            && |next.users| == |s.users| + b.created
            && |Numbered(next)| == |Numbered(s)| + b.created + b.claimed
  {
    hide Provisioned, ValidBatch, InBatch, ItemKey, SecretsOf, Numbered, Keyed, FromItem;
    if items != [] {
      var n := |items| - 1;
      var before, key := AllProvisioned(s, items[..n], expires), ItemKey(items[n]);
      NextIsNew(items, n);
      BundleAddsUp(s, items[..n], expires);
      BatchAccounts(s, items[..n], expires);
      OneMoreNumber(before, items[n], expires);
    }
  }

  /** Each line of the report names an account and the secret that activates it, from five minutes to a
      day long. */
  lemma BundleSecretsWork(s: Identity, items: seq<Item>, ttl: int, at: int, i: nat, now: int)
    requires Keyed(s) && i < |items| && BatchAccepted(s, items, None, ttl)
    ensures 5 * 60 <= ttl <= 24 * 60 * 60
    ensures var b := BundleOf(s, items, at + ttl);
            && |b.secrets| == |items| && b.expires == Some(at + ttl)
            && Fold(b.secrets[i].0) == ItemKey(items[i])
            && Activates(AllProvisioned(s, items, at + ttl), b.secrets[i].1, now)
               == if now <= at + ttl then Some(Fold(b.secrets[i].0)) else None
  {
    hide Fold, Strip, ValidBatch, AllProvisioned, Activates;
    EveryIssuedSecretWorks(s, items, at + ttl, i, now);
  }

  /** The number of an item is free, or already that of its account, which has no other. */
  ghost predicate NumberIsFree(s: Identity, item: Item) {
    && (forall k | k in s.users && k != ItemKey(item) :: s.users[k].personnelId != Some(item.personnelId))
    && (ItemKey(item) in s.users ==> s.users[ItemKey(item)].personnelId in {None, Some(item.personnelId)})
  }

  /** A batch is taken whole exactly when it brings no password, its secrets last from five minutes to a
      day, names and numbers in it differ, and each number is free for its name. */
  lemma ProvisionedExactlyWhen(s: Identity, items: seq<Item>, temporary: Option<string>, ttl: int, now: int)
    requires items != []
    ensures Provision(s, items, temporary, ttl, now).Some?
       <==> && temporary == None && 5 * 60 <= ttl <= 24 * 60 * 60 && ValidBatch(items)
            && forall i | 0 <= i < |items| :: NumberIsFree(s, items[i])
    ensures Provision(s, items, temporary, ttl, now).None? ==>
            Step(None, s, Provisions(items, temporary, ttl, now)) == s
  {
    hide ItemKey, ValidBatch, AllProvisioned, Clashes, NumberIsFree;
    forall i | 0 <= i < |items| ensures NumberIsFree(s, items[i]) <==> !Clashes(s.users, items[i]) {
      FreeIsNoClash(s, items[i]);
    }
  }

  lemma FreeIsNoClash(s: Identity, item: Item)
    ensures NumberIsFree(s, item) <==> !Clashes(s.users, item)
  {
    hide ItemKey;
  }

  lemma OneMoreNumber(s: Identity, item: Item, expires: int)
    requires Keyed(s)
    ensures var next, key := Provisioned(s, item, expires), ItemKey(item);
            && |next.users| == |s.users| + One(key !in s.users)
            && |Numbered(next)| == |Numbered(s)| + One(key !in s.users || s.users[key].personnelId.None?)
  {
    hide ItemKey, Provisioned, Keyed, FromItem, Numbered;
    ProvisionedAccounts(s, item, expires);
    var next, key := Provisioned(s, item, expires), ItemKey(item);
    ItemsAreNumbered(next.users[key], item);
    OneMoreKey(s.users.Keys, key);
    NumberedAfter(s, next, key);
    OneMoreKey(Numbered(s), key);
  }

  lemma ItemsAreNumbered(u: Account, item: Item)
    requires FromItem(u, item)
    ensures u.personnelId.Some?
  {
  }

  lemma NumberedAfter(s: Identity, next: Identity, key: string)
    requires next.users.Keys == s.users.Keys + {key} && next.users[key].personnelId.Some?
    requires forall k | k in s.users && k != key :: next.users[k] == s.users[k]
    ensures Numbered(next) == Numbered(s) + {key}
    ensures key in Numbered(s) <==> key in s.users && s.users[key].personnelId.Some?
  {
    forall k ensures k in Numbered(next) <==> k in Numbered(s) || k == key {
      assert k in next.users <==> k in next.users.Keys;
    }
  }

  lemma OneMoreKey(keys: set<string>, key: string)
    ensures |keys + {key}| == |keys| + One(key !in keys)
  {
    if key in keys {
      assert keys + {key} == keys;
    }
  }
}
