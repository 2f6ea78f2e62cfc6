/**
 Whole runs of the identity store: a session lives exactly until it expires or
 its account is revoked, a secret works once, and an account that was
 provisioned has no password before it is activated.
 */
module AuthRuns {
  import opened Prelude
  import opened Auth

  // ---------------------------------------------------------------------
  // What every state satisfies
  // ---------------------------------------------------------------------

  predicate Keyed(s: Identity) {
    forall k | k in s.users :: Fold(s.users[k].name) == k
  }

  /** Minted numbers are not reused, and no account has two unused secrets. */
  ghost predicate SecretsOk(s: Identity) {
    && (forall x | x in s.activations :: x < s.minted)
    && (forall g | g in s.grants :: g < s.minted)
    && (forall x, y | x in s.activations && y in s.activations && !s.activations[x].used && !s.activations[y].used
          && s.activations[x].owner == s.activations[y].owner :: x == y)
  }

  ghost predicate Good(s: Identity) {
    Keyed(s) && SecretsOk(s)
  }

  /** Used secrets, dead grants and generations never come back. */
  ghost predicate Onward(a: Identity, b: Identity) {
    && a.minted <= b.minted
    && (forall x | x in a.activations :: x in b.activations
          && b.activations[x].owner == a.activations[x].owner && b.activations[x].expires == a.activations[x].expires
          && (a.activations[x].used ==> b.activations[x].used))
    && (forall g | g in a.grants :: g in b.grants
          && b.grants[g].owner == a.grants[g].owner && (!a.grants[g].live ==> !b.grants[g].live))
    && (forall k | k in a.generations :: k in b.generations && a.generations[k] <= b.generations[k])
  }

  lemma OnwardFurther(a: Identity, b: Identity, c: Identity)
    requires Onward(a, b) && Onward(b, c)
    ensures Onward(a, c)
  {
  }

  lemma RevokedIsGood(s: Identity, user: string)
    requires SecretsOk(s)
    ensures SecretsOk(Revoked(s, user)) && Onward(s, Revoked(s, user))
    ensures forall x | x in Revoked(s, user).activations && Revoked(s, user).activations[x].owner == Fold(user) ::
              Revoked(s, user).activations[x].used
  {
    hide Fold;
  }

  lemma IssuedIsGood(s: Identity, key: string, expires: int)
    requires SecretsOk(s)
    ensures SecretsOk(SecretIssued(s, key, expires)) && Onward(s, SecretIssued(s, key, expires))
  {
  }

  lemma ProvisionedIsGood(s: Identity, item: Item, expires: int)
    requires Good(s)
    ensures Good(Provisioned(s, item, expires)) && Onward(s, Provisioned(s, item, expires))
  {
    hide Fold, Strip, SecretIssued, Revoked, Onward, SecretsOk, CleanProfile;
    var key := ItemKey(item);
    var name := if key in s.users then s.users[key].name else Strip(item.username);
    var account := Account(name, Placeholder, true, true, Some(item.personnelId), CleanProfile(item.profile));
    var stored := s.(users := s.users[key := account]);
    OnlyUsersChange(s, stored);
    var ready := if key in s.users then Revoked(stored, name) else stored;
    if key in s.users {
      RevokedIsGood(stored, name);
      OnwardFurther(s, stored, ready);
      UsersAfterRevoked(stored, name);
    }
    IssuedIsGood(ready, key, expires);
    OnwardFurther(s, ready, SecretIssued(ready, key, expires));
    UsersAfterIssued(ready, key, expires);
  }

  lemma OnlyUsersChange(a: Identity, b: Identity)
    requires b == a.(users := b.users)
    ensures Onward(a, b) && (SecretsOk(a) ==> SecretsOk(b))
  {
  }

  lemma UsersAfterRevoked(s: Identity, user: string)
    ensures Revoked(s, user).users == s.users
  {
  }

  lemma UsersAfterIssued(s: Identity, key: string, expires: int)
    ensures SecretIssued(s, key, expires).users == s.users
  {
  }

  lemma {:induction false} AllProvisionedIsGood(s: Identity, items: seq<Item>, expires: int)
    requires Good(s)
    ensures Good(AllProvisioned(s, items, expires)) && Onward(s, AllProvisioned(s, items, expires))
  {
    hide Good, Onward, Provisioned;
    if items == [] {
      OnlyUsersChange(s, s);
    } else {
      var n := |items| - 1;
      var before := AllProvisioned(s, items[..n], expires);
      AllProvisionedIsGood(s, items[..n], expires);
      ProvisionedIsGood(before, items[n], expires);
      OnwardFurther(s, before, Provisioned(before, items[n], expires));
    }
  }

  lemma SecretUsedIsGood(s: Identity, secret: nat, next: Identity)
    requires Good(s) && secret in s.activations
    requires next == s.(users := next.users,
                        activations := s.activations[secret := s.activations[secret].(used := true)])
    ensures SecretsOk(next) && Onward(s, next)
  {
  }

  lemma ActivatingIsGood(s: Identity, secret: nat, password: string, now: int)
    requires Good(s)
    ensures Good(Activate(s, secret, password, now).0) && Onward(s, Activate(s, secret, password, now).0)
  {
    hide Fold, Revoked, Onward, SecretsOk;
    OnlyUsersChange(s, s);
    var found := Activates(s, secret, now);
    if AcceptablePassword(password) && found.Some? {
      var key := found.value;
      var u := s.users[key];
      var stored := s.(users := s.users[key := u.(password := Chosen(password), mustChange := false)],
                       activations := s.activations[secret := s.activations[secret].(used := true)]);
      SecretUsedIsGood(s, secret, stored);
      RevokedIsGood(stored, u.name);
      UsersAfterRevoked(stored, u.name);
      OnwardFurther(s, stored, Revoked(stored, u.name));
    }
  }

  lemma StoredAndRevokedIsGood(s: Identity, stored: Identity, user: string)
    requires Good(s) && stored == s.(users := stored.users) && Keyed(stored)
    ensures Good(Revoked(stored, user)) && Onward(s, Revoked(stored, user))
  {
    hide Fold, Revoked, Onward, SecretsOk;
    OnlyUsersChange(s, stored);
    RevokedIsGood(stored, user);
    UsersAfterRevoked(stored, user);
    OnwardFurther(s, stored, Revoked(stored, user));
  }

  lemma PasswordChangeIsGood(s: Identity, username: string, current: string, next: string)
    requires Good(s)
    ensures Good(ChangePassword(s, username, current, next).0)
    ensures Onward(s, ChangePassword(s, username, current, next).0)
  {
    hide Fold, Strip, Revoked, Onward, SecretsOk;
    OnlyUsersChange(s, s);
    var key := Fold(Strip(username));
    if ChangePassword(s, username, current, next).1 == Some(true) {
      var u := s.users[key];
      StoredAndRevokedIsGood(s, s.(users := s.users[key := u.(password := Chosen(next), mustChange := false)]), u.name);
    }
  }

  lemma UpsertIsGood(s: Identity, username: string, password: string, active: bool)
    requires Good(s) && Upsert(s, username, password, active).Some?
    ensures Good(Upsert(s, username, password, active).value) && Onward(s, Upsert(s, username, password, active).value)
  {
    hide Fold, Strip, Revoked, Onward, SecretsOk;
    var clean := Strip(username);
    if Fold(clean) in s.users {
      var u := s.users[Fold(clean)];
      var next := u.(password := Chosen(password), active := active);
      StoredAndRevokedIsGood(s, s.(users := s.users[Fold(clean) := next]), u.name);
    } else {
      OnlyUsersChange(s, Upsert(s, username, password, active).value);
    }
  }

  /** Every event keeps names, secrets and minted numbers in order, and undoes nothing. */
  lemma StepIsGood(config: Option<Configured>, s: Identity, e: Event)
    requires Good(s)
    ensures Good(Step(config, s, e)) && Onward(s, Step(config, s, e))
  {
    hide Fold, Strip, Revoked, AllProvisioned, BatchAccepted, Upsert, Activate, ChangePassword, Authenticate,
      Touched, SessionsRevoked, SecretsOk, Onward;
    OnlyUsersChange(s, s);
    match e
    case Provisions(items, temporary, ttl, at) => AllProvisionedIsGood(s, items, at + ttl);
    case Activating(secret, password, at) => ActivatingIsGood(s, secret, password, at);
    case PasswordChange(username, current, next) => PasswordChangeIsGood(s, username, current, next);
    case Upserts(username, password, active) =>
      if Upsert(s, username, password, active).Some? {
        UpsertIsGood(s, username, password, active);
      }
    case Configures => OnlyUsersChange(s, Step(config, s, e));
    case LogsIn(username, password, at) =>
      if Authenticate(s, config, username, password).Some? {
        CountersAreGood(s, Authenticate(s, config, username, password).value);
      }
    case Reads(session, at) => CountersAreGood(s, session.username);
    case RevokesSessions(username) => CountersAreGood(s, username);
    case RevokesCredentials(username) => StoredAndRevokedIsGood(s, s, username);
    case ConsoleSets(key, active, profile) => OnlyUsersChange(s, Step(config, s, e));
    case Grants(username) => GrantIsGood(s, username);
  }

  lemma CountersAreGood(s: Identity, user: string)
    requires Good(s)
    ensures Good(Touched(s, user)) && Onward(s, Touched(s, user))
    ensures Good(SessionsRevoked(s, user)) && Onward(s, SessionsRevoked(s, user))
  {
    hide Fold;
  }

  lemma GrantIsGood(s: Identity, user: string)
    requires Good(s)
    ensures var next := s.(grants := s.grants[s.minted := Grant(Fold(user), true)], minted := s.minted + 1);
            Good(next) && Onward(s, next)
  {
    hide Fold;
  }

  /** In every reachable state each account has at most one unused secret. */
  lemma {:induction false} RunIsGood(config: Option<Configured>, s: Identity, events: seq<Event>)
    requires Good(s)
    ensures Good(Run(config, s, events)) && Onward(s, Run(config, s, events))
  {
    hide Good, Onward, Step;
    if events == [] {
      OnlyUsersChange(s, s);
    } else {
      var n := |events| - 1;
      var before := Run(config, s, events[..n]);
      RunIsGood(config, s, events[..n]);
      StepIsGood(config, before, events[n]);
      OnwardFurther(s, before, Step(config, before, events[n]));
    }
  }

  lemma {:induction false} RunInTwoParts(config: Option<Configured>, s: Identity, first: seq<Event>, second: seq<Event>)
    ensures Run(config, s, first + second) == Run(config, Run(config, s, first), second)
  {
    hide Step;
    if second == [] {
      assert first + second == first;
    } else {
      var n := |second| - 1;
      assert (first + second)[..|first + second| - 1] == first + second[..n];
      RunInTwoParts(config, s, first, second[..n]);
    }
  }

  // ---------------------------------------------------------------------
  // Sessions
  // ---------------------------------------------------------------------

  predicate InBatch(items: seq<Item>, key: string) {
    exists i | 0 <= i < |items| :: ItemKey(items[i]) == key
  }

  /** The events that revoke the sessions of an account. */
  predicate Revokes(s: Identity, e: Event, user: string) {
    var key := Fold(user);
    match e
    case Provisions(items, temporary, ttl, at) =>
      BatchAccepted(s, items, temporary, ttl) && key in s.users && InBatch(items, key)
    case Activating(secret, password, at) => AcceptablePassword(password) && Activates(s, secret, at) == Some(key)
    case PasswordChange(username, current, next) =>
      Fold(Strip(username)) == key && ChangePassword(s, username, current, next).1 == Some(true)
    case Upserts(username, password, active) =>
      Fold(Strip(username)) == key && key in s.users && 1 <= |Strip(username)| <= 100
    case RevokesSessions(username) => Fold(username) == key
    case RevokesCredentials(username) => Fold(username) == key
    case _ => false
  }

  lemma {:induction false} GenerationAfterBatch(s: Identity, items: seq<Item>, expires: int, user: string)
    requires Keyed(s) && ValidBatch(items)
    ensures Keyed(AllProvisioned(s, items, expires))
    ensures forall k :: k in AllProvisioned(s, items, expires).users <==> k in s.users || InBatch(items, k)
    ensures Generation(AllProvisioned(s, items, expires), user)
            == Generation(s, user) + One(Fold(user) in s.users && InBatch(items, Fold(user)))
  {
    hide Fold, Strip, ValidUsername;
    if items != [] {
      var n := |items| - 1;
      var before := AllProvisioned(s, items[..n], expires);
      GenerationAfterBatch(s, items[..n], expires, user);
      GenerationAfterOne(before, items[n], expires, user);
      BatchOfOneMore(items);
      assert !InBatch(items[..n], ItemKey(items[n]));
    }
  }

  lemma NextIsNew(items: seq<Item>, i: nat)
    requires ValidBatch(items) && i < |items|
    ensures !InBatch(items[..i], ItemKey(items[i]))
    ensures ValidBatch(items[..i])
  {
    hide ItemKey, ValidUsername;
    forall j | 0 <= j < i ensures ItemKey(items[..i][j]) != ItemKey(items[i]) {
      assert items[..i][j] == items[j];
    }
  }

  lemma BatchOfOneMore(items: seq<Item>)
    requires items != []
    ensures forall k :: InBatch(items, k) <==> InBatch(items[..|items| - 1], k) || k == ItemKey(items[|items| - 1])
  {
    hide ItemKey;
    forall k ensures InBatch(items, k) <==> InBatch(items[..|items| - 1], k) || k == ItemKey(items[|items| - 1]) {
      if InBatch(items, k) {
        var i :| 0 <= i < |items| && ItemKey(items[i]) == k;
        if i < |items| - 1 {
          assert items[..|items| - 1][i] == items[i];
        }
      }
      if InBatch(items[..|items| - 1], k) {
        var i :| 0 <= i < |items| - 1 && ItemKey(items[..|items| - 1][i]) == k;
        assert items[..|items| - 1][i] == items[i];
      }
    }
  }

  lemma GenerationAfterOne(s: Identity, item: Item, expires: int, user: string)
    requires Keyed(s)
    ensures var next := Provisioned(s, item, expires);
            && Keyed(next)
            && next.users.Keys == s.users.Keys + {ItemKey(item)}
            && Generation(next, user)
               == Generation(s, user) + One(ItemKey(item) in s.users && Fold(user) == ItemKey(item))
  {
    hide Fold, Strip, CleanProfile, SecretsUsed, GrantsRevoked;
  }

  /** The generation of an account counts its revocations, and nothing else moves it. */
  lemma GenerationCountsRevocations(config: Option<Configured>, s: Identity, e: Event, user: string)
    requires Keyed(s)
    ensures Generation(Step(config, s, e), user) == Generation(s, user) + One(Revokes(s, e, user))
  {
    hide Fold, Strip, AllProvisioned, SecretsUsed, GrantsRevoked, Authenticate, ValidUsername, InBatch, Clashes;
    match e
    case Provisions(items, temporary, ttl, at) =>
      if items == [] {
        EmptyBatch(Fold(user));
      } else if BatchAccepted(s, items, temporary, ttl) {
        GenerationAfterBatch(s, items, at + ttl, user);
      }
    case _ =>
  }

  lemma EmptyBatch(key: string)
    ensures !InBatch([], key)
  {
  }

  function Revocations(config: Option<Configured>, s: Identity, events: seq<Event>, user: string): nat {
    if events == [] then 0
    else
      var n := |events| - 1;
      Revocations(config, s, events[..n], user) + One(Revokes(Run(config, s, events[..n]), events[n], user))
  }

  lemma {:induction false} GenerationAfterRun(config: Option<Configured>, s: Identity, events: seq<Event>, user: string)
    requires Good(s)
    ensures Generation(Run(config, s, events), user) == Generation(s, user) + Revocations(config, s, events, user)
  {
    hide Revokes, Step, Generation, SecretsOk;
    if events != [] {
      var n := |events| - 1;
      GenerationAfterRun(config, s, events[..n], user);
      RunIsGood(config, s, events[..n]);
      GenerationCountsRevocations(config, Run(config, s, events[..n]), events[n], user);
    }
  }

  /** The account that a session of this user name speaks for, if it is active. */
  function Speaker(s: Identity, config: Option<Configured>, user: string): Option<string> {
    if Fold(user) in s.users then (if s.users[Fold(user)].active then Some(s.users[Fold(user)].name) else None)
    else if config.Some? && config.value.username != "" && user == config.value.username then Some(user)
    else None
  }

  /** After any run a session is accepted exactly when it has not expired, its user has not been
      revoked since it was minted, and the account is there and active. */
  lemma SessionAcceptedExactlyWhen(config: Option<Configured>, s: Identity, events: seq<Event>, user: string,
      minted: int, now: int)
    requires Good(s)
    ensures var later := Run(config, s, events);
            SessionUser(later, config, Mint(s, user, minted), now)
            == if '|' !in user && now <= minted + SESSION_SECONDS && Revocations(config, s, events, user) == 0
               then Speaker(later, config, user) else None
  {
    hide Generation, Run, Good;
    GenerationAfterRun(config, s, events, user);
  }

  /** A session minted before a revocation of its user is rejected for ever after. */
  lemma RevokedSessionIsNeverAccepted(config: Option<Configured>, s: Identity, first: seq<Event>, e: Event,
      rest: seq<Event>, user: string, minted: int, now: int)
    requires Good(s)
    requires Revokes(Run(config, s, first), e, user)
    ensures SessionUser(Run(config, s, first + [e] + rest), config, Mint(s, user, minted), now) == None
  {
    hide Revokes, Step, Generation, SessionUser, Mint, Good;
    var events := first + [e] + rest;
    SessionAcceptedExactlyWhen(config, s, events, user, minted, now);
    RevocationsGrow(config, s, first + [e], rest, user);
    assert (first + [e])[..|first|] == first;
  }

  lemma {:induction false} RevocationsGrow(config: Option<Configured>, s: Identity, first: seq<Event>,
      second: seq<Event>, user: string)
    ensures Revocations(config, s, first + second, user) >= Revocations(config, s, first, user)
  {
    hide Revokes, Run;
    if second == [] {
      assert first + second == first;
    } else {
      var n := |second| - 1;
      assert (first + second)[..|first + second| - 1] == first + second[..n];
      RevocationsGrow(config, s, first, second[..n], user);
    }
  }

  // ---------------------------------------------------------------------
  // Grants and secrets of a revoked account
  // ---------------------------------------------------------------------

  /** What an account had in `s` no longer works in `next`. */
  ghost predicate Dead(s: Identity, next: Identity, key: string) {
    && (forall g | g in s.grants && s.grants[g].owner == key :: g in next.grants && !next.grants[g].live)
    && (forall x | x in s.activations && s.activations[x].owner == key ::
          x in next.activations && next.activations[x].used)
  }

  lemma DeadStaysDead(a: Identity, b: Identity, c: Identity, key: string)
    ensures Dead(a, b, key) && Onward(b, c) ==> Dead(a, c, key)
    ensures Onward(a, b) && Dead(b, c, key) ==> Dead(a, c, key)
  {
  }

  lemma RevokedIsDead(s: Identity, user: string)
    ensures Dead(s, Revoked(s, user), Fold(user))
  {
    hide Fold;
  }

  lemma StoredAndRevokedIsDead(s: Identity, stored: Identity, user: string)
    requires Onward(s, stored)
    ensures Dead(s, Revoked(stored, user), Fold(user))
  {
    hide Fold, Onward, Dead, Revoked;
    RevokedIsDead(stored, user);
    DeadStaysDead(s, stored, Revoked(stored, user), Fold(user));
  }

  lemma ProvisionedIsDead(s: Identity, item: Item, expires: int)
    requires Good(s) && ItemKey(item) in s.users
    ensures Dead(s, Provisioned(s, item, expires), ItemKey(item))
  {
    hide Fold, Strip, SecretIssued, Revoked, Onward, Dead, SecretsOk, CleanProfile;
    var key := ItemKey(item);
    var name := s.users[key].name;
    var account := Account(name, Placeholder, true, true, Some(item.personnelId), CleanProfile(item.profile));
    var stored := s.(users := s.users[key := account]);
    OnlyUsersChange(s, stored);
    StoredAndRevokedIsDead(s, stored, name);
    RevokedIsGood(stored, name);
    IssuedIsGood(Revoked(stored, name), key, expires);
    DeadStaysDead(s, Revoked(stored, name), SecretIssued(Revoked(stored, name), key, expires), key);
  }

  lemma {:induction false} AllProvisionedIsDead(s: Identity, items: seq<Item>, expires: int, key: string)
    requires Good(s) && ValidBatch(items) && key in s.users && InBatch(items, key)
    ensures Dead(s, AllProvisioned(s, items, expires), key)
  {
    hide Good, Onward, Dead, Provisioned, ItemKey, ValidUsername;
    var n := |items| - 1;
    var before := AllProvisioned(s, items[..n], expires);
    AllProvisionedIsGood(s, items[..n], expires);
    ProvisionedIsGood(before, items[n], expires);
    BatchOfOneMore(items);
    if ItemKey(items[n]) == key {
      BatchKeepsAccounts(s, items[..n], expires, key);
      ProvisionedIsDead(before, items[n], expires);
    } else {
      AllProvisionedIsDead(s, items[..n], expires, key);
    }
    DeadStaysDead(s, before, Provisioned(before, items[n], expires), key);
  }

  lemma {:induction false} BatchKeepsAccounts(s: Identity, items: seq<Item>, expires: int, key: string)
    requires key in s.users
    ensures key in AllProvisioned(s, items, expires).users
  {
    hide Fold, Strip, CleanProfile, SecretsUsed, GrantsRevoked;
    if items != [] {
      BatchKeepsAccounts(s, items[..|items| - 1], expires, key);
    }
  }

  /** Whatever revokes an account takes its grants and secrets with it, all but the mere end of its
      sessions. */
  lemma RevocationIsDead(config: Option<Configured>, s: Identity, e: Event, user: string)
    requires Good(s) && Revokes(s, e, user) && !e.RevokesSessions?
    ensures Dead(s, Step(config, s, e), Fold(user))
  {
    hide Fold, Strip, Revoked, AllProvisioned, SecretsOk, Onward, Dead, Clashes, InBatch;
    var key := Fold(user);
    match e
    case Provisions(items, temporary, ttl, at) =>
      if items == [] {
        EmptyBatch(key);
      } else {
        AllProvisionedIsDead(s, items, at + ttl, key);
      }
    case Activating(secret, password, at) =>
      var u := s.users[key];
      var stored := s.(users := s.users[key := u.(password := Chosen(password), mustChange := false)],
                       activations := s.activations[secret := s.activations[secret].(used := true)]);
      SecretUsedIsGood(s, secret, stored);
      StoredAndRevokedIsDead(s, stored, u.name);
    case PasswordChange(username, current, next) =>
      var u := s.users[key];
      var stored := s.(users := s.users[key := u.(password := Chosen(next), mustChange := false)]);
      OnlyUsersChange(s, stored);
      StoredAndRevokedIsDead(s, stored, u.name);
    case Upserts(username, password, active) =>
      var u := s.users[key];
      var stored := s.(users := s.users[key := u.(password := Chosen(password), active := active)]);
      OnlyUsersChange(s, stored);
      StoredAndRevokedIsDead(s, stored, u.name);
    case RevokesCredentials(username) => RevokedIsDead(s, username);
  }

  /** Credentials revoked once, in whatever way, stay revoked: no grant or secret that the account
      had before works again. */
  lemma RevokedCredentialsStayRevoked(config: Option<Configured>, s: Identity, e: Event, user: string,
      events: seq<Event>, id: nat)
    requires Good(s) && Revokes(s, e, user) && !e.RevokesSessions?
    ensures var later := Run(config, Step(config, s, e), events);
            && (id in s.grants && s.grants[id].owner == Fold(user) ==> id in later.grants && !later.grants[id].live)
            && (id in s.activations && s.activations[id].owner == Fold(user) ==>
                  forall now :: Activates(later, id, now) == None)
  {
    hide Fold, Run, Step, Revokes, Good, Onward;
    var next := Step(config, s, e);
    StepIsGood(config, s, e);
    RunIsGood(config, next, events);
    RevocationIsDead(config, s, e, user);
    DeadStaysDead(s, next, Run(config, next, events), Fold(user));
  }

  // ---------------------------------------------------------------------
  // Secrets
  // ---------------------------------------------------------------------

  predicate Succeeds(s: Identity, e: Event, secret: nat) {
    e.Activating? && e.secret == secret && AcceptablePassword(e.password) && Activates(s, secret, e.at).Some?
  }

  function Successes(config: Option<Configured>, s: Identity, events: seq<Event>, secret: nat): nat {
    if events == [] then 0
    else
      var n := |events| - 1;
      Successes(config, s, events[..n], secret) + One(Succeeds(Run(config, s, events[..n]), events[n], secret))
  }

  lemma SuccessUsesTheSecret(config: Option<Configured>, s: Identity, e: Event, secret: nat)
    requires Good(s) && Succeeds(s, e, secret)
    ensures var next := Step(config, s, e);
            secret in next.activations && next.activations[secret].used
  {
    hide Fold;
  }

  /** Each secret activates an account at most once, and a used one never again. */
  lemma {:induction false} SecretWorksAtMostOnce(config: Option<Configured>, s: Identity, events: seq<Event>,
      secret: nat)
    requires Good(s)
    ensures Successes(config, s, events, secret) <= 1
    ensures Successes(config, s, events, secret) == 1 ==>
              var later := Run(config, s, events); secret in later.activations && later.activations[secret].used
    ensures secret in s.activations && s.activations[secret].used ==> Successes(config, s, events, secret) == 0
  {
    hide Step, SecretsOk, Succeeds;
    RunIsGood(config, s, events);
    if events != [] {
      var n := |events| - 1;
      var before := Run(config, s, events[..n]);
      RunIsGood(config, s, events[..n]);
      StepIsGood(config, before, events[n]);
      SecretWorksAtMostOnce(config, s, events[..n], secret);
      OnlyUnusedSecretsSucceed(before, events[n], secret);
      if Succeeds(before, events[n], secret) {
        SuccessUsesTheSecret(config, before, events[n], secret);
      }
    }
  }

  lemma OnlyUnusedSecretsSucceed(s: Identity, e: Event, secret: nat)
    ensures Succeeds(s, e, secret) ==> secret in s.activations && !s.activations[secret].used
  {
  }

  lemma {:induction false} MintedSoFar(s: Identity, items: seq<Item>, expires: int)
    ensures AllProvisioned(s, items, expires).minted == s.minted + |items|
  {
    hide Fold, Strip, CleanProfile, GrantsRevoked, SecretsUsed;
    if items != [] {
      MintedSoFar(s, items[..|items| - 1], expires);
    }
  }

  lemma NextSecretWorks(s: Identity, item: Item, expires: int, now: int)
    ensures var next := Provisioned(s, item, expires);
            && s.minted in next.activations && next.activations[s.minted].owner == ItemKey(item)
            && Activates(next, s.minted, now) == if now <= expires then Some(ItemKey(item)) else None
  {
    hide Fold, Strip, CleanProfile, GrantsRevoked, SecretsUsed;
  }

  lemma OtherSecretsStay(s: Identity, item: Item, expires: int, x: nat, now: int)
    requires Keyed(s) && x in s.activations && x != s.minted && s.activations[x].owner != ItemKey(item)
    ensures var next := Provisioned(s, item, expires);
            && x in next.activations && next.activations[x] == s.activations[x]
            && Activates(next, x, now) == Activates(s, x, now)
  {
    hide Fold, Strip, CleanProfile, GrantsRevoked;
  }

  /** Right after a batch every secret in it activates its own account, until it expires. */
  lemma {:induction false} EveryIssuedSecretWorks(s: Identity, items: seq<Item>, expires: int, i: nat, now: int)
    requires Keyed(s) && ValidBatch(items) && i < |items|
    ensures var x, next := SecretsOf(s, items)[i].1, AllProvisioned(s, items, expires);
            && x in next.activations && next.activations[x].owner == ItemKey(items[i])
            && Activates(next, x, now) == if now <= expires then Some(ItemKey(items[i])) else None
  {
    hide Fold, Strip, ValidUsername, Provisioned, Activates, ItemKey;
    var n := |items| - 1;
    var before := AllProvisioned(s, items[..n], expires);
    MintedSoFar(s, items[..n], expires);
    if i < n {
      assert items[..n][i] == items[i] && ItemKey(items[i]) != ItemKey(items[n]);
      EveryIssuedSecretWorks(s, items[..n], expires, i, now);
      GenerationAfterBatch(s, items[..n], expires, "");
      OtherSecretsStay(before, items[n], expires, s.minted + i, now);
    } else {
      NextSecretWorks(before, items[n], expires, now);
    }
  }

  // ---------------------------------------------------------------------
  // Provisioned accounts
  // ---------------------------------------------------------------------

  /** A password is put on the account. */
  predicate GivesPassword(s: Identity, e: Event, key: string) {
    match e
    case Activating(secret, password, at) => AcceptablePassword(password) && Activates(s, secret, at) == Some(key)
    case Upserts(username, password, active) =>
      Fold(Strip(username)) == key && 1 <= |Strip(username)| <= 100
    case _ => false
  }

  predicate Unusable(s: Identity, key: string) {
    key in s.users && s.users[key].password == Placeholder
  }

  lemma {:induction false} BatchLeavesPlaceholders(s: Identity, items: seq<Item>, expires: int, key: string)
    ensures Unusable(s, key) ==> Unusable(AllProvisioned(s, items, expires), key)
    ensures InBatch(items, key) ==> Unusable(AllProvisioned(s, items, expires), key)
  {
    hide Fold, Strip, CleanProfile, SecretsUsed, GrantsRevoked;
    if items != [] {
      var n := |items| - 1;
      BatchLeavesPlaceholders(s, items[..n], expires, key);
      BatchOfOneMore(items);
    }
  }

  lemma StepLeavesPlaceholder(config: Option<Configured>, s: Identity, e: Event, key: string)
    requires Keyed(s) && Unusable(s, key) && !GivesPassword(s, e, key)
    ensures Unusable(Step(config, s, e), key)
  {
    hide Fold, Strip, AllProvisioned, SecretsUsed, GrantsRevoked, Authenticate, BatchAccepted;
    match e
    case Provisions(items, temporary, ttl, at) => BatchLeavesPlaceholders(s, items, at + ttl, key);
    case _ =>
  }

  ghost predicate NoPasswordGiven(config: Option<Configured>, s: Identity, events: seq<Event>, key: string) {
    forall i | 0 <= i < |events| :: !GivesPassword(Run(config, s, events[..i]), events[i], key)
  }

  lemma {:induction false} PlaceholderStays(config: Option<Configured>, s: Identity, events: seq<Event>, key: string)
    requires Good(s) && Unusable(s, key) && NoPasswordGiven(config, s, events, key)
    ensures Unusable(Run(config, s, events), key)
  {
    hide Step, SecretsOk, GivesPassword, Unusable;
    if events != [] {
      var n := |events| - 1;
      forall i | 0 <= i < n ensures !GivesPassword(Run(config, s, events[..n][..i]), events[..n][i], key) {
        assert events[..n][..i] == events[..i];
      }
      PlaceholderStays(config, s, events[..n], key);
      RunIsGood(config, s, events[..n]);
      StepLeavesPlaceholder(config, Run(config, s, events[..n]), events[n], key);
    }
  }

  /** Between provisioning and activation no password logs anybody in, nor can one be changed. */
  lemma ProvisionedAccountHasNoPassword(config: Option<Configured>, s: Identity, items: seq<Item>, ttl: int, at: int,
                                        events: seq<Event>, i: nat, username: string, password: string, next: string)
    requires Good(s) && i < |items| && BatchAccepted(s, items, None, ttl)
    requires Fold(Strip(username)) == ItemKey(items[i])
    requires NoPasswordGiven(config, Step(config, s, Provisions(items, None, ttl, at)), events, ItemKey(items[i]))
    ensures var later := Run(config, Step(config, s, Provisions(items, None, ttl, at)), events);
            && Authenticate(later, config, username, password) == None
            && ChangePassword(later, username, password, next).1 != Some(true)
  {
    hide Fold, Strip, Step, Run, AllProvisioned, BatchAccepted, NoPasswordGiven, Good;
    var key := ItemKey(items[i]);
    var provisioned := Step(config, s, Provisions(items, None, ttl, at));
    StepIsGood(config, s, Provisions(items, None, ttl, at));
    BatchLeavesPlaceholders(s, items, at + ttl, key);
    BatchStep(config, s, items, ttl, at);
    PlaceholderStays(config, provisioned, events, key);
  }

  lemma BatchStep(config: Option<Configured>, s: Identity, items: seq<Item>, ttl: int, at: int)
    requires items != [] && BatchAccepted(s, items, None, ttl)
    ensures Step(config, s, Provisions(items, None, ttl, at)) == AllProvisioned(s, items, at + ttl)
  {
    hide AllProvisioned, BatchAccepted;
  }
}
