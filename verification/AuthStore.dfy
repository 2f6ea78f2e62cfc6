/** The identity tables, changed in place; every method is one transaction. */
module AuthStore {
  import opened Prelude
  import opened Auth
  import opened AuthRuns

  /** Checks a batch before anything is written. */
  method CheckBatch(items: seq<Item>) returns (ok: bool)
    ensures ok <==> ValidBatch(items)
  {
    hide Fold, Strip, ValidUsername;
    var names: set<string>, numbers: set<int> := {}, {};
    for i := 0 to |items|
      invariant forall j | 0 <= j < i :: ValidUsername(Strip(items[j].username))
      invariant forall j, k | 0 <= j < k < i ::
                ItemKey(items[j]) != ItemKey(items[k]) && items[j].personnelId != items[k].personnelId
      invariant forall n :: n in names <==> exists j | 0 <= j < i :: ItemKey(items[j]) == n
      invariant forall n :: n in numbers <==> exists j | 0 <= j < i :: items[j].personnelId == n
    {
      var username, personnelId := Strip(items[i].username), items[i].personnelId;
      if !ValidUsername(username) || Fold(username) in names || personnelId in numbers {
        return false;
      }
      names := names + {Fold(username)};
      numbers := numbers + {personnelId};
    }
    return true;
  }

  lemma {:induction false} BatchLeavesOthers(s: Identity, items: seq<Item>, expires: int, key: string)
    requires !InBatch(items, key)
    ensures key in AllProvisioned(s, items, expires).users <==> key in s.users
    ensures key in s.users ==> AllProvisioned(s, items, expires).users[key] == s.users[key]
    ensures AllProvisioned(s, items, expires).minted == s.minted + |items|
  {
    hide Fold, Strip, CleanProfile, SecretsUsed, GrantsRevoked;
    if items != [] {
      BatchOfOneMore(items);
      BatchLeavesOthers(s, items[..|items| - 1], expires, key);
    }
  }

  class IdentityStore {
    var users: map<string, Account>
    var generations: map<string, nat>
    var activations: map<nat, Activation>
    var grants: map<nat, Grant>
    var minted: nat

    function State(): Identity
      reads this
    {
      Identity(users, generations, activations, grants, minted)
    }

    constructor ()
      ensures State() == Identity(map[], map[], map[], map[], 0) && Good(State())
    {
      users, generations, activations, grants, minted := map[], map[], map[], map[], 0;
    }

    method SessionGeneration(username: string) returns (generation: nat)
      modifies this`generations
      ensures generation == Generation(old(State()), username) && State() == Touched(old(State()), username)
    {
      hide Fold;
      var key := Fold(username);
      if key in generations {
        return generations[key];
      }
      generations := generations[key := 0];
      return 0;
    }

    method RevokeUserSessions(username: string)
      modifies this`generations
      ensures State() == SessionsRevoked(old(State()), username)
    {
      hide Fold;
      var key := Fold(username);
      generations := generations[key := if key in generations then generations[key] + 1 else 1];
    }

    /** Sessions, grants and secrets of one identity. */
    method RevokeSecurityState(username: string)
      modifies this`generations, this`grants, this`activations
      ensures State() == Revoked(old(State()), username)
    {
      hide Fold;
      RevokeUserSessions(username);
      grants := GrantsRevoked(grants, Fold(username));
      activations := SecretsUsed(activations, Fold(username));
    }

    method UpsertUserHash(username: string, password: string, active: bool) returns (ok: bool)
      modifies this
      ensures ok <==> Upsert(old(State()), username, password, active).Some?
      ensures State() == if ok then Upsert(old(State()), username, password, active).value else old(State())
    {
      hide Fold, Strip, GrantsRevoked, SecretsUsed;
      var clean := Strip(username);
      if clean == "" || |clean| > 100 {
        return false;
      }
      var key := Fold(clean);
      if key in users {
        users := users[key := users[key].(password := Chosen(password), active := active)];
        RevokeSecurityState(users[key].name);
      } else {
        users := users[key := Account(clean, Chosen(password), active, false, None, NO_PROFILE)];
      }
      return true;
    }

    /** The whole batch or nothing: accounts are written, their old credentials revoked and one
        fresh secret issued for each. */
    method ProvisionUsers(items: seq<Item>, temporary: Option<string>, ttl: int, now: int) returns (r: Option<Bundle>)
      requires Keyed(State())
      modifies this
      ensures r.Some? <==> Provision(old(State()), items, temporary, ttl, now).Some?
      ensures State() == if r.Some? then Provision(old(State()), items, temporary, ttl, now).value else old(State())
      ensures r.Some? ==> r.value == BundleOf(old(State()), items, now + ttl)
    {
      hide Fold, Strip, ValidUsername, Provisioned, CleanProfile, ItemKey;
      if items == [] {
        return Some(Bundle(0, 0, 0, [], None));
      }
      if temporary.Some? || ttl < 300 || ttl > 24 * 60 * 60 {
        return None;
      }
      var ok := CheckBatch(items);
      if !ok {
        return None;
      }
      for i := 0 to |items|
        invariant forall j | 0 <= j < i :: !Clashes(users, items[j])
      {
        if Clashes(users, items[i]) {
          return None;
        }
      }
      var bundle := WriteBatch(items, now + ttl);
      return Some(bundle);
    }

    method WriteBatch(items: seq<Item>, expires: int) returns (bundle: Bundle)
      requires Keyed(State()) && ValidBatch(items) && items != []
      modifies this
      ensures State() == AllProvisioned(old(State()), items, expires)
      ensures bundle == BundleOf(old(State()), items, expires)
    {
      hide Fold, Strip, ValidUsername, Provisioned, CleanProfile, ItemKey, ValidBatch;
      var existing := users;
      ghost var before := State();
      bundle := Bundle(0, 0, 0, [], Some(expires));
      for i := 0 to |items|
        invariant State() == AllProvisioned(before, items[..i], expires)
        invariant bundle
                  == Tally(before, items[..i]).(secrets := SecretsOf(before, items)[..i], expires := Some(expires))
      {
        var item := items[i];
        var key := ItemKey(item);
        NextIsNew(items, i);
        BatchLeavesOthers(before, items[..i], expires, key);
        assert items[..i + 1][..i] == items[..i] && items[..i + 1][i] == item;
        bundle := bundle.(secrets := bundle.secrets + [(Strip(item.username), minted)]);
        if key !in existing {
          bundle := bundle.(created := bundle.created + 1);
        } else if existing[key].personnelId.None? {
          bundle := bundle.(claimed := bundle.claimed + 1);
        } else {
          bundle := bundle.(updated := bundle.updated + 1);
        }
        ProvisionAccount(item, existing, expires);
      }
      assert items[..|items|] == items;
    }

    method ProvisionAccount(item: Item, existing: map<string, Account>, expires: int)
      requires ItemKey(item) in existing <==> ItemKey(item) in users
      requires ItemKey(item) in existing ==> existing[ItemKey(item)] == users[ItemKey(item)]
      requires ItemKey(item) in existing ==> Fold(existing[ItemKey(item)].name) == ItemKey(item)
      modifies this
      ensures State() == Provisioned(old(State()), item, expires)
    {
      hide Fold, Strip, GrantsRevoked, SecretsUsed, CleanProfile;
      var key := ItemKey(item);
      var name := Strip(item.username);
      if key in existing {
        name := existing[key].name;
        users := users[
          key := Account(name, Placeholder, true, true, Some(item.personnelId), CleanProfile(item.profile))];
        RevokeSecurityState(name);
      } else {
        users := users[
          key := Account(name, Placeholder, true, true, Some(item.personnelId), CleanProfile(item.profile))];
      }
      activations := SecretsUsed(activations, Fold(name));
      activations := activations[minted := Activation(Fold(name), expires, false)];
      minted := minted + 1;
    }

    method ActivateUser(secret: nat, password: string, now: int) returns (r: Option<Option<string>>)
      requires Keyed(State())
      modifies this
      ensures (State(), r) == Activate(old(State()), secret, password, now)
    {
      hide Fold, GrantsRevoked, SecretsUsed;
      if !AcceptablePassword(password) {
        return None;
      }
      if secret !in activations || activations[secret].owner !in users {
        return Some(None);
      }
      var a := activations[secret];
      var key := a.owner;
      if a.used || a.expires < now || !users[key].active {
        return Some(None);
      }
      activations := activations[secret := a.(used := true)];
      users := users[key := users[key].(password := Chosen(password), mustChange := false)];
      var name := users[key].name;
      ghost var stored := State();
      RevokeSecurityState(name);
      SecretsUsedTwice(stored.activations, Fold(name));
      activations := SecretsUsed(activations, Fold(name));
      return Some(Some(name));
    }

    method ChangeOwnPassword(username: string, current: string, next: string) returns (r: Option<bool>)
      modifies this
      ensures (State(), r) == ChangePassword(old(State()), username, current, next)
    {
      hide Fold, Strip, GrantsRevoked, SecretsUsed;
      if !AcceptablePassword(next) || current == next {
        return None;
      }
      var key := Fold(Strip(username));
      if key !in users || !users[key].active || users[key].password != Chosen(current) {
        return Some(false);
      }
      users := users[key := users[key].(password := Chosen(next), mustChange := false)];
      RevokeSecurityState(users[key].name);
      return Some(true);
    }

    method CreateSession(username: string, now: int) returns (t: Session)
      modifies this`generations
      ensures t == Mint(old(State()), username, now) && State() == Touched(old(State()), username)
    {
      hide Fold;
      var generation := SessionGeneration(username);
      return Session(username, now + SESSION_SECONDS, generation);
    }

    /** Who a signed session speaks for. */
    method SessionUsername(config: Option<Configured>, t: Session, now: int) returns (r: Option<string>)
      modifies this`generations
      ensures r == SessionUser(old(State()), config, t, now)
      ensures State() == Step(config, old(State()), Reads(t, now))
    {
      hide Fold;
      if !Readable(t) || t.expires < now {
        return None;
      }
      var generation := SessionGeneration(t.username);
      if generation != t.generation {
        return None;
      }
      var key := Fold(t.username);
      if key in users {
        return if users[key].active then Some(users[key].name) else None;
      }
      if config.Some? && config.value.username != "" && t.username == config.value.username {
        return Some(config.value.username);
      }
      return None;
    }
  }

  lemma SecretsUsedTwice(activations: map<nat, Activation>, key: string)
    ensures SecretsUsed(SecretsUsed(activations, key), key) == SecretsUsed(activations, key)
  {
  }
}
