/**
 Accounts, sessions, one-time activation secrets and their revocation, as
 functions from one identity store to the next.

 Session tokens and secrets are unforgeable: a session is the record that was
 signed, a secret is the number under which it was minted.  A password hash is
 the password it was made from, or a placeholder that no password matches.
 */
module Auth {
  import opened Prelude

  const SESSION_SECONDS := 8 * 60 * 60

  datatype Password = Chosen(text: string) | Placeholder

  datatype Profile = Profile(
    fullName: string, role: string, branch: string, salesLine: string,
    phone: string, phoneStatus: string, supervisor: Option<int>)

  datatype Account = Account(
    name: string, password: Password, active: bool, mustChange: bool,
    personnelId: Option<int>, profile: Profile)

  datatype Activation = Activation(owner: string, expires: int, used: bool)

  /** An OAuth code or token. */
  datatype Grant = Grant(owner: string, live: bool)

  /** Users and generations are kept under the folded name; owners are folded names. */
  datatype Identity = Identity(
    users: map<string, Account>,
    generations: map<string, nat>,
    activations: map<nat, Activation>,
    grants: map<nat, Grant>,
    minted: nat)

  datatype Session = Session(username: string, expires: int, generation: nat)

  /** The account of the configuration file, used where the database has none. */
  datatype Configured = Configured(username: string, password: string)

  // ---------------------------------------------------------------------
  // Generations and revocation
  // ---------------------------------------------------------------------

  function Generation(s: Identity, user: string): nat {
    if Fold(user) in s.generations then s.generations[Fold(user)] else 0
  }

  /** Looking a generation up leaves a row behind. */
  function Touched(s: Identity, user: string): Identity {
    if Fold(user) in s.generations then s else s.(generations := s.generations[Fold(user) := 0])
  }

  function SessionsRevoked(s: Identity, user: string): Identity {
    s.(generations := s.generations[Fold(user) := Generation(s, user) + 1])
  }

  function GrantsRevoked(grants: map<nat, Grant>, key: string): map<nat, Grant> {
    map g | g in grants :: if grants[g].owner == key then grants[g].(live := false) else grants[g]
  }

  function SecretsUsed(activations: map<nat, Activation>, key: string): map<nat, Activation> {
    map x | x in activations :: if activations[x].owner == key then activations[x].(used := true) else activations[x]
  }

  function Revoked(s: Identity, user: string): Identity {
    SessionsRevoked(s, user).(grants := GrantsRevoked(s.grants, Fold(user)),
                              activations := SecretsUsed(s.activations, Fold(user)))
  }

  // ---------------------------------------------------------------------
  // Accounts
  // ---------------------------------------------------------------------

  const NO_PROFILE := Profile("", "", "", "", "", "", None)

  function Upsert(s: Identity, username: string, password: string, active: bool): Option<Identity> {
    var clean := Strip(username);
    if clean == "" || |clean| > 100 then None
    else if Fold(clean) in s.users then
      var u := s.users[Fold(clean)];
      var stored := s.(users := s.users[Fold(clean) := u.(password := Chosen(password), active := active)]);
      Some(Revoked(stored, u.name))
    else
      Some(s.(users := s.users[Fold(clean) := Account(clean, Chosen(password), active, false, None, NO_PROFILE)]))
  }

  function EnsureConfigured(s: Identity, config: Option<Configured>): Identity {
    match config
    case None => s
    case Some(c) =>
      if c.username == "" || c.password == "" || Fold(c.username) in s.users then s
      else s.(users := s.users[
        Fold(c.username) := Account(c.username, Chosen(c.password), true, false, None, NO_PROFILE)])
  }

  function Authenticate(s: Identity, config: Option<Configured>, username: string, password: string): Option<string> {
    var key := Fold(Strip(username));
    if key in s.users then
      if s.users[key].active && s.users[key].password == Chosen(password) then Some(s.users[key].name) else None
    else
      match config
      case Some(c) =>
        if c.username != "" && c.password != "" && username == c.username && password == c.password then
          Some(c.username)
        else None
      case None => None
  }

  predicate AcceptablePassword(password: string) {
    8 <= |password| <= 200
  }

  /** `None` is a refused call, `Some(false)` a call that found no match. */
  function ChangePassword(s: Identity, username: string, current: string, next: string): (Identity, Option<bool>) {
    var key := Fold(Strip(username));
    if !AcceptablePassword(next) || current == next then (s, None)
    else if key !in s.users || !s.users[key].active || s.users[key].password != Chosen(current) then (s, Some(false))
    else
      var u := s.users[key];
      (Revoked(s.(users := s.users[key := u.(password := Chosen(next), mustChange := false)]), u.name), Some(true))
  }

  // ---------------------------------------------------------------------
  // Provisioning and activation
  // ---------------------------------------------------------------------

  datatype Item = Item(username: string, personnelId: int, profile: Profile)

  datatype Bundle = Bundle(created: nat, updated: nat, claimed: nat, secrets: seq<(string, nat)>, expires: Option<int>)

  predicate UsernameChar(c: char) {
    'A' <= c <= 'Z' || 'a' <= c <= 'z' || '0' <= c <= '9' || c in "._-"
  }

  predicate ValidUsername(name: string) {
    && 2 <= |name| <= 100
    && ('A' <= name[0] <= 'Z' || 'a' <= name[0] <= 'z')
    && forall i | 0 <= i < |name| :: UsernameChar(name[i])
  }

  function ItemKey(item: Item): string {
    Fold(Strip(item.username))
  }

  predicate ValidBatch(items: seq<Item>) {
    && (forall i | 0 <= i < |items| :: ValidUsername(Strip(items[i].username)))
    && (forall i, j | 0 <= i < j < |items| ::
          ItemKey(items[i]) != ItemKey(items[j]) && items[i].personnelId != items[j].personnelId)
  }

  /** The personnel number or the name belongs to somebody else. */
  predicate Clashes(users: map<string, Account>, item: Item) {
    || (exists k | k in users :: users[k].personnelId == Some(item.personnelId) && k != ItemKey(item))
    || (ItemKey(item) in users && users[ItemKey(item)].personnelId.Some?
        && users[ItemKey(item)].personnelId.value != item.personnelId)
  }

  function CleanProfile(p: Profile): Profile {
    Profile(Strip(p.fullName), Strip(p.role), Strip(p.branch), Strip(p.salesLine), Strip(p.phone),
            Strip(p.phoneStatus), p.supervisor)
  }

  /** A fresh secret takes the place of every secret the account still had. */
  function SecretIssued(s: Identity, key: string, expires: int): Identity {
    s.(activations := SecretsUsed(s.activations, key)[s.minted := Activation(key, expires, false)],
      minted := s.minted + 1)
  }

  function Provisioned(s: Identity, item: Item, expires: int): Identity {
    var key := ItemKey(item);
    var name := if key in s.users then s.users[key].name else Strip(item.username);
    var account := Account(name, Placeholder, true, true, Some(item.personnelId), CleanProfile(item.profile));
    var stored := s.(users := s.users[key := account]);
    SecretIssued(if key in s.users then Revoked(stored, name) else stored, key, expires)
  }

  function AllProvisioned(s: Identity, items: seq<Item>, expires: int): Identity {
    if items == [] then s
    else Provisioned(AllProvisioned(s, items[..|items| - 1], expires), items[|items| - 1], expires)
  }

  /** The names of the batch with their secrets, in order. */
  function SecretsOf(s: Identity, items: seq<Item>): seq<(string, nat)> {
    seq(|items|, i requires 0 <= i < |items| => (Strip(items[i].username), s.minted + i))
  }

  /** How many items of the batch find no account, one without a personnel number, or one with it. */
  function Tally(s: Identity, items: seq<Item>): (r: Bundle)
    ensures r.created + r.claimed + r.updated == |items|
  {
    if items == [] then Bundle(0, 0, 0, [], None)
    else
      var n := |items| - 1;
      var t := Tally(s, items[..n]);
      var key := ItemKey(items[n]);
      if key !in s.users then t.(created := t.created + 1)
      else if s.users[key].personnelId.None? then t.(claimed := t.claimed + 1)
      else t.(updated := t.updated + 1)
  }

  function BundleOf(s: Identity, items: seq<Item>, expires: int): Bundle {
    if items == [] then Bundle(0, 0, 0, [], None)
    else Tally(s, items).(secrets := SecretsOf(s, items), expires := Some(expires))
  }

  predicate BatchAccepted(s: Identity, items: seq<Item>, temporary: Option<string>, ttl: int) {
    && temporary.None? && 300 <= ttl <= 24 * 60 * 60 && ValidBatch(items)
    && forall i | 0 <= i < |items| :: !Clashes(s.users, items[i])
  }

  function Provision(s: Identity, items: seq<Item>, temporary: Option<string>, ttl: int, now: int): Option<Identity> {
    if items == [] then Some(s)
    else if !BatchAccepted(s, items, temporary, ttl) then None
    else Some(AllProvisioned(s, items, now + ttl))
  }

  /** The account that the secret would activate now. */
  function Activates(s: Identity, secret: nat, now: int): Option<string> {
    if secret !in s.activations then None
    else
      var a := s.activations[secret];
      if a.owner !in s.users || a.used || a.expires < now || !s.users[a.owner].active then None
      else Some(a.owner)
  }

  /** `None` is a refused call, `Some(None)` a secret that activates nobody. */
  function Activate(s: Identity, secret: nat, password: string, now: int): (Identity, Option<Option<string>>) {
    if !AcceptablePassword(password) then (s, None)
    else
      match Activates(s, secret, now)
      case None => (s, Some(None))
      case Some(key) =>
        var u := s.users[key];
        var stored := s.(users := s.users[key := u.(password := Chosen(password), mustChange := false)],
                         activations := s.activations[secret := s.activations[secret].(used := true)]);
        (Revoked(stored, u.name), Some(Some(u.name)))
  }

  // ---------------------------------------------------------------------
  // Sessions
  // ---------------------------------------------------------------------

  function Mint(s: Identity, username: string, now: int): Session {
    Session(username, now + SESSION_SECONDS, Generation(s, username))
  }

  /** Fields of a token are separated by bars, so names with a bar cannot be read back. */
  predicate Readable(t: Session) {
    '|' !in t.username
  }

  function SessionUser(s: Identity, config: Option<Configured>, t: Session, now: int): Option<string> {
    if !Readable(t) || t.expires < now || Generation(s, t.username) != t.generation then None
    else if Fold(t.username) in s.users then
      if s.users[Fold(t.username)].active then Some(s.users[Fold(t.username)].name) else None
    else if config.Some? && config.value.username != "" && t.username == config.value.username then Some(t.username)
    else None
  }

  // ---------------------------------------------------------------------
  // Everything that can happen
  // ---------------------------------------------------------------------

  /** `ConsoleSets` and `Grants` are what other parts of the system do to accounts and grants. */
  datatype Event =
    | Provisions(items: seq<Item>, temporary: Option<string>, ttl: int, at: int)
    | Activating(secret: nat, password: string, at: int)
    | PasswordChange(username: string, current: string, next: string)
    | Upserts(username: string, password: string, active: bool)
    | Configures
    | LogsIn(username: string, password: string, at: int)
    | Reads(session: Session, at: int)
    | RevokesSessions(username: string)
    | RevokesCredentials(username: string)
    | ConsoleSets(key: string, active: bool, profile: Profile)
    | Grants(username: string)

  function Step(config: Option<Configured>, s: Identity, e: Event): Identity {
    match e
    case Provisions(items, temporary, ttl, at) =>
      (match Provision(s, items, temporary, ttl, at) case Some(next) => next case None => s)
    case Activating(secret, password, at) => Activate(s, secret, password, at).0
    case PasswordChange(username, current, next) => ChangePassword(s, username, current, next).0
    case Upserts(username, password, active) =>
      (match Upsert(s, username, password, active) case Some(next) => next case None => s)
    case Configures => EnsureConfigured(s, config)
    case LogsIn(username, password, at) =>
      (match Authenticate(s, config, username, password) case Some(name) => Touched(s, name) case None => s)
    case Reads(session, at) => if !Readable(session) || session.expires < at then s else Touched(s, session.username)
    case RevokesSessions(username) => SessionsRevoked(s, username)
    case RevokesCredentials(username) => Revoked(s, username)
    case ConsoleSets(key, active, profile) =>
      if key !in s.users then s else s.(users := s.users[key := s.users[key].(active := active, profile := profile)])
    case Grants(username) => s.(grants := s.grants[s.minted := Grant(Fold(username), true)], minted := s.minted + 1)
  }

  function Run(config: Option<Configured>, s: Identity, events: seq<Event>): Identity {
    if events == [] then s
    else Step(config, Run(config, s, events[..|events| - 1]), events[|events| - 1])
  }
}
