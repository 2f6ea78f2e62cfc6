/**
 What applied operations leave behind for the people behind the rows: accounts
 follow the records they are linked to, deleted rows stay deleted until they
 are written again, and seeded accounts hold their permissions.
 */
module ControlEffects {
  import opened Prelude
  import opened Control
  import opened ControlRuns
  import opened ControlSync

  // ---------------------------------------------------------------------
  // Accounts
  // ---------------------------------------------------------------------

  /** The delivery deletes a personnel record that is linked to the account. */
  predicate DeletesRecordOf(c: Console, d: Audited, account: string) {
    && Deliver(c, d.user, d.op).1.Applied? && d.op.action.DeletePersonnel?
    && Settle(c).Ok? && d.op.entityId in Settle(c).value.tables.personnel
    && var username := Settle(c).value.tables.personnel[d.op.entityId].username;
       username.Some? && username.value != "" && Fold(username.value) == account
  }

  /** The delivery writes a personnel record for the account. */
  predicate WritesRecordOf(c: Console, d: Audited, account: string) {
    && Deliver(c, d.user, d.op).1.Applied? && d.op.action.UpsertPersonnel?
    && Strip(d.op.action.username) != "" && Fold(Strip(d.op.action.username)) == account
  }

  /** Which account an operation may change, and how.  Roles also follow the titles of positions. */
  ghost predicate AccountsFollow(t: Tables, next: Tables, deleted: bool, written: bool, a: Action, account: string)
    requires account in t.users && account in next.users && (written ==> a.UpsertPersonnel?)
  {
    var u, v := t.users[account], next.users[account];
    && v.name == u.name && v.personnelId == u.personnelId
    && v.revocations == u.revocations + One(deleted)
    && v.active == (if deleted then false else if written then a.isActive != Some(false) else u.active)
    && v.fullName == (if written then Strip(a.fullName) else u.fullName)
    && v.branch == (if written then Strip(a.branch) else u.branch)
    && v.salesLine == (if written then Strip(a.salesLine) else u.salesLine)
    && v.phone == (if written then Strip(a.phone) else u.phone)
    && (!written && !a.UpsertPosition? ==> v.role == u.role)
  }

  lemma UpsertPersonnelChangesAccount(t: Tables, user: string, op: Operation, account: string)
    requires Keyed(t) && op.action.UpsertPersonnel? && Handle(t, user, op).Ok? && account in t.users
    ensures var next := Handle(t, user, op).value.0;
            && account in next.users
            && AccountsFollow(t, next, false,
                              Strip(op.action.username) != "" && Fold(Strip(op.action.username)) == account,
                              op.action, account)
  {
    hide PersonnelCodeTaken, UsernameTaken, Fold, Strip, CleanId;
  }

  lemma DeletePersonnelChangesAccount(t: Tables, user: string, op: Operation, account: string)
    requires op.action.DeletePersonnel? && Handle(t, user, op).Ok? && account in t.users
    ensures var next := Handle(t, user, op).value.0;
            && account in next.users && op.entityId in t.personnel
            && var username := t.personnel[op.entityId].username;
               AccountsFollow(t, next, username.Some? && username.value != "" && Fold(username.value) == account, false,
                              op.action, account)
  {
    hide Fold;
  }

  lemma OthersKeepAccount(t: Tables, user: string, op: Operation, account: string)
    requires !op.action.UpsertPersonnel? && !op.action.DeletePersonnel?
    requires Handle(t, user, op).Ok? && account in t.users
    ensures var next := Handle(t, user, op).value.0;
            account in next.users && AccountsFollow(t, next, false, false, op.action, account)
  {
    hide CodeTaken, CleanId, Clean, ValidCode, LinkedTo,
         CleanKeys, CleanView, FindView, FindRecyclable, ClearedDefaults,
         NameTaken, Reassigned, Fold, Strip;
  }

  /**
   Deleting a personnel record deactivates its account and revokes it once;
   writing a record puts its fields on its account; nothing else that is
   delivered activates, deactivates or revokes anybody.
   */
  lemma DeliveryChangesAccount(c: Console, d: Audited, account: string)
    requires Keyed(c.tables) && account in c.tables.users
    ensures var next := Deliver(c, d.user, d.op).0;
            && Keyed(next.tables) && account in next.tables.users
            && AccountsFollow(c.tables, next.tables, DeletesRecordOf(c, d, account), WritesRecordOf(c, d, account),
                              d.op.action, account)
  {
    hide Deliver, SeedUsers, Handle, AccountsFollow, Fold, Strip;
    DeliveryCases(c, d);
    var (next, status) := Deliver(c, d.user, d.op);
    if Settle(c).Ok? {
      SeedingTwiceIsSeedingOnce(c.tables);
    }
    if !status.Applied? {
      SameAccount(c.tables, next.tables, d.op.action, account);
    } else {
      var seeded := Settle(c).value.tables;
      assert seeded.users == c.tables.users;
      HandlersKeepAccounts(seeded, d.user, d.op);
      forall k | k in seeded.users ensures k in next.tables.users && next.tables.users[k].name == seeded.users[k].name {
        HandledAccount(seeded, d.user, d.op, k);
      }
      HandledAccount(seeded, d.user, d.op, account);
      SameUsersFollow(c.tables, seeded, next.tables, DeletesRecordOf(c, d, account), WritesRecordOf(c, d, account),
                      d.op.action, account);
    }
  }

  lemma HandledAccount(t: Tables, user: string, op: Operation, account: string)
    requires Keyed(t) && Handle(t, user, op).Ok? && account in t.users
    ensures var next := Handle(t, user, op).value.0;
            && account in next.users && next.users[account].name == t.users[account].name
            && AccountsFollow(t, next,
                 op.action.DeletePersonnel? && op.entityId in t.personnel
                 && t.personnel[op.entityId].username.Some? && t.personnel[op.entityId].username.value != ""
                 && Fold(t.personnel[op.entityId].username.value) == account,
                 op.action.UpsertPersonnel?
                 && Strip(op.action.username) != "" && Fold(Strip(op.action.username)) == account,
                 op.action, account)
  {
    hide Handle, Fold, Strip;
    if op.action.UpsertPersonnel? {
      UpsertPersonnelChangesAccount(t, user, op, account);
    } else if op.action.DeletePersonnel? {
      DeletePersonnelChangesAccount(t, user, op, account);
    } else {
      OthersKeepAccount(t, user, op, account);
    }
  }

  lemma SameAccount(t: Tables, next: Tables, a: Action, account: string)
    requires account in t.users && next.users == t.users
    ensures AccountsFollow(t, next, false, false, a, account)
  {
  }

  lemma SameUsersFollow(t: Tables, s: Tables, next: Tables, deleted: bool, written: bool, a: Action, account: string)
    requires account in t.users && s.users == t.users && account in next.users && (written ==> a.UpsertPersonnel?)
    requires AccountsFollow(s, next, deleted, written, a, account)
    ensures AccountsFollow(t, next, deleted, written, a, account)
  {
  }

  /** How many of the deliveries delete a record of the account. */
  function Deletions(c: Console, deliveries: seq<Audited>, account: string): nat {
    if deliveries == [] then 0
    else
      var n := |deliveries| - 1;
      Deletions(c, deliveries[..n], account) + One(DeletesRecordOf(Run(c, deliveries[..n]), deliveries[n], account))
  }

  /** Whether the account is active by the last delivery that says so. */
  function LastActive(c: Console, deliveries: seq<Audited>, account: string, initial: bool): bool {
    if deliveries == [] then initial
    else
      var n := |deliveries| - 1;
      var before, d := Run(c, deliveries[..n]), deliveries[n];
      if DeletesRecordOf(before, d, account) then false
      else if WritesRecordOf(before, d, account) then d.op.action.isActive != Some(false)
      else LastActive(c, deliveries[..n], account, initial)
  }

  /**
   After any run of deliveries an account has been revoked once for every applied
   deletion of a record of its own, and it is active as the last applied deletion
   or writing of such a record has it.
   */
  lemma {:induction false} RevocationsCountDeletions(c: Console, deliveries: seq<Audited>, account: string)
    requires Keyed(c.tables) && account in c.tables.users
    ensures var later := Run(c, deliveries).tables;
            && Keyed(later) && account in later.users
            && later.users[account].revocations
               == c.tables.users[account].revocations + Deletions(c, deliveries, account)
            && later.users[account].active == LastActive(c, deliveries, account, c.tables.users[account].active)
  {
    hide Deliver, DeletesRecordOf, WritesRecordOf, Keyed;
    if deliveries != [] {
      var n := |deliveries| - 1;
      RevocationsCountDeletions(c, deliveries[..n], account);
      DeliveryChangesAccount(Run(c, deliveries[..n]), deliveries[n], account);
    }
  }

  /** A deleted person's account stays inactive until a record of it is written again. */
  lemma {:induction false} DeletedAccountStaysInactive(c: Console, d: Audited, later: seq<Audited>, account: string)
    requires Keyed(c.tables) && account in c.tables.users && DeletesRecordOf(c, d, account)
    requires var next := Deliver(c, d.user, d.op).0;
             forall i | 0 <= i < |later| :: !WritesRecordOf(Run(next, later[..i]), later[i], account)
    ensures var next := Run(Deliver(c, d.user, d.op).0, later).tables;
            account in next.users && !next.users[account].active
  {
    hide Deliver, DeletesRecordOf, WritesRecordOf, Keyed;
    var next := Deliver(c, d.user, d.op).0;
    DeliveryChangesAccount(c, d, account);
    RevocationsCountDeletions(next, later, account);
    NobodyActivates(next, later, account);
  }

  lemma {:induction false} NobodyActivates(c: Console, deliveries: seq<Audited>, account: string)
    requires forall i | 0 <= i < |deliveries| :: !WritesRecordOf(Run(c, deliveries[..i]), deliveries[i], account)
    ensures !LastActive(c, deliveries, account, false)
  {
    hide Deliver, DeletesRecordOf, WritesRecordOf;
    if deliveries != [] {
      var n := |deliveries| - 1;
      forall i | 0 <= i < n ensures !WritesRecordOf(Run(c, deliveries[..n][..i]), deliveries[..n][i], account) {
        assert deliveries[..n][..i] == deliveries[..i];
      }
      NobodyActivates(c, deliveries[..n], account);
    }
  }

  // ---------------------------------------------------------------------
  // Rows
  // ---------------------------------------------------------------------

  /** The texts without white space around them, each once, in the order in which they are first mentioned. */
  ghost predicate FirstMentions(raw: seq<string>, columns: seq<string>) {
    && (forall i | 0 <= i < |raw| :: Strip(raw[i]) in columns)
    && (forall a | 0 <= a < |columns| :: Mentions(raw, |raw|, columns[a]))
    && (forall a, b | 0 <= a < b < |columns| :: MentionedBefore(raw, columns[a], columns[b]))
  }

  ghost predicate MentionedBefore(raw: seq<string>, text: string, other: string) {
    exists i | 0 <= i < |raw| :: Strip(raw[i]) == text && !Mentions(raw, i + 1, other)
  }

  /** One of the first `n` texts is this one. */
  ghost predicate Mentions(raw: seq<string>, n: nat, text: string)
    requires n <= |raw|
  {
    exists i | 0 <= i < n :: Strip(raw[i]) == text
  }

  /** Each name with the last value that is not blank. */
  ghost predicate LastValues(raw: seq<(string, string)>, filters: map<string, string>) {
    && (forall i | 0 <= i < |raw| && Strip(raw[i].1) != "" :: Strip(raw[i].0) in filters)
    && (forall k | k in filters :: exists i | 0 <= i < |raw| :: IsLastValue(raw, i, k, filters[k]))
  }

  ghost predicate IsLastValue(raw: seq<(string, string)>, i: nat, name: string, value: string)
    requires i < |raw|
  {
    && Strip(raw[i].0) == name && Strip(raw[i].1) == value != ""
    && forall j | i < j < |raw| && Strip(raw[j].0) == name :: Strip(raw[j].1) == ""
  }

  /** The columns of a view are the listed ones by first mention, and there are none exactly when one is unknown. */
  lemma {:induction false} CleanedColumns(raw: seq<string>, n: nat)
    requires n <= |raw|
    ensures var r := CleanColumns(raw[..n], []);
            && (r.Some? <==> forall i | 0 <= i < n :: Strip(raw[i]) in DIRECTORY_KEYS)
            && (r.Some? ==> FirstMentions(raw[..n], r.value))
  {
    hide Strip, DIRECTORY_KEYS, CleanColumns, FirstMentions;
    NothingCleaned();
    if n > 0 {
      CleanedColumns(raw, n - 1);
      assert raw[..n] == raw[..n - 1] + [raw[n - 1]];
      OneMoreColumn(raw[..n - 1], raw[n - 1], []);
      var r := CleanColumns(raw[..n - 1], []);
      if r.Some? && CleanColumns(raw[..n], []).Some? {
        OneMoreMention(raw[..n - 1], raw[n - 1], r.value);
      }
    }
  }

  lemma NothingCleaned()
    ensures CleanColumns([], []) == Some([]) && FirstMentions([], [])
    ensures CleanFilters([], map[]) == Some(map[]) && LastValues([], map[])
  {
  }

  lemma {:induction false} OneMoreColumn(raw: seq<string>, last: string, seen: seq<string>)
    ensures CleanColumns(raw + [last], seen)
            == match CleanColumns(raw, seen)
               case None => None
               case Some(columns) =>
                 if Strip(last) !in DIRECTORY_KEYS then None
                 else Some(if Strip(last) in columns then columns else columns + [Strip(last)])
    decreases |raw|
  {
    hide Strip;
    KnownKeysAreShort(last);
    if raw == [] {
      assert raw + [last] == [last] && [last][1..] == [];
    } else {
      assert (raw + [last])[1..] == raw[1..] + [last];
      var key := Clean(raw[0], true, 80);
      if key.Some? && key.value in DIRECTORY_KEYS {
        OneMoreColumn(raw[1..], last, if key.value in seen then seen else seen + [key.value]);
      }
    }
  }

  lemma KnownKeysAreShort(text: string)
    ensures Clean(text, true, 80).Some? && Clean(text, true, 80).value in DIRECTORY_KEYS
            <==> Strip(text) in DIRECTORY_KEYS
  {
    hide Strip;
  }

  lemma OneMoreMention(raw: seq<string>, last: string, columns: seq<string>)
    requires FirstMentions(raw, columns)
    ensures FirstMentions(raw + [last], if Strip(last) in columns then columns else columns + [Strip(last)])
  {
    hide Strip, Mentions, MentionedBefore;
    var more := raw + [last];
    var next := if Strip(last) in columns then columns else columns + [Strip(last)];
    forall a | 0 <= a < |next| ensures Mentions(more, |more|, next[a]) {
      MoreMentions(raw, last, next[a]);
      assert a < |columns| ==> Mentions(raw, |raw|, columns[a]);
    }
    forall a, b | 0 <= a < b < |next| ensures MentionedBefore(more, next[a], next[b]) {
      assert Mentions(raw, |raw|, columns[a]);
      OnlyColumnsAreMentioned(raw, columns, next[b]);
      assert b < |columns| ==> MentionedBefore(raw, columns[a], columns[b]);
      StaysBefore(raw, last, next[a], next[b]);
    }
  }

  lemma OnlyColumnsAreMentioned(raw: seq<string>, columns: seq<string>, text: string)
    requires FirstMentions(raw, columns)
    ensures Mentions(raw, |raw|, text) ==> text in columns
  {
  }

  lemma MoreMentions(raw: seq<string>, last: string, text: string)
    ensures Mentions(raw + [last], |raw| + 1, text) <==> Mentions(raw, |raw|, text) || Strip(last) == text
  {
    hide Strip;
    var more := raw + [last];
    assert more[|raw|] == last && forall i | 0 <= i < |raw| :: more[i] == raw[i];
  }

  lemma StaysBefore(raw: seq<string>, last: string, text: string, other: string)
    requires Mentions(raw, |raw|, text)
    requires MentionedBefore(raw, text, other) || !Mentions(raw, |raw|, other)
    ensures MentionedBefore(raw + [last], text, other)
  {
    hide Strip;
    var more := raw + [last];
    var i :| 0 <= i < |raw| && Strip(raw[i]) == text && !Mentions(raw, i + 1, other);
    SameMentions(raw, last, i + 1, other);
    assert Strip(more[i]) == text;
  }

  lemma SameMentions(raw: seq<string>, last: string, n: nat, text: string)
    requires n <= |raw|
    ensures Mentions(raw + [last], n, text) == Mentions(raw, n, text)
  {
    hide Strip;
    assert forall i | 0 <= i < n :: (raw + [last])[i] == raw[i];
  }

  /** The filters of a view are the last values given, and there are none exactly when a name is unknown or
      a value too long. */
  lemma {:induction false} CleanedFilters(raw: seq<(string, string)>, n: nat)
    requires n <= |raw|
    ensures var r := CleanFilters(raw[..n], map[]);
            && (r.Some? <==> forall i | 0 <= i < n :: Strip(raw[i].0) in DIRECTORY_KEYS && |Strip(raw[i].1)| <= 200)
            && (r.Some? ==> LastValues(raw[..n], r.value))
  {
    hide Strip, DIRECTORY_KEYS, CleanFilters, LastValues;
    NothingCleaned();
    if n > 0 {
      CleanedFilters(raw, n - 1);
      assert raw[..n] == raw[..n - 1] + [raw[n - 1]];
      OneMoreFilter(raw[..n - 1], raw[n - 1], map[]);
      var r := CleanFilters(raw[..n - 1], map[]);
      if r.Some? && CleanFilters(raw[..n], map[]).Some? {
        OneMoreValue(raw[..n - 1], raw[n - 1], r.value);
      }
    }
  }

  lemma {:induction false} OneMoreFilter(raw: seq<(string, string)>, last: (string, string), kept: map<string, string>)
    ensures CleanFilters(raw + [last], kept)
            == match CleanFilters(raw, kept)
               case None => None
               case Some(filters) =>
                 if Strip(last.0) !in DIRECTORY_KEYS || |Strip(last.1)| > 200 then None
                 else Some(if Strip(last.1) != "" then filters[Strip(last.0) := Strip(last.1)] else filters)
    decreases |raw|
  {
    hide Strip;
    KnownKeysAreShort(last.0);
    if raw == [] {
      assert raw + [last] == [last] && [last][1..] == [];
    } else {
      assert (raw + [last])[1..] == raw[1..] + [last];
      var key, value := Clean(raw[0].0, true, 80), Clean(raw[0].1, false, 200);
      if key.Some? && value.Some? && key.value in DIRECTORY_KEYS {
        OneMoreFilter(raw[1..], last, if value.value != "" then kept[key.value := value.value] else kept);
      }
    }
  }

  lemma OneMoreValue(raw: seq<(string, string)>, last: (string, string), filters: map<string, string>)
    requires LastValues(raw, filters)
    ensures LastValues(raw + [last], if Strip(last.1) != "" then filters[Strip(last.0) := Strip(last.1)] else filters)
  {
    hide Strip;
    var more := raw + [last];
    var next := if Strip(last.1) != "" then filters[Strip(last.0) := Strip(last.1)] else filters;
    forall k | k in next ensures exists i | 0 <= i < |more| :: IsLastValue(more, i, k, next[k]) {
      if Strip(last.1) != "" && k == Strip(last.0) {
        assert IsLastValue(more, |raw|, k, next[k]);
      } else {
        var i :| 0 <= i < |raw| && IsLastValue(raw, i, k, filters[k]);
        assert IsLastValue(more, i, k, next[k]);
      }
    }
  }

  /** An applied operation leaves its row as it was asked for. */
  ghost predicate AsAsked(next: Tables, d: Audited) {
    match d.op.action
    case UpsertPosition(code, title, description, active) =>
      && d.op.entityId in next.positions
      && var row := next.positions[d.op.entityId];
         && !row.deleted && row.active == (active != Some(false))
         && row.title == Strip(title) && row.description == Strip(description)
         && row.code == (if code.Given? then Given(Strip(code.text)) else code)
    case UpsertPersonnel(code, fullName, position, username, phone, branch, line, active) =>
      && d.op.entityId in next.personnel
      && var row := next.personnel[d.op.entityId];
         && !row.deleted && row.active == (active != Some(false))
         && row.code == Strip(code) && row.fullName == Strip(fullName) && row.phone == Strip(phone)
         && row.branch == Strip(branch) && row.salesLine == Strip(line)
         && row.position == (if position.Given? then Given(Strip(position.text)) else position)
         && row.position in next.positions && !next.positions[row.position].deleted
         && (row.username == None <==> Strip(username) == "")
         && (row.username.Some? ==> Fold(row.username.value) == Fold(Strip(username)))
    case UpsertView(name, isDefault, pageSize, status, columns, filters) =>
      exists i | 0 <= i < |next.views| ::
        && next.views[i].id == d.op.entityId && Owns(d.user, next.views[i]) && !next.views[i].deleted
        && var v := next.views[i].settings;
           && v.name == Strip(name) && v.isDefault == (isDefault == Some(true)) && v.pageSize == pageSize
           && v.statusFilter == (if status == "" then "all" else Strip(status))
           && FirstMentions(columns, v.columns) && LastValues(filters, v.filters)
    case DeletePosition =>
      d.op.entityId in next.positions && next.positions[d.op.entityId].deleted && !next.positions[d.op.entityId].active
    case DeletePersonnel =>
      d.op.entityId in next.personnel && next.personnel[d.op.entityId].deleted && !next.personnel[d.op.entityId].active
    case DeleteView =>
      exists i | 0 <= i < |next.views| ::
        next.views[i].id == d.op.entityId && Owns(d.user, next.views[i]) && next.views[i].deleted
    case _ => true
  }

  lemma HandledRowIsAsAsked(t: Tables, d: Audited)
    requires Keyed(t) && Handle(t, d.user, d.op).Ok?
    ensures AsAsked(Handle(t, d.user, d.op).value.0, d)
  {
    hide CodeTaken, ValidCode, LinkedTo, PersonnelCodeTaken, UsernameTaken, CleanKeys, CleanColumns, CleanFilters,
         ClearedDefaults, NameTaken, Reassigned, Fold, Strip;
    if d.op.action.UpsertView? {
      StoredViewIsAsAsked(t, d);
    } else if d.op.action.UpsertPersonnel? {
      StoredPersonIsAsAsked(t, d);
    } else if d.op.action.DeleteView? {
      DeletedViewIsGone(t, d);
    }
  }

  lemma DeletedViewIsGone(t: Tables, d: Audited)
    requires d.op.action.DeleteView? && Handle(t, d.user, d.op).Ok?
    ensures AsAsked(Handle(t, d.user, d.op).value.0, d)
  {
    hide Fold;
    FoundViews(t.views, d.op.entityId, d.user, "");
    var i := FindView(t.views, d.op.entityId).value;
    var next := Handle(t, d.user, d.op).value.0.views;
    assert next[i].id == d.op.entityId;
  }

  lemma StoredPersonIsAsAsked(t: Tables, d: Audited)
    requires Keyed(t) && d.op.action.UpsertPersonnel? && Handle(t, d.user, d.op).Ok?
    ensures AsAsked(Handle(t, d.user, d.op).value.0, d)
  {
    hide PersonnelCodeTaken, UsernameTaken, Fold, Strip;
  }

  lemma AllIsAll()
    ensures Strip("all") == "all"
  {
  }

  lemma StoredViewIsAsAsked(t: Tables, d: Audited)
    requires d.op.action.UpsertView? && Handle(t, d.user, d.op).Ok?
    ensures AsAsked(Handle(t, d.user, d.op).value.0, d)
  {
    hide Handle, CleanView, Owns;
    var i := ViewIsStored(t, d.user, d.op);
    CleanedView(d.op.action);
    var next := Handle(t, d.user, d.op).value.0;
    assert next.views[i].id == d.op.entityId;
  }

  /** Where the view was written. */
  lemma ViewIsStored(t: Tables, user: string, op: Operation) returns (i: nat)
    requires op.action.UpsertView? && Handle(t, user, op).Ok?
    ensures CleanView(op.action).Some?
    ensures var views := Handle(t, user, op).value.0.views;
            && i < |views| && views[i].id == op.entityId && views[i].settings == CleanView(op.action).value
            && !views[i].deleted && Owns(user, views[i])
  {
    hide CleanView, NameTaken, Fold;
    var v := CleanView(op.action).value;
    FoundViews(t.views, op.entityId, user, v.name);
    var row, recyclable := FindView(t.views, op.entityId), FindRecyclable(t.views, user, v.name);
    i := if row.Some? then row.value else if recyclable.Some? then recyclable.value else |t.views|;
  }

  lemma CleanedView(a: Action)
    requires a.UpsertView? && CleanView(a).Some?
    ensures var v := CleanView(a).value;
            && v.name == Strip(a.name) && v.isDefault == (a.isDefault == Some(true)) && v.pageSize == a.pageSize
            && v.statusFilter == (if a.statusFilter == "" then "all" else Strip(a.statusFilter))
            && FirstMentions(a.columns, v.columns) && LastValues(a.filters, v.filters)
  {
    hide CleanColumns, CleanFilters, Strip, FirstMentions, LastValues;
    CleanedColumns(a.columns, |a.columns|);
    CleanedFilters(a.filters, |a.filters|);
    assert a.columns[..|a.columns|] == a.columns && a.filters[..|a.filters|] == a.filters;
    AllIsAll();
  }

  predicate Reusable(v: View, user: string, name: string) {
    Owns(user, v) && v.deleted && Fold(v.settings.name) == Fold(name)
  }

  lemma {:induction false} RecyclableIs(views: seq<View>, user: string, name: string)
    ensures match FindRecyclable(views, user, name)
            case Some(i) => i < |views| && Reusable(views[i], user, name)
            case None => forall i | 0 <= i < |views| :: !Reusable(views[i], user, name)
  {
    hide Fold;
    if views != [] {
      RecyclableIs(views[1..], user, name);
      if FindRecyclable(views, user, name).None? {
        forall i | 0 <= i < |views| ensures !Reusable(views[i], user, name) {
          assert i > 0 ==> views[i] == views[1..][i - 1];
        }
      }
    }
  }

  /** Another row of the user that was the default until a new default was written. */
  predicate LosesDefault(v: View, user: string, op: Operation)
    requires op.action.UpsertView?
  {
    op.action.isDefault == Some(true) && Owns(user, v) && v.settings.isDefault && !v.deleted && v.id != op.entityId
  }

  /** What becomes of the other rows when a view is written. */
  ghost predicate OthersAfterView(t: Tables, user: string, op: Operation, next: seq<View>, i: nat)
    requires op.action.UpsertView? && |t.views| <= |next|
  {
    forall j | 0 <= j < |t.views| && j != i :: next[j] ==
      if LosesDefault(t.views[j], user, op)
      then t.views[j].(settings := t.views[j].settings.(isDefault := false), revision := t.views[j].revision + 1)
      else t.views[j]
  }

  /**
   A view is written to the row with its identifier, or else to a deleted row of
   the user with its name, or else to a new row; the row's revision grows by one,
   other defaults of the user are cleared, and nothing else changes.
   */
  lemma WrittenViewIsExact(t: Tables, user: string, op: Operation) returns (i: nat)
    requires op.action.UpsertView? && Handle(t, user, op).Ok?
    ensures var next, name := Handle(t, user, op).value.0.views, Strip(op.action.name);
            && i < |next| && next[i].id == op.entityId
            && (if exists j | 0 <= j < |t.views| :: t.views[j].id == op.entityId then
                  |next| == |t.views| && t.views[i].id == op.entityId
                else if exists j | 0 <= j < |t.views| :: Reusable(t.views[j], user, name) then
                  |next| == |t.views| && Reusable(t.views[i], user, name)
                else |next| == |t.views| + 1 && i == |t.views|)
            && next[i].revision == (if i < |t.views| then t.views[i].revision + 1 else 1)
            && next[i].username == (if i < |t.views| then t.views[i].username else user)
            && OthersAfterView(t, user, op, next, i)
  {
    hide Handle, Reusable, LosesDefault, OthersAfterView, Cleared, TargetRow, Strip;
    i := TargetRow(t, user, op);
    TargetRowIs(t, user, op);
    var settings := WrittenTo(t, user, op);
    var cleared := Cleared(t, user, op);
    ClearedAre(t, user, op);
    assert i < |t.views| ==> cleared[i].username == t.views[i].username;
    var row := View(op.entityId, if i < |t.views| then t.views[i].username else user, settings,
                    if i < |t.views| then t.views[i].revision + 1 else 1, false);
    OthersWritten(t, user, op, if i < |t.views| then cleared[i := row] else cleared + [row], i);
  }

  /** The rows after defaults were cleared, and before the view was written. */
  function Cleared(t: Tables, user: string, op: Operation): seq<View>
    requires op.action.UpsertView?
  {
    if op.action.isDefault == Some(true) then ClearedDefaults(t.views, user, op.entityId) else t.views
  }

  lemma ClearedAre(t: Tables, user: string, op: Operation)
    requires op.action.UpsertView?
    ensures var cleared := Cleared(t, user, op);
            && |cleared| == |t.views|
            && forall j | 0 <= j < |t.views| ::
                 && cleared[j].username == t.views[j].username
                 && cleared[j] == if LosesDefault(t.views[j], user, op)
                                  then t.views[j].(settings := t.views[j].settings.(isDefault := false),
                                                   revision := t.views[j].revision + 1)
                                  else t.views[j]
  {
    hide Fold;
  }

  lemma OthersWritten(t: Tables, user: string, op: Operation, next: seq<View>, i: nat)
    requires op.action.UpsertView? && |t.views| <= |next|
    requires forall j | 0 <= j < |t.views| && j != i :: j < |Cleared(t, user, op)| && next[j] == Cleared(t, user, op)[j]
    ensures OthersAfterView(t, user, op, next, i)
  {
    hide LosesDefault, Cleared;
    ClearedAre(t, user, op);
  }

  function TargetRow(t: Tables, user: string, op: Operation): nat
    requires op.action.UpsertView?
  {
    match FindView(t.views, op.entityId)
    case Some(i) => i
    case None =>
      match FindRecyclable(t.views, user, Strip(op.action.name)) case Some(i) => i case None => |t.views|
  }

  lemma TargetRowIs(t: Tables, user: string, op: Operation)
    requires op.action.UpsertView?
    ensures var i, name := TargetRow(t, user, op), Strip(op.action.name);
            if exists j | 0 <= j < |t.views| :: t.views[j].id == op.entityId then
              i < |t.views| && t.views[i].id == op.entityId
            else if exists j | 0 <= j < |t.views| :: Reusable(t.views[j], user, name) then
              i < |t.views| && Reusable(t.views[i], user, name)
            else i == |t.views|
  {
    hide Reusable, Strip, Owns;
    FoundViews(t.views, op.entityId, user, Strip(op.action.name));
    RecyclableIs(t.views, user, Strip(op.action.name));
  }

  lemma WrittenTo(t: Tables, user: string, op: Operation) returns (settings: ViewSettings)
    requires op.action.UpsertView? && Handle(t, user, op).Ok?
    ensures var next, cleared, i := Handle(t, user, op).value.0.views, Cleared(t, user, op), TargetRow(t, user, op);
            && |cleared| == |t.views| && i <= |t.views|
            && next == if i < |t.views|
                       then cleared[
                         i := View(op.entityId, cleared[i].username, settings, t.views[i].revision + 1, false)]
                       else cleared + [View(op.entityId, user, settings, 1, false)]
  {
    hide CleanView, NameTaken, Fold, Strip, Owns, ClearedDefaults, FirstMentions, LastValues, LosesDefault;
    settings := CleanView(op.action).value;
    CleanedView(op.action);
    ClearedAre(t, user, op);
    FoundViews(t.views, op.entityId, user, settings.name);
  }

  /** Deleting a view marks its row, which is no default any more, and touches no other. */
  lemma DeletedViewIsExact(t: Tables, user: string, op: Operation) returns (i: nat)
    requires op.action.DeleteView? && Handle(t, user, op).Ok?
    ensures var next := Handle(t, user, op).value.0.views;
            && |next| == |t.views| && i < |t.views| && t.views[i].id == op.entityId && Owns(user, t.views[i])
            && next[i].deleted && next[i].revision == t.views[i].revision + 1
            && next[i].settings == t.views[i].settings.(isDefault := false)
            && forall j | 0 <= j < |t.views| && j != i :: next[j] == t.views[j]
  {
    hide Fold;
    FoundViews(t.views, op.entityId, user, "");
    i := FindView(t.views, op.entityId).value;
  }

  /** Every applied delivery leaves its row as it was asked for. */
  lemma AppliedIsAsAsked(c: Console, d: Audited)
    requires Keyed(c.tables) && Deliver(c, d.user, d.op).1.Applied?
    ensures AsAsked(Deliver(c, d.user, d.op).0.tables, d)
  {
    hide Deliver, SeedUsers, Handle, AsAsked;
    DeliveryCases(c, d);
    SeedingTwiceIsSeedingOnce(c.tables);
    HandledRowIsAsAsked(Settle(c).value.tables, d);
  }

  predicate Gone(t: Tables, row: Counter) {
    match row
    case OfPosition(id) => id in t.positions && t.positions[id].deleted && !t.positions[id].active
    case OfPersonnel(id) => id in t.personnel && t.personnel[id].deleted && !t.personnel[id].active
    case _ => false
  }

  predicate Restores(c: Console, d: Audited, row: Counter) {
    && Deliver(c, d.user, d.op).1.Applied?
    && ((d.op.action.UpsertPosition? && row == OfPosition(d.op.entityId))
        || (d.op.action.UpsertPersonnel? && row == OfPersonnel(d.op.entityId)))
  }

  lemma HandlersKeepGone(t: Tables, user: string, op: Operation, row: Counter)
    requires Handle(t, user, op).Ok? && Gone(t, row)
    requires !(op.action.UpsertPosition? && row == OfPosition(op.entityId))
    requires !(op.action.UpsertPersonnel? && row == OfPersonnel(op.entityId))
    ensures Gone(Handle(t, user, op).value.0, row)
  {
    hide CodeTaken, CleanId, Clean, ValidCode, WithRoleOf, CleanPerson, CleanKeys, PersonnelCodeTaken, UsernameTaken,
         WithPerson, Revoked, CleanView, FindView, FindRecyclable, ClearedDefaults, NameTaken, Reassigned, Fold;
  }

  lemma DeliveryKeepsGone(c: Console, d: Audited, row: Counter)
    requires Gone(c.tables, row) && !Restores(c, d, row)
    ensures Gone(Deliver(c, d.user, d.op).0.tables, row)
  {
    hide Deliver, SeedUsers, Handle;
    DeliveryCases(c, d);
    if Settle(c).Ok? {
      SeedingTwiceIsSeedingOnce(c.tables);
      if Deliver(c, d.user, d.op).1.Applied? {
        HandlersKeepGone(Settle(c).value.tables, d.user, d.op, row);
      }
    }
  }

  /** A deleted position or record stays deleted until it is written again: seeding does not bring
      it back, and no other operation does. */
  lemma {:induction false} DeletedStaysDeleted(c: Console, deliveries: seq<Audited>, row: Counter)
    requires Gone(c.tables, row)
    requires forall i | 0 <= i < |deliveries| :: !Restores(Run(c, deliveries[..i]), deliveries[i], row)
    ensures Gone(Run(c, deliveries).tables, row)
  {
    hide Deliver, Restores, Gone;
    if deliveries != [] {
      var n := |deliveries| - 1;
      forall i | 0 <= i < n ensures !Restores(Run(c, deliveries[..n][..i]), deliveries[..n][i], row) {
        assert deliveries[..n][..i] == deliveries[..i];
      }
      DeletedStaysDeleted(c, deliveries[..n], row);
      DeliveryKeepsGone(Run(c, deliveries[..n]), deliveries[n], row);
    }
  }

  // ---------------------------------------------------------------------
  // Seeded permissions
  // ---------------------------------------------------------------------

  lemma SettledAccountHoldsPermissions(t: Tables, account: string)
    requires account in t.users && Settled(t, account)
    ensures DefaultPermissions(t.users[account]) <= Permissions(t, LegacyPosition(t.users[account]))
  {
    hide Fold, Decimal, RoleTitle, DefaultPermissions, CodeTaken, PersonExists, SeededPersonId, SeededPerson;
    var u := t.users[account];
    var t1 := SeedPosition(t, u);
    SeedingStepsExtend(t, u);
    var t2 := SeedLinks(t1, u).value;
    SeedingStepsExtend(t1, u);
    SeedingStepsExtend(t2, u);
    assert SeedPerson(t2, u).value.links == t2.links;
    forall k | k in DefaultPermissions(u) ensures k in Permissions(t, LegacyPosition(u)) {
      assert (LegacyPosition(u), k) in t2.links;
    }
  }

  /** A position that seeding adds has the role of an account for its title, or says that there is none. */
  lemma SeededPositionIsTitled(t: Tables, u: User)
    requires LegacyPosition(u) !in t.positions && LegacyPosition(u) in SeedPosition(t, u).positions
    ensures SeedPosition(t, u).positions[LegacyPosition(u)].title
            == if Strip(u.role) == "" then "بدون سمت" else Strip(u.role)
  {
    hide Fold, Strip, CodeTaken;
  }

  /** After seeding, the position of every administrator manages the console and that of every seller
      opens the workspace. */
  lemma SeededAccountsHoldPermissions(t: Tables, account: string)
    requires Seed(t).Ok? && account in t.accounts && account in t.users
    ensures var s, u := Seed(t).value, t.users[account];
            var granted := Permissions(s, LegacyPosition(u));
            if Fold(u.name) == "admin" || Fold(RoleTitle(u)) in ADMIN_ROLES
            then {"control.manage", "planning.manage", "organization.manage", "reports.full"} <= granted
            else Fold(RoleTitle(u)) == SELLER_ROLE ==> "seller.workspace" in granted
  {
    hide Settled, SeedUsers, Permissions, Fold, RoleTitle;
    SeedUsersSettle(t, t.accounts);
    SettledAccountHoldsPermissions(Seed(t).value, account);
  }
}
