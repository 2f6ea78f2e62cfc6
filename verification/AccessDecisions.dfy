/**
 What is decided about a table, said in terms of the catalogue and of names
 alone, and what an accepted statement owes to those decisions.
 */
module AccessDecisions {
  import opened Prelude
  import opened Query
  import opened Access
  import opened QueryCongruence
  import opened AccessScope
  import opened AccessTheorems

  // ---------------------------------------------------------------------
  // Names
  // ---------------------------------------------------------------------

  predicate StandsAt(text: string, part: string, i: nat) {
    i + |part| <= |text| && text[i..i + |part|] == part
  }

  ghost predicate Contains(text: string, part: string) {
    exists i: nat :: StandsAt(text, part, i)
  }

  lemma StandsAtLater(text: string, part: string, i: nat)
    requires text != ""
    ensures StandsAt(text, part, i + 1) <==> StandsAt(text[1..], part, i)
  {
    if i + 1 + |part| <= |text| {
      assert text[1..][i..i + |part|] == text[i + 1..i + 1 + |part|];
    }
  }

  lemma StandsFirst(text: string, part: string)
    ensures StandsAt(text, part, 0) <==> part <= text
    ensures text == "" ==> forall i: nat | i > 0 :: !StandsAt(text, part, i)
  {
  }

  lemma {:induction false} OccursIsContains(part: string, text: string)
    ensures Occurs(part, text) <==> Contains(text, part)
  {
    hide StandsAt;
    StandsFirst(text, part);
    if text != "" {
      OccursIsContains(part, text[1..]);
      if Contains(text[1..], part) {
        var i: nat :| StandsAt(text[1..], part, i);
        StandsAtLater(text, part, i);
      }
      if Contains(text, part) {
        var i: nat :| StandsAt(text, part, i);
        if i > 0 {
          StandsAtLater(text, part, i - 1);
        }
      }
    }
  }

  lemma {:induction false} NormalizedInParts(a: string, b: string)
    ensures Normalized(a + b) == Normalized(a) + Normalized(b)
  {
    FoldAppend(a, b);
    KeptInParts(Fold(a), Fold(b));
  }

  lemma {:induction false} KeptInParts(a: string, b: string)
    ensures KeepAlphanumeric(a + b) == KeepAlphanumeric(a) + KeepAlphanumeric(b)
  {
    if a == [] {
      assert a + b == b;
    } else {
      assert (a + b)[1..] == a[1..] + b && (a + b)[0] == a[0];
      KeptInParts(a[1..], b);
      var first := if 'a' <= a[0] <= 'z' || '0' <= a[0] <= '9' then [a[0]] else [];
      assert first + (KeepAlphanumeric(a[1..]) + KeepAlphanumeric(b))
          == (first + KeepAlphanumeric(a[1..])) + KeepAlphanumeric(b);
    }
  }

  predicate PlainChar(c: char) {
    'a' <= c <= 'z' || '0' <= c <= '9'
  }

  /** Names are compared by their letters and digits alone, without regard to case. */
  lemma {:induction false} NormalizedIsPlain(s: string)
    ensures forall i | 0 <= i < |Normalized(s)| :: PlainChar(Normalized(s)[i])
    ensures (forall i | 0 <= i < |s| :: PlainChar(s[i])) ==> Normalized(s) == s
    ensures Normalized(Fold(s)) == Normalized(s)
  {
    if s != "" {
      NormalizedIsPlain(s[1..]);
      assert Normalized(s) == (if PlainChar(FoldChar(s[0])) then [FoldChar(s[0])] else []) + Normalized(s[1..]);
      assert FoldChar(FoldChar(s[0])) == FoldChar(s[0]);
      assert Fold(Fold(s)) == [FoldChar(s[0])] + Fold(Fold(s[1..]));
    }
  }

  /** A forbidden word is found anywhere in the name of a column, in capitals and through underscores. */
  lemma MarkersAreFound(before: string, word: string, after: string)
    requires Normalized(word) in FORBIDDEN_COLUMN_MARKERS
    ensures ForbiddenColumn(before + word + after)
  {
    hide Normalized;
    NormalizedInParts(before + word, after);
    NormalizedInParts(before, word);
    var text, marker := Normalized(before + word + after), Normalized(word);
    var n := |Normalized(before)|;
    assert StandsAt(text, marker, n);
    OccursIsContains(marker, text);
    var i :| 0 <= i < |FORBIDDEN_COLUMN_MARKERS| && FORBIDDEN_COLUMN_MARKERS[i] == marker;
  }

  // ---------------------------------------------------------------------
  // What the catalogue says about a table
  // ---------------------------------------------------------------------

  ghost predicate Marked(source: string) {
    exists m | m in FORBIDDEN_SOURCE_MARKERS :: Contains(source, m)
  }

  predicate Prefixed(source: string) {
    exists p | p in CUSTOMER_SOURCE_PREFIXES :: p <= source
  }

  /** Reviewed tables are read unless they are restricted; others when they are listed, or named like
      customer tables and not like tables of the back office. */
  ghost predicate MayBeRead(e: Entry) {
    match e.access
    case Some(RestrictedAccess) => false
    case Some(CustomerScope) => true
    case Some(Reference) => true
    case None =>
      var source := SourceKey(e.schema, e.name);
      source in CUSTOMER_SOURCES || source in REFERENCE_SOURCES || (Prefixed(source) && !Marked(source))
  }

  predicate HoldsCustomers(e: Entry) {
    match e.access
    case Some(CustomerScope) => true
    case Some(_) => false
    case None =>
      var source := SourceKey(e.schema, e.name);
      source in CUSTOMER_SOURCES || Prefixed(source)
  }

  lemma NamesDecide(source: string)
    ensures HasCustomerPrefix(source) <==> Prefixed(source)
    ensures IsSourceAllowed(source) <==>
            source in CUSTOMER_SOURCES || source in REFERENCE_SOURCES || (Prefixed(source) && !Marked(source))
  {
    hide Occurs, CUSTOMER_SOURCES, REFERENCE_SOURCES, Contains;
    forall m {
      OccursIsContains(m, source);
    }
    if HasCustomerPrefix(source) {
      var i :| 0 <= i < |CUSTOMER_SOURCE_PREFIXES| && CUSTOMER_SOURCE_PREFIXES[i] <= source;
      assert CUSTOMER_SOURCE_PREFIXES[i] in CUSTOMER_SOURCE_PREFIXES;
    }
    if Marked(source) {
      var m :| m in FORBIDDEN_SOURCE_MARKERS && Contains(source, m);
      var i :| 0 <= i < |FORBIDDEN_SOURCE_MARKERS| && FORBIDDEN_SOURCE_MARKERS[i] == m;
      assert Occurs(FORBIDDEN_SOURCE_MARKERS[i], source);
    }
    if exists i | 0 <= i < |FORBIDDEN_SOURCE_MARKERS| :: Occurs(FORBIDDEN_SOURCE_MARKERS[i], source) {
      var i :| 0 <= i < |FORBIDDEN_SOURCE_MARKERS| && Occurs(FORBIDDEN_SOURCE_MARKERS[i], source);
      assert FORBIDDEN_SOURCE_MARKERS[i] in FORBIDDEN_SOURCE_MARKERS;
    }
  }

  // ---------------------------------------------------------------------
  // The column that tells customers apart
  // ---------------------------------------------------------------------

  predicate Named(e: Entry, i: nat, normalized: string)
    requires i < |e.columns|
  {
    Normalized(e.columns[i].name) == normalized
  }

  predicate HasName(e: Entry, normalized: string) {
    exists i | 0 <= i < |e.columns| :: Named(e, i, normalized)
  }

  /** The first of these names that a column has, and the last column that has it. */
  ghost predicate BestColumn(e: Entry, names: seq<string>, i: nat) {
    && i < |e.columns|
    && (forall j | i < j < |e.columns| :: !Named(e, j, Normalized(e.columns[i].name)))
    && exists k | 0 <= k < |names| ::
         Named(e, i, names[k]) && forall j | 0 <= j < k :: !HasName(e, names[j])
  }

  predicate HasAny(e: Entry, names: seq<string>) {
    exists k | 0 <= k < |names| :: HasName(e, names[k])
  }

  predicate UniqueIdentifier(c: ColumnInfo) {
    Fold(c.dataType) == "uniqueidentifier"
  }

  /** By which column rows belong to customers, and with what of a customer it is compared. */
  ghost predicate ScopesBy(e: Entry, i: nat, kind: ScopeKind) {
    var source := SourceKey(e.schema, e.name);
    && i < |e.columns|
    && if HasAny(e, CUSTOMER_ID_COLUMNS) then
         && BestColumn(e, CUSTOMER_ID_COLUMNS, i)
         && kind == if UniqueIdentifier(e.columns[i]) then UniqueId else BackofficeNumber
       else if HasAny(e, CUSTOMER_UNIQUE_ID_COLUMNS) then
         BestColumn(e, CUSTOMER_UNIQUE_ID_COLUMNS, i) && kind == UniqueId
       else if source == "gnr.vwcust" then BestColumn(e, ["id"], i) && kind == BackofficeNumber
       else source == "fru.ngt_tourcustomermodel" && BestColumn(e, ["backofficeid"], i) && kind == BackofficeText
  }

  lemma {:induction false} ColumnNamedIsLast(columns: seq<ColumnInfo>, normalized: string)
    ensures match ColumnNamed(columns, normalized)
            case Some(c) => exists i | 0 <= i < |columns| ::
              && columns[i] == c && Normalized(c.name) == normalized
              && forall j | i < j < |columns| :: Normalized(columns[j].name) != normalized
            case None => forall i | 0 <= i < |columns| :: Normalized(columns[i].name) != normalized
  {
    hide Normalized;
    if columns != [] {
      var n := |columns| - 1;
      if Normalized(columns[n].name) == normalized {
        assert columns[n] == ColumnNamed(columns, normalized).value;
      } else {
        ColumnNamedIsLast(columns[..n], normalized);
        if ColumnNamed(columns, normalized).Some? {
          var c := ColumnNamed(columns, normalized).value;
          var i :| 0 <= i < n && columns[..n][i] == c
                   && forall j | i < j < n :: Normalized(columns[..n][j].name) != normalized;
          forall j | i < j < |columns| ensures Normalized(columns[j].name) != normalized {
            assert j < n ==> columns[..n][j] == columns[j];
          }
          assert columns[i] == c;
        } else {
          assert forall i | 0 <= i < n :: columns[..n][i] == columns[i];
        }
      }
    }
  }

  /** The best column among names from number `k` on, when none before it is there. */
  lemma {:induction false} FirstNamedIsBest(e: Entry, names: seq<string>, k: nat)
    requires k <= |names| && forall j | 0 <= j < k :: !HasName(e, names[j])
    ensures match FirstNamed(e.columns, names[k..])
            case Some(c) => exists i: nat :: BestColumn(e, names, i) && e.columns[i] == c
            case None => !HasAny(e, names)
    decreases |names| - k
  {
    hide Normalized;
    if k < |names| {
      assert names[k..][0] == names[k] && names[k..][1..] == names[k + 1..];
      ColumnNamedIsLast(e.columns, names[k]);
      if ColumnNamed(e.columns, names[k]).Some? {
        var c := ColumnNamed(e.columns, names[k]).value;
        var i: nat :| i < |e.columns| && e.columns[i] == c && Normalized(c.name) == names[k]
              && forall j | i < j < |e.columns| :: Normalized(e.columns[j].name) != names[k];
        assert Named(e, i, names[k]);
        assert BestColumn(e, names, i);
      } else {
        FirstNamedIsBest(e, names, k + 1);
      }
    }
  }

  lemma OneNameIsBest(e: Entry, name: string)
    ensures FirstNamed(e.columns, [name]) == ColumnNamed(e.columns, name)
  {
    hide Normalized;
    assert [name][1..] == [];
  }

  lemma BestIsNamed(e: Entry, names: seq<string>, i: nat)
    requires BestColumn(e, names, i)
    ensures HasAny(e, names)
  {
    var k :| 0 <= k < |names| && Named(e, i, names[k]);
    assert HasName(e, names[k]);
  }

  lemma BestAreColumns(e: Entry, names: seq<string>)
    ensures forall i: nat | BestColumn(e, names, i) :: i < |e.columns|
  {
  }

  /** The best column with one of these names, if there is any. */
  lemma BestOf(e: Entry, names: seq<string>)
    ensures match FirstNamed(e.columns, names)
            case Some(c) => HasAny(e, names) && exists i: nat ::
              i < |e.columns| && BestColumn(e, names, i) && e.columns[i] == c
            case None => !HasAny(e, names) && forall i: nat :: !BestColumn(e, names, i)
  {
    hide FirstNamed, BestColumn, HasAny;
    FirstNamedIsBest(e, names, 0);
    assert names[0..] == names;
    BestAreColumns(e, names);
    forall i: nat | BestColumn(e, names, i) ensures HasAny(e, names) {
      BestIsNamed(e, names, i);
    }
  }

  /** The scope column is found exactly when there is one. */
  lemma ScopeColumnIs(e: Entry)
    ensures match CustomerScopeColumn(e)
            case Some((column, kind)) => exists i: nat ::
              i < |e.columns| && ScopesBy(e, i, kind) && e.columns[i].name == column
            case None => forall i: nat, kind :: !ScopesBy(e, i, kind)
  {
    hide FirstNamed, ColumnNamed, BestColumn, HasAny, SourceKey, CUSTOMER_ID_COLUMNS, CUSTOMER_UNIQUE_ID_COLUMNS, Fold;
    BestOf(e, CUSTOMER_ID_COLUMNS);
    BestOf(e, CUSTOMER_UNIQUE_ID_COLUMNS);
    BestOf(e, ["id"]);
    BestOf(e, ["backofficeid"]);
    OneNameIsBest(e, "id");
    OneNameIsBest(e, "backofficeid");
    if CustomerScopeColumn(e).Some? {
      var (column, kind) := CustomerScopeColumn(e).value;
      var names :=
        if HasAny(e, CUSTOMER_ID_COLUMNS) then CUSTOMER_ID_COLUMNS
        else if HasAny(e, CUSTOMER_UNIQUE_ID_COLUMNS) then CUSTOMER_UNIQUE_ID_COLUMNS
        else if SourceKey(e.schema, e.name) == "gnr.vwcust" then ["id"]
        else ["backofficeid"];
      var c := FirstNamed(e.columns, names).value;
      var i: nat :| i < |e.columns| && BestColumn(e, names, i) && e.columns[i] == c;
      assert ScopesBy(e, i, kind);
    }
  }

  // ---------------------------------------------------------------------
  // Decisions
  // ---------------------------------------------------------------------

  /** The customers of a table can be told apart, in this way. */
  ghost predicate ScopedBy(e: Entry, column: string, kind: ScopeKind) {
    exists i: nat :: i < |e.columns| && ScopesBy(e, i, kind) && e.columns[i].name == column
  }

  lemma EntryDecidedExactly(e: Entry)
    ensures match DecideEntry(e)
            case Whole => MayBeRead(e) && !HoldsCustomers(e)
            case Scoped(column, kind) => MayBeRead(e) && HoldsCustomers(e) && ScopedBy(e, column, kind)
            case Refuse(reason) =>
              if MayBeRead(e) then
                HoldsCustomers(e) && reason == CannotBeLimited && forall c, kind :: !ScopedBy(e, c, kind)
              else reason == SourceNotAvailable
  {
    hide CustomerScopeColumn, ScopesBy, IsSourceAllowed,
         HasCustomerPrefix, Prefixed, Marked, SourceKey, CUSTOMER_SOURCES,
         REFERENCE_SOURCES;
    NamesDecide(SourceKey(e.schema, e.name));
    ScopeColumnIs(e);
  }

  /** A column whose name holds a forbidden word. */
  ghost predicate ForbiddenWord(name: string) {
    exists m | m in FORBIDDEN_COLUMN_MARKERS :: Contains(Normalized(name), m)
  }

  lemma ForbiddenColumnsAre(name: string)
    ensures ForbiddenColumn(name) <==> ForbiddenWord(name)
  {
    hide Occurs, Contains, Normalized;
    var text := Normalized(name);
    forall m {
      OccursIsContains(m, text);
    }
    if ForbiddenColumn(name) {
      var i :| 0 <= i < |FORBIDDEN_COLUMN_MARKERS| && Occurs(FORBIDDEN_COLUMN_MARKERS[i], text);
      assert FORBIDDEN_COLUMN_MARKERS[i] in FORBIDDEN_COLUMN_MARKERS;
    }
    if ForbiddenWord(name) {
      var m :| m in FORBIDDEN_COLUMN_MARKERS && Contains(text, m);
      var i :| 0 <= i < |FORBIDDEN_COLUMN_MARKERS| && FORBIDDEN_COLUMN_MARKERS[i] == m;
      assert Occurs(FORBIDDEN_COLUMN_MARKERS[i], text);
    }
  }

  ghost predicate HoldsForbidden(e: Entry) {
    exists i | 0 <= i < |e.columns| :: ForbiddenWord(e.columns[i].name)
  }

  lemma ForbiddenEntriesAre(e: Entry)
    ensures HasForbiddenColumn(e) <==> HoldsForbidden(e)
  {
    hide ForbiddenColumn, ForbiddenWord;
    forall i | 0 <= i < |e.columns| {
      ForbiddenColumnsAre(e.columns[i].name);
    }
  }

  // ---------------------------------------------------------------------
  // What a seller reads of a table
  // ---------------------------------------------------------------------

  /** What a customer is compared by. */
  function KeyOf(kind: ScopeKind, columns: seq<string>, customer: Row): Value {
    match kind
    case UniqueId => CellNamed(columns, customer, "CustGUID")
    case BackofficeNumber => CellNamed(columns, customer, "ID")
    case BackofficeText => AsText(CellNamed(columns, customer, "ID"))
  }

  /** The row belongs to a customer of the seller's branch and line, and is not sold by an outside
      dealer or supervisor. */
  ghost predicate SellersRow(db: Database, policy: Policy, e: Entry, columns: seq<string>, row: Row) {
    && (exists i: nat, kind, customer ::
          i < |e.columns| && ScopesBy(e, i, kind)
            && IsCustomerOf(db, policy, columns, row, e.columns[i].name, kind, customer))
    && (SourceKey(e.schema, e.name) in {"dbo.salesreviewfast", "dbo.salesreturnreviewfast"} ==>
          forall n | n in {7, 137, 192, 510} ::
            CellNamed(columns, row, "DealerId") != Number(n) && CellNamed(columns, row, "SupervisorId") != Number(n))
  }

  ghost predicate IsCustomerOf(db: Database, policy: Policy, columns: seq<string>, row: Row, column: string,
      kind: ScopeKind, customer: Row)
  {
    var customers, key := ReadTable(db, "gnr.vwcust"), CellNamed(columns, row, column);
    && customer in customers.rows && key != Null && key == KeyOf(kind, customers.columns, customer)
    && CellNamed(customers.columns, customer, "CustLevelName") in Texts(policy.branchTexts)
    && CellNamed(customers.columns, customer, "CustCtgrName") in Texts(policy.lineTexts)
  }

  lemma OneBestColumn(e: Entry, names: seq<string>, i: nat, j: nat)
    requires BestColumn(e, names, i) && BestColumn(e, names, j)
    ensures i == j
  {
    hide Normalized;
    var k :| 0 <= k < |names| && Named(e, i, names[k]) && forall a | 0 <= a < k :: !HasName(e, names[a]);
    var l :| 0 <= l < |names| && Named(e, j, names[l]) && forall a | 0 <= a < l :: !HasName(e, names[a]);
    assert HasName(e, names[k]) && HasName(e, names[l]);
    assert k == l;
    assert Named(e, i, Normalized(e.columns[j].name)) && Named(e, j, Normalized(e.columns[i].name));
  }

  lemma OneScope(e: Entry, i: nat, kind: ScopeKind, j: nat, kind': ScopeKind)
    requires ScopesBy(e, i, kind) && ScopesBy(e, j, kind')
    ensures i == j && kind == kind'
  {
    hide BestColumn, HasAny, SourceKey, Fold, CUSTOMER_ID_COLUMNS, CUSTOMER_UNIQUE_ID_COLUMNS;
    var names :=
      if HasAny(e, CUSTOMER_ID_COLUMNS) then CUSTOMER_ID_COLUMNS
      else if HasAny(e, CUSTOMER_UNIQUE_ID_COLUMNS) then CUSTOMER_UNIQUE_ID_COLUMNS
      else if SourceKey(e.schema, e.name) == "gnr.vwcust" then ["id"]
      else ["backofficeid"];
    OneBestColumn(e, names, i, j);
  }

  lemma InScopeSet(db: Database, policy: Policy, columns: seq<string>, row: Row, column: string, kind: ScopeKind)
    ensures CellNamed(columns, row, column) in ScopeSet(db, policy, kind)
       <==> exists customer :: IsCustomerOf(db, policy, columns, row, column, kind, customer)
  {
    hide CellNamed, Texts, AsText;
    var key, t := CellNamed(columns, row, column), ReadTable(db, CUSTOMER_KEY);
    if key in ScopeSet(db, policy, kind) {
      var customer :| customer in t.rows && OwnCustomer(policy, t.columns, customer)
                      && CustomerId(t.columns, customer, kind) == key;
      assert IsCustomerOf(db, policy, columns, row, column, kind, customer);
    }
    if exists customer :: IsCustomerOf(db, policy, columns, row, column, kind, customer) {
      var customer :| IsCustomerOf(db, policy, columns, row, column, kind, customer);
      assert OwnCustomer(policy, t.columns, customer) && CustomerId(t.columns, customer, kind) == key;
    }
  }

  lemma OutsidersAre(e: Entry, columns: seq<string>, row: Row)
    ensures SourceKey(e.schema, e.name) in EXTERNAL_EXCLUDED_SOURCES
       <==> SourceKey(e.schema, e.name) in {"dbo.salesreviewfast", "dbo.salesreturnreviewfast"}
    ensures (!ExternalPerson(CellNamed(columns, row, "DealerId"))
             && !ExternalPerson(CellNamed(columns, row, "SupervisorId")))
       <==> forall n | n in {7, 137, 192, 510} ::
              CellNamed(columns, row, "DealerId") != Number(n) && CellNamed(columns, row, "SupervisorId") != Number(n)
  {
    hide CellNamed, SourceKey;
  }

  lemma ScopedRowsAre(db: Database, policy: Policy, e: Entry, columns: seq<string>, column: string, kind: ScopeKind,
      row: Row)
    requires ScopedBy(e, column, kind)
    ensures RowInScope(db, policy, e, columns, column, kind, row) <==> SellersRow(db, policy, e, columns, row)
  {
    hide ScopesBy, IsCustomerOf, ScopeSet, CellNamed, SourceKey, ExternalPerson, EXTERNAL_EXCLUDED_SOURCES;
    var i: nat :| i < |e.columns| && ScopesBy(e, i, kind) && e.columns[i].name == column;
    InScopeSet(db, policy, columns, row, column, kind);
    OutsidersAre(e, columns, row);
    forall j: nat, other | ScopesBy(e, j, other) ensures j == i && other == kind {
      OneScope(e, i, kind, j, other);
    }
  }

  /**
   The database that a seller works with: of tables that may be read and hold
   customers the rows of the seller's own customers, compared by the right
   identifier, of the others that may be read every row, and of the rest none.
   */
  lemma RestrictedRowsAre(db: Database, policy: Policy, e: Entry, t: Table, row: Row)
    ensures row in RestrictedTable(db, policy, e, t).rows
       <==> && row in t.rows && MayBeRead(e)
            && (HoldsCustomers(e) ==> SellersRow(db, policy, e, t.columns, row))
  {
    hide DecideEntry, MayBeRead, HoldsCustomers, SellersRow, RowsInScope, RowInScope, ScopesBy;
    EntryDecidedExactly(e);
    match DecideEntry(e)
    case Scoped(column, kind) =>
      RowsInScopeAreRows(db, policy, e, t.columns, column, kind, t.rows, row);
      ScopedRowsAre(db, policy, e, t.columns, column, kind, row);
    case Whole =>
    case Refuse(_) =>
      if MayBeRead(e) {
        NoScopeNoRows(db, policy, e, t.columns, row);
      }
  }

  lemma NoScopeNoRows(db: Database, policy: Policy, e: Entry, columns: seq<string>, row: Row)
    requires forall c, kind :: !ScopedBy(e, c, kind)
    ensures !SellersRow(db, policy, e, columns, row)
  {
    hide ScopesBy, IsCustomerOf, CellNamed;
    forall i: nat, kind | i < |e.columns| ensures !ScopesBy(e, i, kind) {
      assert !ScopedBy(e, e.columns[i].name, kind);
    }
  }

  // ---------------------------------------------------------------------
  // Accepted statements
  // ---------------------------------------------------------------------

  /** What stands for the table in the returned statement: a sub-query that reads the whole table and
      keeps the rows that satisfy the condition. */
  ghost predicate StandsReplaced(policy: Policy, e: Entry, b: Source, r: Source)
    requires b.Base?
  {
    exists i: nat, kind, n: nat :: i < |e.columns| && ScopesBy(e, i, kind) && r == Derived(
      Select(false, Star("", NoItems), Base(0, e.schema, e.name, RawAlias(n)),
             ScopeCondition(policy, e, e.columns[i].name, kind, RawAlias(n))),
      if b.alias != "" then b.alias else b.name)
  }

  /** A customer is compared by its global identifier exactly when the column is one. */
  lemma ComparedByGuid(e: Entry, i: nat, kind: ScopeKind)
    requires ScopesBy(e, i, kind)
    ensures SelectedId(kind) == Column("c", "CustGUID")
       <==> if HasAny(e, CUSTOMER_ID_COLUMNS) then UniqueIdentifier(e.columns[i])
            else HasAny(e, CUSTOMER_UNIQUE_ID_COLUMNS)
    ensures SelectedId(kind) in {Column("c", "CustGUID"), Column("c", "ID"), Converted(Column("c", "ID"))}
  {
    hide HasAny, BestColumn, SourceKey, Fold, CUSTOMER_ID_COLUMNS, CUSTOMER_UNIQUE_ID_COLUMNS;
  }

  lemma PlannedStandsReplaced(catalog: Catalog, policy: Policy, m: map<nat, Source>, b: Source)
    requires b.Base? && Lookup(catalog, b.schema, b.name).Some? && Planned(catalog, policy, m, b)
    requires !EntryDecision(catalog, b).Refuse?
    ensures var e := Lookup(catalog, b.schema, b.name).value;
            && MayBeRead(e)
            && if HoldsCustomers(e) then b.site in m && StandsReplaced(policy, e, b, m[b.site]) else b.site !in m
  {
    hide Lookup, DecideEntry, MayBeRead, HoldsCustomers, ScopesBy, ScopeCondition, RawAlias;
    var e := Lookup(catalog, b.schema, b.name).value;
    EntryDecidedExactly(e);
    var d := DecideEntry(e);
    if d.Scoped? {
      var n: nat :| m[b.site] == ReplacementFor(catalog, policy, b, d, n);
      var i: nat :| i < |e.columns| && ScopesBy(e, i, d.kind) && e.columns[i].name == d.column;
      assert m[b.site] == Replacement(policy, e, Exposed(b.alias, b.name), e.columns[i].name, d.kind, n);
    }
  }

  /**
   An accepted statement names no forbidden word and reads only tables that may
   be read; where it has a star, none with a forbidden column.  Each table that
   holds customers stands replaced by one limited to the seller's, and everything
   else in the statement is as it was submitted.
   */
  lemma AcceptedStatementObeys(catalog: Catalog, policy: Policy, q: Query, visited: seq<Source>,
      secured: Query) returns (m: map<nat, Source>)
    requires Lists(visited, q) && policy.restrictedSeller
    requires Enforced(catalog, policy, q, visited) == Ok(secured)
    ensures secured == ReplaceInQuery(q, m)
    ensures forall name :: name in QueryFacts(q).columns ==> !ForbiddenWord(name)
    ensures forall b :: b in QueryFacts(q).tables ==> b.Base?
    ensures forall b :: b in QueryFacts(q).tables && !Physical(b, QueryFacts(q).ctes) ==> b.site !in m
    ensures forall b :: b in QueryFacts(q).tables && Physical(b, QueryFacts(q).ctes) ==>
              && Lookup(catalog, b.schema, b.name).Some?
              && var e := Lookup(catalog, b.schema, b.name).value;
                 && e.access != Some(RestrictedAccess) && MayBeRead(e)
                 && (QueryFacts(q).star ==> !HoldsForbidden(e))
                 && if HoldsCustomers(e) then b.site in m && StandsReplaced(policy, e, b, m[b.site]) else b.site !in m
  {
    hide Lookup, EntryDecision, HasForbiddenColumn, HoldsForbidden, ReplaceInQuery, QueryFacts, ForbiddenColumn,
         ForbiddenWord, Planned, Enforced, Lists, HoldsCustomers, StandsReplaced;
    m := AcceptedStatement(catalog, policy, q, visited, secured);
    forall name | name in QueryFacts(q).columns {
      ForbiddenColumnsAre(name);
    }
    forall b | b in QueryFacts(q).tables && Physical(b, QueryFacts(q).ctes)
      ensures Lookup(catalog, b.schema, b.name).Some?
      ensures var e := Lookup(catalog, b.schema, b.name).value;
              && MayBeRead(e) && (QueryFacts(q).star ==> !HoldsForbidden(e))
              && if HoldsCustomers(e) then b.site in m && StandsReplaced(policy, e, b, m[b.site]) else b.site !in m
    {
      PlannedStandsReplaced(catalog, policy, m, b);
      ForbiddenEntriesAre(Lookup(catalog, b.schema, b.name).value);
    }
  }

  /** The table is not catalogued, may not be read, has a forbidden column under a star, or holds
      customers who cannot be told apart. */
  ghost predicate NotForSellers(catalog: Catalog, b: Source, star: bool)
    requires b.Base?
  {
    match Lookup(catalog, b.schema, b.name)
    case None => true
    case Some(e) =>
      || !MayBeRead(e) || (star && HoldsForbidden(e))
      || (HoldsCustomers(e) && forall c, kind :: !ScopedBy(e, c, kind))
  }

  ghost predicate IsReplaced(catalog: Catalog, b: Source)
    requires b.Base?
  {
    !NotForSellers(catalog, b, false) && HoldsCustomers(Lookup(catalog, b.schema, b.name).value)
  }

  ghost predicate IsForbiddenUnderStar(catalog: Catalog, b: Source)
    requires b.Base?
  {
    match Lookup(catalog, b.schema, b.name)
    case None => false
    case Some(e) => MayBeRead(e) && HoldsForbidden(e)
  }

  lemma TableDecisions(catalog: Catalog, b: Source, star: bool)
    requires b.Base?
    ensures Decide(catalog, b.schema, b.name, star).Refuse? <==> NotForSellers(catalog, b, star)
    ensures EntryDecision(catalog, b).Scoped? <==> IsReplaced(catalog, b)
    ensures Decide(catalog, b.schema, b.name, true) == Refuse(SelectExplicitFields)
            <==> IsForbiddenUnderStar(catalog, b)
  {
    hide DecideEntry, Lookup, MayBeRead, HoldsCustomers, ScopedBy, HoldsForbidden, HasForbiddenColumn;
    if Lookup(catalog, b.schema, b.name).Some? {
      EntryDecidedExactly(Lookup(catalog, b.schema, b.name).value);
      ForbiddenEntriesAre(Lookup(catalog, b.schema, b.name).value);
    }
  }

  ghost predicate ForbiddenAfterReplaced(catalog: Catalog, tables: seq<Source>)
    requires forall s :: s in tables ==> s.Base?
  {
    exists i, j | 0 <= i < j < |tables| :: IsReplaced(catalog, tables[i]) && IsForbiddenUnderStar(catalog, tables[j])
  }

  /**
   A seller's statement is refused exactly when it names a forbidden word, a
   physical table of it is not for sellers, or, without a star of its own, it
   reads a table with a forbidden column after a table that is replaced.
   */
  lemma RefusedByNames(catalog: Catalog, policy: Policy, q: Query, visited: seq<Source>)
    requires Lists(visited, q) && policy.restrictedSeller
    ensures forall i | 0 <= i < |visited| :: visited[i].Base?
    ensures forall s :: s in PhysicalTables(visited, QueryFacts(q).ctes) ==> s.Base?
    ensures Enforced(catalog, policy, q, visited).Err?
       <==> || (exists name :: name in QueryFacts(q).columns && ForbiddenWord(name))
            || (exists b ::
                  b in PhysicalTables(visited, QueryFacts(q).ctes) && NotForSellers(catalog, b, QueryFacts(q).star))
            || (!QueryFacts(q).star && ForbiddenAfterReplaced(catalog, PhysicalTables(visited, QueryFacts(q).ctes)))
  {
    hide Lists, QueryFacts, ForbiddenColumn, ForbiddenWord, Enforced, PhysicalTables, EachAllowed, ForbiddenAfterScoped,
         ForbiddenAfterReplaced, NotForSellers;
    RefusedExactlyWhen(catalog, policy, q, visited);
    forall name {
      ForbiddenColumnsAre(name);
    }
    TablesDecided(catalog, PhysicalTables(visited, QueryFacts(q).ctes), QueryFacts(q).star);
  }

  lemma TablesDecided(catalog: Catalog, tables: seq<Source>, star: bool)
    requires forall s :: s in tables ==> s.Base?
    ensures EachAllowed(catalog, tables, star) <==> forall b :: b in tables ==> !NotForSellers(catalog, b, star)
    ensures ForbiddenAfterScoped(catalog, tables) <==> ForbiddenAfterReplaced(catalog, tables)
  {
    hide Decide, EntryDecision, NotForSellers, IsReplaced, IsForbiddenUnderStar;
    forall b | b in tables {
      TableDecisions(catalog, b, star);
    }
  }

  /** The same in every table that may be read, and in the customer view, which decides about the scope
      even where it may not be read itself. */
  ghost predicate SameWhereReadable(catalog: Catalog, db: Database, db': Database)
    requires Describes(catalog, db) && Describes(catalog, db')
  {
    && ReadTable(db, CUSTOMER_KEY) == ReadTable(db', CUSTOMER_KEY)
    && forall i | 0 <= i < |catalog| && MayBeRead(catalog[i]) ::
         var key := SourceKey(catalog[i].schema, catalog[i].name); db[key] == db'[key]
  }

  lemma {:induction false} SameRowsInScope(db: Database, db': Database, policy: Policy, e: Entry, columns: seq<string>,
      column: string, kind: ScopeKind, rows: seq<Row>)
    requires ReadTable(db, CUSTOMER_KEY) == ReadTable(db', CUSTOMER_KEY)
    ensures RowsInScope(db, policy, e, columns, column, kind, rows)
         == RowsInScope(db', policy, e, columns, column, kind, rows)
  {
    hide ExternalPerson, CellNamed, SourceKey;
    if rows != [] {
      SameRowsInScope(db, db', policy, e, columns, column, kind, rows[1..]);
      assert ScopeSet(db, policy, kind) == ScopeSet(db', policy, kind);
    }
  }

  lemma TableAgreesWithItself(t: Table)
    ensures TablesAgree(t, t)
  {
  }

  /** Whatever stands in restricted tables, and in others that may not be read, no accepted statement
      tells. */
  lemma UnreadableIsUnobservable(catalog: Catalog, policy: Policy, db: Database, db': Database, q: Query,
      visited: seq<Source>, secured: Query)
    requires WellFormedCatalog(catalog) && Describes(catalog, db) && Describes(catalog, db')
    requires Lists(visited, q) && policy.restrictedSeller
    requires Enforced(catalog, policy, q, visited) == Ok(secured)
    requires SameWhereReadable(catalog, db, db')
    ensures Answer(db, catalog, secured) == Answer(db', catalog, secured)
  {
    hide Enforced, Lists, DecideEntry, MayBeRead, RowsInScope, TablesAgree, SourceKey, DescribesTable, Answer;
    forall i | 0 <= i < |catalog| && !DecideEntry(catalog[i]).Refuse?
      ensures var key := SourceKey(catalog[i].schema, catalog[i].name);
              TablesAgree(RestrictedTable(db, policy, catalog[i], db[key]),
                          RestrictedTable(db', policy, catalog[i], db'[key]))
    {
      var e := catalog[i];
      var t := db[SourceKey(e.schema, e.name)];
      EntryDecidedExactly(e);
      var d := DecideEntry(e);
      if d.Scoped? {
        SameRowsInScope(db, db', policy, e, t.columns, d.column, d.kind, t.rows);
      }
      TableAgreesWithItself(RestrictedTable(db, policy, e, t));
    }
    NothingElseIsObservable(catalog, policy, db, db', q, visited, secured);
  }
}
