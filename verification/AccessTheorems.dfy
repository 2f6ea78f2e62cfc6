/**
 What the rewriting guarantees to the company and to the seller: an accepted
 statement means what it would mean on the restricted database, and nothing
 outside that database or in a forbidden column can influence its result.
 */
module AccessTheorems {
  import opened Prelude
  import opened Query
  import opened Access
  import opened QueryCongruence
  import opened AccessReplace
  import opened AccessScope

  // ---------------------------------------------------------------------
  // The loop performs one simultaneous replacement
  // ---------------------------------------------------------------------

  /** The replacements that the loop has made after the tables from `index` on, starting from `done`. */
  ghost function Plan(catalog: Catalog, policy: Policy, done: map<nat, Source>, tables: seq<Source>,
      index: nat): map<nat, Source>
    requires forall s :: s in tables ==> s.Base?
    decreases |tables|
  {
    if tables == [] then done
    else
      var d := EntryDecision(catalog, tables[0]);
      var next :=
        if d.Scoped? then done[tables[0].site := ReplacementFor(catalog, policy, tables[0], d, index)] else done;
      Plan(catalog, policy, next, tables[1..], index + 1)
  }

  ghost function EntryDecision(catalog: Catalog, s: Source): Decision
    requires s.Base?
  {
    match Lookup(catalog, s.schema, s.name)
    case None => Refuse(SourceNotAvailable)
    case Some(e) => DecideEntry(e)
  }

  /** Whether the loop gets through `tables` when the statement holds a star or not at its start. */
  ghost predicate Accepts(catalog: Catalog, tables: seq<Source>, star: bool)
    requires forall s :: s in tables ==> s.Base?
    decreases |tables|
  {
    tables == [] ||
    var d := Decide(catalog, tables[0].schema, tables[0].name, star);
    !d.Refuse? && Accepts(catalog, tables[1..], star || d.Scoped?)
  }

  ghost predicate NewSites(done: map<nat, Source>, tables: seq<Source>) {
    && (forall i | 0 <= i < |tables| :: tables[i].Base? && tables[i].site != 0 && tables[i].site !in done)
    && (forall i, j | 0 <= i < j < |tables| :: tables[i].site != tables[j].site)
  }

  /** The parts that were put in hold no numbered site, and bring a star. */
  ghost predicate Placed(done: map<nat, Source>) {
    && Starry(done)
    && forall i :: i in done ==> forall b :: b in SourceFacts(done[i]).tables ==> b.Base? && b.site == 0
  }

  /** No tables, and no common table expressions. */
  ghost predicate Plain(f: Facts) {
    f.tables == {} && f.ctes == {}
  }

  lemma InListFacts(alias: string, name: string, values: seq<Value>)
    ensures Plain(ConditionFacts(InList(Column(alias, name), values)))
  {
    assert ConditionFacts(InList(Column(alias, name), values)) == ExprFacts(Column(alias, name));
  }

  lemma ScopeSubqueryFacts(policy: Policy, kind: ScopeKind)
    ensures QueryFacts(ScopeSubquery(policy, kind)).tables == {Base(0, "GNR", "vwCust", "c")}
    ensures QueryFacts(ScopeSubquery(policy, kind)).ctes == {}
  {
    InListFacts("c", "CustLevelName", Texts(policy.branchTexts));
    InListFacts("c", "CustCtgrName", Texts(policy.lineTexts));
    assert Plain(ConditionFacts(ScopeFilter(policy)));
    hide ScopeFilter;
    assert Plain(ExprFacts(SelectedId(kind)));
    hide SelectedId;
    assert Plain(ItemsFacts(Item(SelectedId(kind), "", NoItems)));
    assert SourceFacts(Base(0, "GNR", "vwCust", "c")).tables == {Base(0, "GNR", "vwCust", "c")};
  }

  lemma ScopeConditionFacts(policy: Policy, e: Entry, column: string, kind: ScopeKind, raw: string)
    ensures var f := ConditionFacts(ScopeCondition(policy, e, column, kind, raw));
            f.tables == {Base(0, "GNR", "vwCust", "c")} && f.ctes == {}
  {
    ScopeSubqueryFacts(policy, kind);
    NotExternalFacts(raw, "DealerId");
    NotExternalFacts(raw, "SupervisorId");
    hide ScopeSubquery, NotExternal;
    var scoped := InQuery(Column(raw, column), ScopeSubquery(policy, kind));
    var first := Both(scoped, NotExternal(raw, "DealerId"));
    assert ConditionFacts(scoped) == ExprFacts(Column(raw, column)).Plus(QueryFacts(ScopeSubquery(policy, kind)));
    assert ConditionFacts(first) == ConditionFacts(scoped).Plus(ConditionFacts(NotExternal(raw, "DealerId")));
  }

  lemma ReplacementFacts(policy: Policy, e: Entry, alias: string, column: string, kind: ScopeKind, index: nat)
    ensures var f := SourceFacts(Replacement(policy, e, alias, column, kind, index));
            && f.star && f.ctes == {} && (forall b :: b in f.tables ==> b.Base? && b.site == 0)
  {
    var raw := RawAlias(index);
    hide RawAlias;
    ScopeConditionFacts(policy, e, column, kind, raw);
    hide ScopeCondition;
    var base, c := Base(0, e.schema, e.name, raw), ScopeCondition(policy, e, column, kind, raw);
    assert QueryFacts(ReplacementQuery(policy, e, column, kind, raw))
        == ItemsFacts(Star("", NoItems)).Plus(SourceFacts(base)).Plus(ConditionFacts(c));
    assert SourceFacts(base).tables == {base} && SourceFacts(base).ctes == {};
    assert ItemsFacts(Star("", NoItems)) == NO_FACTS.(star := true).Plus(NO_FACTS);
  }

  lemma NotExternalFacts(raw: string, column: string)
    ensures ConditionFacts(NotExternal(raw, column)).tables == {} && ConditionFacts(NotExternal(raw, column)).ctes == {}
  {
    var e := Coalesce(Column(raw, column), Literal(Number(-1)));
    assert ExprFacts(e).tables == {} && ExprFacts(e).ctes == {};
    assert ConditionFacts(InList(e, Numbers(EXTERNAL_SALES_PERSON_IDS))) == ExprFacts(e);
  }

  lemma PlacedStep(catalog: Catalog, policy: Policy, done: map<nat, Source>, table: Source, d: Decision, index: nat)
    requires Placed(done) && table.Base? && table.site != 0 && table.site !in done
    requires d.Scoped? && Lookup(catalog, table.schema, table.name).Some?
    ensures var r := ReplacementFor(catalog, policy, table, d, index);
            Separate(done, table.site, r) && Placed(done[table.site := r])
  {
    hide Replacement, Lookup, ReplaceInSource;
    var e := Lookup(catalog, table.schema, table.name).value;
    ReplacementFacts(policy, e, Exposed(table.alias, table.name), d.column, d.kind, index);
    var r := ReplacementFor(catalog, policy, table, d, index);
    forall i | i in done ensures ReplaceInSource(done[i], map[table.site := r]) == done[i] {
      SourceUntouched(done[i], map[table.site := r]);
    }
  }

  /** The loop, from any point on. */
  lemma {:induction false} LoopReplacesAtOnce(catalog: Catalog, policy: Policy, q: Query, done: map<nat, Source>,
      tables: seq<Source>, index: nat)
    requires NewSites(done, tables) && Placed(done)
    requires forall b :: b in tables ==> b in QueryFacts(q).tables
    ensures var statement := ReplaceInQuery(q, done);
            var r := SecureFrom(catalog, policy, statement, tables, index);
            && (r.Ok? <==> Accepts(catalog, tables, QueryFacts(statement).star))
            && (r.Ok? ==> r.value == ReplaceInQuery(q, Plan(catalog, policy, done, tables, index)))
            && Placed(Plan(catalog, policy, done, tables, index))
    decreases |tables|
  {
    hide Placed, DecideEntry, Lookup, ReplacementFor, Starry, ReplaceInQuery, QueryFacts;
    if tables != [] {
      var table, rest := tables[0], tables[1..];
      var d := EntryDecision(catalog, table);
      assert table in tables;
      if d.Scoped? {
        var r := ReplacementFor(catalog, policy, table, d, index);
        PlacedStep(catalog, policy, done, table, d, index);
        QueryTwice(q, done, table.site, r);
        StarAfterOne(q, done, table, r);
        LoopReplacesAtOnce(catalog, policy, q, done[table.site := r], rest, index + 1);
      } else {
        LoopReplacesAtOnce(catalog, policy, q, done, rest, index + 1);
      }
    }
  }

  /** A replaced table leaves a star behind. */
  lemma StarAfterOne(q: Query, done: map<nat, Source>, table: Source, r: Source)
    requires table in QueryFacts(q).tables && table.Base?
    requires Placed(done[table.site := r])
    ensures QueryFacts(ReplaceInQuery(q, done[table.site := r])).star
  {
    QueryFactsAfter(q, done[table.site := r]);
    assert Touches(QueryFacts(q), done[table.site := r]);
  }

  // ---------------------------------------------------------------------
  // What an accepted statement looks like
  // ---------------------------------------------------------------------

  /** The plan does with this table what was decided about it. */
  ghost predicate Planned(catalog: Catalog, policy: Policy, plan: map<nat, Source>, b: Source)
    requires b.Base?
  {
    var d := EntryDecision(catalog, b);
    if d.Scoped? then b.site in plan && exists n: nat :: plan[b.site] == ReplacementFor(catalog, policy, b, d, n)
    else b.site !in plan
  }

  lemma NextSites(done: map<nat, Source>, tables: seq<Source>, next: map<nat, Source>)
    requires NewSites(done, tables) && tables != []
    requires next.Keys <= done.Keys + {tables[0].site}
    ensures NewSites(next, tables[1..])
  {
    var rest := tables[1..];
    forall i | 0 <= i < |rest| ensures rest[i].Base? && rest[i].site != 0 && rest[i].site !in next {
      assert rest[i] == tables[i + 1];
    }
    forall i, j | 0 <= i < j < |rest| ensures rest[i].site != rest[j].site {
      assert rest[i] == tables[i + 1] && rest[j] == tables[j + 1];
    }
  }

  lemma {:induction false} PlanIs(catalog: Catalog, policy: Policy, done: map<nat, Source>, tables: seq<Source>,
      index: nat)
    requires NewSites(done, tables)
    ensures var plan := Plan(catalog, policy, done, tables, index);
            && (forall k :: k in done ==> k in plan && plan[k] == done[k])
            && (forall k :: k in plan && k !in done ==> exists i :: 0 <= i < |tables| && tables[i].site == k)
            && (forall i | 0 <= i < |tables| :: Planned(catalog, policy, plan, tables[i]))
    decreases |tables|
  {
    hide EntryDecision, ReplacementFor, Planned;
    if tables != [] {
      var first, rest := tables[0], tables[1..];
      var d := EntryDecision(catalog, first);
      var next := if d.Scoped? then done[first.site := ReplacementFor(catalog, policy, first, d, index)] else done;
      NextSites(done, tables, next);
      PlanIs(catalog, policy, next, rest, index + 1);
      var plan := Plan(catalog, policy, done, tables, index);
      assert plan == Plan(catalog, policy, next, rest, index + 1);
      assert d.Scoped? ==> first.site in next && plan[first.site] == next[first.site];
      forall k | k in plan && k !in done ensures exists i :: 0 <= i < |tables| && tables[i].site == k {
        if k != first.site {
          var i :| 0 <= i < |rest| && rest[i].site == k;
          assert tables[i + 1].site == k;
        }
      }
      FirstIsPlanned(catalog, policy, done, plan, tables, index);
      forall i | 0 <= i < |tables| ensures Planned(catalog, policy, plan, tables[i]) {
        if i > 0 {
          assert tables[i] == rest[i - 1];
        }
      }
    }
  }

  lemma FirstIsPlanned(catalog: Catalog, policy: Policy, done: map<nat, Source>, plan: map<nat, Source>,
      tables: seq<Source>, index: nat)
    requires NewSites(done, tables) && tables != []
    requires var d := EntryDecision(catalog, tables[0]);
             var k := tables[0].site;
             if d.Scoped? then k in plan && plan[k] == ReplacementFor(catalog, policy, tables[0], d, index)
             else k in plan ==> exists i :: 0 <= i < |tables[1..]| && tables[1..][i].site == k
    ensures Planned(catalog, policy, plan, tables[0])
  {
    hide EntryDecision, ReplacementFor;
    if !EntryDecision(catalog, tables[0]).Scoped? && tables[0].site in plan {
      assert false;
    }
  }

  lemma {:induction false} AcceptedTables(catalog: Catalog, tables: seq<Source>, star: bool, b: Source)
    requires (forall s :: s in tables ==> s.Base?) && Accepts(catalog, tables, star) && b in tables
    ensures Lookup(catalog, b.schema, b.name).Some? && !EntryDecision(catalog, b).Refuse?
    ensures star ==> !HasForbiddenColumn(Lookup(catalog, b.schema, b.name).value)
    decreases |tables|
  {
    hide Lookup, DecideEntry, HasForbiddenColumn;
    if b != tables[0] {
      assert tables == [tables[0]] + tables[1..];
      var d := Decide(catalog, tables[0].schema, tables[0].name, star);
      AcceptedTables(catalog, tables[1..], star || d.Scoped?, b);
    }
  }

  lemma {:induction false} PhysicalTablesKeepSites(visited: seq<Source>, ctes: set<string>)
    requires NewSites(map[], visited)
    ensures NewSites(map[], PhysicalTables(visited, ctes))
    ensures forall s :: s in PhysicalTables(visited, ctes) ==> s in visited
    decreases |visited|
  {
    if visited != [] {
      PhysicalTablesKeepSites(visited[1..], ctes);
      var rest := PhysicalTables(visited[1..], ctes);
      assert visited == [visited[0]] + visited[1..];
      forall i | 0 <= i < |rest| ensures rest[i].site != visited[0].site {
        assert rest[i] in visited[1..];
      }
    }
  }

  lemma ReplacedTablesArePhysical(visited: seq<Source>, tables: seq<Source>, m: map<nat, Source>, b: Source)
    requires NewSites(map[], visited) && b in visited
    requires forall s :: s in tables ==> s in visited && s.Base?
    requires forall k :: k in m ==> exists i :: 0 <= i < |tables| && tables[i].site == k
    ensures b.Base? && (b.site in m ==> b in tables)
  {
    var i :| 0 <= i < |visited| && visited[i] == b;
    if b.site in m {
      var j :| 0 <= j < |tables| && tables[j].site == b.site;
      assert tables[j] in visited;
      var k :| 0 <= k < |visited| && visited[k] == tables[j];
      assert k == i;
    }
  }

  /** Everything the theorems need about an accepted statement. */
  lemma AcceptedStatement(catalog: Catalog, policy: Policy, q: Query, visited: seq<Source>,
      secured: Query) returns (m: map<nat, Source>)
    requires Lists(visited, q) && policy.restrictedSeller
    requires Enforced(catalog, policy, q, visited) == Ok(secured)
    ensures secured == ReplaceInQuery(q, m)
    ensures QueryFacts(secured).ctes == QueryFacts(q).ctes
    ensures forall name :: name in QueryFacts(q).columns ==> !ForbiddenColumn(name)
    ensures forall b :: b in QueryFacts(q).tables ==>
      && b.Base?
      && if !Physical(b, QueryFacts(q).ctes) then b.site !in m
         else
           && Lookup(catalog, b.schema, b.name).Some?
           && (QueryFacts(q).star ==> !HasForbiddenColumn(Lookup(catalog, b.schema, b.name).value))
           && !EntryDecision(catalog, b).Refuse?
           && Planned(catalog, policy, m, b)
  {
    hide Lookup, DecideEntry, ReplacementFor, HasForbiddenColumn, ReplaceInQuery, QueryFacts, ForbiddenColumn;
    var facts := QueryFacts(q);
    var tables := PhysicalTables(visited, facts.ctes);
    PhysicalTablesAre(visited, facts.ctes);
    PhysicalTablesKeepSites(visited, facts.ctes);
    EmptyMapReplacesNothing(q);
    forall i | 0 <= i < |visited| ensures visited[i] in facts.tables {
      assert visited[i] in (set i | 0 <= i < |visited| :: visited[i]);
    }
    LoopReplacesAtOnce(catalog, policy, q, map[], tables, 1);
    m := Plan(catalog, policy, map[], tables, 1);
    QueryFactsAfter(q, m);
    PlanIs(catalog, policy, map[], tables, 1);
    forall b | b in facts.tables
      ensures b.Base?
      ensures if !Physical(b, facts.ctes) then b.site !in m
         else
           && Lookup(catalog, b.schema, b.name).Some?
           && (facts.star ==> !HasForbiddenColumn(Lookup(catalog, b.schema, b.name).value))
           && !EntryDecision(catalog, b).Refuse?
           && Planned(catalog, policy, m, b)
    {
      assert b in (set i | 0 <= i < |visited| :: visited[i]);
      var i :| 0 <= i < |visited| && visited[i] == b;
      if Physical(b, facts.ctes) {
        AcceptedTables(catalog, tables, facts.star, b);
        var j :| 0 <= j < |tables| && tables[j] == b;
      } else {
        ReplacedTablesArePhysical(visited, tables, m, b);
      }
    }
  }

  lemma EmptyMapReplacesNothing(q: Query)
    ensures ReplaceInQuery(q, map[]) == q
  {
    QueryUntouched(q, map[]);
  }

  // ---------------------------------------------------------------------
  // The theorems
  // ---------------------------------------------------------------------

  /**
   On the full database an accepted statement has the result that the submitted
   statement has on the restricted database: own customers only, no external
   dealers or supervisors in the sales views, reference tables whole, and
   nothing of any other table.
   */
  lemma SellerSeesRestrictedDatabase(catalog: Catalog, policy: Policy, db: Database, q: Query, visited: seq<Source>,
      secured: Query)
    requires WellFormedCatalog(catalog) && Describes(catalog, db)
    requires Lists(visited, q) && policy.restrictedSeller
    requires Enforced(catalog, policy, q, visited) == Ok(secured)
    ensures Answer(db, catalog, secured) == Answer(RestrictedDatabase(catalog, policy, db), catalog, q)
  {
    hide Enforced, Lists, EvalQuery, ReplaceInQuery, QueryFacts, ListAgrees, ForbiddenColumn, TableAgrees,
         Lookup, DecideEntry, ReplacementFor, HasForbiddenColumn, RestrictedDatabase, Describes, WellFormedCatalog;
    var m := AcceptedStatement(catalog, policy, q, visited, secured);
    var names := QueryFacts(q).ctes;
    var w, v := World(db, catalog, names), World(RestrictedDatabase(catalog, policy, db), catalog, names);
    forall b | b in QueryFacts(q).tables ensures TableAgrees(w, v, m, true, b) {
      if Physical(b, names) {
        var d := EntryDecision(catalog, b);
        if d.Scoped? {
          var n: nat :| m[b.site] == ReplacementFor(catalog, policy, b, d, n);
          ScopedTableAgrees(w, v, m, policy, b, n);
        } else {
          WholeTableAgrees(w, v, m, policy, b);
        }
      } else {
        CteAgrees(w, v, m, true, b);
      }
    }
    NoScopesAgree(true);
    QueryAgrees(w, v, m, true, map[], [], [], q);
  }

  lemma NoScopesAgree(same: bool)
    ensures ListAgrees([], [], same)
  {
  }

  lemma CteAgrees(w: World, v: World, m: map<nat, Source>, same: bool, b: Source)
    requires b.Base? && b.site !in m && !Physical(b, v.names)
    ensures TableAgrees(w, v, m, same, b)
  {
  }

  lemma ScopedTableAgrees(w: World, v: World, m: map<nat, Source>, policy: Policy, b: Source, index: nat)
    requires b.Base? && Physical(b, w.names) && WellFormedCatalog(w.catalog) && Describes(w.catalog, w.db)
    requires v == w.(db := RestrictedDatabase(w.catalog, policy, w.db))
    requires Lookup(w.catalog, b.schema, b.name).Some? && EntryDecision(w.catalog, b).Scoped?
    requires b.site in m && m[b.site] == ReplacementFor(w.catalog, policy, b, EntryDecision(w.catalog, b), index)
    ensures TableAgrees(w, v, m, true, b)
  {
    hide Lookup, DecideEntry, ReplacementFor, EvalSource, FramesAgree, RestrictedDatabase, Describes, WellFormedCatalog;
    forall ctes: Ctes, s: Scopes, t: Scopes
      ensures FramesAgree(EvalSource(w, ctes, s, ReplaceInSource(b, m)), EvalSource(v, ctes, t, b), true)
    {
      ReplacementReadsRestrictedTable(w, v, ctes, s, t, policy, b, index);
      EqualFramesAgree(EvalSource(v, ctes, t, b), true);
    }
  }

  lemma WholeTableAgrees(w: World, v: World, m: map<nat, Source>, policy: Policy, b: Source)
    requires b.Base? && Physical(b, w.names) && WellFormedCatalog(w.catalog) && Describes(w.catalog, w.db)
    requires v == w.(db := RestrictedDatabase(w.catalog, policy, w.db))
    requires Lookup(w.catalog, b.schema, b.name).Some? && EntryDecision(w.catalog, b).Whole?
    requires b.site !in m
    ensures TableAgrees(w, v, m, true, b)
  {
    hide Lookup, DecideEntry, FramesAgree, ResolveTable, SourceKey, FramesOf, WellFormedCatalog;
    forall ctes: Ctes, s: Scopes, t: Scopes
      ensures FramesAgree(EvalSource(w, ctes, s, ReplaceInSource(b, m)), EvalSource(v, ctes, t, b), true)
    {
      PhysicalTableIsEntry(w, ctes, b.schema, b.name);
      PhysicalTableIsEntry(v, ctes, b.schema, b.name);
      EntryByKeyFinds(w.catalog, Lookup(w.catalog, b.schema, b.name).value);
      EqualFramesAgree(EvalSource(v, ctes, t, b), true);
    }
  }

  /** The same rows, but for what stands in forbidden columns. */
  ghost predicate TablesAgree(a: Table, b: Table) {
    && a.columns == b.columns
    && |a.rows| == |b.rows|
    && forall i | 0 <= i < |a.rows| :: RowsAgree(a.columns, a.rows[i], b.rows[i])
  }

  ghost predicate DatabasesAgree(a: Database, b: Database) {
    && a.Keys == b.Keys
    && forall key :: key in a ==> TablesAgree(a[key], b[key])
  }

  /** The same rows of customers in scope and of reference tables, but for what stands in forbidden
      columns.  Rows out of scope, refused tables and tables outside the catalogue may be anything. */
  ghost predicate SameForSeller(catalog: Catalog, policy: Policy, db: Database, db': Database)
    requires Describes(catalog, db) && Describes(catalog, db')
  {
    forall i | 0 <= i < |catalog| && !DecideEntry(catalog[i]).Refuse? ::
      var key := SourceKey(catalog[i].schema, catalog[i].name);
      TablesAgree(RestrictedTable(db, policy, catalog[i], db[key]), RestrictedTable(db', policy, catalog[i], db'[key]))
  }

  lemma {:induction false} EntryByKeyIsListed(catalog: Catalog, key: string)
    ensures var r := EntryByKey(catalog, key);
            r.Some? ==> exists i | 0 <= i < |catalog| ::
              catalog[i] == r.value && SourceKey(catalog[i].schema, catalog[i].name) == key
    ensures EntryByKey(catalog, key).None? ==>
            forall i | 0 <= i < |catalog| :: SourceKey(catalog[i].schema, catalog[i].name) != key
  {
    hide SourceKey;
    if catalog != [] && SourceKey(catalog[0].schema, catalog[0].name) != key {
      EntryByKeyIsListed(catalog[1..], key);
      if EntryByKey(catalog[1..], key).Some? {
        var i :| 0 <= i < |catalog[1..]| && catalog[1..][i] == EntryByKey(catalog[1..], key).value
              && SourceKey(catalog[1..][i].schema, catalog[1..][i].name) == key;
        assert catalog[i + 1] == catalog[1..][i];
      }
    }
  }

  lemma SameForSellerAgrees(catalog: Catalog, policy: Policy, db: Database, db': Database)
    requires Describes(catalog, db) && Describes(catalog, db') && SameForSeller(catalog, policy, db, db')
    ensures DatabasesAgree(RestrictedDatabase(catalog, policy, db), RestrictedDatabase(catalog, policy, db'))
  {
    hide SourceKey, DecideEntry, RowsInScope, RowsAgree;
    var a, b := RestrictedDatabase(catalog, policy, db), RestrictedDatabase(catalog, policy, db');
    forall key ensures key in a <==> key in b {
      EntryByKeyIsListed(catalog, key);
    }
    forall key | key in a ensures TablesAgree(a[key], b[key]) {
      EntryByKeyIsListed(catalog, key);
      var e := EntryByKey(catalog, key).value;
      assert DescribesTable(e, db[key]) && DescribesTable(e, db'[key]);
      if DecideEntry(e).Refuse? {
        assert db[key].columns == db'[key].columns;
      }
    }
  }

  /**
   Two databases that are the same for the seller give an accepted statement the
   same result, whatever else is different in them.
   */
  lemma NothingElseIsObservable(catalog: Catalog, policy: Policy, db: Database, db': Database, q: Query,
      visited: seq<Source>, secured: Query)
    requires WellFormedCatalog(catalog) && Describes(catalog, db) && Describes(catalog, db')
    requires Lists(visited, q) && policy.restrictedSeller
    requires Enforced(catalog, policy, q, visited) == Ok(secured)
    requires SameForSeller(catalog, policy, db, db')
    ensures Answer(db, catalog, secured) == Answer(db', catalog, secured)
  {
    hide Enforced, Lists, EvalQuery, ReplaceInQuery, QueryFacts, ListAgrees, ForbiddenColumn, TableAgrees,
         Lookup, DecideEntry, ReplacementFor, HasForbiddenColumn, RestrictedDatabase, Describes, WellFormedCatalog,
         DatabasesAgree, SameForSeller;
    SameForSellerAgrees(catalog, policy, db, db');
    SellerSeesRestrictedDatabase(catalog, policy, db, q, visited, secured);
    SellerSeesRestrictedDatabase(catalog, policy, db', q, visited, secured);
    var m := AcceptedStatement(catalog, policy, q, visited, secured);
    var names, star := QueryFacts(q).ctes, QueryFacts(q).star;
    var w := World(RestrictedDatabase(catalog, policy, db), catalog, names);
    var v := World(RestrictedDatabase(catalog, policy, db'), catalog, names);
    RestrictedStaysDescribed(catalog, policy, db);
    RestrictedStaysDescribed(catalog, policy, db');
    forall b | b in QueryFacts(q).tables ensures TableAgrees(w, v, map[], star, b) {
      if Physical(b, names) {
        ReadTableAgrees(w, v, star, b);
      } else {
        CteAgrees(w, v, map[], star, b);
      }
    }
    NoScopesAgree(star);
    QueryAgrees(w, v, map[], star, map[], [], [], q);
    EmptyMapReplacesNothing(q);
  }

  lemma {:induction false} RowsInScopeAreRows(db: Database, policy: Policy, e: Entry, columns: seq<string>,
      column: string, kind: ScopeKind, rows: seq<Row>, row: Row)
    ensures row in RowsInScope(db, policy, e, columns, column, kind, rows)
       <==> row in rows && RowInScope(db, policy, e, columns, column, kind, row)
  {
    if rows != [] {
      RowsInScopeAreRows(db, policy, e, columns, column, kind, rows[1..], row);
      assert rows == [rows[0]] + rows[1..];
    }
  }

  lemma RestrictedStaysDescribed(catalog: Catalog, policy: Policy, db: Database)
    requires WellFormedCatalog(catalog) && Describes(catalog, db)
    ensures Describes(catalog, RestrictedDatabase(catalog, policy, db))
  {
    hide SourceKey, DecideEntry, RowInScope, RowsInScope;
    forall i | 0 <= i < |catalog|
      ensures var key := SourceKey(catalog[i].schema, catalog[i].name);
              && key in RestrictedDatabase(catalog, policy, db)
              && DescribesTable(catalog[i], RestrictedDatabase(catalog, policy, db)[key])
    {
      var e := catalog[i];
      var key := SourceKey(e.schema, e.name);
      EntryByKeyFinds(catalog, e);
      var d := DecideEntry(e);
      if d.Scoped? {
        forall row ensures row in RowsInScope(db, policy, e, db[key].columns, d.column, d.kind, db[key].rows)
                      <==> row in db[key].rows && RowInScope(db, policy, e, db[key].columns, d.column, d.kind, row)
        {
          RowsInScopeAreRows(db, policy, e, db[key].columns, d.column, d.kind, db[key].rows, row);
        }
      }
    }
  }

  /** Two described tables that agree read alike: equal outright when no column is forbidden. */
  lemma ReadTableAgrees(w: World, v: World, same: bool, b: Source)
    requires b.Base? && Physical(b, w.names) && w.names == v.names && w.catalog == v.catalog
    requires Describes(w.catalog, w.db) && Describes(v.catalog, v.db) && DatabasesAgree(w.db, v.db)
    requires Lookup(w.catalog, b.schema, b.name).Some?
    requires same ==> !HasForbiddenColumn(Lookup(w.catalog, b.schema, b.name).value)
    ensures TableAgrees(w, v, map[], same, b)
  {
    hide Lookup, ResolveTable, SourceKey, FramesOf, FramesAgree, HasForbiddenColumn, ForbiddenColumn, RowsAgree;
    var e := Lookup(w.catalog, b.schema, b.name).value;
    forall ctes: Ctes, s: Scopes, t: Scopes
      ensures FramesAgree(EvalSource(w, ctes, s, ReplaceInSource(b, map[])), EvalSource(v, ctes, t, b), same)
    {
      PhysicalTableIsEntry(w, ctes, b.schema, b.name);
      PhysicalTableIsEntry(v, ctes, b.schema, b.name);
      var key := SourceKey(e.schema, e.name);
      var i :| 0 <= i < |w.catalog| && w.catalog[i] == e;
      assert DescribesTable(e, w.db[key]) && DescribesTable(e, v.db[key]);
      if same {
        AgreeingCleanTablesAreEqual(e, w.db[key], v.db[key]);
      }
      AgreeingTablesBindAlike(Exposed(b.alias, b.name), w.db[key], v.db[key], same);
    }
  }

  lemma AgreeingCleanTablesAreEqual(e: Entry, a: Table, b: Table)
    requires DescribesTable(e, a) && DescribesTable(e, b) && TablesAgree(a, b) && !HasForbiddenColumn(e)
    ensures a == b
  {
    hide ForbiddenColumn;
    forall i | 0 <= i < |a.rows| ensures a.rows[i] == b.rows[i] {
      assert a.rows[i] in a.rows && b.rows[i] in b.rows;
      forall k | 0 <= k < |a.columns| ensures a.rows[i][k] == b.rows[i][k] {
        assert !ForbiddenColumn(e.columns[k].name);
        assert Cell(a.rows[i], k) == Cell(b.rows[i], k);
      }
    }
  }

  lemma AgreeingTablesBindAlike(alias: string, a: Table, b: Table, same: bool)
    requires TablesAgree(a, b) && (same ==> a == b)
    ensures FramesAgree(FramesOf(alias, a), FramesOf(alias, b), same)
  {
    hide RowsAgree;
    BoundRows(Shape(alias, a.columns), a.rows);
    BoundRows(Shape(alias, a.columns), b.rows);
  }

  lemma {:induction false} BoundRows(shape: Shape, rows: seq<Row>)
    ensures |Bind(shape, rows)| == |rows|
    ensures forall i | 0 <= i < |rows| :: Bind(shape, rows)[i] == [Binding(shape, rows[i])]
  {
    if rows != [] {
      BoundRows(shape, rows[1..]);
    }
  }

  // ---------------------------------------------------------------------
  // When a statement is refused
  // ---------------------------------------------------------------------

  /** A statement gets through exactly when it names no forbidden column and the loop accepts its tables. */
  lemma AcceptedExactlyWhen(catalog: Catalog, policy: Policy, q: Query, visited: seq<Source>)
    requires Lists(visited, q) && policy.restrictedSeller
    ensures (forall i | 0 <= i < |visited| :: visited[i].Base?)
    ensures forall s :: s in PhysicalTables(visited, QueryFacts(q).ctes) ==> s.Base?
    ensures Enforced(catalog, policy, q, visited).Ok?
       <==> && (forall name :: name in QueryFacts(q).columns ==> !ForbiddenColumn(name))
            && Accepts(catalog, PhysicalTables(visited, QueryFacts(q).ctes), QueryFacts(q).star)
  {
    hide Lookup, DecideEntry, ReplaceInQuery, QueryFacts, ForbiddenColumn, SecureFrom;
    var facts := QueryFacts(q);
    var tables := PhysicalTables(visited, facts.ctes);
    PhysicalTablesAre(visited, facts.ctes);
    PhysicalTablesKeepSites(visited, facts.ctes);
    EmptyMapReplacesNothing(q);
    forall i | 0 <= i < |visited| ensures visited[i] in facts.tables {
      assert visited[i] in (set i | 0 <= i < |visited| :: visited[i]);
    }
    LoopReplacesAtOnce(catalog, policy, q, map[], tables, 1);
  }

  /** Every table on its own is fine for a statement that has, or has not, a star of its own. */
  ghost predicate EachAllowed(catalog: Catalog, tables: seq<Source>, star: bool)
    requires forall s :: s in tables ==> s.Base?
  {
    forall s :: s in tables ==> !Decide(catalog, s.schema, s.name, star).Refuse?
  }

  ghost predicate ForbiddenAfterScoped(catalog: Catalog, tables: seq<Source>)
    requires forall s :: s in tables ==> s.Base?
  {
    exists i, j | 0 <= i < j < |tables| ::
      EntryDecision(catalog, tables[i]).Scoped?
      && Decide(catalog, tables[j].schema, tables[j].name, true) == Refuse(SelectExplicitFields)
  }

  lemma DecideWithStar(catalog: Catalog, s: Source)
    requires s.Base?
    ensures Decide(catalog, s.schema, s.name, false) == EntryDecision(catalog, s)
    ensures Decide(catalog, s.schema, s.name, true).Refuse?
       <==> EntryDecision(catalog, s).Refuse? || Decide(catalog, s.schema, s.name, true) == Refuse(SelectExplicitFields)
    ensures Decide(catalog, s.schema, s.name, true).Refuse?
         || Decide(catalog, s.schema, s.name, true) == EntryDecision(catalog, s)
  {
    hide HasForbiddenColumn;
  }

  lemma {:induction false} WithOwnStar(catalog: Catalog, tables: seq<Source>)
    requires forall s :: s in tables ==> s.Base?
    ensures Accepts(catalog, tables, true) <==> EachAllowed(catalog, tables, true)
    decreases |tables|
  {
    hide Decide;
    if tables != [] {
      assert tables == [tables[0]] + tables[1..];
      WithOwnStar(catalog, tables[1..]);
    }
  }

  lemma ScopedFirst(catalog: Catalog, tables: seq<Source>)
    requires tables != [] && (forall s :: s in tables ==> s.Base?) && EntryDecision(catalog, tables[0]).Scoped?
    ensures EachAllowed(catalog, tables[1..], true)
       <==> EachAllowed(catalog, tables, false) && !ForbiddenAfterScoped(catalog, tables)
  {
    hide Decide, EntryDecision;
    var first, rest := tables[0], tables[1..];
    assert tables == [first] + rest;
    forall s | s in tables {
      DecideWithStar(catalog, s);
    }
    if EachAllowed(catalog, tables, false) && !EachAllowed(catalog, rest, true) {
      var s :| s in rest && Decide(catalog, s.schema, s.name, true).Refuse?;
      var j :| 0 <= j < |rest| && rest[j] == s;
      assert tables[j + 1] == s && tables[0] == first;
    }
  }

  lemma WholeFirst(catalog: Catalog, tables: seq<Source>)
    requires tables != [] && (forall s :: s in tables ==> s.Base?) && !EntryDecision(catalog, tables[0]).Scoped?
    ensures ForbiddenAfterScoped(catalog, tables) <==> ForbiddenAfterScoped(catalog, tables[1..])
  {
    hide Decide, EntryDecision;
    var rest := tables[1..];
    if ForbiddenAfterScoped(catalog, rest) {
      var i, j :| 0 <= i < j < |rest| && EntryDecision(catalog, rest[i]).Scoped?
                  && Decide(catalog, rest[j].schema, rest[j].name, true) == Refuse(SelectExplicitFields);
      assert tables[i + 1] == rest[i] && tables[j + 1] == rest[j];
    }
    if ForbiddenAfterScoped(catalog, tables) {
      var i, j :| 0 <= i < j < |tables| && EntryDecision(catalog, tables[i]).Scoped?
                  && Decide(catalog, tables[j].schema, tables[j].name, true) == Refuse(SelectExplicitFields);
      assert i > 0 && tables[i] == rest[i - 1] && tables[j] == rest[j - 1];
    }
  }

  /**
   The star check looks at the statement as rewritten so far, and every
   replacement contains a star.  So a statement whose tables are all allowed is
   still refused exactly when, without a star of its own, it reads a table with
   a forbidden column after a table that had to be replaced.
   */
  lemma {:induction false} OrderDecidesStarCheck(catalog: Catalog, tables: seq<Source>, star: bool)
    requires forall s :: s in tables ==> s.Base?
    ensures Accepts(catalog, tables, star)
       <==> EachAllowed(catalog, tables, star) && (star || !ForbiddenAfterScoped(catalog, tables))
    decreases |tables|
  {
    hide Decide, EntryDecision, EachAllowed, ForbiddenAfterScoped;
    if tables == [] {
      NoTablesAllowed(catalog, star);
    } else if star {
      WithOwnStar(catalog, tables);
    } else {
      var first, rest := tables[0], tables[1..];
      DecideWithStar(catalog, first);
      FirstAllowed(catalog, tables);
      OrderDecidesStarCheck(catalog, rest, EntryDecision(catalog, first).Scoped?);
      if EntryDecision(catalog, first).Scoped? {
        ScopedFirst(catalog, tables);
      } else {
        WholeFirst(catalog, tables);
      }
    }
  }

  lemma NoTablesAllowed(catalog: Catalog, star: bool)
    ensures EachAllowed(catalog, [], star) && !ForbiddenAfterScoped(catalog, [])
  {
  }

  lemma FirstAllowed(catalog: Catalog, tables: seq<Source>)
    requires tables != [] && forall s :: s in tables ==> s.Base?
    ensures EachAllowed(catalog, tables, false)
       <==> && !Decide(catalog, tables[0].schema, tables[0].name, false).Refuse?
            && EachAllowed(catalog, tables[1..], false)
  {
    hide Decide;
    assert tables == [tables[0]] + tables[1..];
  }

  /** When a seller's statement is refused: it names a forbidden column, a table of it is not
      allowed, or, without a star of its own, a table with a forbidden column comes after a table
      that had to be replaced. */
  lemma RefusedExactlyWhen(catalog: Catalog, policy: Policy, q: Query, visited: seq<Source>)
    requires Lists(visited, q) && policy.restrictedSeller
    ensures forall i | 0 <= i < |visited| :: visited[i].Base?
    ensures forall s :: s in PhysicalTables(visited, QueryFacts(q).ctes) ==> s.Base?
    ensures Enforced(catalog, policy, q, visited).Err?
       <==> || (exists name :: name in QueryFacts(q).columns && ForbiddenColumn(name))
            || !EachAllowed(catalog, PhysicalTables(visited, QueryFacts(q).ctes), QueryFacts(q).star)
            || (!QueryFacts(q).star && ForbiddenAfterScoped(catalog, PhysicalTables(visited, QueryFacts(q).ctes)))
  {
    hide Enforced, Lists, QueryFacts, ForbiddenColumn, Accepts, EachAllowed, ForbiddenAfterScoped;
    AcceptedExactlyWhen(catalog, policy, q, visited);
    OrderDecidesStarCheck(catalog, PhysicalTables(visited, QueryFacts(q).ctes), QueryFacts(q).star);
  }

  // One statement that is accepted or refused by the order of its tables alone.

  const ORDERS := Entry("s", "a", [ColumnInfo("custid", "int")], Some(CustomerScope))
  const GOODS := Entry("s", "b", [ColumnInfo("n", "int"), ColumnInfo("ica", "int")], Some(Reference))
  const FROM_ORDERS := Base(1, "s", "a", "")
  const FROM_GOODS := Base(2, "s", "b", "")
  const NAMES_ONLY :=
    Select(false, Item(Column("", "n"), "n", NoItems), Join(false, FROM_ORDERS, FROM_GOODS, Always), Always)

  lemma ForbiddenNames()
    ensures ForbiddenColumn("ica") && !ForbiddenColumn("n")
  {
    assert Fold("ica") == "ica" && Fold("n") == "n";
    assert Normalized("ica") == "ica" && Normalized("n") == "n";
    assert FORBIDDEN_COLUMN_MARKERS[3] == "ica";
    forall i | 0 <= i < |FORBIDDEN_COLUMN_MARKERS| ensures !Occurs(FORBIDDEN_COLUMN_MARKERS[i], "n") {
      assert |FORBIDDEN_COLUMN_MARKERS[i]| >= 3;
      assert !Occurs(FORBIDDEN_COLUMN_MARKERS[i], "");
      assert "n"[1..] == "";
    }
  }

  lemma ScopedExample()
    ensures DecideEntry(ORDERS) == Scoped("custid", BackofficeNumber)
  {
    hide FORBIDDEN_SOURCE_MARKERS, IsSourceAllowed, IsCustomerSource, SourceKey;
    assert Fold("custid") == "custid" && Fold("int") == "int";
    assert Normalized("custid") == "custid";
    var columns := [ColumnInfo("custid", "int")];
    assert columns[..0] == [];
    assert ColumnNamed(columns, "custid") == Some(columns[0]);
    assert ColumnNamed(columns, "customerid") == None;
    var later := CUSTOMER_ID_COLUMNS[1..];
    assert CUSTOMER_ID_COLUMNS[0] == "customerid" && later[0] == "custid";
    assert FirstNamed(columns, later) == Some(columns[0]);
    assert FirstNamed(columns, CUSTOMER_ID_COLUMNS) == Some(columns[0]);
  }

  lemma WholeExample()
    ensures DecideEntry(GOODS) == Whole && HasForbiddenColumn(GOODS)
  {
    hide FORBIDDEN_SOURCE_MARKERS, IsSourceAllowed, IsCustomerSource, SourceKey, ForbiddenColumn;
    ForbiddenNames();
    assert GOODS.columns[1].name == "ica";
  }

  lemma ExampleLookups()
    ensures Lookup([ORDERS, GOODS], "s", "a") == Some(ORDERS) && Lookup([ORDERS, GOODS], "s", "b") == Some(GOODS)
  {
    assert Fold("a") == "a" && Fold("b") == "b" && Fold("s") == "s";
    assert [ORDERS, GOODS][1..] == [GOODS];
  }

  lemma ExampleFacts()
    ensures QueryFacts(NAMES_ONLY) == Facts({FROM_ORDERS, FROM_GOODS}, {"n"}, {}, false)
    ensures Lists([FROM_ORDERS, FROM_GOODS], NAMES_ONLY) && Lists([FROM_GOODS, FROM_ORDERS], NAMES_ONLY)
  {
    var items, join := Item(Column("", "n"), "n", NoItems), Join(false, FROM_ORDERS, FROM_GOODS, Always);
    assert ItemsFacts(items) == NO_FACTS.(columns := {"n"});
    assert SourceFacts(join) == NO_FACTS.(tables := {FROM_ORDERS, FROM_GOODS});
    var one, two := [FROM_ORDERS, FROM_GOODS], [FROM_GOODS, FROM_ORDERS];
    assert one[0] == FROM_ORDERS && one[1] == FROM_GOODS && two[0] == FROM_GOODS && two[1] == FROM_ORDERS;
    assert (set i | 0 <= i < 2 :: one[i]) == {FROM_ORDERS, FROM_GOODS};
    assert (set i | 0 <= i < 2 :: two[i]) == {FROM_ORDERS, FROM_GOODS};
  }

  lemma PhysicalPair(a: Source, b: Source)
    requires a.Base? && b.Base?
    ensures PhysicalTables([a, b], {}) == [a, b]
  {
    assert [a, b][1..] == [b] && [b][1..] == [];
    assert PhysicalTables([b], {}) == [b] + PhysicalTables([], {}) == [b];
  }

  /** The same statement is refused when its tables are listed one way and accepted the other way. */
  lemma SameStatementTwoAnswers(policy: Policy)
    requires policy.restrictedSeller
    ensures Lists([FROM_ORDERS, FROM_GOODS], NAMES_ONLY) && Lists([FROM_GOODS, FROM_ORDERS], NAMES_ONLY)
    ensures Enforced([ORDERS, GOODS], policy, NAMES_ONLY, [FROM_ORDERS, FROM_GOODS]) == Err(SelectExplicitFields)
    ensures Enforced([ORDERS, GOODS], policy, NAMES_ONLY, [FROM_GOODS, FROM_ORDERS]).Ok?
  {
    hide DecideEntry, HasForbiddenColumn, ForbiddenColumn, Lookup, QueryFacts, Lists, ReplaceInQuery, ReplacementFor;
    var catalog := [ORDERS, GOODS];
    ExampleFacts();
    ExampleLookups();
    ScopedExample();
    WholeExample();
    ForbiddenNames();
    PhysicalPair(FROM_ORDERS, FROM_GOODS);
    PhysicalPair(FROM_GOODS, FROM_ORDERS);
    var scoped := Scoped("custid", BackofficeNumber);
    var r := ReplacementFor(catalog, policy, FROM_ORDERS, scoped, 1);
    PlacedStep(catalog, policy, map[], FROM_ORDERS, scoped, 1);
    StarAfterOne(NAMES_ONLY, map[], FROM_ORDERS, r);
    var rewritten := ReplaceInQuery(NAMES_ONLY, map[1 := r]);
    assert map[][1 := r] == map[1 := r];
    assert [FROM_ORDERS, FROM_GOODS][1..] == [FROM_GOODS] && [FROM_GOODS, FROM_ORDERS][1..] == [FROM_ORDERS];
    assert Decide(catalog, "s", "b", true) == Refuse(SelectExplicitFields);
    assert SecureFrom(catalog, policy, rewritten, [FROM_GOODS], 2) == Err(SelectExplicitFields);
    assert SecureFrom(catalog, policy, NAMES_ONLY, [FROM_ORDERS], 2).Ok?;
  }
}
