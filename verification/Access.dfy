/**
 Seller access to reports: every physical customer table of a statement is
 replaced by a sub-query that keeps the seller's own customers, or the
 statement is refused.
 */
module Access {
  import opened Prelude
  import opened Query

  // ---------------------------------------------------------------------
  // Names
  // ---------------------------------------------------------------------

  function KeepAlphanumeric(s: string): string {
    if s == [] then []
    else (if 'a' <= s[0] <= 'z' || '0' <= s[0] <= '9' then [s[0]] else []) + KeepAlphanumeric(s[1..])
  }

  function Normalized(s: string): string {
    KeepAlphanumeric(Fold(s))
  }

  /** `part in text`. */
  predicate Occurs(part: string, text: string) {
    part <= text || (text != [] && Occurs(part, text[1..]))
  }

  const FORBIDDEN_COLUMN_MARKERS :=
    ["buy", "purchase", "cost", "ica", "profit", "margin", "cogs", "supplier", "password"]

  const FORBIDDEN_SOURCE_MARKERS := [
    "treasury", "supplier", "supinvoice", "bankaccount", "expense", "stockacc", "buyreview",
    "purchase", "ledger", "journal", "payroll", "salary"]

  const CUSTOMER_SOURCES := [
    "dbo.salesreviewfast", "dbo.salesreturnreviewfast", "dbo.customer", "dbo.customercardex_info",
    "dbo.vwtablethistory", "acc.vwrcvpaymentsreview", "acc.vwrcvsalereview", "acc.vwrcvsalereviewfast",
    "acc.vwrcvstatementreviewfast", "acc.vwrcvchequereview", "acc.vwrcvbankordersreview",
    "acc.vwrcvretchequereview", "acc.vwrcvretsalereview", "acc.vwcustomerbalance", "acc.vwpaymentsfast",
    "dbo.vwreview_rcvaccountsale2", "dbo.vwreview_rcvaccountpayment2", "dbo.vwreview_rcvaccountsettlement2",
    "dbo.vwreview_rcvaccountcardex2", "gnr.vwcust"]

  const REFERENCE_SOURCES := [
    "gnr.tblbrand", "gnr.tblmanufacturer", "gnr.tblgoods", "gnr.tblgoodsgroup", "gnr.tblsalearea", "gnr.tblsalepath"]

  const CUSTOMER_SOURCE_PREFIXES := ["dbo.sales", "dbo.customer", "fru.ngt_", "fru.customercall"]

  const CUSTOMER_ID_COLUMNS := ["customerid", "custid", "custref", "customerref", "pcustid", "filterid"]
  const CUSTOMER_UNIQUE_ID_COLUMNS := ["customeruniqueid", "custuniqueid"]

  const EXTERNAL_SALES_PERSON_IDS := [7, 137, 192, 510]
  const EXTERNAL_EXCLUDED_SOURCES := ["dbo.salesreviewfast", "dbo.salesreturnreviewfast"]

  predicate ForbiddenColumn(name: string) {
    exists i | 0 <= i < |FORBIDDEN_COLUMN_MARKERS| :: Occurs(FORBIDDEN_COLUMN_MARKERS[i], Normalized(name))
  }

  predicate HasCustomerPrefix(source: string) {
    exists i | 0 <= i < |CUSTOMER_SOURCE_PREFIXES| :: CUSTOMER_SOURCE_PREFIXES[i] <= source
  }

  predicate IsCustomerSource(source: string) {
    source in CUSTOMER_SOURCES || HasCustomerPrefix(source)
  }

  predicate IsSourceAllowed(source: string) {
    if source in CUSTOMER_SOURCES || source in REFERENCE_SOURCES then true
    else if exists i | 0 <= i < |FORBIDDEN_SOURCE_MARKERS| :: Occurs(FORBIDDEN_SOURCE_MARKERS[i], source) then false
    else HasCustomerPrefix(source)
  }

  // ---------------------------------------------------------------------
  // What a policy decides about one table
  // ---------------------------------------------------------------------

  /** The texts under which the branch and the sales line may be stored. */
  datatype Policy = Policy(restrictedSeller: bool, branchTexts: seq<string>, lineTexts: seq<string>)

  datatype ScopeKind = UniqueId | BackofficeText | BackofficeNumber

  /** The last column with this normalized name. */
  function ColumnNamed(columns: seq<ColumnInfo>, normalized: string): Option<ColumnInfo> {
    if columns == [] then None
    else
      var last := columns[|columns| - 1];
      if Normalized(last.name) == normalized then Some(last)
      else ColumnNamed(columns[..|columns| - 1], normalized)
  }

  function FirstNamed(columns: seq<ColumnInfo>, candidates: seq<string>): Option<ColumnInfo> {
    if candidates == [] then None
    else
      match ColumnNamed(columns, candidates[0])
      case Some(c) => Some(c)
      case None => FirstNamed(columns, candidates[1..])
  }

  function CustomerScopeColumn(e: Entry): Option<(string, ScopeKind)> {
    var source := SourceKey(e.schema, e.name);
    match FirstNamed(e.columns, CUSTOMER_ID_COLUMNS)
    case Some(c) => Some((c.name, if Fold(c.dataType) == "uniqueidentifier" then UniqueId else BackofficeNumber))
    case None =>
      match FirstNamed(e.columns, CUSTOMER_UNIQUE_ID_COLUMNS)
      case Some(c) => Some((c.name, UniqueId))
      case None =>
        var id, backofficeId := ColumnNamed(e.columns, "id"), ColumnNamed(e.columns, "backofficeid");
        if source == "gnr.vwcust" && id.Some? then Some((id.value.name, BackofficeNumber))
        else if source == "fru.ngt_tourcustomermodel" && backofficeId.Some? then
          Some((backofficeId.value.name, BackofficeText))
        else None
  }

  datatype Denial = ForbiddenMetric | SourceNotAvailable | SelectExplicitFields | CannotBeLimited

  datatype Decision = Refuse(reason: Denial) | Whole | Scoped(column: string, kind: ScopeKind)

  predicate HasForbiddenColumn(e: Entry) {
    exists i | 0 <= i < |e.columns| :: ForbiddenColumn(e.columns[i].name)
  }

  /** The decision about a catalogued table, before stars are looked at. */
  function DecideEntry(e: Entry): Decision {
    var source := SourceKey(e.schema, e.name);
    if e.access == Some(RestrictedAccess) || (e.access.None? && !IsSourceAllowed(source)) then
      Refuse(SourceNotAvailable)
    else if e.access == Some(CustomerScope) || (e.access.None? && IsCustomerSource(source)) then
      match CustomerScopeColumn(e)
      case None => Refuse(CannotBeLimited)
      case Some((column, kind)) => Scoped(column, kind)
    else Whole
  }

  /** The decision about one occurrence; `star` says that the statement holds a star at this moment. */
  function Decide(catalog: Catalog, schema: string, name: string, star: bool): Decision {
    match Lookup(catalog, schema, name)
    case None => Refuse(SourceNotAvailable)
    case Some(e) =>
      if DecideEntry(e) == Refuse(SourceNotAvailable) then Refuse(SourceNotAvailable)
      else if star && HasForbiddenColumn(e) then Refuse(SelectExplicitFields)
      else DecideEntry(e)
  }

  // ---------------------------------------------------------------------
  // The replacement of one table
  // ---------------------------------------------------------------------

  function Texts(values: seq<string>): seq<Value> {
    seq(|values|, i requires 0 <= i < |values| => Text(values[i]))
  }

  function Numbers(values: seq<int>): seq<Value> {
    seq(|values|, i requires 0 <= i < |values| => Number(values[i]))
  }

  function SelectedId(kind: ScopeKind): Expr {
    match kind
    case UniqueId => Column("c", "CustGUID")
    case BackofficeText => Converted(Column("c", "ID"))
    case BackofficeNumber => Column("c", "ID")
  }

  function ScopeFilter(policy: Policy): Condition {
    Both(InList(Column("c", "CustLevelName"), Texts(policy.branchTexts)),
         InList(Column("c", "CustCtgrName"), Texts(policy.lineTexts)))
  }

  function ScopeSubquery(policy: Policy, kind: ScopeKind): Query {
    Select(true, Item(SelectedId(kind), "", NoItems), Base(0, "GNR", "vwCust", "c"), ScopeFilter(policy))
  }

  function NotExternal(rawAlias: string, column: string): Condition {
    Negated(InList(Coalesce(Column(rawAlias, column), Literal(Number(-1))), Numbers(EXTERNAL_SALES_PERSON_IDS)))
  }

  function ScopeCondition(policy: Policy, e: Entry, column: string, kind: ScopeKind, rawAlias: string): Condition {
    var scoped := InQuery(Column(rawAlias, column), ScopeSubquery(policy, kind));
    if SourceKey(e.schema, e.name) in EXTERNAL_EXCLUDED_SOURCES
    then Both(Both(scoped, NotExternal(rawAlias, "DealerId")), NotExternal(rawAlias, "SupervisorId"))
    else scoped
  }

  function RawAlias(index: nat): string {
    "__acl_source_" + Digits(index)
  }

  function ReplacementQuery(policy: Policy, e: Entry, column: string, kind: ScopeKind, rawAlias: string): Query {
    Select(false, Star("", NoItems), Base(0, e.schema, e.name, rawAlias),
           ScopeCondition(policy, e, column, kind, rawAlias))
  }

  /** `(SELECT * FROM table AS raw WHERE raw.column IN (...)) AS alias`. */
  function Replacement(policy: Policy, e: Entry, alias: string, column: string, kind: ScopeKind, index: nat): Source {
    Derived(ReplacementQuery(policy, e, column, kind, RawAlias(index)), alias)
  }

  // ---------------------------------------------------------------------
  // Walking a statement
  // ---------------------------------------------------------------------

  /** The tables, column names and common table expressions of a statement, and whether it has a star. */
  datatype Facts = Facts(tables: set<Source>, columns: set<string>, ctes: set<string>, star: bool) {
    function Plus(other: Facts): Facts {
      Facts(tables + other.tables, columns + other.columns, ctes + other.ctes, star || other.star)
    }
  }

  const NO_FACTS := Facts({}, {}, {}, false)

  function QueryFacts(q: Query): Facts {
    match q
    case Select(_, items, from, filter) => ItemsFacts(items).Plus(SourceFacts(from)).Plus(ConditionFacts(filter))
    case GroupBy(keys, aggregates, from, filter) =>
      ItemsFacts(keys).Plus(AggregatesFacts(aggregates)).Plus(SourceFacts(from)).Plus(ConditionFacts(filter))
    case Union(_, left, right) => QueryFacts(left).Plus(QueryFacts(right))
    case With(name, definition, body) =>
      NO_FACTS.(ctes := {Fold(name)}).Plus(QueryFacts(definition)).Plus(QueryFacts(body))
  }

  function SourceFacts(s: Source): Facts {
    match s
    case NoSource => NO_FACTS
    case Base(_, _, _, _) => NO_FACTS.(tables := {s})
    case Derived(query, _) => QueryFacts(query)
    case Join(_, left, right, on) => SourceFacts(left).Plus(SourceFacts(right)).Plus(ConditionFacts(on))
  }

  function ItemsFacts(items: Items): Facts {
    match items
    case NoItems => NO_FACTS
    case Star(_, rest) => NO_FACTS.(star := true).Plus(ItemsFacts(rest))
    case Item(expr, _, rest) => ExprFacts(expr).Plus(ItemsFacts(rest))
  }

  function AggregatesFacts(aggregates: Aggregates): Facts {
    match aggregates
    case NoAggregates => NO_FACTS
    case CountRows(_, rest) => NO_FACTS.(star := true).Plus(AggregatesFacts(rest))
    case Aggregated(_, expr, _, rest) => ExprFacts(expr).Plus(AggregatesFacts(rest))
  }

  function ExprFacts(e: Expr): Facts {
    match e
    case Column(_, name) => NO_FACTS.(columns := {name})
    case Literal(_) => NO_FACTS
    case Computed(_, left, right) => ExprFacts(left).Plus(ExprFacts(right))
    case Coalesce(first, second) => ExprFacts(first).Plus(ExprFacts(second))
    case Converted(inner) => ExprFacts(inner)
    case Scalar(query) => QueryFacts(query)
  }

  function ConditionFacts(c: Condition): Facts {
    match c
    case Always => NO_FACTS
    case Comparing(_, first, second) => ExprFacts(first).Plus(ExprFacts(second))
    case Both(left, right) => ConditionFacts(left).Plus(ConditionFacts(right))
    case Negated(inner) => ConditionFacts(inner)
    case IsNull(expr) => ExprFacts(expr)
    case InList(expr, _) => ExprFacts(expr)
    case InQuery(expr, query) => ExprFacts(expr).Plus(QueryFacts(query))
    case Exists(query) => QueryFacts(query)
  }

  /** The result of a whole statement. */
  function Answer(db: Database, catalog: Catalog, q: Query): Table {
    EvalQuery(World(db, catalog, QueryFacts(q).ctes), map[], [], q)
  }

  /** The statement with the tables at the sites of `m` replaced. */
  function ReplaceInQuery(q: Query, m: map<nat, Source>): Query {
    match q
    case Select(distinct, items, from, filter) =>
      Select(distinct, ReplaceInItems(items, m), ReplaceInSource(from, m), ReplaceInCondition(filter, m))
    case GroupBy(keys, aggregates, from, filter) =>
      GroupBy(ReplaceInItems(keys, m), ReplaceInAggregates(aggregates, m), ReplaceInSource(from, m),
              ReplaceInCondition(filter, m))
    case Union(all, left, right) => Union(all, ReplaceInQuery(left, m), ReplaceInQuery(right, m))
    case With(name, definition, body) => With(name, ReplaceInQuery(definition, m), ReplaceInQuery(body, m))
  }

  function ReplaceInSource(s: Source, m: map<nat, Source>): Source {
    match s
    case NoSource => s
    case Base(site, _, _, _) => if site in m then m[site] else s
    case Derived(query, alias) => Derived(ReplaceInQuery(query, m), alias)
    case Join(leftOuter, left, right, on) =>
      Join(leftOuter, ReplaceInSource(left, m), ReplaceInSource(right, m), ReplaceInCondition(on, m))
  }

  function ReplaceInItems(items: Items, m: map<nat, Source>): Items {
    match items
    case NoItems => items
    case Star(qualifier, rest) => Star(qualifier, ReplaceInItems(rest, m))
    case Item(expr, name, rest) => Item(ReplaceInExpr(expr, m), name, ReplaceInItems(rest, m))
  }

  function ReplaceInAggregates(aggregates: Aggregates, m: map<nat, Source>): Aggregates {
    match aggregates
    case NoAggregates => aggregates
    case CountRows(name, rest) => CountRows(name, ReplaceInAggregates(rest, m))
    case Aggregated(fun, expr, name, rest) =>
      Aggregated(fun, ReplaceInExpr(expr, m), name, ReplaceInAggregates(rest, m))
  }

  function ReplaceInExpr(e: Expr, m: map<nat, Source>): Expr {
    match e
    case Column(_, _) => e
    case Literal(_) => e
    case Computed(op, left, right) => Computed(op, ReplaceInExpr(left, m), ReplaceInExpr(right, m))
    case Coalesce(first, second) => Coalesce(ReplaceInExpr(first, m), ReplaceInExpr(second, m))
    case Converted(inner) => Converted(ReplaceInExpr(inner, m))
    case Scalar(query) => Scalar(ReplaceInQuery(query, m))
  }

  function ReplaceInCondition(c: Condition, m: map<nat, Source>): Condition {
    match c
    case Always => c
    case Comparing(op, first, second) => Comparing(op, ReplaceInExpr(first, m), ReplaceInExpr(second, m))
    case Both(left, right) => Both(ReplaceInCondition(left, m), ReplaceInCondition(right, m))
    case Negated(inner) => Negated(ReplaceInCondition(inner, m))
    case IsNull(expr) => IsNull(ReplaceInExpr(expr, m))
    case InList(expr, values) => InList(ReplaceInExpr(expr, m), values)
    case InQuery(expr, query) => InQuery(ReplaceInExpr(expr, m), ReplaceInQuery(query, m))
    case Exists(query) => Exists(ReplaceInQuery(query, m))
  }

  // ---------------------------------------------------------------------
  // Enforcement
  // ---------------------------------------------------------------------

  /** `visited` are the tables of the statement in the order in which the parser library lists them. */
  ghost predicate Lists(visited: seq<Source>, q: Query) {
    && (set i | 0 <= i < |visited| :: visited[i]) == QueryFacts(q).tables
    && (forall i | 0 <= i < |visited| :: visited[i].Base? && visited[i].site != 0)
    && (forall i, j | 0 <= i < j < |visited| :: visited[i].site != visited[j].site)
  }

  predicate Physical(s: Source, ctes: set<string>)
    requires s.Base?
  {
    s.schema != "" || Fold(s.name) !in ctes
  }

  function PhysicalTables(visited: seq<Source>, ctes: set<string>): seq<Source>
    requires forall i | 0 <= i < |visited| :: visited[i].Base?
  {
    if visited == [] then []
    else (if Physical(visited[0], ctes) then [visited[0]] else []) + PhysicalTables(visited[1..], ctes)
  }

  lemma {:induction false} PhysicalTablesAre(visited: seq<Source>, ctes: set<string>)
    requires forall i | 0 <= i < |visited| :: visited[i].Base?
    ensures forall s :: s in PhysicalTables(visited, ctes) <==> s in visited && Physical(s, ctes)
    ensures forall s :: s in PhysicalTables(visited, ctes) ==> s.Base?
  {
    if visited != [] {
      PhysicalTablesAre(visited[1..], ctes);
      assert visited == [visited[0]] + visited[1..];
    }
  }

  function ReplacementFor(catalog: Catalog, policy: Policy, s: Source, decision: Decision, index: nat): Source
    requires s.Base? && decision.Scoped?
  {
    match Lookup(catalog, s.schema, s.name)
    case Some(e) =>
      Replacement(policy, e, Exposed(s.alias, s.name), decision.column, decision.kind, index)
    case None => s
  }

  /** The loop over the physical tables, from the one numbered `index` on. */
  function SecureFrom(catalog: Catalog, policy: Policy, statement: Query, tables: seq<Source>,
      index: nat): Result<Query, Denial>
    requires forall s :: s in tables ==> s.Base?
    decreases |tables|
  {
    if tables == [] then Ok(statement)
    else
      match Decide(catalog, tables[0].schema, tables[0].name, QueryFacts(statement).star)
      case Refuse(reason) => Err(reason)
      case Whole => SecureFrom(catalog, policy, statement, tables[1..], index + 1)
      case Scoped(column, kind) =>
        var r := ReplacementFor(catalog, policy, tables[0], Scoped(column, kind), index);
        SecureFrom(catalog, policy, ReplaceInQuery(statement, map[tables[0].site := r]), tables[1..], index + 1)
  }

  function Enforced(catalog: Catalog, policy: Policy, statement: Query, visited: seq<Source>): Result<Query, Denial>
    requires forall i | 0 <= i < |visited| :: visited[i].Base?
  {
    var facts := QueryFacts(statement);
    var tables := PhysicalTables(visited, facts.ctes);
    if !policy.restrictedSeller then Ok(statement)
    else if exists name | name in facts.columns :: ForbiddenColumn(name) then Err(ForbiddenMetric)
    else if tables == [] then Ok(statement)
    else (PhysicalTablesAre(visited, facts.ctes); SecureFrom(catalog, policy, statement, tables, 1))
  }

  method EnforceSqlAccess(catalog: Catalog, policy: Policy, submitted: Query,
      visited: seq<Source>) returns (r: Result<Query, Denial>)
    requires Lists(visited, submitted)
    ensures r == Enforced(catalog, policy, submitted, visited)
  {
    hide QueryFacts, SecureFrom, ForbiddenColumn;
    if !policy.restrictedSeller {
      return Ok(submitted);
    }
    var facts := QueryFacts(submitted);
    if exists name | name in facts.columns :: ForbiddenColumn(name) {
      return Err(ForbiddenMetric);
    }
    var tables := PhysicalTables(visited, facts.ctes);
    PhysicalTablesAre(visited, facts.ctes);
    if tables == [] {
      return Ok(submitted);
    }
    r := SecureTables(catalog, policy, submitted, tables);
  }

  /** The statement is changed in place, one table after the other. */
  method SecureTables(catalog: Catalog, policy: Policy, submitted: Query,
      tables: seq<Source>) returns (r: Result<Query, Denial>)
    requires forall s :: s in tables ==> s.Base?
    ensures r == SecureFrom(catalog, policy, submitted, tables, 1)
  {
    hide ReplaceInQuery, QueryFacts, Decide, ReplacementFor;
    var statement := submitted;
    var i := 0;
    while i < |tables|
      invariant 0 <= i <= |tables|
      invariant SecureFrom(catalog, policy, submitted, tables, 1)
             == SecureFrom(catalog, policy, statement, tables[i..], i + 1)
    {
      var table := tables[i];
      assert tables[i..][0] == table && tables[i..][1..] == tables[i + 1..];
      var decision := Decide(catalog, table.schema, table.name, QueryFacts(statement).star);
      if decision.Refuse? {
        return Err(decision.reason);
      }
      if decision.Scoped? {
        statement := ReplaceInQuery(statement,
          map[table.site := ReplacementFor(catalog, policy, table, decision, i + 1)]);
      }
      i := i + 1;
    }
    return Ok(statement);
  }
}
