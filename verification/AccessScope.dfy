/**
 The database a restricted seller is meant to see, defined row by row, and the
 proof that a replaced table reads exactly its rows.
 */
module AccessScope {
  import opened Prelude
  import opened Query
  import opened Access
  import opened QueryCongruence

  // ---------------------------------------------------------------------
  // The restricted database
  // ---------------------------------------------------------------------

  const CUSTOMER_KEY := "gnr.vwcust"

  function CellNamed(columns: seq<string>, row: Row, name: string): Value {
    match IndexOf(columns, name)
    case Some(i) => Cell(row, i)
    case None => Null
  }

  /** The identifier under which a customer row is compared. */
  function CustomerId(columns: seq<string>, row: Row, kind: ScopeKind): Value {
    match kind
    case UniqueId => CellNamed(columns, row, "CustGUID")
    case BackofficeText => AsText(CellNamed(columns, row, "ID"))
    case BackofficeNumber => CellNamed(columns, row, "ID")
  }

  /** A customer of the seller's branch and sales line. */
  predicate OwnCustomer(policy: Policy, columns: seq<string>, row: Row) {
    && CellNamed(columns, row, "CustLevelName") in Texts(policy.branchTexts)
    && CellNamed(columns, row, "CustCtgrName") in Texts(policy.lineTexts)
  }

  function ScopeSet(db: Database, policy: Policy, kind: ScopeKind): set<Value> {
    var t := ReadTable(db, CUSTOMER_KEY);
    (set row | row in t.rows && OwnCustomer(policy, t.columns, row) :: CustomerId(t.columns, row, kind)) - {Null}
  }

  predicate ExternalPerson(v: Value) {
    v.Number? && v.n in EXTERNAL_SALES_PERSON_IDS
  }

  predicate RowInScope(db: Database, policy: Policy, e: Entry, columns: seq<string>, column: string, kind: ScopeKind,
      row: Row) {
    && CellNamed(columns, row, column) in ScopeSet(db, policy, kind)
    && (SourceKey(e.schema, e.name) in EXTERNAL_EXCLUDED_SOURCES ==>
          && !ExternalPerson(CellNamed(columns, row, "DealerId"))
          && !ExternalPerson(CellNamed(columns, row, "SupervisorId")))
  }

  function RowsInScope(db: Database, policy: Policy, e: Entry, columns: seq<string>, column: string, kind: ScopeKind,
      rows: seq<Row>): seq<Row> {
    if rows == [] then []
    else
      (if RowInScope(db, policy, e, columns, column, kind, rows[0]) then [rows[0]] else [])
      + RowsInScope(db, policy, e, columns, column, kind, rows[1..])
  }

  function EntryByKey(catalog: Catalog, key: string): Option<Entry> {
    if catalog == [] then None
    else if SourceKey(catalog[0].schema, catalog[0].name) == key then Some(catalog[0])
    else EntryByKey(catalog[1..], key)
  }

  function RestrictedTable(db: Database, policy: Policy, e: Entry, t: Table): Table {
    match DecideEntry(e)
    case Scoped(column, kind) => Table(t.columns, RowsInScope(db, policy, e, t.columns, column, kind, t.rows))
    case Whole => t
    case Refuse(_) => Table(t.columns, [])
  }

  /** Customer tables keep the rows in scope and reference tables all of theirs; tables that a seller
      may not read are empty, and tables outside the catalogue are not there at all. */
  function RestrictedDatabase(catalog: Catalog, policy: Policy, db: Database): Database {
    map key | key in db && EntryByKey(catalog, key).Some? ::
      RestrictedTable(db, policy, EntryByKey(catalog, key).value, db[key])
  }

  // ---------------------------------------------------------------------
  // The catalogue describes the database
  // ---------------------------------------------------------------------

  ghost predicate WellFormedCatalog(catalog: Catalog) {
    && (forall i | 0 <= i < |catalog| :: catalog[i].schema != "")
    && (forall i, j | 0 <= i < j < |catalog| ::
          SourceKey(catalog[i].schema, catalog[i].name) != SourceKey(catalog[j].schema, catalog[j].name))
  }

  ghost predicate DescribesTable(e: Entry, t: Table) {
    && |t.columns| == |e.columns|
    && (forall i | 0 <= i < |t.columns| :: t.columns[i] == e.columns[i].name)
    && (forall row :: row in t.rows ==> |row| == |t.columns|)
  }

  /** The catalogue lists the tables and their columns exactly. */
  ghost predicate Describes(catalog: Catalog, db: Database) {
    forall i | 0 <= i < |catalog| ::
      var key := SourceKey(catalog[i].schema, catalog[i].name);
      key in db && DescribesTable(catalog[i], db[key])
  }

  lemma {:induction false} LookupFinds(catalog: Catalog, schema: string, name: string)
    ensures var r := Lookup(catalog, schema, name);
            r.Some? ==> r.value in catalog && Same(r.value.name, name) && (schema == "" || Same(r.value.schema, schema))
  {
    if catalog != [] {
      LookupFinds(catalog[1..], schema, name);
    }
  }

  lemma {:induction false} FoldAppend(a: string, b: string)
    ensures Fold(a + b) == Fold(a) + Fold(b)
  {
    if a == [] {
      assert a + b == b;
    } else {
      assert (a + b)[1..] == a[1..] + b;
      FoldAppend(a[1..], b);
    }
  }

  lemma SameNamesSameKey(schema: string, name: string, schema': string, name': string)
    requires Same(schema, schema') && Same(name, name')
    ensures SourceKey(schema, name) == SourceKey(schema', name')
  {
    FoldAppend(schema + ".", name);
    FoldAppend(schema, ".");
    FoldAppend(schema' + ".", name');
    FoldAppend(schema', ".");
  }

  lemma {:induction false} EntryByKeyFinds(catalog: Catalog, e: Entry)
    requires WellFormedCatalog(catalog) && e in catalog
    ensures EntryByKey(catalog, SourceKey(e.schema, e.name)) == Some(e)
  {
    if catalog[0] != e {
      var i :| 0 <= i < |catalog| && catalog[i] == e;
      assert 0 < i && e == catalog[1..][i - 1];
      assert WellFormedCatalog(catalog[1..]) by {
        forall i, j | 0 <= i < j < |catalog[1..]|
          ensures SourceKey(catalog[1..][i].schema, catalog[1..][i].name)
                  != SourceKey(catalog[1..][j].schema, catalog[1..][j].name)
        {
          assert catalog[1..][i] == catalog[i + 1] && catalog[1..][j] == catalog[j + 1];
        }
      }
      EntryByKeyFinds(catalog[1..], e);
    }
  }

  /** A physical table of a statement is read from the entry that was decided about. */
  lemma PhysicalTableIsEntry(w: World, ctes: Ctes, schema: string, name: string)
    requires !IsCte(w, schema, name) && Lookup(w.catalog, schema, name).Some?
    ensures var e := Lookup(w.catalog, schema, name).value;
            e in w.catalog && ResolveTable(w, ctes, schema, name) == ReadTable(w.db, SourceKey(e.schema, e.name))
  {
    LookupFinds(w.catalog, schema, name);
    var e := Lookup(w.catalog, schema, name).value;
    if schema != "" {
      SameNamesSameKey(e.schema, e.name, schema, name);
    }
  }

  // ---------------------------------------------------------------------
  // Reading the scope
  // ---------------------------------------------------------------------

  /** A qualified column of the innermost row. */
  lemma InnermostColumn(w: World, ctes: Ctes, scopes: Scopes, alias: string, columns: seq<string>, row: Row,
      name: string)
    requires alias != ""
    ensures EvalExpr(w, ctes, [[Binding(Shape(alias, columns), row)]] + scopes, Column(alias, name))
         == CellNamed(columns, row, name)
  {
    var f := [Binding(Shape(alias, columns), row)];
    assert LookupInFrame(f, alias, name) == Some(CellNamed(columns, row, name));
    assert ([f] + scopes)[0] == f;
  }

  lemma InTexts(v: Value, values: seq<string>)
    ensures In(v, Texts(values)) == Yes <==> v in Texts(values)
  {
    assert forall x :: x in Texts(values) ==> x != Null;
  }

  lemma ScopeFilterMeans(w: World, ctes: Ctes, scopes: Scopes, policy: Policy, columns: seq<string>, row: Row)
    ensures EvalCondition(w, ctes, [[Binding(Shape("c", columns), row)]] + scopes, ScopeFilter(policy)) == Yes
       <==> OwnCustomer(policy, columns, row)
  {
    hide CellNamed, In, Texts, LookupColumn;
    InnermostColumn(w, ctes, scopes, "c", columns, row, "CustLevelName");
    InnermostColumn(w, ctes, scopes, "c", columns, row, "CustCtgrName");
    InTexts(CellNamed(columns, row, "CustLevelName"), policy.branchTexts);
    InTexts(CellNamed(columns, row, "CustCtgrName"), policy.lineTexts);
  }

  lemma SelectedIdMeans(w: World, ctes: Ctes, scopes: Scopes, columns: seq<string>, row: Row, kind: ScopeKind)
    ensures EvalExpr(w, ctes, [[Binding(Shape("c", columns), row)]] + scopes, SelectedId(kind))
            == CustomerId(columns, row, kind)
  {
    hide CellNamed, LookupColumn, AsText;
    InnermostColumn(w, ctes, scopes, "c", columns, row, "CustGUID");
    InnermostColumn(w, ctes, scopes, "c", columns, row, "ID");
  }

  lemma {:induction false} ScopeRows(w: World, ctes: Ctes, scopes: Scopes, policy: Policy, kind: ScopeKind,
      columns: seq<string>, rows: seq<Row>, v: Value)
    ensures var kept := Keep(w, ctes, scopes, ScopeFilter(policy), Bind(Shape("c", columns), rows));
            (v in FirstColumn(Project(w, ctes, scopes, Item(SelectedId(kind), "", NoItems), kept))
             <==> exists row :: row in rows && OwnCustomer(policy, columns, row) && CustomerId(columns, row, kind) == v)
  {
    hide ScopeFilter, SelectedId, OwnCustomer, CustomerId;
    if rows != [] {
      var shape, items := Shape("c", columns), Item(SelectedId(kind), "", NoItems);
      var rest := Keep(w, ctes, scopes, ScopeFilter(policy), Bind(shape, rows[1..]));
      ScopeRows(w, ctes, scopes, policy, kind, columns, rows[1..], v);
      ScopeFilterMeans(w, ctes, scopes, policy, columns, rows[0]);
      SelectedIdMeans(w, ctes, scopes, columns, rows[0], kind);
      assert Bind(shape, rows)[1..] == Bind(shape, rows[1..]);
      assert rows == [rows[0]] + rows[1..];
      var f := [Binding(shape, rows[0])];
      if OwnCustomer(policy, columns, rows[0]) {
        assert ([f] + rest)[1..] == rest;
        assert EvalItems(w, ctes, [f] + scopes, items) == [CustomerId(columns, rows[0], kind)];
      } else {
        assert [] + rest == rest;
      }
    }
  }

  lemma {:induction false} DistinctKeepsMembers(rows: seq<Row>, row: Row)
    ensures row in Distinct(rows) <==> row in rows
  {
    if rows != [] {
      var n := |rows| - 1;
      DistinctKeepsMembers(rows[..n], row);
      DistinctKeepsMembers(rows[..n], rows[n]);
      assert rows == rows[..n] + [rows[n]];
    }
  }

  lemma {:induction false} FirstColumnMembers(rows: seq<Row>, v: Value)
    ensures v in FirstColumn(rows) <==> exists row :: row in rows && Cell(row, 0) == v
  {
    if rows != [] {
      FirstColumnMembers(rows[1..], v);
      assert rows == [rows[0]] + rows[1..];
    }
  }

  /** The sub-query that every replacement tests against yields the scope set. */
  lemma ScopeSubqueryMeans(w: World, ctes: Ctes, scopes: Scopes, policy: Policy, kind: ScopeKind, v: Value)
    ensures In(v, FirstColumn(EvalQuery(w, ctes, scopes, ScopeSubquery(policy, kind)).rows)) == Yes
       <==> v in ScopeSet(w.db, policy, kind)
  {
    hide ScopeFilter, SelectedId, OwnCustomer, CustomerId, Fold, Bind, Distinct, FirstColumn;
    assert SourceKey("GNR", "vwCust") == CUSTOMER_KEY by {
      CustomerKeyIs();
    }
    var t := ReadTable(w.db, CUSTOMER_KEY);
    ScopeRows(w, ctes, scopes, policy, kind, t.columns, t.rows, v);
    var kept := Keep(w, ctes, scopes, ScopeFilter(policy), Bind(Shape("c", t.columns), t.rows));
    var rows := Project(w, ctes, scopes, Item(SelectedId(kind), "", NoItems), kept);
    assert EvalSource(w, ctes, scopes, Base(0, "GNR", "vwCust", "c")) == FramesOf("c", t);
    assert EvalQuery(w, ctes, scopes, ScopeSubquery(policy, kind)).rows == Distinct(rows);
    FirstColumnMembers(rows, v);
    FirstColumnMembers(Distinct(rows), v);
    forall row ensures row in Distinct(rows) <==> row in rows {
      DistinctKeepsMembers(rows, row);
    }
  }

  lemma CustomerKeyIs()
    ensures SourceKey("GNR", "vwCust") == CUSTOMER_KEY
  {
    FoldAppend("GNR" + ".", "vwCust");
    FoldAppend("GNR", ".");
    FoldAppend("vw", "Cust");
    FoldAppend("Cu", "st");
    assert "vw" + "Cust" == "vwCust" && "Cu" + "st" == "Cust";
    assert Fold("GNR") == "gnr" && Fold(".") == ".";
    assert Fold("vw") == "vw" && Fold("Cu") == "cu" && Fold("st") == "st";
  }

  lemma InExternalIds(v: Value)
    requires v != Null
    ensures In(v, Numbers(EXTERNAL_SALES_PERSON_IDS)) == (if ExternalPerson(v) then Yes else No)
  {
    var ids := Numbers(EXTERNAL_SALES_PERSON_IDS);
    assert |ids| == 4 && ids[0] == Number(7) && ids[1] == Number(137) && ids[2] == Number(192) && ids[3] == Number(510);
  }

  lemma NotExternalMeans(w: World, ctes: Ctes, scopes: Scopes, raw: string, columns: seq<string>, row: Row,
      column: string)
    requires raw != ""
    ensures EvalCondition(w, ctes, [[Binding(Shape(raw, columns), row)]] + scopes, NotExternal(raw, column)) == Yes
       <==> !ExternalPerson(CellNamed(columns, row, column))
  {
    hide Numbers, In, CellNamed;
    InnermostColumn(w, ctes, scopes, raw, columns, row, column);
    var inner := [[Binding(Shape(raw, columns), row)]] + scopes;
    var v := CellNamed(columns, row, column);
    var known := if v != Null then v else Number(-1);
    InExternalIds(known);
    var coalesced := Coalesce(Column(raw, column), Literal(Number(-1)));
    assert EvalExpr(w, ctes, inner, coalesced) == known;
    assert EvalCondition(w, ctes, inner, InList(coalesced, Numbers(EXTERNAL_SALES_PERSON_IDS)))
        == In(known, Numbers(EXTERNAL_SALES_PERSON_IDS));
  }

  lemma ScopeConditionMeans(w: World, ctes: Ctes, scopes: Scopes, policy: Policy, e: Entry, column: string,
      kind: ScopeKind, raw: string, columns: seq<string>, row: Row)
    requires raw != ""
    ensures var inner := [[Binding(Shape(raw, columns), row)]] + scopes;
            EvalCondition(w, ctes, inner, ScopeCondition(policy, e, column, kind, raw)) == Yes
            <==> RowInScope(w.db, policy, e, columns, column, kind, row)
  {
    hide NotExternal, ScopeSubquery, ScopeSet, ExternalPerson, CellNamed, In, EvalQuery, LookupColumn, SourceKey;
    var inner := [[Binding(Shape(raw, columns), row)]] + scopes;
    InnermostColumn(w, ctes, scopes, raw, columns, row, column);
    ScopeSubqueryMeans(w, ctes, inner, policy, kind, CellNamed(columns, row, column));
    NotExternalMeans(w, ctes, scopes, raw, columns, row, "DealerId");
    NotExternalMeans(w, ctes, scopes, raw, columns, row, "SupervisorId");
    var scoped := InQuery(Column(raw, column), ScopeSubquery(policy, kind));
    assert EvalCondition(w, ctes, inner, scoped) == Yes
           <==> CellNamed(columns, row, column) in ScopeSet(w.db, policy, kind);
    assert EvalCondition(w, ctes, inner, Both(scoped, NotExternal(raw, "DealerId")))
        == And(EvalCondition(w, ctes, inner, scoped), EvalCondition(w, ctes, inner, NotExternal(raw, "DealerId")));
  }

  // ---------------------------------------------------------------------
  // Reading a replaced table
  // ---------------------------------------------------------------------

  lemma {:induction false} ReplacementRows(w: World, ctes: Ctes, scopes: Scopes, policy: Policy, e: Entry,
      column: string, kind: ScopeKind,
      raw: string, columns: seq<string>, rows: seq<Row>)
    requires raw != "" && forall row :: row in rows ==> |row| == |columns|
    ensures Project(w, ctes, scopes, Star("", NoItems),
                    Keep(w, ctes, scopes, ScopeCondition(policy, e, column, kind, raw),
                         Bind(Shape(raw, columns), rows)))
         == RowsInScope(w.db, policy, e, columns, column, kind, rows)
  {
    hide ScopeCondition, RowInScope, EvalCondition, EvalItems;
    if rows != [] {
      var shape := Shape(raw, columns);
      var f := [Binding(shape, rows[0])];
      var rest := Keep(w, ctes, scopes, ScopeCondition(policy, e, column, kind, raw), Bind(shape, rows[1..]));
      assert rows[0] in rows;
      ReplacementRows(w, ctes, scopes, policy, e, column, kind, raw, columns, rows[1..]);
      ScopeConditionMeans(w, ctes, scopes, policy, e, column, kind, raw, columns, rows[0]);
      assert Bind(shape, rows)[1..] == Bind(shape, rows[1..]);
      if RowInScope(w.db, policy, e, columns, column, kind, rows[0]) {
        assert ([f] + rest)[1..] == rest;
        StarOfOneTable(w, ctes, scopes, shape, rows[0]);
      } else {
        assert [] + rest == rest;
      }
    }
  }

  lemma StarOfOneTable(w: World, ctes: Ctes, scopes: Scopes, shape: Shape, row: Row)
    requires |row| == |shape.columns|
    ensures EvalItems(w, ctes, [[Binding(shape, row)]] + scopes, Star("", NoItems)) == row
  {
    assert Cells(shape.columns, row) == row;
    assert StarCells([Binding(shape, row)], "") + [] == row;
  }

  lemma RawAliasNonEmpty(index: nat)
    ensures RawAlias(index) != ""
  {
  }

  /**
   In the full database the replacement of a table reads as the table itself
   does in the restricted database, wherever it stands.
   */
  lemma ReplacementReadsRestrictedTable(w: World, v: World, ctes: Ctes, s: Scopes, t: Scopes, policy: Policy,
      b: Source, index: nat)
    requires b.Base? && WellFormedCatalog(w.catalog) && Describes(w.catalog, w.db)
    requires v == w.(db := RestrictedDatabase(w.catalog, policy, w.db))
    requires !IsCte(w, b.schema, b.name) && Lookup(w.catalog, b.schema, b.name).Some?
    requires DecideEntry(Lookup(w.catalog, b.schema, b.name).value).Scoped?
    ensures var e := Lookup(w.catalog, b.schema, b.name).value;
            EvalSource(w, ctes, s, ReplacementFor(w.catalog, policy, b, DecideEntry(e), index))
            == EvalSource(v, ctes, t, b)
  {
    hide DecideEntry, ReplacementQuery, EvalQuery, SourceKey, Lookup, ResolveTable, RowsInScope, Bind, RawAlias;
    var e := Lookup(w.catalog, b.schema, b.name).value;
    var d := DecideEntry(e);
    PhysicalTableIsEntry(w, ctes, b.schema, b.name);
    PhysicalTableIsEntry(v, ctes, b.schema, b.name);
    EntryByKeyFinds(w.catalog, e);
    var key := SourceKey(e.schema, e.name);
    var i :| 0 <= i < |w.catalog| && w.catalog[i] == e;
    var table := w.db[key];
    assert DescribesTable(e, table);
    assert ReadTable(v.db, key) == RestrictedTable(w.db, policy, e, table);
    RawAliasNonEmpty(index);
    ReadsRowsInScope(w, ctes, s, policy, e, d.column, d.kind, RawAlias(index));
  }

  lemma ReadsRowsInScope(w: World, ctes: Ctes, s: Scopes, policy: Policy, e: Entry, column: string, kind: ScopeKind,
      raw: string)
    requires raw != "" && e.schema != ""
    requires var t := ReadTable(w.db, SourceKey(e.schema, e.name)); forall row :: row in t.rows ==> |row| == |t.columns|
    ensures var t := ReadTable(w.db, SourceKey(e.schema, e.name));
            EvalQuery(w, ctes, s, ReplacementQuery(policy, e, column, kind, raw))
            == Table(t.columns, RowsInScope(w.db, policy, e, t.columns, column, kind, t.rows))
  {
    hide ScopeCondition, RowsInScope;
    var t := ReadTable(w.db, SourceKey(e.schema, e.name));
    ReplacementRows(w, ctes, s, policy, e, column, kind, raw, t.columns, t.rows);
    assert EvalSource(w, ctes, s, Base(0, e.schema, e.name, raw)) == FramesOf(raw, t);
    assert StarColumns([Shape(raw, t.columns)], "") == t.columns;
    assert ItemColumns(Star("", NoItems), [Shape(raw, t.columns)]) == t.columns;
  }
}
