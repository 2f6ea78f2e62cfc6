/** One input: the customer view decides about the scope even where it is restricted itself. */
module AccessExamples {
  import opened Prelude
  import opened Query
  import opened Access
  import opened QueryCongruence
  import opened AccessScope
  import opened AccessTheorems
  import opened AccessDecisions

  const CUSTOMERS := Entry("GNR", "vwCust",
    [ColumnInfo("ID", "int"), ColumnInfo("CustLevelName", "text"), ColumnInfo("CustCtgrName", "text")],
    Some(RestrictedAccess))
  const CUSTOMER_COLUMNS := ["ID", "CustLevelName", "CustCtgrName"]
  const ALL_ORDERS := Select(false, Star("", NoItems), FROM_ORDERS, Always)

  function WithCustomers(customers: seq<Row>): Database {
    map["gnr.vwcust" := Table(CUSTOMER_COLUMNS, customers),
        "s.a" := Table(["custid"], [[Number(1)]])]
  }

  lemma {:induction false} EveryRowIsAnswered(w: World, shape: Shape, rows: seq<Row>)
    requires forall row :: row in rows ==> |row| == |shape.columns|
    ensures Project(w, map[], [], Star("", NoItems), Keep(w, map[], [], Always, Bind(shape, rows))) == rows
  {
    hide EvalItems;
    if rows != [] {
      var f := [Binding(shape, rows[0])];
      var rest := Keep(w, map[], [], Always, Bind(shape, rows[1..]));
      assert rows[0] in rows;
      EveryRowIsAnswered(w, shape, rows[1..]);
      assert Bind(shape, rows)[1..] == Bind(shape, rows[1..]);
      assert ([f] + rest)[1..] == rest;
      assert [f] + [] == [f];
      StarOfOneTable(w, map[], [], shape, rows[0]);
    }
  }

  lemma OrdersKey()
    ensures SourceKey("s", "a") == "s.a"
  {
    assert "s" + "." + "a" == "s.a";
    assert Fold("s.a") == "s.a";
  }

  lemma ExampleKeys()
    ensures SourceKey("GNR", "vwCust") == CUSTOMER_KEY && SourceKey("s", "a") == "s.a" != CUSTOMER_KEY
  {
    hide SourceKey;
    CustomerKeyIs();
    OrdersKey();
    assert |CUSTOMER_KEY| == 10;
  }

  const CATALOG: Catalog := [CUSTOMERS, ORDERS]

  lemma ExampleDescribed(customers: seq<Row>)
    requires forall row :: row in customers ==> |row| == 3
    ensures WellFormedCatalog(CATALOG) && Describes(CATALOG, WithCustomers(customers))
  {
    hide SourceKey, DescribesTable;
    ExampleKeys();
    TablesDescribed(customers);
  }

  lemma TablesDescribed(customers: seq<Row>)
    requires forall row :: row in customers ==> |row| == 3
    ensures var db := WithCustomers(customers);
            DescribesTable(CUSTOMERS, db[CUSTOMER_KEY]) && DescribesTable(ORDERS, db["s.a"])
  {
  }

  lemma ExampleLookup()
    ensures Lookup(CATALOG, "s", "a") == Some(ORDERS)
  {
    assert Fold("a") == "a" && Fold("s") == "s";
    assert Fold("vwCust")[0] == 'v';
    assert CATALOG[1..] == [ORDERS];
  }

  lemma ExampleAccepted(policy: Policy)
    requires policy.restrictedSeller
    ensures Lists([FROM_ORDERS], ALL_ORDERS)
    ensures Enforced(CATALOG, policy, ALL_ORDERS, [FROM_ORDERS]).Ok?
  {
    hide DecideEntry, HasForbiddenColumn, Lookup, ReplaceInQuery, ReplacementFor, ForbiddenColumn, CATALOG;
    ExampleLookup();
    ScopedExample();
    OrdersHaveNoForbiddenColumn();
    assert QueryFacts(ALL_ORDERS) == Facts({FROM_ORDERS}, {}, {}, true);
    var visited := [FROM_ORDERS];
    assert visited[0] == FROM_ORDERS && (set i | 0 <= i < 1 :: visited[i]) == {FROM_ORDERS};
    assert visited[1..] == [];
    assert PhysicalTables(visited, {}) == visited + PhysicalTables([], {}) == visited;
    assert Decide(CATALOG, "s", "a", true) == Scoped("custid", BackofficeNumber);
    var r := ReplacementFor(CATALOG, policy, FROM_ORDERS, Scoped("custid", BackofficeNumber), 1);
    assert SecureFrom(CATALOG, policy, ReplaceInQuery(ALL_ORDERS, map[1 := r]), [], 2).Ok?;
    assert SecureFrom(CATALOG, policy, ALL_ORDERS, visited, 1).Ok?;
  }

  lemma NotInCustid(marker: string)
    requires |marker| >= 3 && marker[0] !in {'u', 't', 'd'}
    requires (marker[0] == 'c' ==> marker[1] != 'u') && (marker[0] == 's' ==> marker[1] != 't')
    requires marker[0] == 'i' ==> marker[1] != 'd'
    ensures !Occurs(marker, "custid")
  {
    assert "custid"[1..] == "ustid" && "ustid"[1..] == "stid" && "stid"[1..] == "tid" && "tid"[1..] == "id"
        && "id"[1..] == "d" && "d"[1..] == "";
    assert !Occurs(marker, "");
    assert !Occurs(marker, "id");
    assert !Occurs(marker, "stid");
  }

  lemma CustidIsPlain()
    ensures Normalized("custid") == "custid"
  {
    assert Fold("custid") == "custid";
  }

  lemma NoMarkerInCustid()
    ensures forall i | 0 <= i < |FORBIDDEN_COLUMN_MARKERS| :: !Occurs(FORBIDDEN_COLUMN_MARKERS[i], "custid")
  {
    hide Occurs;
    forall i | 0 <= i < |FORBIDDEN_COLUMN_MARKERS| ensures !Occurs(FORBIDDEN_COLUMN_MARKERS[i], "custid") {
      NotInCustid(FORBIDDEN_COLUMN_MARKERS[i]);
    }
  }

  lemma OrdersHaveNoForbiddenColumn()
    ensures !HasForbiddenColumn(ORDERS)
  {
    hide Occurs, Normalized, FORBIDDEN_COLUMN_MARKERS;
    CustidIsPlain();
    NoMarkerInCustid();
    assert ORDERS.columns[0].name == "custid";
  }

  /** The only order, if it belongs to a customer of the seller. */
  lemma ExampleAnswer(policy: Policy, customers: seq<Row>, secured: Query)
    requires policy.restrictedSeller && forall row :: row in customers ==> |row| == 3
    requires Lists([FROM_ORDERS], ALL_ORDERS)
    requires Enforced(CATALOG, policy, ALL_ORDERS, [FROM_ORDERS]) == Ok(secured)
    ensures var db := WithCustomers(customers);
            Answer(db, CATALOG, secured).rows == RestrictedTable(db, policy, ORDERS, db["s.a"]).rows
  {
    hide Lists, Enforced, RestrictedTable, Answer, DecideEntry, SourceKey, Lookup, WellFormedCatalog, Describes;
    var db := WithCustomers(customers);
    ExampleDescribed(customers);
    ExampleKeys();
    ExampleLookup();
    SellerSeesRestrictedDatabase(CATALOG, policy, db, ALL_ORDERS, [FROM_ORDERS], secured);
    var seen := RestrictedDatabase(CATALOG, policy, db);
    EntryByKeyFinds(CATALOG, ORDERS);
    assert seen["s.a"] == RestrictedTable(db, policy, ORDERS, db["s.a"]);
    RestrictedOrders(db, policy);
    OrdersAnswered(seen);
  }

  lemma RestrictedOrders(db: Database, policy: Policy)
    requires "s.a" in db && forall row :: row in db["s.a"].rows ==> |row| == |db["s.a"].columns|
    ensures var t := RestrictedTable(db, policy, ORDERS, db["s.a"]);
            forall row :: row in t.rows ==> |row| == |t.columns|
  {
    hide DecideEntry, SellersRow, RowsInScope, MayBeRead, HoldsCustomers;
    forall row {
      RestrictedRowsAre(db, policy, ORDERS, db["s.a"], row);
    }
  }

  lemma OrdersAnswered(db: Database)
    requires "s.a" in db && forall row :: row in db["s.a"].rows ==> |row| == |db["s.a"].columns|
    ensures Answer(db, CATALOG, ALL_ORDERS).rows == db["s.a"].rows
  {
    hide SourceKey, CATALOG, Keep, Project, Bind;
    ExampleKeys();
    assert QueryFacts(ALL_ORDERS).ctes == {};
    var w, t := World(db, CATALOG, {}), db["s.a"];
    assert EvalSource(w, map[], [], FROM_ORDERS) == FramesOf("a", t);
    EveryRowIsAnswered(w, Shape("a", t.columns), t.rows);
  }

  lemma OnlyOrder(policy: Policy, customers: seq<Row>)
    ensures var db := WithCustomers(customers);
            [Number(1)] in RestrictedTable(db, policy, ORDERS, db["s.a"]).rows
            <==> SellersRow(db, policy, ORDERS, ["custid"], [Number(1)])
  {
    hide DecideEntry, SellersRow, RowsInScope, RestrictedTable;
    RestrictedRowsAre(WithCustomers(customers), policy, ORDERS, WithCustomers(customers)["s.a"], [Number(1)]);
  }

  const OWN := Policy(true, ["b"], ["l"])
  const CUSTOMER: Row := [Number(1), Text("b"), Text("l")]

  lemma CustomerCells()
    ensures CellNamed(CUSTOMER_COLUMNS, CUSTOMER, "ID") == Number(1)
    ensures CellNamed(CUSTOMER_COLUMNS, CUSTOMER, "CustLevelName") == Text("b")
    ensures CellNamed(CUSTOMER_COLUMNS, CUSTOMER, "CustCtgrName") == Text("l")
    ensures CellNamed(["custid"], [Number(1)], "custid") == Number(1)
  {
    hide Fold;
    FoldIs("ID");
    FoldIs("CustLevelName");
    FoldIs("CustCtgrName");
    var rest := CUSTOMER_COLUMNS[1..];
    assert rest == ["CustLevelName", "CustCtgrName"] && rest[1..] == ["CustCtgrName"];
    assert IndexOf(rest[1..], "CustCtgrName") == Some(0);
    assert IndexOf(rest, "CustCtgrName") == Some(1);
  }

  lemma OrderScope()
    ensures ScopesBy(ORDERS, 0, BackofficeNumber)
  {
    hide FirstNamed, ColumnNamed, ScopesBy;
    ScopedExample();
    EntryDecidedExactly(ORDERS);
    var i: nat :| i < 1 && ScopesBy(ORDERS, i, BackofficeNumber) && ORDERS.columns[i].name == "custid";
    assert i == 0;
  }

  lemma OrderBelongs(db: Database, i: nat, customer: Row)
    requires i < |ORDERS.columns| && ScopesBy(ORDERS, i, BackofficeNumber)
    requires IsCustomerOf(db, OWN, ["custid"], [Number(1)], ORDERS.columns[i].name, BackofficeNumber, customer)
    ensures SellersRow(db, OWN, ORDERS, ["custid"], [Number(1)])
  {
    hide ScopesBy, IsCustomerOf, SourceKey;
    ExampleKeys();
  }

  /**
   The customer view decides who is in scope whatever access it has itself: two
   databases that differ in nothing but that restricted table, and one accepted
   statement with two answers.
   */
  lemma ScopeFollowsRestrictedView() returns (secured: Query)
    ensures Lists([FROM_ORDERS], ALL_ORDERS) && OWN.restrictedSeller
    ensures Enforced(CATALOG, OWN, ALL_ORDERS, [FROM_ORDERS]) == Ok(secured)
    ensures CUSTOMERS.access == Some(RestrictedAccess) && WithCustomers([CUSTOMER])["s.a"] == WithCustomers([])["s.a"]
    ensures [Number(1)] in Answer(WithCustomers([CUSTOMER]), CATALOG, secured).rows
    ensures [Number(1)] !in Answer(WithCustomers([]), CATALOG, secured).rows
  {
    hide Lists, Enforced, RestrictedTable, Answer, CellNamed, ScopesBy, SourceKey;
    ExampleAccepted(OWN);
    secured := Enforced(CATALOG, OWN, ALL_ORDERS, [FROM_ORDERS]).value;
    ExampleAnswer(OWN, [CUSTOMER], secured);
    ExampleAnswer(OWN, [], secured);
    OnlyOrder(OWN, [CUSTOMER]);
    OnlyOrder(OWN, []);
    OrderScope();
    CustomerCells();
    ExampleKeys();
    assert Texts(["b"])[0] == Text("b") && Texts(["l"])[0] == Text("l");
    assert IsCustomerOf(WithCustomers([CUSTOMER]), OWN, ["custid"], [Number(1)], "custid", BackofficeNumber, CUSTOMER);
    OrderBelongs(WithCustomers([CUSTOMER]), 0, CUSTOMER);
  }
}
