/**
 A small query language with the meaning of SQL: selections, joins, unions,
 grouping, derived tables, common table expressions and sub-queries that may
 refer to the rows around them.

 Results are sequences of rows, so two queries with equal results also agree as
 bags.  Conditions have three truth values.
 */
module Query {
  import opened Prelude

  // ---------------------------------------------------------------------
  // Values and truth
  // ---------------------------------------------------------------------

  datatype Value = Null | Number(n: int) | Text(s: string)

  type Row = seq<Value>

  datatype Table = Table(columns: seq<string>, rows: seq<Row>)

  datatype Truth = Yes | No | Unknown

  function Not(a: Truth): Truth {
    match a
    case Yes => No
    case No => Yes
    case Unknown => Unknown
  }

  function And(a: Truth, b: Truth): Truth {
    if a == No || b == No then No else if a == Yes && b == Yes then Yes else Unknown
  }

  function FromBool(b: bool): Truth {
    if b then Yes else No
  }

  /** `v IN (values)`. */
  function In(v: Value, values: seq<Value>): Truth {
    if values == [] then No
    else if v != Null && v in values then Yes
    else if v == Null || Null in values then Unknown
    else No
  }

  datatype Comparison = Equal | Less

  function Compare(op: Comparison, a: Value, b: Value): Truth {
    match (op, a, b)
    case (Equal, Number(x), Number(y)) => FromBool(x == y)
    case (Equal, Text(x), Text(y)) => FromBool(x == y)
    case (Less, Number(x), Number(y)) => FromBool(x < y)
    case (Less, Text(x), Text(y)) => FromBool(SortsBefore(x, y))
    case _ => Unknown
  }

  datatype Arithmetic = Add | Subtract | Multiply

  function Compute(op: Arithmetic, a: Value, b: Value): Value {
    match (op, a, b)
    case (Add, Number(x), Number(y)) => Number(x + y)
    case (Subtract, Number(x), Number(y)) => Number(x - y)
    case (Multiply, Number(x), Number(y)) => Number(x * y)
    case _ => Null
  }

  /** `CONVERT(varchar(50), v)`. */
  function AsText(v: Value): Value {
    match v
    case Number(n) => Text(Decimal(n))
    case other => other
  }

  // ---------------------------------------------------------------------
  // Identifiers
  // ---------------------------------------------------------------------

  /** Identifiers are compared without regard to case. */
  predicate Same(a: string, b: string) {
    Fold(a) == Fold(b)
  }

  // ---------------------------------------------------------------------
  // Queries
  // ---------------------------------------------------------------------

  datatype Query =
    | Select(distinct: bool, items: Items, from: Source, filter: Condition)
    | GroupBy(keys: Items, aggregates: Aggregates, from: Source, filter: Condition)
    | Union(all: bool, left: Query, right: Query)
    | With(name: string, definition: Query, body: Query)

  /** `site` tells the occurrences of tables in one statement apart. */
  datatype Source =
    | NoSource
    | Base(site: nat, schema: string, name: string, alias: string)
    | Derived(query: Query, alias: string)
    | Join(leftOuter: bool, left: Source, right: Source, on: Condition)

  datatype Items =
    | NoItems
    | Star(qualifier: string, rest: Items)
    | Item(expr: Expr, name: string, rest: Items)

  datatype Aggregate = Count | Sum | Least | Greatest

  datatype Aggregates =
    | NoAggregates
    | CountRows(name: string, rest: Aggregates)
    | Aggregated(fun: Aggregate, expr: Expr, name: string, rest: Aggregates)

  datatype Expr =
    | Column(qualifier: string, name: string)
    | Literal(value: Value)
    | Computed(op: Arithmetic, left: Expr, right: Expr)
    | Coalesce(first: Expr, second: Expr)
    | Converted(expr: Expr)
    | Scalar(query: Query)

  datatype Condition =
    | Always
    | Comparing(op: Comparison, first: Expr, second: Expr)
    | Both(left: Condition, right: Condition)
    | Negated(condition: Condition)
    | IsNull(expr: Expr)
    | InList(expr: Expr, values: seq<Value>)
    | InQuery(expr: Expr, query: Query)
    | Exists(query: Query)

  // ---------------------------------------------------------------------
  // Evaluation
  // ---------------------------------------------------------------------

  /** The columns of a reviewed table, and who may read it. */
  datatype ColumnInfo = ColumnInfo(name: string, dataType: string)
  datatype Access = RestrictedAccess | CustomerScope | Reference
  datatype Entry = Entry(schema: string, name: string, columns: seq<ColumnInfo>, access: Option<Access>)

  /** Entries in the order in which an unqualified name is looked up: dbo first, then by schema. */
  type Catalog = seq<Entry>

  function SourceKey(schema: string, name: string): string {
    Fold(schema + "." + name)
  }

  function Lookup(catalog: Catalog, schema: string, name: string): Option<Entry> {
    if catalog == [] then None
    else if Same(catalog[0].name, name) && (schema == "" || Same(catalog[0].schema, schema)) then Some(catalog[0])
    else Lookup(catalog[1..], schema, name)
  }

  /** Tables by their source key. */
  type Database = map<string, Table>

  /** `names` are the folded names of all common table expressions of the statement. */
  datatype World = World(db: Database, catalog: Catalog, names: set<string>)

  type Ctes = map<string, Table>

  datatype Shape = Shape(alias: string, columns: seq<string>)
  datatype Binding = Binding(shape: Shape, row: Row)
  type Frame = seq<Binding>

  /** The rows around an expression, innermost first. */
  type Scopes = seq<Frame>

  datatype Frames = Frames(shapes: seq<Shape>, frames: seq<Frame>)

  const NO_TABLE := Table([], [])

  predicate IsCte(w: World, schema: string, name: string) {
    schema == "" && Fold(name) in w.names
  }

  function ReadTable(db: Database, key: string): Table {
    if key in db then db[key] else NO_TABLE
  }

  function ResolveTable(w: World, ctes: Ctes, schema: string, name: string): Table {
    if IsCte(w, schema, name) then (if Fold(name) in ctes then ctes[Fold(name)] else NO_TABLE)
    else if schema != "" then ReadTable(w.db, SourceKey(schema, name))
    else
      match Lookup(w.catalog, schema, name)
      case Some(e) => ReadTable(w.db, SourceKey(e.schema, e.name))
      case None => NO_TABLE
  }

  function Exposed(alias: string, name: string): string {
    if alias != "" then alias else name
  }

  function Bind(shape: Shape, rows: seq<Row>): seq<Frame> {
    if rows == [] then [] else [[Binding(shape, rows[0])]] + Bind(shape, rows[1..])
  }

  function FramesOf(alias: string, t: Table): Frames {
    var shape := Shape(alias, t.columns);
    Frames([shape], Bind(shape, t.rows))
  }

  function NullFrame(shapes: seq<Shape>): Frame {
    if shapes == [] then [] else [Binding(shapes[0], [])] + NullFrame(shapes[1..])
  }

  function Cell(row: Row, i: nat): Value {
    if i < |row| then row[i] else Null
  }

  function IndexOf(columns: seq<string>, name: string): Option<nat> {
    if columns == [] then None
    else if Same(columns[0], name) then Some(0)
    else match IndexOf(columns[1..], name) case None => None case Some(i) => Some(i + 1)
  }

  function LookupInBinding(b: Binding, name: string): Option<Value> {
    match IndexOf(b.shape.columns, name)
    case Some(i) => Some(Cell(b.row, i))
    case None => None
  }

  /** A qualified name means the first table exposed under that name, with or without the column. */
  function LookupInFrame(f: Frame, qualifier: string, name: string): Option<Value> {
    if f == [] then None
    else if qualifier == "" then
      match LookupInBinding(f[0], name)
      case Some(v) => Some(v)
      case None => LookupInFrame(f[1..], qualifier, name)
    else if Same(f[0].shape.alias, qualifier) then
      match LookupInBinding(f[0], name)
      case Some(v) => Some(v)
      case None => Some(Null)
    else LookupInFrame(f[1..], qualifier, name)
  }

  function LookupColumn(scopes: Scopes, qualifier: string, name: string): Value {
    if scopes == [] then Null
    else
      match LookupInFrame(scopes[0], qualifier, name)
      case Some(v) => v
      case None => LookupColumn(scopes[1..], qualifier, name)
  }

  function Cells(columns: seq<string>, row: Row): Row {
    seq(|columns|, i requires 0 <= i < |columns| => Cell(row, i))
  }

  function StarCells(f: Frame, qualifier: string): Row {
    if f == [] then []
    else
      (if qualifier == "" || Same(f[0].shape.alias, qualifier) then Cells(f[0].shape.columns, f[0].row) else [])
      + StarCells(f[1..], qualifier)
  }

  function StarColumns(shapes: seq<Shape>, qualifier: string): seq<string> {
    if shapes == [] then []
    else
      (if qualifier == "" || Same(shapes[0].alias, qualifier) then shapes[0].columns else [])
      + StarColumns(shapes[1..], qualifier)
  }

  function ItemColumns(items: Items, shapes: seq<Shape>): seq<string> {
    match items
    case NoItems => []
    case Star(qualifier, rest) => StarColumns(shapes, qualifier) + ItemColumns(rest, shapes)
    case Item(_, name, rest) => [name] + ItemColumns(rest, shapes)
  }

  function AggregateColumns(aggregates: Aggregates): seq<string> {
    match aggregates
    case NoAggregates => []
    case CountRows(name, rest) => [name] + AggregateColumns(rest)
    case Aggregated(_, _, name, rest) => [name] + AggregateColumns(rest)
  }

  function Distinct(rows: seq<Row>): seq<Row> {
    if rows == [] then []
    else
      var rest := Distinct(rows[..|rows| - 1]);
      if rows[|rows| - 1] in rest then rest else rest + [rows[|rows| - 1]]
  }

  // Grouping works on rows that start with the key and carry the aggregated values.

  function RowsOfGroup(keys: seq<Row>, values: seq<Row>, key: Row): seq<Row>
    requires |keys| == |values|
  {
    if keys == [] then []
    else (if keys[0] == key then [values[0]] else []) + RowsOfGroup(keys[1..], values[1..], key)
  }

  function CountValues(rows: seq<Row>, column: nat): nat {
    if rows == [] then 0 else (if Cell(rows[0], column) != Null then 1 else 0) + CountValues(rows[1..], column)
  }

  function FoldValues(fun: Aggregate, rows: seq<Row>, column: nat): Value {
    if rows == [] then Null
    else
      var rest, v := FoldValues(fun, rows[1..], column), Cell(rows[0], column);
      if rest == Null then v
      else if v == Null then rest
      else
        match fun
        case Least => if Compare(Less, v, rest) == Yes then v else rest
        case Greatest => if Compare(Less, rest, v) == Yes then v else rest
        case _ => Compute(Add, v, rest)
  }

  function AggregateRow(aggregates: Aggregates, rows: seq<Row>, column: nat): Row {
    match aggregates
    case NoAggregates => []
    case CountRows(_, rest) => [Number(|rows|)] + AggregateRow(rest, rows, column + 1)
    case Aggregated(Count, _, _, rest) => [Number(CountValues(rows, column))] + AggregateRow(rest, rows, column + 1)
    case Aggregated(fun, _, _, rest) => [FoldValues(fun, rows, column)] + AggregateRow(rest, rows, column + 1)
  }

  function GroupRows(aggregates: Aggregates, groups: seq<Row>, keys: seq<Row>, values: seq<Row>): seq<Row>
    requires |keys| == |values|
  {
    if groups == [] then []
    else
      [groups[0] + AggregateRow(aggregates, RowsOfGroup(keys, values, groups[0]), 0)]
      + GroupRows(aggregates, groups[1..], keys, values)
  }

  /** Without keys everything is one group, even when there are no rows. */
  function Grouped(keyless: bool, aggregates: Aggregates, keys: seq<Row>, values: seq<Row>): seq<Row>
    requires |keys| == |values|
  {
    GroupRows(aggregates, if keyless then [[]] else Distinct(keys), keys, values)
  }

  function EvalQuery(w: World, ctes: Ctes, scopes: Scopes, q: Query): Table
    decreases q, 0
  {
    match q
    case Select(distinct, items, from, filter) =>
      var source := EvalSource(w, ctes, scopes, from);
      var rows := Project(w, ctes, scopes, items, Keep(w, ctes, scopes, filter, source.frames));
      Table(ItemColumns(items, source.shapes), if distinct then Distinct(rows) else rows)
    case GroupBy(keys, aggregates, from, filter) =>
      var source := EvalSource(w, ctes, scopes, from);
      var kept := Keep(w, ctes, scopes, filter, source.frames);
      var keyRows := Project(w, ctes, scopes, keys, kept);
      var valueRows := ProjectValues(w, ctes, scopes, aggregates, kept);
      Table(ItemColumns(keys, source.shapes) + AggregateColumns(aggregates),
            Grouped(keys == NoItems, aggregates, keyRows, valueRows))
    case Union(all, left, right) =>
      var l, r := EvalQuery(w, ctes, scopes, left), EvalQuery(w, ctes, scopes, right);
      Table(l.columns, if all then l.rows + r.rows else Distinct(l.rows + r.rows))
    case With(name, definition, body) =>
      var t := EvalQuery(w, ctes, scopes, definition);
      EvalQuery(w, ctes[Fold(name) := t], scopes, body)
  }

  function EvalSource(w: World, ctes: Ctes, scopes: Scopes, s: Source): Frames
    decreases s, 0
  {
    match s
    case NoSource => Frames([], [[]])
    case Base(_, schema, name, alias) => FramesOf(Exposed(alias, name), ResolveTable(w, ctes, schema, name))
    case Derived(query, alias) => FramesOf(alias, EvalQuery(w, ctes, scopes, query))
    case Join(leftOuter, left, right, on) =>
      var l, r := EvalSource(w, ctes, scopes, left), EvalSource(w, ctes, scopes, right);
      Frames(l.shapes + r.shapes, Combine(w, ctes, scopes, on, leftOuter, l.frames, r))
  }

  function Combine(w: World, ctes: Ctes, scopes: Scopes, on: Condition, leftOuter: bool, lefts: seq<Frame>,
      right: Frames): seq<Frame>
    decreases on, |lefts| + 2, 0
  {
    if lefts == [] then []
    else
      var matches := Matches(w, ctes, scopes, on, lefts[0], right.frames);
      (if leftOuter && matches == [] then [lefts[0] + NullFrame(right.shapes)] else matches)
      + Combine(w, ctes, scopes, on, leftOuter, lefts[1..], right)
  }

  function Matches(w: World, ctes: Ctes, scopes: Scopes, on: Condition, left: Frame, rights: seq<Frame>): seq<Frame>
    decreases on, 1, |rights|
  {
    if rights == [] then []
    else
      (if EvalCondition(w, ctes, [left + rights[0]] + scopes, on) == Yes then [left + rights[0]] else [])
      + Matches(w, ctes, scopes, on, left, rights[1..])
  }

  function Keep(w: World, ctes: Ctes, scopes: Scopes, filter: Condition, frames: seq<Frame>): seq<Frame>
    decreases filter, 1, |frames|
  {
    if frames == [] then []
    else
      (if EvalCondition(w, ctes, [frames[0]] + scopes, filter) == Yes then [frames[0]] else [])
      + Keep(w, ctes, scopes, filter, frames[1..])
  }

  function Project(w: World, ctes: Ctes, scopes: Scopes, items: Items, frames: seq<Frame>): (rows: seq<Row>)
    ensures |rows| == |frames|
    decreases items, 1, |frames|
  {
    if frames == [] then []
    else [EvalItems(w, ctes, [frames[0]] + scopes, items)] + Project(w, ctes, scopes, items, frames[1..])
  }

  function ProjectValues(w: World, ctes: Ctes, scopes: Scopes, aggregates: Aggregates,
      frames: seq<Frame>): (rows: seq<Row>)
    ensures |rows| == |frames|
    decreases aggregates, 1, |frames|
  {
    if frames == [] then []
    else
      [EvalAggregates(w, ctes, [frames[0]] + scopes, aggregates)]
      + ProjectValues(w, ctes, scopes, aggregates, frames[1..])
  }

  function EvalItems(w: World, ctes: Ctes, scopes: Scopes, items: Items): Row
    requires scopes != []
    decreases items, 0
  {
    match items
    case NoItems => []
    case Star(qualifier, rest) => StarCells(scopes[0], qualifier) + EvalItems(w, ctes, scopes, rest)
    case Item(expr, _, rest) => [EvalExpr(w, ctes, scopes, expr)] + EvalItems(w, ctes, scopes, rest)
  }

  function EvalAggregates(w: World, ctes: Ctes, scopes: Scopes, aggregates: Aggregates): Row
    decreases aggregates, 0
  {
    match aggregates
    case NoAggregates => []
    case CountRows(_, rest) => [Null] + EvalAggregates(w, ctes, scopes, rest)
    case Aggregated(_, expr, _, rest) => [EvalExpr(w, ctes, scopes, expr)] + EvalAggregates(w, ctes, scopes, rest)
  }

  function FirstColumn(rows: seq<Row>): seq<Value> {
    if rows == [] then [] else [Cell(rows[0], 0)] + FirstColumn(rows[1..])
  }

  function EvalExpr(w: World, ctes: Ctes, scopes: Scopes, e: Expr): Value
    decreases e, 0
  {
    match e
    case Column(qualifier, name) => LookupColumn(scopes, qualifier, name)
    case Literal(v) => v
    case Computed(op, left, right) =>
      Compute(op, EvalExpr(w, ctes, scopes, left), EvalExpr(w, ctes, scopes, right))
    case Coalesce(first, second) =>
      var v := EvalExpr(w, ctes, scopes, first);
      if v != Null then v else EvalExpr(w, ctes, scopes, second)
    case Converted(inner) => AsText(EvalExpr(w, ctes, scopes, inner))
    case Scalar(query) =>
      var t := EvalQuery(w, ctes, scopes, query);
      if t.rows == [] then Null else Cell(t.rows[0], 0)
  }

  function EvalCondition(w: World, ctes: Ctes, scopes: Scopes, c: Condition): Truth
    decreases c, 0
  {
    match c
    case Always => Yes
    case Comparing(op, first, second) =>
      Compare(op, EvalExpr(w, ctes, scopes, first), EvalExpr(w, ctes, scopes, second))
    case Both(left, right) => And(EvalCondition(w, ctes, scopes, left), EvalCondition(w, ctes, scopes, right))
    case Negated(inner) => Not(EvalCondition(w, ctes, scopes, inner))
    case IsNull(expr) => FromBool(EvalExpr(w, ctes, scopes, expr) == Null)
    case InList(expr, values) => In(EvalExpr(w, ctes, scopes, expr), values)
    case InQuery(expr, query) =>
      In(EvalExpr(w, ctes, scopes, expr), FirstColumn(EvalQuery(w, ctes, scopes, query).rows))
    case Exists(query) => FromBool(EvalQuery(w, ctes, scopes, query).rows != [])
  }
}
