/**
 When two worlds give a statement the same meaning.

 A statement that names no forbidden column cannot tell rows apart that differ
 in forbidden columns only, and replacing its tables by sources that read the
 same does not change its result.
 */
module QueryCongruence {
  import opened Prelude
  import opened Query
  import opened Access

  // ---------------------------------------------------------------------
  // Rows that differ in forbidden columns only
  // ---------------------------------------------------------------------

  ghost predicate RowsAgree(columns: seq<string>, a: Row, b: Row) {
    forall i | 0 <= i < |columns| :: !ForbiddenColumn(columns[i]) ==> Cell(a, i) == Cell(b, i)
  }

  ghost predicate FrameAgrees(f: Frame, g: Frame) {
    && |f| == |g|
    && forall k | 0 <= k < |f| :: f[k].shape == g[k].shape && RowsAgree(f[k].shape.columns, f[k].row, g[k].row)
  }

  /** With `same`, equal outright; otherwise equal but for forbidden columns. */
  ghost predicate FramesAgree(x: Frames, y: Frames, same: bool) {
    && x.shapes == y.shapes
    && ListAgrees(x.frames, y.frames, same)
  }

  ghost predicate ListAgrees(x: seq<Frame>, y: seq<Frame>, same: bool) {
    && |x| == |y|
    && (same ==> x == y)
    && forall i | 0 <= i < |x| :: FrameAgrees(x[i], y[i])
  }

  lemma {:induction false} IndexOfIsSame(columns: seq<string>, name: string)
    ensures var i := IndexOf(columns, name);
            i.Some? ==> i.value < |columns| && Same(columns[i.value], name)
  {
    if columns != [] && !Same(columns[0], name) {
      IndexOfIsSame(columns[1..], name);
    }
  }

  lemma {:induction false} LookupInFrameAgrees(f: Frame, g: Frame, qualifier: string, name: string)
    requires FrameAgrees(f, g) && !ForbiddenColumn(name)
    ensures LookupInFrame(f, qualifier, name) == LookupInFrame(g, qualifier, name)
  {
    if f != [] {
      IndexOfIsSame(f[0].shape.columns, name);
      assert LookupInBinding(f[0], name) == LookupInBinding(g[0], name);
      assert FrameAgrees(f[1..], g[1..]);
      LookupInFrameAgrees(f[1..], g[1..], qualifier, name);
    }
  }

  lemma {:induction false} LookupColumnAgrees(s: Scopes, t: Scopes, qualifier: string, name: string)
    requires ListAgrees(s, t, false) && !ForbiddenColumn(name)
    ensures LookupColumn(s, qualifier, name) == LookupColumn(t, qualifier, name)
  {
    if s != [] {
      LookupInFrameAgrees(s[0], t[0], qualifier, name);
      LookupColumnAgrees(s[1..], t[1..], qualifier, name);
    }
  }

  // ---------------------------------------------------------------------
  // Tables that read the same
  // ---------------------------------------------------------------------

  /** The table `b`, after replacement, reads in `w` as it reads in `v` without. */
  ghost predicate TableAgrees(w: World, v: World, m: map<nat, Source>, same: bool, b: Source) {
    && b.Base?
    && if IsCte(v, b.schema, b.name) then b.site !in m
       else forall ctes: Ctes, s: Scopes, t: Scopes
         {:trigger EvalSource(w, ctes, s, ReplaceInSource(b, m)), EvalSource(v, ctes, t, b)} ::
         FramesAgree(EvalSource(w, ctes, s, ReplaceInSource(b, m)), EvalSource(v, ctes, t, b), same)
  }

  /** What a statement with these facts must meet. */
  ghost predicate Fits(w: World, v: World, m: map<nat, Source>, same: bool, facts: Facts) {
    && w.names == v.names
    && (forall name :: name in facts.columns ==> !ForbiddenColumn(name))
    && (facts.star ==> same)
    && (forall b :: b in facts.tables ==> TableAgrees(w, v, m, same, b))
  }

  lemma FitsParts(w: World, v: World, m: map<nat, Source>, same: bool, a: Facts, b: Facts)
    requires Fits(w, v, m, same, a.Plus(b))
    ensures Fits(w, v, m, same, a) && Fits(w, v, m, same, b)
  {
    hide TableAgrees, ForbiddenColumn;
  }

  // ---------------------------------------------------------------------
  // Congruence
  // ---------------------------------------------------------------------

  lemma {:induction false} QueryAgrees(w: World, v: World, m: map<nat, Source>, same: bool, ctes: Ctes, s: Scopes,
      t: Scopes, q: Query)
    requires Fits(w, v, m, same, QueryFacts(q)) && ListAgrees(s, t, same)
    ensures EvalQuery(w, ctes, s, ReplaceInQuery(q, m)) == EvalQuery(v, ctes, t, q)
    decreases q, 0
  {
    hide Fits, ListAgrees;
    match q
    case Select(distinct, items, from, filter) =>
      FitsParts(w, v, m, same, ItemsFacts(items).Plus(SourceFacts(from)), ConditionFacts(filter));
      FitsParts(w, v, m, same, ItemsFacts(items), SourceFacts(from));
      SourceAgrees(w, v, m, same, ctes, s, t, from);
      var x, y := EvalSource(w, ctes, s, ReplaceInSource(from, m)), EvalSource(v, ctes, t, from);
      FramesParts(x, y, same);
      KeepAgrees(w, v, m, same, ctes, s, t, filter, x.frames, y.frames);
      var kept, kept' := Keep(w, ctes, s, ReplaceInCondition(filter, m), x.frames), Keep(v, ctes, t, filter, y.frames);
      ProjectAgrees(w, v, m, same, ctes, s, t, items, kept, kept');
      ItemColumnsKept(items, m, x.shapes);
    case GroupBy(keys, aggregates, from, filter) =>
      FitsParts(w, v, m, same, ItemsFacts(keys).Plus(AggregatesFacts(aggregates)).Plus(SourceFacts(from)),
                ConditionFacts(filter));
      FitsParts(w, v, m, same, ItemsFacts(keys).Plus(AggregatesFacts(aggregates)), SourceFacts(from));
      FitsParts(w, v, m, same, ItemsFacts(keys), AggregatesFacts(aggregates));
      SourceAgrees(w, v, m, same, ctes, s, t, from);
      var x, y := EvalSource(w, ctes, s, ReplaceInSource(from, m)), EvalSource(v, ctes, t, from);
      FramesParts(x, y, same);
      KeepAgrees(w, v, m, same, ctes, s, t, filter, x.frames, y.frames);
      var kept, kept' := Keep(w, ctes, s, ReplaceInCondition(filter, m), x.frames), Keep(v, ctes, t, filter, y.frames);
      ProjectAgrees(w, v, m, same, ctes, s, t, keys, kept, kept');
      ProjectValuesAgrees(w, v, m, same, ctes, s, t, aggregates, kept, kept');
      ItemColumnsKept(keys, m, x.shapes);
      AggregatesKept(aggregates, m);
      GroupedKept(keys == NoItems, aggregates, m, Project(v, ctes, t, keys, kept'),
                  ProjectValues(v, ctes, t, aggregates, kept'));
    case Union(all, left, right) =>
      FitsParts(w, v, m, same, QueryFacts(left), QueryFacts(right));
      QueryAgrees(w, v, m, same, ctes, s, t, left);
      QueryAgrees(w, v, m, same, ctes, s, t, right);
    case With(name, definition, body) =>
      FitsParts(w, v, m, same, NO_FACTS.(ctes := {Fold(name)}).Plus(QueryFacts(definition)), QueryFacts(body));
      FitsParts(w, v, m, same, NO_FACTS.(ctes := {Fold(name)}), QueryFacts(definition));
      QueryAgrees(w, v, m, same, ctes, s, t, definition);
      QueryAgrees(w, v, m, same, ctes[Fold(name) := EvalQuery(v, ctes, t, definition)], s, t, body);
  }

  lemma FramesParts(x: Frames, y: Frames, same: bool)
    requires FramesAgree(x, y, same)
    ensures x.shapes == y.shapes && ListAgrees(x.frames, y.frames, same)
  {
  }

  lemma {:induction false} SourceAgrees(w: World, v: World, m: map<nat, Source>, same: bool, ctes: Ctes, s: Scopes,
      t: Scopes, from: Source)
    requires Fits(w, v, m, same, SourceFacts(from)) && ListAgrees(s, t, same)
    ensures FramesAgree(EvalSource(w, ctes, s, ReplaceInSource(from, m)), EvalSource(v, ctes, t, from), same)
    decreases from, 0
  {
    hide ListAgrees, Fits;
    match from
    case NoSource =>
      OneEmptyFrameAgrees(same);
    case Base(_, _, _, _) =>
      BaseAgrees(w, v, m, same, ctes, s, t, from);
    case Derived(query, alias) =>
      QueryAgrees(w, v, m, same, ctes, s, t, query);
      EqualFramesAgree(EvalSource(w, ctes, s, ReplaceInSource(from, m)), same);
    case Join(leftOuter, left, right, on) =>
      FitsParts(w, v, m, same, SourceFacts(left).Plus(SourceFacts(right)), ConditionFacts(on));
      FitsParts(w, v, m, same, SourceFacts(left), SourceFacts(right));
      SourceAgrees(w, v, m, same, ctes, s, t, left);
      SourceAgrees(w, v, m, same, ctes, s, t, right);
      var l, l' := EvalSource(w, ctes, s, ReplaceInSource(left, m)), EvalSource(v, ctes, t, left);
      var r, r' := EvalSource(w, ctes, s, ReplaceInSource(right, m)), EvalSource(v, ctes, t, right);
      FramesParts(l, l', same);
      CombineAgrees(w, v, m, same, ctes, s, t, on, leftOuter, l.frames, l'.frames, r, r');
  }

  lemma OneEmptyFrameAgrees(same: bool)
    ensures ListAgrees([[]], [[]], same)
  {
  }

  lemma EqualFramesAgree(x: Frames, same: bool)
    ensures FramesAgree(x, x, same)
  {
  }

  lemma BaseAgrees(w: World, v: World, m: map<nat, Source>, same: bool, ctes: Ctes, s: Scopes, t: Scopes, b: Source)
    requires b.Base? && Fits(w, v, m, same, SourceFacts(b))
    ensures FramesAgree(EvalSource(w, ctes, s, ReplaceInSource(b, m)), EvalSource(v, ctes, t, b), same)
  {
    hide FramesAgree;
    assert b in SourceFacts(b).tables;
    assert TableAgrees(w, v, m, same, b);
    if IsCte(v, b.schema, b.name) {
      EqualFramesAgree(EvalSource(v, ctes, t, b), same);
    } else {
      assert FramesAgree(EvalSource(w, ctes, s, ReplaceInSource(b, m)), EvalSource(v, ctes, t, b), same);
    }
  }

  lemma {:induction false} CombineAgrees(w: World, v: World, m: map<nat, Source>, same: bool, ctes: Ctes, s: Scopes,
      t: Scopes, on: Condition, leftOuter: bool, x: seq<Frame>, y: seq<Frame>, r: Frames, r': Frames)
    requires Fits(w, v, m, same, ConditionFacts(on)) && ListAgrees(s, t, same)
    requires ListAgrees(x, y, same) && FramesAgree(r, r', same)
    ensures ListAgrees(Combine(w, ctes, s, ReplaceInCondition(on, m), leftOuter, x, r),
                       Combine(v, ctes, t, on, leftOuter, y, r'), same)
    decreases on, 2, |x|
  {
    hide Fits, FrameAgrees;
    if x != [] {
      MatchesAgrees(w, v, m, same, ctes, s, t, on, x[0], y[0], r.frames, r'.frames);
      CombineAgrees(w, v, m, same, ctes, s, t, on, leftOuter, x[1..], y[1..], r, r');
      var a := Matches(w, ctes, s, ReplaceInCondition(on, m), x[0], r.frames);
      var b := Matches(v, ctes, t, on, y[0], r'.frames);
      JoinedFramesAgree(x[0], y[0], NullFrame(r.shapes), NullFrame(r.shapes), same);
      var a' := if leftOuter && a == [] then [x[0] + NullFrame(r.shapes)] else a;
      var b' := if leftOuter && b == [] then [y[0] + NullFrame(r'.shapes)] else b;
      AppendedListsAgree(a', b', Combine(w, ctes, s, ReplaceInCondition(on, m), leftOuter, x[1..], r),
                         Combine(v, ctes, t, on, leftOuter, y[1..], r'), same);
    }
  }

  lemma JoinedFramesAgree(f: Frame, g: Frame, f': Frame, g': Frame, same: bool)
    requires FrameAgrees(f, g) && (same ==> f == g)
    requires f' == g' || FrameAgrees(f', g')
    ensures FrameAgrees(f + f', g + g')
  {
  }

  lemma AppendedListsAgree(a: seq<Frame>, b: seq<Frame>, x: seq<Frame>, y: seq<Frame>, same: bool)
    requires ListAgrees(a, b, same) && ListAgrees(x, y, same)
    ensures ListAgrees(a + x, b + y, same)
  {
    hide FrameAgrees;
  }

  lemma {:induction false} MatchesAgrees(w: World, v: World, m: map<nat, Source>, same: bool, ctes: Ctes, s: Scopes,
      t: Scopes, on: Condition, f: Frame, g: Frame, x: seq<Frame>, y: seq<Frame>)
    requires Fits(w, v, m, same, ConditionFacts(on)) && ListAgrees(s, t, same)
    requires FrameAgrees(f, g) && (same ==> f == g) && ListAgrees(x, y, same)
    ensures ListAgrees(Matches(w, ctes, s, ReplaceInCondition(on, m), f, x), Matches(v, ctes, t, on, g, y), same)
    decreases on, 1, |x|
  {
    hide Fits, FrameAgrees;
    if x != [] {
      JoinedFramesAgree(f, g, x[0], y[0], same);
      AppendedListsAgree([f + x[0]], [g + y[0]], s, t, same);
      ConditionAgrees(w, v, m, same, ctes, [f + x[0]] + s, [g + y[0]] + t, on);
      MatchesAgrees(w, v, m, same, ctes, s, t, on, f, g, x[1..], y[1..]);
      AppendedListsAgree([f + x[0]], [g + y[0]], Matches(w, ctes, s, ReplaceInCondition(on, m), f, x[1..]),
                         Matches(v, ctes, t, on, g, y[1..]), same);
    }
  }

  lemma {:induction false} KeepAgrees(w: World, v: World, m: map<nat, Source>, same: bool, ctes: Ctes, s: Scopes,
      t: Scopes, filter: Condition, x: seq<Frame>, y: seq<Frame>)
    requires Fits(w, v, m, same, ConditionFacts(filter)) && ListAgrees(s, t, same) && ListAgrees(x, y, same)
    ensures ListAgrees(Keep(w, ctes, s, ReplaceInCondition(filter, m), x), Keep(v, ctes, t, filter, y), same)
    decreases filter, 1, |x|
  {
    hide Fits, FrameAgrees;
    if x != [] {
      AppendedListsAgree([x[0]], [y[0]], s, t, same);
      ConditionAgrees(w, v, m, same, ctes, [x[0]] + s, [y[0]] + t, filter);
      KeepAgrees(w, v, m, same, ctes, s, t, filter, x[1..], y[1..]);
      AppendedListsAgree([x[0]], [y[0]], Keep(w, ctes, s, ReplaceInCondition(filter, m), x[1..]),
                         Keep(v, ctes, t, filter, y[1..]), same);
    }
  }

  lemma {:induction false} ProjectAgrees(w: World, v: World, m: map<nat, Source>, same: bool, ctes: Ctes, s: Scopes,
      t: Scopes, items: Items, x: seq<Frame>, y: seq<Frame>)
    requires Fits(w, v, m, same, ItemsFacts(items)) && ListAgrees(s, t, same) && ListAgrees(x, y, same)
    ensures Project(w, ctes, s, ReplaceInItems(items, m), x) == Project(v, ctes, t, items, y)
    decreases items, 1, |x|
  {
    hide Fits, FrameAgrees;
    if x != [] {
      AppendedListsAgree([x[0]], [y[0]], s, t, same);
      ItemsAgree(w, v, m, same, ctes, [x[0]] + s, [y[0]] + t, items);
      ProjectAgrees(w, v, m, same, ctes, s, t, items, x[1..], y[1..]);
    }
  }

  lemma {:induction false} ProjectValuesAgrees(w: World, v: World, m: map<nat, Source>, same: bool, ctes: Ctes,
      s: Scopes, t: Scopes,
      aggregates: Aggregates, x: seq<Frame>, y: seq<Frame>)
    requires Fits(w, v, m, same, AggregatesFacts(aggregates)) && ListAgrees(s, t, same) && ListAgrees(x, y, same)
    ensures ProjectValues(w, ctes, s, ReplaceInAggregates(aggregates, m), x) == ProjectValues(v, ctes, t, aggregates, y)
    decreases aggregates, 1, |x|
  {
    hide Fits, FrameAgrees;
    if x != [] {
      AppendedListsAgree([x[0]], [y[0]], s, t, same);
      AggregatesAgree(w, v, m, same, ctes, [x[0]] + s, [y[0]] + t, aggregates);
      ProjectValuesAgrees(w, v, m, same, ctes, s, t, aggregates, x[1..], y[1..]);
    }
  }

  lemma {:induction false} ItemsAgree(w: World, v: World, m: map<nat, Source>, same: bool, ctes: Ctes, s: Scopes,
      t: Scopes, items: Items)
    requires Fits(w, v, m, same, ItemsFacts(items)) && ListAgrees(s, t, same) && s != []
    ensures EvalItems(w, ctes, s, ReplaceInItems(items, m)) == EvalItems(v, ctes, t, items)
    decreases items, 0
  {
    hide TableAgrees, FrameAgrees;
    match items
    case NoItems =>
    case Star(_, rest) =>
      FitsParts(w, v, m, same, NO_FACTS.(star := true), ItemsFacts(rest));
      ItemsAgree(w, v, m, same, ctes, s, t, rest);
    case Item(expr, _, rest) =>
      FitsParts(w, v, m, same, ExprFacts(expr), ItemsFacts(rest));
      ExprAgrees(w, v, m, same, ctes, s, t, expr);
      ItemsAgree(w, v, m, same, ctes, s, t, rest);
  }

  lemma {:induction false} AggregatesAgree(w: World, v: World, m: map<nat, Source>, same: bool, ctes: Ctes, s: Scopes,
      t: Scopes, aggregates: Aggregates)
    requires Fits(w, v, m, same, AggregatesFacts(aggregates)) && ListAgrees(s, t, same)
    ensures EvalAggregates(w, ctes, s, ReplaceInAggregates(aggregates, m)) == EvalAggregates(v, ctes, t, aggregates)
    decreases aggregates, 0
  {
    hide Fits, ListAgrees;
    match aggregates
    case NoAggregates =>
    case CountRows(_, rest) =>
      FitsParts(w, v, m, same, NO_FACTS.(star := true), AggregatesFacts(rest));
      AggregatesAgree(w, v, m, same, ctes, s, t, rest);
    case Aggregated(_, expr, _, rest) =>
      FitsParts(w, v, m, same, ExprFacts(expr), AggregatesFacts(rest));
      ExprAgrees(w, v, m, same, ctes, s, t, expr);
      AggregatesAgree(w, v, m, same, ctes, s, t, rest);
  }

  lemma {:induction false} ExprAgrees(w: World, v: World, m: map<nat, Source>, same: bool, ctes: Ctes, s: Scopes,
      t: Scopes, e: Expr)
    requires Fits(w, v, m, same, ExprFacts(e)) && ListAgrees(s, t, same)
    ensures EvalExpr(w, ctes, s, ReplaceInExpr(e, m)) == EvalExpr(v, ctes, t, e)
    decreases e, 0
  {
    match e
    case Column(qualifier, name) =>
      hide ForbiddenColumn, TableAgrees;
      assert name in ExprFacts(e).columns;
      LookupColumnAgrees(s, t, qualifier, name);
    case Literal(_) =>
    case Computed(_, left, right) =>
      hide Fits, ListAgrees;
      FitsParts(w, v, m, same, ExprFacts(left), ExprFacts(right));
      ExprAgrees(w, v, m, same, ctes, s, t, left);
      ExprAgrees(w, v, m, same, ctes, s, t, right);
    case Coalesce(first, second) =>
      hide Fits, ListAgrees;
      FitsParts(w, v, m, same, ExprFacts(first), ExprFacts(second));
      ExprAgrees(w, v, m, same, ctes, s, t, first);
      ExprAgrees(w, v, m, same, ctes, s, t, second);
    case Converted(inner) =>
      hide Fits, ListAgrees;
      ExprAgrees(w, v, m, same, ctes, s, t, inner);
    case Scalar(query) =>
      hide Fits, ListAgrees;
      QueryAgrees(w, v, m, same, ctes, s, t, query);
  }

  lemma {:induction false} ConditionAgrees(w: World, v: World, m: map<nat, Source>, same: bool, ctes: Ctes, s: Scopes,
      t: Scopes, c: Condition)
    requires Fits(w, v, m, same, ConditionFacts(c)) && ListAgrees(s, t, same)
    ensures EvalCondition(w, ctes, s, ReplaceInCondition(c, m)) == EvalCondition(v, ctes, t, c)
    decreases c, 0
  {
    hide Fits, ListAgrees;
    match c
    case Always =>
    case Comparing(_, first, second) =>
      FitsParts(w, v, m, same, ExprFacts(first), ExprFacts(second));
      ExprAgrees(w, v, m, same, ctes, s, t, first);
      ExprAgrees(w, v, m, same, ctes, s, t, second);
    case Both(left, right) =>
      FitsParts(w, v, m, same, ConditionFacts(left), ConditionFacts(right));
      ConditionAgrees(w, v, m, same, ctes, s, t, left);
      ConditionAgrees(w, v, m, same, ctes, s, t, right);
    case Negated(inner) => ConditionAgrees(w, v, m, same, ctes, s, t, inner);
    case IsNull(expr) => ExprAgrees(w, v, m, same, ctes, s, t, expr);
    case InList(expr, _) => ExprAgrees(w, v, m, same, ctes, s, t, expr);
    case InQuery(expr, query) =>
      FitsParts(w, v, m, same, ExprFacts(expr), QueryFacts(query));
      ExprAgrees(w, v, m, same, ctes, s, t, expr);
      QueryAgrees(w, v, m, same, ctes, s, t, query);
    case Exists(query) => QueryAgrees(w, v, m, same, ctes, s, t, query);
  }

  lemma {:induction false} ItemColumnsKept(items: Items, m: map<nat, Source>, shapes: seq<Shape>)
    ensures ItemColumns(ReplaceInItems(items, m), shapes) == ItemColumns(items, shapes)
    ensures ReplaceInItems(items, m) == NoItems <==> items == NoItems
  {
    match items
    case NoItems =>
    case Star(_, rest) => ItemColumnsKept(rest, m, shapes);
    case Item(_, _, rest) => ItemColumnsKept(rest, m, shapes);
  }

  lemma {:induction false} AggregatesKept(aggregates: Aggregates, m: map<nat, Source>)
    ensures AggregateColumns(ReplaceInAggregates(aggregates, m)) == AggregateColumns(aggregates)
  {
    match aggregates
    case NoAggregates =>
    case CountRows(_, rest) => AggregatesKept(rest, m);
    case Aggregated(_, _, _, rest) => AggregatesKept(rest, m);
  }

  lemma {:induction false} AggregateRowKept(aggregates: Aggregates, m: map<nat, Source>, rows: seq<Row>, column: nat)
    ensures AggregateRow(ReplaceInAggregates(aggregates, m), rows, column) == AggregateRow(aggregates, rows, column)
    decreases aggregates
  {
    match aggregates
    case NoAggregates =>
    case CountRows(_, rest) => AggregateRowKept(rest, m, rows, column + 1);
    case Aggregated(_, _, _, rest) => AggregateRowKept(rest, m, rows, column + 1);
  }

  lemma {:induction false} GroupRowsKept(aggregates: Aggregates, m: map<nat, Source>, groups: seq<Row>, keys: seq<Row>,
      values: seq<Row>)
    requires |keys| == |values|
    ensures GroupRows(ReplaceInAggregates(aggregates, m), groups, keys, values)
            == GroupRows(aggregates, groups, keys, values)
    decreases |groups|
  {
    if groups != [] {
      AggregateRowKept(aggregates, m, RowsOfGroup(keys, values, groups[0]), 0);
      GroupRowsKept(aggregates, m, groups[1..], keys, values);
    }
  }

  lemma GroupedKept(keyless: bool, aggregates: Aggregates, m: map<nat, Source>, keys: seq<Row>, values: seq<Row>)
    requires |keys| == |values|
    ensures Grouped(keyless, ReplaceInAggregates(aggregates, m), keys, values)
            == Grouped(keyless, aggregates, keys, values)
  {
    GroupRowsKept(aggregates, m, if keyless then [[]] else Distinct(keys), keys, values);
  }
}
