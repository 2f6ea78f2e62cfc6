/**
 Replacing tables one after the other, as the enforcement loop does, is the
 same as replacing them all at once.
 */
module AccessReplace {
  import opened Prelude
  import opened Query
  import opened Access

  // ---------------------------------------------------------------------
  // Statements without the replaced sites stay as they are
  // ---------------------------------------------------------------------

  ghost predicate Untouched(facts: Facts, m: map<nat, Source>) {
    forall b :: b in facts.tables && b.Base? ==> b.site !in m
  }

  lemma {:induction false} QueryUntouched(q: Query, m: map<nat, Source>)
    requires Untouched(QueryFacts(q), m)
    ensures ReplaceInQuery(q, m) == q
  {
    match q
    case Select(_, items, from, filter) =>
      ItemsUntouched(items, m); SourceUntouched(from, m); ConditionUntouched(filter, m);
    case GroupBy(keys, aggregates, from, filter) =>
      ItemsUntouched(keys, m); AggregatesUntouched(aggregates, m);
      SourceUntouched(from, m); ConditionUntouched(filter, m);
    case Union(_, left, right) => QueryUntouched(left, m); QueryUntouched(right, m);
    case With(_, definition, body) => QueryUntouched(definition, m); QueryUntouched(body, m);
  }

  lemma {:induction false} SourceUntouched(s: Source, m: map<nat, Source>)
    requires Untouched(SourceFacts(s), m)
    ensures ReplaceInSource(s, m) == s
  {
    match s
    case NoSource =>
    case Base(_, _, _, _) => assert s in SourceFacts(s).tables;
    case Derived(query, _) => QueryUntouched(query, m);
    case Join(_, left, right, on) => SourceUntouched(left, m); SourceUntouched(right, m); ConditionUntouched(on, m);
  }

  lemma {:induction false} ItemsUntouched(items: Items, m: map<nat, Source>)
    requires Untouched(ItemsFacts(items), m)
    ensures ReplaceInItems(items, m) == items
  {
    match items
    case NoItems =>
    case Star(_, rest) => ItemsUntouched(rest, m);
    case Item(expr, _, rest) => ExprUntouched(expr, m); ItemsUntouched(rest, m);
  }

  lemma {:induction false} AggregatesUntouched(aggregates: Aggregates, m: map<nat, Source>)
    requires Untouched(AggregatesFacts(aggregates), m)
    ensures ReplaceInAggregates(aggregates, m) == aggregates
  {
    match aggregates
    case NoAggregates =>
    case CountRows(_, rest) => AggregatesUntouched(rest, m);
    case Aggregated(_, expr, _, rest) => ExprUntouched(expr, m); AggregatesUntouched(rest, m);
  }

  lemma {:induction false} ExprUntouched(e: Expr, m: map<nat, Source>)
    requires Untouched(ExprFacts(e), m)
    ensures ReplaceInExpr(e, m) == e
  {
    match e
    case Column(_, _) =>
    case Literal(_) =>
    case Computed(_, left, right) => ExprUntouched(left, m); ExprUntouched(right, m);
    case Coalesce(first, second) => ExprUntouched(first, m); ExprUntouched(second, m);
    case Converted(inner) => ExprUntouched(inner, m);
    case Scalar(query) => QueryUntouched(query, m);
  }

  lemma {:induction false} ConditionUntouched(c: Condition, m: map<nat, Source>)
    requires Untouched(ConditionFacts(c), m)
    ensures ReplaceInCondition(c, m) == c
  {
    match c
    case Always =>
    case Comparing(_, first, second) => ExprUntouched(first, m); ExprUntouched(second, m);
    case Both(left, right) => ConditionUntouched(left, m); ConditionUntouched(right, m);
    case Negated(inner) => ConditionUntouched(inner, m);
    case IsNull(expr) => ExprUntouched(expr, m);
    case InList(expr, _) => ExprUntouched(expr, m);
    case InQuery(expr, query) => ExprUntouched(expr, m); QueryUntouched(query, m);
    case Exists(query) => QueryUntouched(query, m);
  }

  // ---------------------------------------------------------------------
  // Two replacements in a row
  // ---------------------------------------------------------------------

  /** The site `k` is new, and does not occur in what was put in before. */
  ghost predicate Separate(m: map<nat, Source>, k: nat, r: Source) {
    && k !in m
    && forall i :: i in m ==> ReplaceInSource(m[i], map[k := r]) == m[i]
  }

  lemma {:induction false} QueryTwice(q: Query, m: map<nat, Source>, k: nat, r: Source)
    requires Separate(m, k, r)
    ensures ReplaceInQuery(ReplaceInQuery(q, m), map[k := r]) == ReplaceInQuery(q, m[k := r])
  {
    hide Separate;
    match q
    case Select(_, items, from, filter) =>
      ItemsTwice(items, m, k, r); SourceTwice(from, m, k, r); ConditionTwice(filter, m, k, r);
    case GroupBy(keys, aggregates, from, filter) =>
      ItemsTwice(keys, m, k, r); AggregatesTwice(aggregates, m, k, r);
      SourceTwice(from, m, k, r); ConditionTwice(filter, m, k, r);
    case Union(_, left, right) => QueryTwice(left, m, k, r); QueryTwice(right, m, k, r);
    case With(_, definition, body) => QueryTwice(definition, m, k, r); QueryTwice(body, m, k, r);
  }

  lemma {:induction false} SourceTwice(s: Source, m: map<nat, Source>, k: nat, r: Source)
    requires Separate(m, k, r)
    ensures ReplaceInSource(ReplaceInSource(s, m), map[k := r]) == ReplaceInSource(s, m[k := r])
  {
    match s
    case NoSource =>
    case Base(_, _, _, _) =>
    case Derived(query, _) => QueryTwice(query, m, k, r);
    case Join(_, left, right, on) =>
      SourceTwice(left, m, k, r);
      SourceTwice(right, m, k, r);
      ConditionTwice(on, m, k, r);
  }

  lemma {:induction false} ItemsTwice(items: Items, m: map<nat, Source>, k: nat, r: Source)
    requires Separate(m, k, r)
    ensures ReplaceInItems(ReplaceInItems(items, m), map[k := r]) == ReplaceInItems(items, m[k := r])
  {
    hide Separate;
    match items
    case NoItems =>
    case Star(_, rest) => ItemsTwice(rest, m, k, r);
    case Item(expr, _, rest) => ExprTwice(expr, m, k, r); ItemsTwice(rest, m, k, r);
  }

  lemma {:induction false} AggregatesTwice(aggregates: Aggregates, m: map<nat, Source>, k: nat, r: Source)
    requires Separate(m, k, r)
    ensures ReplaceInAggregates(ReplaceInAggregates(aggregates, m), map[k := r])
            == ReplaceInAggregates(aggregates, m[k := r])
  {
    hide Separate;
    match aggregates
    case NoAggregates =>
    case CountRows(_, rest) => AggregatesTwice(rest, m, k, r);
    case Aggregated(_, expr, _, rest) => ExprTwice(expr, m, k, r); AggregatesTwice(rest, m, k, r);
  }

  lemma {:induction false} ExprTwice(e: Expr, m: map<nat, Source>, k: nat, r: Source)
    requires Separate(m, k, r)
    ensures ReplaceInExpr(ReplaceInExpr(e, m), map[k := r]) == ReplaceInExpr(e, m[k := r])
  {
    hide Separate;
    match e
    case Column(_, _) =>
    case Literal(_) =>
    case Computed(_, left, right) => ExprTwice(left, m, k, r); ExprTwice(right, m, k, r);
    case Coalesce(first, second) => ExprTwice(first, m, k, r); ExprTwice(second, m, k, r);
    case Converted(inner) => ExprTwice(inner, m, k, r);
    case Scalar(query) => QueryTwice(query, m, k, r);
  }

  lemma {:induction false} ConditionTwice(c: Condition, m: map<nat, Source>, k: nat, r: Source)
    requires Separate(m, k, r)
    ensures ReplaceInCondition(ReplaceInCondition(c, m), map[k := r]) == ReplaceInCondition(c, m[k := r])
  {
    hide Separate;
    match c
    case Always =>
    case Comparing(_, first, second) => ExprTwice(first, m, k, r); ExprTwice(second, m, k, r);
    case Both(left, right) => ConditionTwice(left, m, k, r); ConditionTwice(right, m, k, r);
    case Negated(inner) => ConditionTwice(inner, m, k, r);
    case IsNull(expr) => ExprTwice(expr, m, k, r);
    case InList(expr, _) => ExprTwice(expr, m, k, r);
    case InQuery(expr, query) => ExprTwice(expr, m, k, r); QueryTwice(query, m, k, r);
    case Exists(query) => QueryTwice(query, m, k, r);
  }

  // ---------------------------------------------------------------------
  // What a replacement does to names and stars
  // ---------------------------------------------------------------------

  /** Every replacement brings a star and no common table expression. */
  ghost predicate Starry(m: map<nat, Source>) {
    forall i :: i in m ==> SourceFacts(m[i]).star && SourceFacts(m[i]).ctes == {}
  }

  ghost predicate Touches(facts: Facts, m: map<nat, Source>) {
    exists b :: b in facts.tables && b.Base? && b.site in m
  }

  ghost predicate FactsAfter(before: Facts, after: Facts, m: map<nat, Source>) {
    && after.ctes == before.ctes
    && (after.star <==> before.star || Touches(before, m))
  }

  lemma FactsAfterParts(a: Facts, b: Facts, a': Facts, b': Facts, m: map<nat, Source>)
    requires FactsAfter(a, a', m) && FactsAfter(b, b', m)
    ensures FactsAfter(a.Plus(b), a'.Plus(b'), m)
  {
    if Touches(a, m) {
      var x :| x in a.tables && x.Base? && x.site in m;
      assert x in a.Plus(b).tables;
    }
    if Touches(b, m) {
      var x :| x in b.tables && x.Base? && x.site in m;
      assert x in a.Plus(b).tables;
    }
  }

  lemma {:induction false} QueryFactsAfter(q: Query, m: map<nat, Source>)
    requires Starry(m)
    ensures FactsAfter(QueryFacts(q), QueryFacts(ReplaceInQuery(q, m)), m)
  {
    hide FactsAfter, Starry;
    match q
    case Select(_, items, from, filter) =>
      ItemsFactsAfter(items, m); SourceFactsAfter(from, m); ConditionFactsAfter(filter, m);
      var a, b, c := ReplaceInItems(items, m), ReplaceInSource(from, m), ReplaceInCondition(filter, m);
      FactsAfterParts(ItemsFacts(items), SourceFacts(from), ItemsFacts(a), SourceFacts(b), m);
      FactsAfterParts(ItemsFacts(items).Plus(SourceFacts(from)), ConditionFacts(filter),
                      ItemsFacts(a).Plus(SourceFacts(b)), ConditionFacts(c), m);
    case GroupBy(keys, aggregates, from, filter) =>
      ItemsFactsAfter(keys, m); AggregatesFactsAfter(aggregates, m);
      SourceFactsAfter(from, m); ConditionFactsAfter(filter, m);
      var k, a := ReplaceInItems(keys, m), ReplaceInAggregates(aggregates, m);
      var b, c := ReplaceInSource(from, m), ReplaceInCondition(filter, m);
      FactsAfterParts(ItemsFacts(keys), AggregatesFacts(aggregates), ItemsFacts(k), AggregatesFacts(a), m);
      var head, head' := ItemsFacts(keys).Plus(AggregatesFacts(aggregates)), ItemsFacts(k).Plus(AggregatesFacts(a));
      FactsAfterParts(head, SourceFacts(from), head', SourceFacts(b), m);
      FactsAfterParts(head.Plus(SourceFacts(from)), ConditionFacts(filter), head'.Plus(SourceFacts(b)),
                      ConditionFacts(c), m);
    case Union(_, left, right) =>
      QueryFactsAfter(left, m); QueryFactsAfter(right, m);
      FactsAfterParts(QueryFacts(left), QueryFacts(right), QueryFacts(ReplaceInQuery(left, m)),
                      QueryFacts(ReplaceInQuery(right, m)), m);
    case With(name, definition, body) =>
      QueryFactsAfter(definition, m); QueryFactsAfter(body, m);
      var own := NO_FACTS.(ctes := {Fold(name)});
      OwnFactsAfter(own, m);
      FactsAfterParts(own, QueryFacts(definition), own, QueryFacts(ReplaceInQuery(definition, m)), m);
      FactsAfterParts(own.Plus(QueryFacts(definition)), QueryFacts(body),
                      own.Plus(QueryFacts(ReplaceInQuery(definition, m))), QueryFacts(ReplaceInQuery(body, m)), m);
  }

  lemma OwnFactsAfter(own: Facts, m: map<nat, Source>)
    requires own.tables == {}
    ensures FactsAfter(own, own, m)
  {
  }

  lemma {:induction false} SourceFactsAfter(s: Source, m: map<nat, Source>)
    requires Starry(m)
    ensures FactsAfter(SourceFacts(s), SourceFacts(ReplaceInSource(s, m)), m)
  {
    match s
    case NoSource => OwnFactsAfter(NO_FACTS, m);
    case Base(site, _, _, _) =>
      assert s in SourceFacts(s).tables;
    case Derived(query, _) => QueryFactsAfter(query, m);
    case Join(_, left, right, on) =>
      hide FactsAfter, Starry;
      SourceFactsAfter(left, m); SourceFactsAfter(right, m); ConditionFactsAfter(on, m);
      var l, r, c := ReplaceInSource(left, m), ReplaceInSource(right, m), ReplaceInCondition(on, m);
      FactsAfterParts(SourceFacts(left), SourceFacts(right), SourceFacts(l), SourceFacts(r), m);
      FactsAfterParts(SourceFacts(left).Plus(SourceFacts(right)), ConditionFacts(on),
                      SourceFacts(l).Plus(SourceFacts(r)), ConditionFacts(c), m);
  }

  lemma {:induction false} ItemsFactsAfter(items: Items, m: map<nat, Source>)
    requires Starry(m)
    ensures FactsAfter(ItemsFacts(items), ItemsFacts(ReplaceInItems(items, m)), m)
  {
    hide FactsAfter, Starry;
    match items
    case NoItems => OwnFactsAfter(NO_FACTS, m);
    case Star(_, rest) =>
      ItemsFactsAfter(rest, m);
      var own := NO_FACTS.(star := true);
      OwnFactsAfter(own, m);
      FactsAfterParts(own, ItemsFacts(rest), own, ItemsFacts(ReplaceInItems(rest, m)), m);
    case Item(expr, _, rest) =>
      ExprFactsAfter(expr, m); ItemsFactsAfter(rest, m);
      FactsAfterParts(ExprFacts(expr), ItemsFacts(rest), ExprFacts(ReplaceInExpr(expr, m)),
                      ItemsFacts(ReplaceInItems(rest, m)), m);
  }

  lemma {:induction false} AggregatesFactsAfter(aggregates: Aggregates, m: map<nat, Source>)
    requires Starry(m)
    ensures FactsAfter(AggregatesFacts(aggregates), AggregatesFacts(ReplaceInAggregates(aggregates, m)), m)
  {
    hide FactsAfter, Starry;
    match aggregates
    case NoAggregates => OwnFactsAfter(NO_FACTS, m);
    case CountRows(_, rest) =>
      AggregatesFactsAfter(rest, m);
      var own := NO_FACTS.(star := true);
      OwnFactsAfter(own, m);
      FactsAfterParts(own, AggregatesFacts(rest), own, AggregatesFacts(ReplaceInAggregates(rest, m)), m);
    case Aggregated(_, expr, _, rest) =>
      ExprFactsAfter(expr, m); AggregatesFactsAfter(rest, m);
      FactsAfterParts(ExprFacts(expr), AggregatesFacts(rest),
                      ExprFacts(ReplaceInExpr(expr, m)), AggregatesFacts(ReplaceInAggregates(rest, m)), m);
  }

  lemma {:induction false} ExprFactsAfter(e: Expr, m: map<nat, Source>)
    requires Starry(m)
    ensures FactsAfter(ExprFacts(e), ExprFacts(ReplaceInExpr(e, m)), m)
  {
    hide FactsAfter, Starry;
    match e
    case Column(_, _) => OwnFactsAfter(ExprFacts(e), m);
    case Literal(_) => OwnFactsAfter(NO_FACTS, m);
    case Computed(_, left, right) =>
      ExprFactsAfter(left, m); ExprFactsAfter(right, m);
      FactsAfterParts(ExprFacts(left), ExprFacts(right), ExprFacts(ReplaceInExpr(left, m)),
                      ExprFacts(ReplaceInExpr(right, m)), m);
    case Coalesce(first, second) =>
      ExprFactsAfter(first, m); ExprFactsAfter(second, m);
      FactsAfterParts(ExprFacts(first), ExprFacts(second), ExprFacts(ReplaceInExpr(first, m)),
                      ExprFacts(ReplaceInExpr(second, m)), m);
    case Converted(inner) => ExprFactsAfter(inner, m);
    case Scalar(query) => QueryFactsAfter(query, m);
  }

  lemma {:induction false} ConditionFactsAfter(c: Condition, m: map<nat, Source>)
    requires Starry(m)
    ensures FactsAfter(ConditionFacts(c), ConditionFacts(ReplaceInCondition(c, m)), m)
  {
    hide FactsAfter, Starry;
    match c
    case Always => OwnFactsAfter(NO_FACTS, m);
    case Comparing(_, first, second) =>
      ExprFactsAfter(first, m); ExprFactsAfter(second, m);
      FactsAfterParts(ExprFacts(first), ExprFacts(second), ExprFacts(ReplaceInExpr(first, m)),
                      ExprFacts(ReplaceInExpr(second, m)), m);
    case Both(left, right) =>
      ConditionFactsAfter(left, m); ConditionFactsAfter(right, m);
      FactsAfterParts(ConditionFacts(left), ConditionFacts(right),
                      ConditionFacts(ReplaceInCondition(left, m)), ConditionFacts(ReplaceInCondition(right, m)), m);
    case Negated(inner) => ConditionFactsAfter(inner, m);
    case IsNull(expr) => ExprFactsAfter(expr, m);
    case InList(expr, _) => ExprFactsAfter(expr, m);
    case InQuery(expr, query) =>
      ExprFactsAfter(expr, m); QueryFactsAfter(query, m);
      FactsAfterParts(ExprFacts(expr), QueryFacts(query), ExprFacts(ReplaceInExpr(expr, m)),
                      QueryFacts(ReplaceInQuery(query, m)), m);
    case Exists(query) => QueryFactsAfter(query, m);
  }
}
