/**
 Quantities per unit against one total in base units: what they weigh, how a
 total is split again, and how quantities that no longer match are repaired.
 */
module UnitQuantities {
  import opened Prelude
  import opened SaleUnits

  function Amount(q: map<string, nat>, key: string): nat {
    if key in q then q[key] else 0
  }

  /** The base quantity that the unit quantities stand for. */
  function Weight(units: seq<Unit>, q: map<string, nat>): nat {
    if units == [] then 0 else Amount(q, Key(units[0])) * units[0].factor + Weight(units[1..], q)
  }

  function Zeros(units: seq<Unit>): map<string, nat> {
    map k | k in Keys(units) :: 0
  }

  lemma {:induction false} WeightOfZeros(units: seq<Unit>, q: map<string, nat>)
    requires forall u | u in units :: Amount(q, Key(u)) == 0
    ensures Weight(units, q) == 0
  {
    hide Key;
    if units != [] {
      WeightOfZeros(units[1..], q);
    }
  }

  lemma {:induction false} WeightIsLocal(units: seq<Unit>, a: map<string, nat>, b: map<string, nat>)
    requires forall u | u in units :: Amount(a, Key(u)) == Amount(b, Key(u))
    ensures Weight(units, a) == Weight(units, b)
  {
    hide Key;
    if units != [] {
      WeightIsLocal(units[1..], a, b);
    }
  }

  /** Changing one quantity changes the weight by the difference times the factor. */
  lemma {:induction false} WeightAfterUpdate(units: seq<Unit>, q: map<string, nat>, u: Unit, n: nat)
    requires DistinctKeys(units) && u in units
    ensures Weight(units, q[Key(u) := n]) == Weight(units, q) + (n - Amount(q, Key(u))) * u.factor
    ensures Amount(q, Key(u)) * u.factor <= Weight(units, q)
  {
    hide Key;
    var next := q[Key(u) := n];
    if units[0] == u {
      forall v | v in units[1..] ensures Amount(next, Key(v)) == Amount(q, Key(v)) {
        var i :| 0 <= i < |units[1..]| && units[1..][i] == v;
        assert Key(units[0]) != Key(units[i + 1]);
      }
      WeightIsLocal(units[1..], q, next);
      assert (n - Amount(q, Key(u))) * u.factor == n * u.factor - Amount(q, Key(u)) * u.factor;
    } else {
      var i :| 0 <= i < |units| && units[i] == u;
      assert u == units[1..][i - 1];
      assert Key(units[0]) != Key(units[i]);
      forall a, b | 0 <= a < b < |units[1..]| ensures Key(units[1..][a]) != Key(units[1..][b]) {
        assert units[1..][a] == units[a + 1] && units[1..][b] == units[b + 1];
      }
      WeightAfterUpdate(units[1..], q, u, n);
    }
  }

  lemma WeightAfterAdding(units: seq<Unit>, q: map<string, nat>, u: Unit, n: nat)
    requires DistinctKeys(units) && u in units
    ensures Weight(units, q[Key(u) := Amount(q, Key(u)) + n]) == Weight(units, q) + n * u.factor
  {
    hide Key, Weight, DistinctKeys;
    WeightAfterUpdate(units, q, u, Amount(q, Key(u)) + n);
  }

  lemma {:induction false} WeightOfInserted(u: Unit, units: seq<Unit>, before: (Unit, Unit) -> bool,
      q: map<string, nat>)
    ensures Weight(Insert(u, units, before), q) == Amount(q, Key(u)) * u.factor + Weight(units, q)
  {
    hide Key, Amount;
    if units != [] && !before(u, units[0]) {
      WeightOfInserted(u, units[1..], before, q);
    } else if units != [] {
      assert ([u] + units)[1..] == units;
    }
  }

  lemma {:induction false} WeightOfSorted(units: seq<Unit>, before: (Unit, Unit) -> bool, q: map<string, nat>)
    ensures Weight(Sort(units, before), q) == Weight(units, q)
  {
    hide Key, Amount;
    if units != [] {
      WeightOfSorted(units[1..], before, q);
      WeightOfInserted(units[0], Sort(units[1..], before), before, q);
    }
  }

  lemma {:induction false} WeightlessMeansZero(units: seq<Unit>, q: map<string, nat>)
    requires Weight(units, q) == 0 && forall u | u in units :: u.factor >= 1
    ensures forall u | u in units :: Amount(q, Key(u)) == 0
  {
    hide Key;
    if units != [] {
      WeightlessMeansZero(units[1..], q);
      Scale(Amount(q, Key(units[0])), units[0].factor);
    }
  }

  lemma Scale(d: int, factor: nat)
    ensures d >= 1 ==> d * factor >= factor
    ensures d <= -1 ==> d * factor + factor <= 0
  {
    if d >= 1 {
      assert d * factor == (d - 1) * factor + factor;
    } else if d <= -1 {
      assert d * factor == (d + 1) * factor - factor;
    }
  }

  // ---------------------------------------------------------------------
  // Splitting a total, largest unit first
  // ---------------------------------------------------------------------

  /** As many of the first unit as fit, then the rest of the total over the rest of the units. */
  function Greedy(units: seq<Unit>, total: nat): map<string, nat> {
    if units == [] then map[]
    else
      var factor := if units[0].factor == 0 then 1 else units[0].factor;
      Greedy(units[1..], total % factor)[Key(units[0]) := total / factor]
  }

  lemma {:induction false} GreedyKeys(units: seq<Unit>, total: nat)
    ensures Greedy(units, total).Keys == Keys(units)
  {
    hide Key;
    if units != [] {
      var factor := if units[0].factor == 0 then 1 else units[0].factor;
      GreedyKeys(units[1..], total % factor);
      assert units == [units[0]] + units[1..];
    }
  }

  lemma TailKeys(units: seq<Unit>)
    requires units != [] && DistinctKeys(units)
    ensures DistinctKeys(units[1..])
    ensures forall v | v in units[1..] :: Key(v) != Key(units[0])
  {
    hide Key;
    forall a, b | 0 <= a < b < |units[1..]| ensures Key(units[1..][a]) != Key(units[1..][b]) {
      assert units[1..][a] == units[a + 1] && units[1..][b] == units[b + 1];
    }
    forall v | v in units[1..] ensures Key(v) != Key(units[0]) {
      var i :| 0 <= i < |units[1..]| && units[1..][i] == v;
      assert units[i + 1] == v;
    }
  }

  lemma GreedyStep(units: seq<Unit>, total: nat, tail: seq<Unit>)
    requires units != [] && DistinctKeys(units) && units[0].factor >= 1
    requires forall u | u in tail :: u in units[1..]
    ensures var rest := total % units[0].factor;
            && Weight(units, Greedy(units, total))
               == total / units[0].factor * units[0].factor + Weight(units[1..], Greedy(units[1..], rest))
            && Weight(tail, Greedy(units, total)) == Weight(tail, Greedy(units[1..], rest))
            && total == total / units[0].factor * units[0].factor + rest
  {
    hide Key, Weight, Greedy, DistinctKeys;
    TailKeys(units);
    var factor := units[0].factor;
    var inner := Greedy(units[1..], total % factor);
    var outer := inner[Key(units[0]) := total / factor];
    GreedyUnfolds(units, total);
    WeightUnfolds(units, outer);
    WeightIsLocal(units[1..], inner, outer);
    WeightIsLocal(tail, inner, outer);
    DivisionLaw(total, factor);
  }

  lemma GreedyUnfolds(units: seq<Unit>, total: nat)
    requires units != [] && units[0].factor >= 1
    ensures Greedy(units, total)
            == Greedy(units[1..], total % units[0].factor)[Key(units[0]) := total / units[0].factor]
  {
    hide Key;
  }

  lemma WeightUnfolds(units: seq<Unit>, q: map<string, nat>)
    requires units != []
    ensures Weight(units, q) == Amount(q, Key(units[0])) * units[0].factor + Weight(units[1..], q)
  {
    hide Key;
  }

  lemma DivisionLaw(total: nat, factor: nat)
    requires factor >= 1
    ensures total == total / factor * factor + total % factor
  {
  }

  lemma BaseStays(units: seq<Unit>)
    requires units != [] && HasFactor(units, 1)
    ensures units[0].factor == 1 || HasFactor(units[1..], 1)
  {
    var one :| one in units && one.factor == 1;
    assert one == units[0] || one in units[1..];
  }

  /** With a base unit among them the parts weigh the whole total. */
  lemma {:induction false} GreedyWeighsTheTotal(units: seq<Unit>, total: nat)
    requires DistinctKeys(units) && (forall u | u in units :: u.factor >= 1)
    requires total == 0 || HasFactor(units, 1)
    ensures Weight(units, Greedy(units, total)) == total
  {
    hide Key, Greedy, Weight, HasFactor, DistinctKeys;
    if units == [] {
      NothingToSplit(total);
    } else {
      GreedyStep(units, total, []);
      TailKeys(units);
      if total != 0 {
        BaseStays(units);
      }
      GreedyWeighsTheTotal(units[1..], total % units[0].factor);
    }
  }

  lemma NothingToSplit(total: nat)
    requires total == 0 || HasFactor([], 1)
    ensures Weight([], Greedy([], total)) == total
  {
  }

  /** Nothing that would fill another unit is left to the smaller ones. */
  lemma {:induction false} GreedyIsTight(units: seq<Unit>, total: nat, i: nat)
    requires DistinctKeys(units) && Descending(units) && (forall u | u in units :: u.factor >= 1) && HasFactor(units, 1)
    requires i < |units|
    ensures Weight(units[i + 1..], Greedy(units, total)) < units[i].factor
  {
    hide Key, Greedy, Weight, HasFactor, DistinctKeys;
    var rest := total % units[0].factor;
    assert units[i + 1..] == units[1..][i..];
    GreedyStep(units, total, units[i + 1..]);
    TailKeys(units);
    if |units| == 1 {
      EmptyIsWeightless(units[1..], Greedy(units, total));
    } else {
      BaseStays(units);
      BaseIsAmongTheRest(units);
      if i == 0 {
        GreedyWeighsTheTotal(units[1..], rest);
      } else {
        GreedyIsTight(units[1..], rest, i - 1);
      }
    }
  }

  lemma EmptyIsWeightless(units: seq<Unit>, q: map<string, nat>)
    requires units == []
    ensures Weight(units, q) == 0
  {
  }

  lemma BaseIsAmongTheRest(units: seq<Unit>)
    requires |units| > 1 && Descending(units) && (forall u | u in units :: u.factor >= 1)
    requires units[0].factor == 1 || HasFactor(units[1..], 1)
    ensures HasFactor(units[1..], 1)
  {
    assert units[1] in units && units[1] in units[1..];
  }

  /** The split that the shop shows after a total was cut down to the stock. */
  function Split(units: seq<Unit>, total: nat): map<string, nat> {
    Greedy(LargestFirst(units), total)
  }

  lemma LargestFirstKeepsUnits(units: seq<Unit>)
    requires WellFormed(units)
    ensures var sorted := LargestFirst(units);
            && Descending(sorted) && DistinctKeys(sorted) && HasFactor(sorted, 1)
            && (forall u :: u in sorted <==> u in units)
            && Keys(sorted) == Keys(units)
  {
    hide Key, Sort;
    var sorted := LargestFirst(units);
    SortedLargestFirst(units);
    forall u ensures u in sorted <==> u in units {
      assert u in multiset(sorted) <==> u in multiset(units);
    }
    assert units[0] in sorted;
    forall i, j | 0 <= i < j < |sorted| ensures Key(sorted[i]) != Key(sorted[j]) {
      SameKeyTwice(units, sorted, i, j);
    }
  }

  /** After a clamp the units again weigh exactly what is in the cart, with no unit that a
      larger one could take over. */
  lemma SplitWeighsTheTotal(units: seq<Unit>, total: nat)
    requires WellFormed(units)
    ensures Split(units, total).Keys == Keys(units)
    ensures Weight(units, Split(units, total)) == total
    ensures var sorted := LargestFirst(units);
            forall i | 0 <= i < |sorted| :: Weight(sorted[i + 1..], Split(units, total)) < sorted[i].factor
  {
    hide Key, Sort;
    var sorted := LargestFirst(units);
    LargestFirstKeepsUnits(units);
    GreedyKeys(sorted, total);
    GreedyWeighsTheTotal(sorted, total);
    WeightOfSorted(units, (a: Unit, b: Unit) => a.factor >= b.factor, Split(units, total));
    forall i | 0 <= i < |sorted| ensures Weight(sorted[i + 1..], Split(units, total)) < sorted[i].factor {
      GreedyIsTight(sorted, total, i);
    }
  }

  // ---------------------------------------------------------------------
  // Quantities that no longer match the cart
  // ---------------------------------------------------------------------

  /** The difference goes to the base unit; when that would make it negative, everything does. */
  function Healed(units: seq<Unit>, q: map<string, nat>, cart: nat): map<string, nat>
    requires units != []
  {
    var key := Key(units[0]);
    var represented := Weight(units, q);
    if represented == cart then q
    else if Amount(q, key) + cart >= represented then q[key := Amount(q, key) + cart - represented]
    else Zeros(units)[key := cart]
  }

  /** Whatever is stored, what is read back weighs what is in the cart; quantities that match
      are left alone and only the base unit is touched while that is possible. */
  lemma HealedQuantitiesMatch(units: seq<Unit>, q: map<string, nat>, cart: nat)
    requires WellFormed(units) && q.Keys == Keys(units)
    ensures Weight(units, Healed(units, q, cart)) == cart
    ensures Healed(units, q, cart).Keys == Keys(units)
    ensures Weight(units, q) == cart ==> Healed(units, q, cart) == q
    ensures Weight(units, q[Key(units[0]) := 0]) <= cart ==>
              forall k | k in q && k != Key(units[0]) :: Healed(units, q, cart)[k] == q[k]
    ensures Weight(units, q[Key(units[0]) := 0]) > cart ==>
            Healed(units, q, cart) == Zeros(units)[Key(units[0]) := cart]
  {
    hide Key;
    var base := units[0];
    assert base in units;
    WeightAfterUpdate(units, q, base, 0);
    if Weight(units, q) != cart {
      if Amount(q, Key(base)) + cart >= Weight(units, q) {
        WeightAfterUpdate(units, q, base, Amount(q, Key(base)) + cart - Weight(units, q));
      } else {
        WeightOfZeros(units, Zeros(units));
        WeightAfterUpdate(units, Zeros(units), base, cart);
      }
    }
  }

  // ---------------------------------------------------------------------
  // Cartons and pieces on the invoice
  // ---------------------------------------------------------------------

  /** The first unit with the largest factor above 1. */
  function Larger(units: seq<Unit>): seq<Unit> {
    if units == [] then []
    else if units[0].factor > 1 then [units[0]] + Larger(units[1..])
    else Larger(units[1..])
  }

  function Largest(units: seq<Unit>): Option<Unit> {
    var sorted := LargestFirst(Larger(units));
    if sorted == [] then None else Some(sorted[0])
  }

  lemma {:induction false} LargerUnits(units: seq<Unit>)
    ensures forall u :: u in Larger(units) <==> u in units && u.factor > 1
  {
    if units != [] {
      LargerUnits(units[1..]);
      assert forall u :: u in units <==> u == units[0] || u in units[1..];
    }
  }

  lemma LargestIsLargest(units: seq<Unit>)
    ensures Largest(units).None? <==> forall u | u in units :: u.factor <= 1
    ensures Largest(units).Some? ==> var l := Largest(units).value;
              l in units && l.factor > 1 && forall u | u in units :: u.factor <= l.factor
  {
    hide Sort;
    var larger := Larger(units);
    var sorted := LargestFirst(larger);
    LargerUnits(units);
    SortedLargestFirst(larger);
    forall u ensures u in sorted <==> u in larger {
      assert u in multiset(sorted) <==> u in multiset(larger);
    }
    if larger != [] {
      assert larger[0] in sorted;
    }
    if sorted != [] {
      assert sorted[0] in larger;
      forall u | u in units ensures u.factor <= sorted[0].factor {
        if u.factor > 1 {
          var i :| 0 <= i < |sorted| && sorted[i] == u;
        }
      }
    }
  }

  function CartonFactor(units: seq<Unit>): nat {
    match Largest(units) case Some(u) => u.factor case None => 0
  }

  datatype Breakdown = Breakdown(cartons: nat, remainder: nat)

  function BreakdownOf(factor: nat, quantity: nat): Breakdown {
    if factor <= 1 then Breakdown(0, quantity)
    else Breakdown(quantity / factor, quantity - quantity / factor * factor)
  }

  function BaseQuantity(b: Breakdown, factor: nat): nat {
    b.cartons * factor + b.remainder
  }

  lemma DivideBack(cartons: nat, remainder: nat, factor: nat)
    requires factor > 0
    ensures (cartons * factor + remainder) / factor == cartons <==> remainder < factor
  {
    var q := (cartons * factor + remainder) / factor;
    var r := (cartons * factor + remainder) % factor;
    assert (q - cartons) * factor == q * factor - cartons * factor == remainder - r;
    Scale(q - cartons, factor);
  }

  /** Breaking down and adding up are inverse: always in one direction, and in the other
      exactly for cartons that the pieces cannot fill. */
  lemma BreakdownRoundTrip(factor: nat, quantity: nat, b: Breakdown)
    ensures BaseQuantity(BreakdownOf(factor, quantity), factor) == quantity
    ensures factor > 1 ==> (BreakdownOf(factor, BaseQuantity(b, factor)) == b <==> b.remainder < factor)
    ensures factor <= 1 ==> (BreakdownOf(factor, BaseQuantity(b, factor)) == b <==> b.cartons == 0)
  {
    if factor > 1 {
      DivideBack(b.cartons, b.remainder, factor);
    }
  }

  /** What the invoice editor stores: cartons on the largest unit and pieces on the base unit. */
  function InvoiceQuantities(units: seq<Unit>, b: Breakdown): map<string, nat>
    requires units != []
  {
    var q := Zeros(units);
    var withCartons := match Largest(units) case Some(u) => q[Key(u) := b.cartons] case None => q;
    withCartons[Key(units[0]) := b.remainder]
  }

  lemma InvoiceQuantitiesWeigh(units: seq<Unit>, b: Breakdown)
    requires WellFormed(units)
    ensures InvoiceQuantities(units, b).Keys == Keys(units)
    ensures Weight(units, InvoiceQuantities(units, b)) == BaseQuantity(b, CartonFactor(units))
  {
    hide Key, LargestFirst;
    var base := units[0];
    assert base in units;
    var q := Zeros(units);
    WeightOfZeros(units, q);
    LargestIsLargest(units);
    var l := Largest(units);
    if l.Some? {
      WeightAfterUpdate(units, q, l.value, b.cartons);
      if Key(l.value) == Key(base) {
        KeyTellsFactor(l.value, base);
      }
      WeightAfterUpdate(units, q[Key(l.value) := b.cartons], base, b.remainder);
    } else {
      WeightAfterUpdate(units, q, base, b.remainder);
    }
  }
}
