/**
 One product of the order: its row on the invoice, the quantities per unit that
 the catalogue remembers for it, and every way of editing them.  Stock and units
 stay as they are while the product is edited.
 */
module Cart {
  import opened Prelude
  import opened SaleUnits
  import opened UnitQuantities

  // ---------------------------------------------------------------------
  // Quantities as text
  // ---------------------------------------------------------------------

  /** Latin, Persian and Arabic digits. */
  function DigitValue(c: char): Option<nat> {
    if '0' <= c <= '9' then Some(c as int - '0' as int)
    else if '\U{06F0}' <= c <= '\U{06F9}' then Some(c as int - 0x06F0)
    else if '\U{0660}' <= c <= '\U{0669}' then Some(c as int - 0x0660)
    else None
  }

  /** The number that the digits of the text make; everything else in it is dropped. */
  function Parse(text: string): nat {
    if text == "" then 0
    else
      var last := |text| - 1;
      match DigitValue(text[last])
      case Some(d) => Parse(text[..last]) * 10 + d
      case None => Parse(text[..last])
  }

  lemma {:induction false} ParseOfDigits(n: nat)
    ensures Parse(Digits(n)) == n
  {
    DigitsAreDigits(n);
    var s := Digits(n);
    if n >= 10 {
      ParseOfDigits(n / 10);
      assert s[..|s| - 1] == Digits(n / 10);
    } else {
      assert s[..|s| - 1] == "";
    }
  }

  lemma MinusIsNoDigit()
    ensures DigitValue('-') == None
  {
  }

  lemma ParseOfNegative(digits: string)
    ensures Parse("-" + digits) == Parse(digits)
  {
    hide Parse, DigitValue;
    MinusIsNoDigit();
    ParseSkipsAnywhere("", '-', digits);
    assert "" + ['-'] + digits == "-" + digits;
    assert "" + digits == digits;
  }

  /** Numbers survive being written and read, except for their sign. */
  lemma ParseOfDecimal(n: int)
    ensures Parse(Decimal(n)) == if n < 0 then -n else n
  {
    hide Parse, Digits;
    if n < 0 {
      ParseOfNegative(Digits(-n));
      ParseOfDigits(-n);
    } else {
      ParseOfDigits(n);
    }
  }

  const LATIN := "0123456789"
  const PERSIAN := "۰۱۲۳۴۵۶۷۸۹"
  const ARABIC := "٠١٢٣٤٥٦٧٨٩"

  lemma DigitsOfAllKinds(d: nat)
    requires d < 10
    ensures DigitValue(LATIN[d]) == DigitValue(PERSIAN[d]) == DigitValue(ARABIC[d]) == Some(d)
  {
  }

  lemma {:induction false} SameDigitsParseAlike(a: string, b: string)
    requires |a| == |b| && forall i | 0 <= i < |a| :: DigitValue(a[i]) == DigitValue(b[i])
    ensures Parse(a) == Parse(b)
  {
    if a != "" {
      SameDigitsParseAlike(a[..|a| - 1], b[..|b| - 1]);
    }
  }

  /** A number is read back however each of its digits is written: latin, Persian or Arabic. */
  lemma ParseInAnyDigits(n: nat, text: string)
    requires |text| == |Digits(n)|
    requires forall i | 0 <= i < |text| :: exists d | 0 <= d < 10 ::
               Digits(n)[i] == LATIN[d] && text[i] in {LATIN[d], PERSIAN[d], ARABIC[d]}
    ensures Parse(text) == n
  {
    hide DigitValue;
    forall i | 0 <= i < |text| ensures DigitValue(text[i]) == DigitValue(Digits(n)[i]) {
      var d :| 0 <= d < 10 && Digits(n)[i] == LATIN[d] && text[i] in {LATIN[d], PERSIAN[d], ARABIC[d]};
      DigitsOfAllKinds(d);
    }
    SameDigitsParseAlike(text, Digits(n));
    ParseOfDigits(n);
  }

  /** Whatever is not a digit is skipped, wherever it stands. */
  lemma {:induction false} ParseSkipsAnywhere(a: string, c: char, b: string)
    requires DigitValue(c).None?
    ensures Parse(a + [c] + b) == Parse(a + b)
  {
    var t := a + [c] + b;
    if b == "" {
      assert t[..|t| - 1] == a && a + b == a;
    } else {
      ParseSkipsAnywhere(a, c, b[..|b| - 1]);
      assert t[..|t| - 1] == a + [c] + b[..|b| - 1];
      assert (a + b)[..|a + b| - 1] == a + b[..|b| - 1];
    }
  }

  // ---------------------------------------------------------------------
  // Whole and fractional amounts
  // ---------------------------------------------------------------------

  function WholePart(x: real): nat {
    if x < 0.0 then 0 else x.Floor
  }

  function Reals(q: map<string, nat>): map<string, real> {
    map k | k in q :: q[k] as real
  }

  function Whole(units: seq<Unit>, stored: map<string, real>): map<string, nat> {
    map k | k in Keys(units) :: if k in stored then WholePart(stored[k]) else 0
  }

  lemma WholeOfReals(units: seq<Unit>, q: map<string, nat>)
    requires q.Keys == Keys(units)
    ensures Whole(units, Reals(q)) == q
  {
    hide Key;
    forall k | k in q ensures WholePart(Reals(q)[k]) == q[k] {
    }
  }

  datatype Row = Row(quantity: nat, cartons: string, pieces: string)

  datatype Edit =
    | SetUnit(key: string, text: string)
    | ChangeUnit(key: string, delta: int)
    | SetQuantity(value: real)
    | ChangeQuantity(change: real)
    | Add(amount: real)
    | Speak(spoken: Option<nat>, quantity: real)
    | TypeInvoice(cartons: string, pieces: string, normalize: bool)
    | StepInvoice(onCartons: bool, step: int)
    | RemoveRow
    | Look

  class ProductCart {
    const units: seq<Unit>
    const stock: Option<real>
    var row: Option<Row>
    var stored: map<string, real>

    /** The row holds what its editor shows, and never more than there is. */
    ghost predicate Valid()
      reads this
    {
      && WellFormed(units)
      && (row.Some? ==>
        && row.value.quantity <= Available()
        && row.value.quantity == Edited(row.value.cartons, row.value.pieces))
    }

    function Available(): nat {
      match stock case Some(r) => WholePart(r) case None => 0
    }

    function Clamp(requested: real): nat {
      Min(WholePart(requested), Available())
    }

    function Edited(cartons: string, pieces: string): nat {
      BaseQuantity(Breakdown(Parse(cartons), Parse(pieces)), CartonFactor(units))
    }

    function InCart(): nat
      reads this
    {
      match row case Some(r) => r.quantity case None => 0
    }

    /** The unit quantities that the catalogue shows. */
    function Shown(): map<string, nat>
      requires units != []
      reads this
    {
      Healed(units, Whole(units, stored), InCart())
    }

    constructor (p: Product, rank: string -> int)
      ensures Valid() && InCart() == 0 && stock == p.stock
    {
      var found := SaleUnitsOf(p, rank);
      units, stock := found, p.stock;
      row, stored := None, map[];
    }

    /** In every valid state the shown quantities weigh what is in the cart. */
    lemma ShownWeighsTheCart()
      requires Valid()
      ensures Shown().Keys == Keys(units)
      ensures Weight(units, Shown()) == InCart() <= Available()
    {
      hide Key, WellFormed, Healed, CartonFactor;
      HealedQuantitiesMatch(units, Whole(units, stored), InCart());
    }

    lemma ShownIsStored(q: map<string, nat>)
      requires Valid() && stored == Reals(q) && q.Keys == Keys(units)
      requires Weight(units, q) == InCart()
      ensures Shown() == q
    {
      hide Key, WellFormed, CartonFactor;
      WholeOfReals(units, q);
    }

    method Represented(q: map<string, nat>) returns (total: nat)
      requires q.Keys == Keys(units)
      ensures total == Weight(units, q)
    {
      hide Key, Weight;
      total := 0;
      for i := 0 to |units|
        invariant total + Weight(units[i..], q) == Weight(units, q)
      {
        WeightUnfolds(units[i..], q);
        assert units[i..][1..] == units[i + 1..];
        assert Key(units[i]) in Keys(units);
        total := total + q[Key(units[i])] * units[i].factor;
      }
      EmptyIsWeightless(units[|units|..], q);
    }

    /** Reading back repairs what is stored; nothing else changes, and reading again is the same. */
    method ReadBack() returns (q: map<string, nat>)
      requires Valid()
      modifies this`stored
      ensures Valid()
      ensures q == old(Shown()) && Shown() == q && q.Keys == Keys(units)
      ensures stored == Reals(q) && Weight(units, q) == InCart()
    {
      hide Key, Weight, CartonFactor;
      ShownWeighsTheCart();
      q := Whole(units, stored);
      var represented := Represented(q);
      var base := Key(units[0]);
      assert base in Keys(units);
      if represented != InCart() {
        var adjusted := q[base] as int + InCart() - represented;
        if adjusted >= 0 {
          q := q[base := adjusted];
        } else {
          q := map k | k in q :: 0;
          q := q[base := InCart()];
        }
      }
      assert q == Shown();
      stored := Reals(q);
      ShownIsStored(q);
    }

    /** Splits a total over the units, the largest first. */
    method Normalize(total: nat)
      requires Valid()
      modifies this`stored
      ensures stored == Reals(Split(units, total))
    {
      hide Key, Greedy, Sort, WellFormed, CartonFactor, LargestFirst, HasFactor, DistinctKeys, Descending;
      var sorted := LargestFirst(units);
      LargestFirstKeepsUnits(units);
      GreedyKeys(sorted, total);
      var q := Zeros(units);
      var remainder: nat := total;
      assert sorted[0..] == sorted;
      for i := 0 to |sorted|
        invariant q + Greedy(sorted[i..], remainder) == Split(units, total)
      {
        var u := sorted[i];
        FactorIsPositive(units, u);
        GreedySlice(sorted, i, remainder);
        var factor := if u.factor == 0 then 1 else u.factor;
        var quantity := remainder / factor;
        q := q[Key(u) := quantity];
        remainder := remainder - quantity * factor;
      }
      assert sorted[|sorted|..] == [];
      GreedyKeys([], remainder);
      stored := Reals(q);
    }

    /** Puts a quantity in the row and in both of its editors. */
    method Display(quantity: nat)
      requires Valid() && quantity <= Available()
      modifies this`row
      ensures Valid() && InCart() == quantity && row.Some?
    {
      hide WellFormed, CartonFactor;
      WrittenBack(quantity);
      var b := BreakdownOf(CartonFactor(units), quantity);
      row := Some(Row(quantity, Decimal(b.cartons), Decimal(b.remainder)));
    }

    /** Adds up to the stock; a cut addition splits the new total again. */
    method AddLine(amount: real)
      requires Valid()
      modifies this
      ensures Valid() && InCart() == Min(old(InCart()) + WholePart(amount), Available())
      ensures old(InCart()) + WholePart(amount) <= Available() ==> stored == old(stored)
      ensures stored == old(stored) || stored == Reals(Split(units, InCart()))
      ensures InCart() == old(InCart()) ==> row == old(row) && stored == old(stored)
    {
      hide WellFormed, CartonFactor, Split;
      var requested := InCart() + WholePart(amount);
      var accepted := Min(requested, Available());
      if accepted <= InCart() {
        return;
      }
      if accepted < requested {
        Normalize(accepted);
      }
      Display(accepted);
    }

    /** The row follows the change, is cut at the stock and disappears at zero. */
    method ChangeProductQuantity(delta: real)
      requires Valid()
      modifies this
      ensures Valid() && InCart() == Clamp(old(InCart()) as real + delta)
      ensures WholePart(old(InCart()) as real + delta) <= Available() ==> stored == old(stored)
      ensures stored == old(stored) || stored == Reals(Split(units, InCart()))
      ensures row.Some? <==> InCart() > 0
    {
      hide WellFormed, CartonFactor, Split;
      if row.None? {
        if delta > 0.0 {
          AddLine(delta);
        }
        return;
      }
      var requested := WholePart(InCart() as real + delta);
      var next := Min(requested, Available());
      if next < requested {
        Normalize(next);
      }
      if next == 0 {
        row := None;
      } else {
        Display(next);
      }
    }

    /** The cart takes the quantity, or the whole stock; the answer is what it took. */
    method SetProductQuantity(value: real) returns (quantity: nat)
      requires Valid()
      modifies this
      ensures Valid() && quantity == InCart() == Clamp(value)
      ensures WholePart(value) <= Available() ==> stored == old(stored)
      ensures stored == old(stored) || stored == Reals(Split(units, InCart()))
    {
      hide WellFormed, CartonFactor, Split;
      var requested := WholePart(value);
      quantity := Min(requested, Available());
      if quantity == InCart() {
        return;
      }
      if quantity < requested {
        Normalize(quantity);
      }
      ChangeProductQuantity(quantity as real - InCart() as real);
    }

    /** What is typed for one unit is what is shown for it, and the others stay, as long as the
        stock allows; otherwise the cart holds the stock, split again. */
    method SetListUnitQuantity(key: string, text: string)
      requires Valid()
      modifies this
      ensures Valid()
      ensures key !in Keys(units) ==> row == old(row) && stored == old(stored)
      ensures key in Keys(units) ==>
                var wanted := old(Shown())[key := Parse(text)];
                InCart() == Min(Weight(units, wanted), Available())
                && Shown() == if Weight(units, wanted) <= Available() then wanted else Split(units, Available())
    {
      hide Key, WellFormed, CartonFactor, Split, Healed, Parse, Weight;
      if key !in Keys(units) {
        return;
      }
      var q := ReadBack();
      q := q[key := Parse(text)];
      stored := Reals(q);
      var wanted := Weight(units, q);
      var accepted := SetProductQuantity(wanted as real);
      if accepted < wanted {
        Normalize(accepted);
        SplitWeighsTheTotal(units, accepted);
        ShownIsStored(Split(units, accepted));
      } else {
        ShownIsStored(q);
      }
    }

    /** One more or one less of a unit.  The new number goes through text, which loses its sign. */
    method ChangeListUnitQuantity(key: string, delta: int)
      requires Valid()
      modifies this
      ensures Valid()
      ensures key !in Keys(units) ==> row == old(row) && Shown() == old(Shown())
      ensures key in Keys(units) ==>
                var n := old(Shown())[key] + delta;
                var wanted := old(Shown())[key := if n < 0 then -n else n];
                InCart() == Min(Weight(units, wanted), Available())
                && Shown() == if Weight(units, wanted) <= Available() then wanted else Split(units, Available())
    {
      hide Key, WellFormed, CartonFactor, Split, Healed, Weight;
      ShownWeighsTheCart();
      var q := ReadBack();
      var n := Amount(q, key) + delta;
      ParseOfDecimal(n);
      SetListUnitQuantity(key, Decimal(n));
    }

    /** A spoken line in one of the units is added in full or refused; a whole number of units
        is shown under the unit that was named.  Compared with a text that is not a number nothing
        is too much, but then nothing is added either. */
    method AddVoiceLine(unit: Option<Unit>, quantity: real) returns (ok: bool)
      requires Valid()
      requires unit.Some? ==> unit.value in units
      modifies this
      ensures Valid()
      ensures ok <==> unit.Some? && quantity > 0.0
                      && (stock.Some? ==> old(InCart()) as real + BaseOf(quantity, unit.value.factor) <= stock.value)
      ensures !ok ==> row == old(row) && stored == old(stored)
      ensures ok && stock.Some? ==> InCart() == old(InCart()) + WholePart(BaseOf(quantity, unit.value.factor))
      ensures ok && stock.None? ==> InCart() == old(InCart()) == 0
      ensures ok && stock.Some? && quantity == quantity.Floor as real ==>
                Shown() == old(Shown())[Key(unit.value) := Amount(old(Shown()), Key(unit.value)) + quantity.Floor]
    {
      hide Key, WellFormed, CartonFactor, Split, Healed, Weight, BaseOf;
      if unit.None? || quantity <= 0.0 {
        return false;
      }
      var u := unit.value;
      var base := BaseOf(quantity, u.factor);
      BaseOfSpoken(quantity, u.factor);
      if stock.Some? && stock.value < InCart() as real + base {
        return false;
      }
      SpokenFits(InCart(), base);
      AddSpoken(u, quantity, base);
      return true;
    }

    method AddSpoken(u: Unit, quantity: real, base: real)
      requires Valid() && u in units && quantity > 0.0
      requires quantity == quantity.Floor as real ==> WholePart(base) == quantity.Floor * u.factor
      requires stock.Some? ==> InCart() + WholePart(base) <= Available()
      modifies this
      ensures Valid()
      ensures InCart() == Min(old(InCart()) + WholePart(base), Available())
      ensures stock.Some? && quantity == quantity.Floor as real ==>
                Shown() == old(Shown())[Key(u) := Amount(old(Shown()), Key(u)) + quantity.Floor]
    {
      hide Key, WellFormed, CartonFactor, Split, Healed, Weight, WholePart, Available, Keys;
      var inCart := InCart();
      var q := ReadBack();
      stored := Reals(q)[Key(u) := Amount(q, Key(u)) as real + quantity];
      ghost var after := stored;
      AddLine(base);
      if stock.Some? && quantity == quantity.Floor as real {
        assert stored == after;
        SpokenIsShown(q, u, quantity.Floor, inCart);
      }
    }

    lemma SpokenFits(inCart: nat, base: real)
      requires base >= 0.0
      ensures stock.Some? && inCart as real + base <= stock.value ==> inCart + WholePart(base) <= Available()
    {
    }

    lemma SpokenIsShown(q: map<string, nat>, u: Unit, n: nat, inCart: nat)
      requires Valid() && u in units && q.Keys == Keys(units) && Weight(units, q) == inCart
      requires stored == Reals(q)[Key(u) := Amount(q, Key(u)) as real + n as real]
      requires InCart() == inCart + n * u.factor
      ensures Shown() == q[Key(u) := Amount(q, Key(u)) + n]
    {
      hide Key, CartonFactor, Healed, Weight, WellFormed, Reals, Amount;
      var next := q[Key(u) := Amount(q, Key(u)) + n];
      DistinctInWellFormed(units);
      WeightAfterAdding(units, q, u, n);
      assert Key(u) in Keys(units);
      RealsAfter(q, Key(u), Amount(q, Key(u)), n);
      ShownIsStored(next);
    }

    /** The invoice editor: cartons and pieces as typed are what is shown, unless the stock cuts
        them or the field is left; then both are worked out again from the total. */
    method ApplyInvoiceEditors(cartons: string, pieces: string, normalize: bool)
      requires Valid()
      modifies this
      ensures Valid()
      ensures old(row).None? ==> row == old(row) && stored == old(stored)
      ensures old(row).Some? ==>
                var typed := Breakdown(Parse(cartons), Parse(pieces));
                && row.Some?
                && InCart() == Min(Edited(cartons, pieces), Available())
                && Shown() == InvoiceQuantities(units, if normalize || Edited(cartons, pieces) > Available()
                                                       then BreakdownOf(CartonFactor(units), InCart()) else typed)
    {
      hide Key, WellFormed, CartonFactor, Healed, Weight, InvoiceQuantities, Parse, BaseQuantity, BreakdownOf;
      if row.None? {
        return;
      }
      var factor := CartonFactor(units);
      var b := Breakdown(Parse(cartons), Parse(pieces));
      var cartonInput, pieceInput := cartons, pieces;
      var requested := BaseQuantity(b, factor);
      var total := Min(requested, Available());
      if normalize || total != requested {
        WrittenBack(total);
        b := BreakdownOf(factor, total);
        total := BaseQuantity(b, factor);
        cartonInput, pieceInput := Decimal(b.cartons), Decimal(b.remainder);
      }
      row := Some(Row(total, cartonInput, pieceInput));
      StoreInvoice(b);
    }

    method StoreInvoice(b: Breakdown)
      requires Valid() && BaseQuantity(b, CartonFactor(units)) == InCart()
      modifies this`stored
      ensures Valid() && Shown() == InvoiceQuantities(units, b)
    {
      hide Key, CartonFactor, Healed, Weight, InvoiceQuantities, BaseQuantity;
      var q := InvoiceQuantities(units, b);
      InvoiceQuantitiesWeigh(units, b);
      stored := Reals(q);
      ShownIsStored(q);
    }

    lemma WrittenBack(total: nat)
      ensures var b := BreakdownOf(CartonFactor(units), total);
              BaseQuantity(b, CartonFactor(units)) == total == Edited(Decimal(b.cartons), Decimal(b.remainder))
    {
      hide CartonFactor, Parse, BreakdownOf, BaseQuantity;
      var b := BreakdownOf(CartonFactor(units), total);
      BreakdownRoundTrip(CartonFactor(units), total, b);
      ParseOfDecimal(b.cartons);
      ParseOfDecimal(b.remainder);
    }

    /** The buttons beside the editors. */
    method StepInvoice(onCartons: bool, step: int)
      requires Valid()
      modifies this
      ensures Valid()
      ensures old(row).None? ==> row == old(row) && stored == old(stored)
      ensures old(row).Some? ==>
                var c, p := Parse(old(row).value.cartons), Parse(old(row).value.pieces);
                var b := if onCartons then Breakdown(Stepped(c, step), p) else Breakdown(c, Stepped(p, step));
                && InCart() == Min(BaseQuantity(b, CartonFactor(units)), Available())
                && Shown() == InvoiceQuantities(units, BreakdownOf(CartonFactor(units), InCart()))
    {
      hide Key, WellFormed, CartonFactor, Healed, Weight, InvoiceQuantities, Parse, BreakdownOf;
      if row.None? {
        return;
      }
      var r := row.value;
      var next := Stepped(Parse(if onCartons then r.cartons else r.pieces), step);
      ParseOfDecimal(next);
      if onCartons {
        ApplyInvoiceEditors(Decimal(next), r.pieces, true);
      } else {
        ApplyInvoiceEditors(r.cartons, Decimal(next), true);
      }
    }

    method Remove()
      requires Valid()
      modifies this`row
      ensures Valid() && row == None && InCart() == 0
    {
      row := None;
    }

    method Perform(e: Edit)
      requires Valid()
      modifies this
      ensures Valid()
    {
      hide Valid;
      match e
      case SetUnit(key, text) => SetListUnitQuantity(key, text);
      case ChangeUnit(key, delta) => ChangeListUnitQuantity(key, delta);
      case SetQuantity(value) => var _ := SetProductQuantity(value);
      case ChangeQuantity(change) => ChangeProductQuantity(change);
      case Add(amount) => AddLine(amount);
      case Speak(spoken, quantity) =>
        var unit := if spoken.Some? && spoken.value < |units| then Some(units[spoken.value]) else None;
        var _ := AddVoiceLine(unit, quantity);
      case TypeInvoice(cartons, pieces, normalize) => ApplyInvoiceEditors(cartons, pieces, normalize);
      case StepInvoice(onCartons, step) => StepInvoice(onCartons, step);
      case RemoveRow => Remove();
      case Look => var _ := ReadBack();
    }

    /** After any edits in any order the cart is within the stock and the shown quantities weigh it. */
    method PerformAll(edits: seq<Edit>)
      requires Valid()
      modifies this
      ensures Valid()
      ensures Weight(units, Shown()) == InCart() <= Available()
    {
      hide Healed, CartonFactor, Key, Weight;
      for i := 0 to |edits|
        invariant Valid()
      {
        Perform(edits[i]);
      }
      ShownWeighsTheCart();
    }
  }

  function BaseOf(quantity: real, factor: nat): real {
    quantity * factor as real
  }

  lemma BaseOfSpoken(quantity: real, factor: nat)
    requires quantity > 0.0
    ensures BaseOf(quantity, factor) >= 0.0
    ensures quantity == quantity.Floor as real ==> WholePart(BaseOf(quantity, factor)) == quantity.Floor * factor
  {
    if quantity == quantity.Floor as real {
      assert quantity * factor as real == (quantity.Floor * factor) as real;
    }
  }

  lemma RealsAfter(q: map<string, nat>, key: string, m: nat, n: nat)
    ensures Reals(q)[key := m as real + n as real] == Reals(q[key := m + n])
  {
    assert m as real + n as real == (m + n) as real;
  }

  lemma DistinctInWellFormed(units: seq<Unit>)
    requires WellFormed(units)
    ensures DistinctKeys(units)
  {
  }

  function Stepped(n: nat, step: int): nat {
    if n + step < 0 then 0 else n + step
  }

  /** Steps up and down cancel, and a step below zero stops there. */
  lemma StepsComeBack(n: nat, steps: int)
    requires steps >= 0
    ensures Stepped(Stepped(n, steps), -steps) == n
    ensures steps >= n ==> Stepped(n, -steps) == 0
    ensures steps <= n ==> Stepped(n, -steps) + steps == n
  {
  }

  /** A cart for which no unit was ever typed is shown in base units. */
  lemma NothingStoredShowsBase(units: seq<Unit>, cart: nat)
    requires WellFormed(units)
    ensures Healed(units, Whole(units, map[]), cart) == Zeros(units)[Key(units[0]) := cart]
  {
    hide Key, LargestFirst;
    var q := Whole(units, map[]);
    assert q == Zeros(units);
    WeightOfZeros(units, q);
    assert units[0] in units;
    if cart == 0 {
      assert q[Key(units[0]) := 0] == q;
    }
  }

  lemma TailOf(units: seq<Unit>, i: nat)
    requires DistinctKeys(units) && i < |units|
    ensures DistinctKeys(units[i..])
    ensures Key(units[i]) !in Keys(units[i + 1..])
  {
    hide Key;
    forall a, b | 0 <= a < b < |units[i..]| ensures Key(units[i..][a]) != Key(units[i..][b]) {
      assert units[i..][a] == units[i + a] && units[i..][b] == units[i + b];
    }
    forall v | v in units[i + 1..] ensures Key(v) != Key(units[i]) {
      var b :| 0 <= b < |units[i + 1..]| && units[i + 1..][b] == v;
      assert units[i + 1 + b] == v;
    }
  }

  lemma GreedySlice(units: seq<Unit>, i: nat, total: nat)
    requires DistinctKeys(units) && i < |units| && units[i].factor >= 1
    ensures var factor := units[i].factor;
            && total - total / factor * factor == total % factor
            && Greedy(units[i..], total) == Greedy(units[i + 1..], total % factor)[Key(units[i]) := total / factor]
            && Key(units[i]) !in Greedy(units[i + 1..], total % factor)
  {
    hide Key, Greedy;
    TailOf(units, i);
    assert units[i..][1..] == units[i + 1..];
    GreedyUnfolds(units[i..], total);
    GreedyKeys(units[i + 1..], total % units[i].factor);
    DivisionLaw(total, units[i].factor);
  }

  lemma FactorIsPositive(units: seq<Unit>, u: Unit)
    requires WellFormed(units) && u in units
    ensures u.factor >= 1
  {
    var i :| 0 <= i < |units| && units[i] == u;
    assert i > 0 ==> units[0].factor <= units[i].factor;
  }
}
