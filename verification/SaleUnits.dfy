/**
 The units in which a product is sold, and quantities split over them: every
 unit stands for a whole number of base units and one of them for exactly 1.
 */
module SaleUnits {
  import opened Prelude

  /** A unit as the catalogue lists it. */
  datatype Listed = Listed(ref: Option<string>, name: Option<string>, factor: int)

  /** `stock` is the available quantity: 0 when the catalogue has none, and nothing only when it has
      a text that is not a number. */
  datatype Product = Product(unit: string, carton: int, listed: seq<Listed>, stock: Option<real>)

  datatype Unit = Unit(ref: string, name: string, factor: nat)

  function Key(u: Unit): string {
    u.ref + "|" + u.name + "|" + Decimal(u.factor)
  }

  function Keys(units: seq<Unit>): set<string> {
    set u | u in units :: Key(u)
  }

  const BASE_NAME := "عدد"
  const SALE_NAME := "واحد فروش"
  const CARTON_NAME := "کارتن"

  /** The characters that `String.prototype.trim` removes. */
  predicate TrimmedAway(c: char) {
    || '\U{0009}' <= c <= '\U{000D}'
    || c in {'\U{0020}', '\U{00A0}', '\U{1680}', '\U{2028}', '\U{2029}', '\U{202F}', '\U{205F}', '\U{3000}', '\U{FEFF}'}
    || '\U{2000}' <= c <= '\U{200A}'
  }

  function Trim(s: string): string
    decreases |s|
  {
    if s == [] then s
    else if TrimmedAway(s[0]) then Trim(s[1..])
    else if TrimmedAway(s[|s| - 1]) then Trim(s[..|s| - 1])
    else s
  }

  /** Trimming takes such characters off both ends, as far as it goes, and nothing else. */
  lemma {:induction false} TrimIsBetween(s: string) returns (i: nat, j: nat)
    ensures i <= j <= |s| && Trim(s) == s[i..j]
    ensures forall k | 0 <= k < i || j <= k < |s| :: TrimmedAway(s[k])
    ensures i == j || (!TrimmedAway(s[i]) && !TrimmedAway(s[j - 1]))
    decreases |s|
  {
    hide TrimmedAway;
    if s != [] && TrimmedAway(s[0]) {
      i, j := TrimIsBetween(s[1..]);
      assert s[1..][i..j] == s[i + 1..j + 1];
      i, j := i + 1, j + 1;
    } else if s != [] && TrimmedAway(s[|s| - 1]) {
      i, j := TrimIsBetween(s[..|s| - 1]);
    } else {
      i, j := 0, |s|;
    }
  }

  function OrElse(name: string, default: string): string {
    if name == "" then default else name
  }

  function Candidate(p: Product, l: Listed): Unit
    requires l.factor > 0
  {
    var given := match l.name case Some(n) => n case None => "";
    Unit(match l.ref case Some(r) => r case None => "",
         Trim(OrElse(given, if l.factor == 1 then OrElse(p.unit, BASE_NAME) else SALE_NAME)),
         l.factor)
  }

  lemma KeyEndsInTheFactor(u: Unit)
    ensures var s, i := Key(u), |Key(u)| - |Digits(u.factor)| - 1;
            0 <= i < |s| && s[i] == '|' && s[i + 1..] == Digits(u.factor) && forall k | i < k < |s| :: s[k] != '|'
  {
    DigitsAreDigits(u.factor);
    var s, i := Key(u), |Key(u)| - |Digits(u.factor)| - 1;
    assert s == (u.ref + "|" + u.name) + "|" + Digits(u.factor);
    forall k | i < k < |s| ensures s[k] != '|' {
      assert s[k] == Digits(u.factor)[k - i - 1];
    }
  }

  /** Key texts end in the factor, so equal keys mean equal factors. */
  lemma KeyTellsFactor(a: Unit, b: Unit)
    requires Key(a) == Key(b)
    ensures a.factor == b.factor
  {
    KeyEndsInTheFactor(a);
    KeyEndsInTheFactor(b);
    assert |Digits(a.factor)| == |Digits(b.factor)|;
    DigitsTellNumbersApart(a.factor, b.factor);
  }

  // ---------------------------------------------------------------------
  // Order
  // ---------------------------------------------------------------------

  /** Stable sorting: `u` goes before the first unit that it does not have to follow. */
  function Insert(u: Unit, units: seq<Unit>, before: (Unit, Unit) -> bool): (r: seq<Unit>)
    ensures multiset(r) == multiset(units) + multiset{u}
  {
    if units == [] then [u]
    else if before(u, units[0]) then [u] + units
    else
      assert units == [units[0]] + units[1..];
      [units[0]] + Insert(u, units[1..], before)
  }

  function Sort(units: seq<Unit>, before: (Unit, Unit) -> bool): (r: seq<Unit>)
    ensures multiset(r) == multiset(units)
  {
    if units == [] then []
    else
      assert units == [units[0]] + units[1..];
      Insert(units[0], Sort(units[1..], before), before)
  }

  predicate Ascending(units: seq<Unit>) {
    forall i, j | 0 <= i < j < |units| :: units[i].factor <= units[j].factor
  }

  predicate Descending(units: seq<Unit>) {
    forall i, j | 0 <= i < j < |units| :: units[i].factor >= units[j].factor
  }

  /** Smallest factor first, names in the order that `rank` gives them. */
  function BySize(rank: string -> int): (Unit, Unit) -> bool {
    (a: Unit, b: Unit) => a.factor < b.factor || (a.factor == b.factor && rank(a.name) <= rank(b.name))
  }

  function LargestFirst(units: seq<Unit>): seq<Unit> {
    Sort(units, (a: Unit, b: Unit) => a.factor >= b.factor)
  }

  predicate InOrder(units: seq<Unit>, rank: string -> int) {
    forall i, j | 0 <= i < j < |units| :: BySize(rank)(units[i], units[j])
  }

  lemma {:induction false} SortedBySize(units: seq<Unit>, rank: string -> int)
    ensures InOrder(Sort(units, BySize(rank)), rank) && Ascending(Sort(units, BySize(rank)))
  {
    if units != [] {
      SortedBySize(units[1..], rank);
      InsertedBySize(units[0], Sort(units[1..], BySize(rank)), rank);
      OrderedIsAscending(Sort(units, BySize(rank)), rank);
    }
  }

  lemma OrderedIsAscending(units: seq<Unit>, rank: string -> int)
    requires InOrder(units, rank)
    ensures Ascending(units)
  {
    forall i, j | 0 <= i < j < |units| ensures units[i].factor <= units[j].factor {
      assert BySize(rank)(units[i], units[j]);
    }
  }

  lemma {:induction false} InsertedBySize(u: Unit, units: seq<Unit>, rank: string -> int)
    requires InOrder(units, rank)
    ensures InOrder(Insert(u, units, BySize(rank)), rank)
  {
    if units != [] {
      forall j | 1 <= j < |units| ensures BySize(rank)(units[0], units[j]) {
      }
      if !BySize(rank)(u, units[0]) {
        InsertedBySize(u, units[1..], rank);
        var rest := Insert(u, units[1..], BySize(rank));
        forall j | 0 <= j < |rest| ensures BySize(rank)(units[0], rest[j]) {
          assert rest[j] in multiset(rest);
          assert rest[j] == u || rest[j] in units[1..];
        }
      }
    }
  }

  lemma {:induction false} SortedLargestFirst(units: seq<Unit>)
    ensures Descending(LargestFirst(units))
  {
    if units != [] {
      SortedLargestFirst(units[1..]);
      InsertedLargestFirst(units[0], LargestFirst(units[1..]));
    }
  }

  lemma {:induction false} InsertedLargestFirst(u: Unit, units: seq<Unit>)
    requires Descending(units)
    ensures Descending(Insert(u, units, (a: Unit, b: Unit) => a.factor >= b.factor))
  {
    var before := (a: Unit, b: Unit) => a.factor >= b.factor;
    if units != [] && !before(u, units[0]) {
      InsertedLargestFirst(u, units[1..]);
      var rest := Insert(u, units[1..], before);
      forall j | 0 <= j < |rest| ensures units[0].factor >= rest[j].factor {
        assert rest[j] in multiset(rest);
        assert rest[j] == u || rest[j] in units[1..];
      }
    }
  }

  // ---------------------------------------------------------------------
  // The units of a product
  // ---------------------------------------------------------------------

  ghost predicate DistinctKeys(units: seq<Unit>) {
    forall i, j | 0 <= i < j < |units| :: Key(units[i]) != Key(units[j])
  }

  /** What the rest of the cart relies on. */
  ghost predicate WellFormed(units: seq<Unit>) {
    && units != []
    && units[0].factor == 1
    && Ascending(units)
    && DistinctKeys(units)
  }

  method AppendUnit(p: Product, units: seq<Unit>, l: Listed) returns (r: seq<Unit>)
    requires DistinctKeys(units) && forall u | u in units :: u.factor >= 1
    ensures DistinctKeys(r) && forall u | u in r :: u.factor >= 1
    ensures forall u | u in r :: u in units || (l.factor > 0 && u == Candidate(p, l))
    ensures forall u | u in units :: u in r
    ensures l.factor > 0 ==> Key(Candidate(p, l)) in Keys(r)
  {
    hide Key;
    r := units;
    if l.factor > 0 && Key(Candidate(p, l)) !in Keys(units) {
      r := units + [Candidate(p, l)];
      assert Candidate(p, l) in r;
    }
  }

  lemma KeyBringsFactor(units: seq<Unit>, v: Unit)
    requires Key(v) in Keys(units)
    ensures HasFactor(units, v.factor)
  {
    var u :| u in units && Key(u) == Key(v);
    KeyTellsFactor(u, v);
  }

  predicate HasFactor(units: seq<Unit>, factor: nat) {
    exists u | u in units :: u.factor == factor
  }

  function BaseUnit(p: Product): Listed {
    Listed(None, Some(OrElse(p.unit, BASE_NAME)), 1)
  }

  function CartonUnit(p: Product): Listed {
    Listed(None, Some(CARTON_NAME), p.carton)
  }

  /** A unit that is listed without a name is the base unit when its factor is 1, and is named as some
      sale unit otherwise; a name that is given is kept, without white space around it. */
  lemma NamelessUnits(p: Product, l: Listed)
    requires l.factor > 0
    ensures var nameless := l.name == None || l.name == Some("");
            && (nameless && l.factor == 1 ==> Candidate(p, l).name == Candidate(p, BaseUnit(p)).name)
            && (nameless && l.factor > 1 ==> Candidate(p, l).name == SALE_NAME)
            && (!nameless ==> Candidate(p, l).name == Trim(l.name.value))
  {
    assert Trim(SALE_NAME) == SALE_NAME;
    hide Trim;
  }

  predicate FactorIsListed(p: Product, factor: nat) {
    exists l | l in p.listed :: l.factor == factor
  }

  /** Where a unit comes from: the list, or what has to be added because its factor is not listed. */
  ghost predicate Comes(p: Product, u: Unit) {
    || (exists l | l in p.listed :: l.factor > 0 && u == Candidate(p, l))
    || (u == Candidate(p, BaseUnit(p)) && !FactorIsListed(p, 1))
    || (p.carton > 1 && u == Candidate(p, CartonUnit(p)) && !FactorIsListed(p, p.carton))
  }

  ghost predicate Collected(p: Product, units: seq<Unit>, upTo: nat)
    requires upTo <= |p.listed|
  {
    && DistinctKeys(units)
    && (forall u | u in units :: u.factor >= 1 && Comes(p, u))
    && (forall i | 0 <= i < upTo && p.listed[i].factor > 0 :: Key(Candidate(p, p.listed[i])) in Keys(units))
  }

  method Collect(p: Product) returns (found: seq<Unit>)
    ensures Collected(p, found, |p.listed|)
  {
    hide Key, Candidate, Comes;
    found := [];
    for i := 0 to |p.listed|
      invariant Collected(p, found, i)
    {
      ghost var before := found;
      found := AppendUnit(p, found, p.listed[i]);
      KeysGrow(before, found);
      if p.listed[i].factor > 0 {
        CandidateComes(p, p.listed[i]);
      }
    }
  }

  lemma KeysGrow(before: seq<Unit>, after: seq<Unit>)
    requires forall u | u in before :: u in after
    ensures Keys(before) <= Keys(after)
  {
  }

  lemma CandidateComes(p: Product, l: Listed)
    requires l in p.listed
             || ((l == BaseUnit(p) || (l == CartonUnit(p) && p.carton > 1)) && !FactorIsListed(p, l.factor))
    requires l.factor > 0
    ensures Comes(p, Candidate(p, l)) && Candidate(p, l).factor == l.factor
  {
  }

  lemma ListedFactorsAreThere(p: Product, units: seq<Unit>, factor: nat)
    requires Collected(p, units, |p.listed|) && factor > 0
    ensures FactorIsListed(p, factor) ==> HasFactor(units, factor)
  {
    hide Key, Comes;
    if FactorIsListed(p, factor) {
      var i :| 0 <= i < |p.listed| && p.listed[i].factor == factor;
      KeyBringsFactor(units, Candidate(p, p.listed[i]));
    }
  }

  /** The unit that `l` describes, unless its factor is there already. */
  method AddMissing(p: Product, units: seq<Unit>, l: Listed) returns (r: seq<Unit>)
    requires Collected(p, units, |p.listed|)
    requires l == BaseUnit(p) || (l == CartonUnit(p) && p.carton > 1)
    ensures Collected(p, r, |p.listed|) && HasFactor(r, l.factor)
    ensures forall f | HasFactor(units, f) :: HasFactor(r, f)
  {
    hide Key, Candidate, Comes;
    r := units;
    if !(exists u | u in units :: u.factor == l.factor) {
      r := AppendUnit(p, units, l);
      KeysGrow(units, r);
      ListedFactorsAreThere(p, units, l.factor);
      CandidateComes(p, l);
      KeyBringsFactor(r, Candidate(p, l));
    }
  }

  /** The listed units with a positive factor, each once; a base unit and a carton are added
      exactly when no listed unit has their factor; by size, then by name. */
  method SaleUnitsOf(p: Product, rank: string -> int) returns (units: seq<Unit>)
    ensures WellFormed(units)
    ensures Collected(p, units, |p.listed|)
    ensures InOrder(units, rank)
    ensures HasFactor(units, 1) && (p.carton > 1 ==> HasFactor(units, p.carton))
  {
    hide Key, Candidate, Comes, Sort;
    var found := Collect(p);
    found := AddMissing(p, found, BaseUnit(p));
    if p.carton > 1 {
      found := AddMissing(p, found, CartonUnit(p));
    }
    units := Sort(found, BySize(rank));
    SortedBySize(found, rank);
    SortKeepsUnits(found, units);
  }

  lemma SortKeepsUnits(found: seq<Unit>, units: seq<Unit>)
    requires multiset(units) == multiset(found) && Ascending(units)
    requires DistinctKeys(found) && (forall u | u in found :: u.factor >= 1)
    requires HasFactor(found, 1)
    ensures forall u :: u in units <==> u in found
    ensures WellFormed(units) && Keys(units) == Keys(found)
  {
    hide Key;
    forall u ensures u in units <==> u in found {
      assert u in multiset(units) <==> u in multiset(found);
    }
    var one :| one in found && one.factor == 1;
    assert one in units;
    forall i, j | 0 <= i < j < |units| ensures Key(units[i]) != Key(units[j]) {
      if Key(units[i]) == Key(units[j]) {
        SameKeyTwice(found, units, i, j);
      }
    }
  }

  lemma SameKeyTwice(found: seq<Unit>, units: seq<Unit>, i: nat, j: nat)
    requires multiset(units) == multiset(found) && DistinctKeys(found)
    requires i < j < |units|
    ensures Key(units[i]) != Key(units[j])
  {
    hide Key;
    assert units[i] in multiset(found) && units[j] in multiset(found);
    if units[i] == units[j] {
      var u := units[i];
      assert units == units[..j] + [u] + units[j + 1..];
      assert units[..j][i] == u;
      assert multiset(units)[u] >= 2;
      TwiceInFound(found, u);
    } else {
      var a :| 0 <= a < |found| && found[a] == units[i];
      var b :| 0 <= b < |found| && found[b] == units[j];
    }
  }

  lemma {:induction false} TwiceInFound(found: seq<Unit>, u: Unit)
    requires DistinctKeys(found)
    ensures multiset(found)[u] <= 1
  {
    hide Key;
    if found != [] {
      assert found == [found[0]] + found[1..];
      TwiceInFound(found[1..], u);
      forall b | 0 <= b < |found[1..]| ensures found[1..][b] != found[0] {
        assert found[b + 1] == found[1..][b];
      }
    }
  }
}
