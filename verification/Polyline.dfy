/**
 Decoding of route geometry in Google's Encoded Polyline Algorithm Format.

 Strings are sequences of UTF-16 code units and coordinates are whole numbers
 of 1e-5 degree.  The bitwise operators work on 32-bit two's complement
 numbers, as they do in JavaScript.
 */
module Polyline {
  import opened Prelude

  datatype Point = Point(longitude: int, latitude: int)

  // ---------------------------------------------------------------------
  // 32-bit arithmetic
  // ---------------------------------------------------------------------

  const TWO_TO_32: int := 0x1_0000_0000
  const TWO_TO_31: int := 0x8000_0000
  const TWO_TO_30: int := 0x4000_0000

  function ToInt32(n: int): int {
    var u := n % TWO_TO_32;
    if u < TWO_TO_31 then u else u - TWO_TO_32
  }

  /** `a | b` on bit patterns. */
  function BitOr(a: nat, b: nat): nat {
    if a == 0 then b
    else (if a % 2 == 1 || b % 2 == 1 then 1 else 0) + 2 * BitOr(a / 2, b / 2)
  }

  /** `value | (chunk << shift)`. */
  function OrShifted(value: int, chunk: int, shift: nat): int {
    ToInt32(BitOr(value % TWO_TO_32, (chunk * Power2(shift % 32)) % TWO_TO_32))
  }

  // ---------------------------------------------------------------------
  // The decoder
  // ---------------------------------------------------------------------

  /**
   `charCodeAt(index) - 63`.  Past the end that is NaN in JavaScript, which has no
   bits set and does not ask for another character, like 0 here.
   */
  function ByteAt(encoded: seq<nat>, index: nat): int {
    if index < |encoded| then (var code: int := encoded[index]; code - 63) else 0
  }

  /** Reads 5-bit groups from `index` on; returns the value and the index after it. */
  function ReadGroups(encoded: seq<nat>, index: nat, shift: nat, value: int): (r: (int, nat))
    ensures r.1 > index
    decreases |encoded| - index
  {
    var byte := ByteAt(encoded, index);
    var next := OrShifted(value, byte % 32, shift);
    if byte >= 32 then ReadGroups(encoded, index + 1, shift + 5, next) else (next, index + 1)
  }

  /** `(value & 1) ? ~(value >> 1) : (value >> 1)`. */
  function Signed(value: int): int {
    if value % 2 == 1 then -(value / 2) - 1 else value / 2
  }

  function DecodeFrom(encoded: seq<nat>, index: nat, latitude: int, longitude: int): seq<Point>
    decreases |encoded| - index
  {
    if index >= |encoded| then []
    else
      var (north, i) := ReadGroups(encoded, index, 0, 0);
      var (east, j) := ReadGroups(encoded, i, 0, 0);
      var lat, lon := latitude + Signed(north), longitude + Signed(east);
      [Point(lon, lat)] + DecodeFrom(encoded, j, lat, lon)
  }

  /** Reads one number, group by group. */
  method ReadNumber(encoded: seq<nat>, start: nat) returns (value: int, index: nat)
    ensures (value, index) == ReadGroups(encoded, start, 0, 0)
  {
    hide OrShifted;
    var shift, more := 0, true;
    value, index := 0, start;
    while more
      invariant ReadGroups(encoded, start, 0, 0)
             == if more then ReadGroups(encoded, index, shift, value) else (value, index)
      decreases more, |encoded| - index
    {
      var byte := ByteAt(encoded, index);
      index := index + 1;
      value := OrShifted(value, byte % 32, shift);
      shift := shift + 5;
      more := byte >= 32;
    }
  }

  method DecodePolyline(encoded: seq<nat>) returns (points: seq<Point>)
    ensures points == DecodeFrom(encoded, 0, 0, 0)
  {
    hide OrShifted, Signed;
    var index, latitude, longitude := 0, 0, 0;
    points := [];
    while index < |encoded|
      invariant DecodeFrom(encoded, 0, 0, 0) == points + DecodeFrom(encoded, index, latitude, longitude)
    {
      var north, middle := ReadNumber(encoded, index);
      var east, next := ReadNumber(encoded, middle);
      latitude := latitude + Signed(north);
      longitude := longitude + Signed(east);
      index := next;
      points := points + [Point(longitude, latitude)];
    }
  }

  // ---------------------------------------------------------------------
  // The format
  // ---------------------------------------------------------------------

  /** Left-shifts a signed number by one bit and inverts it when it was negative. */
  function ZigZag(delta: int): nat {
    if delta < 0 then -2 * delta - 1 else 2 * delta
  }

  /** 5-bit groups, lowest first, each but the last marked with 0x20, plus 63. */
  function Groups(n: nat): seq<nat> {
    if n < 32 then [n + 63] else [n % 32 + 32 + 63] + Groups(n / 32)
  }

  function EncodeFrom(points: seq<Point>, latitude: int, longitude: int): seq<nat> {
    if points == [] then []
    else
      var p := points[0];
      Groups(ZigZag(p.latitude - latitude)) + Groups(ZigZag(p.longitude - longitude))
      + EncodeFrom(points[1..], p.latitude, p.longitude)
  }

  function Encode(points: seq<Point>): seq<nat> {
    EncodeFrom(points, 0, 0)
  }

  predicate Fits(delta: int) {
    -TWO_TO_30 <= delta < TWO_TO_30
  }

  /** Every step from one point to the next, the first one from (0, 0), is within 2^30. */
  ghost predicate StepsFit(points: seq<Point>, latitude: int, longitude: int) {
    points == [] ||
    var p := points[0];
    && Fits(p.latitude - latitude) && Fits(p.longitude - longitude)
    && StepsFit(points[1..], p.latitude, p.longitude)
  }

  // ---------------------------------------------------------------------
  // The decoder inverts the format
  // ---------------------------------------------------------------------

  lemma {:induction false} Power2Sum(m: nat, n: nat)
    ensures Power2(m + n) == Power2(m) * Power2(n)
  {
    if m > 0 {
      Power2Sum(m - 1, n);
    }
  }

  /** Bits that do not overlap are added. */
  lemma {:induction false} BitOrDisjoint(a: nat, c: nat, shift: nat)
    requires a < Power2(shift)
    ensures BitOr(a, c * Power2(shift)) == a + c * Power2(shift)
    decreases shift
  {
    if a != 0 {
      var b := c * Power2(shift - 1);
      assert c * Power2(shift) == 2 * b;
      BitOrDisjoint(a / 2, c, shift - 1);
    }
  }

  lemma OrShiftedAdds(value: nat, chunk: nat, shift: nat)
    requires shift < 32 && value < Power2(shift)
    requires value + chunk * Power2(shift) < TWO_TO_31
    ensures OrShifted(value, chunk, shift) == value + chunk * Power2(shift)
  {
    hide Power2, BitOr;
    var shifted := NonNegativeProduct(chunk, Power2(shift));
    assert shift % 32 == shift;
    assert shifted % TWO_TO_32 == shifted && value % TWO_TO_32 == value;
    BitOrDisjoint(value, chunk, shift);
  }

  lemma NonNegativeProduct(a: nat, b: nat) returns (p: nat)
    ensures p == a * b
  {
    assert a * b >= 0;
    p := a * b;
  }

  lemma LastGroup(before: seq<nat>, n: nat, rest: seq<nat>, shift: nat, value: int)
    requires n < 32
    ensures Groups(n) == [n + 63]
    ensures ReadGroups(before + Groups(n) + rest, |before|, shift, value) == (OrShifted(value, n, shift), |before| + 1)
  {
    hide OrShifted;
    assert (before + Groups(n) + rest)[|before|] == n + 63;
  }

  lemma FirstGroup(before: seq<nat>, n: nat, rest: seq<nat>, shift: nat, value: int)
    requires n >= 32
    ensures var s, head := before + Groups(n) + rest, [n % 32 + 95];
            && s == (before + head) + Groups(n / 32) + rest && |Groups(n)| == 1 + |Groups(n / 32)|
            && ReadGroups(s, |before|, shift, value)
               == ReadGroups(s, |before + head|, shift + 5, OrShifted(value, n % 32, shift))
  {
    hide OrShifted;
    var s, head := before + Groups(n) + rest, [n % 32 + 95];
    assert s == (before + head) + Groups(n / 32) + rest;
    assert s[|before|] == n % 32 + 95;
    assert (n % 32 + 32) % 32 == n % 32;
  }

  /** Reading stops right after the encoded number, whatever its size. */
  lemma {:induction false} ReadsToTheEnd(before: seq<nat>, n: nat, rest: seq<nat>, shift: nat, value: int)
    ensures ReadGroups(before + Groups(n) + rest, |before|, shift, value).1 == |before| + |Groups(n)|
    decreases n
  {
    hide OrShifted, ReadGroups, Groups;
    if n < 32 {
      LastGroup(before, n, rest, shift, value);
    } else {
      FirstGroup(before, n, rest, shift, value);
      ReadsToTheEnd(before + [n % 32 + 95], n / 32, rest, shift + 5, OrShifted(value, n % 32, shift));
    }
  }

  /** While everything stays below 2^31 the groups are put back together. */
  lemma {:induction false} ReadsTheNumber(before: seq<nat>, n: nat, rest: seq<nat>, shift: nat, value: nat)
    requires value < Power2(shift) && value + n * Power2(shift) < TWO_TO_31
    requires n > 0 ==> shift < 32
    requires n == 0 ==> shift == 0
    ensures ReadGroups(before + Groups(n) + rest, |before|, shift, value).0 == value + n * Power2(shift)
    decreases n
  {
    hide OrShifted, Power2, ReadGroups, Groups;
    if n < 32 {
      LastGroup(before, n, rest, shift, value);
      OrShiftedAdds(value, n, shift);
    } else {
      FirstGroup(before, n, rest, shift, value);
      var low, high, p := n % 32, n / 32, Power2(shift);
      Power2Sum(5, shift);
      Power2Of5();
      SplitProduct(n, low, high, p);
      ShiftIsSmall(shift + 5);
      OrShiftedAdds(value, low, shift);
      ReadsTheNumber(before + [low + 95], high, rest, shift + 5, value + low * p);
    }
  }

  lemma Power2Of5()
    ensures Power2(5) == 32
  {
  }

  lemma SplitProduct(n: nat, low: nat, high: nat, p: nat)
    requires n == low + 32 * high && low <= 31 && high >= 1
    ensures n * p == low * p + high * (32 * p)
    ensures 0 <= low * p <= 31 * p
    ensures high * (32 * p) >= 32 * p
  {
  }

  lemma Power2Of31()
    ensures Power2(31) == TWO_TO_31
  {
    assert Power2(4) == 16 && Power2(3) == 8;
    hide Power2;
    Power2Sum(4, 4);
    Power2Sum(4, 3);
    Power2Sum(8, 8);
    Power2Sum(8, 7);
    Power2Sum(16, 15);
  }

  lemma ShiftIsSmall(shift: nat)
    requires Power2(shift) < TWO_TO_31
    ensures shift < 31
  {
    Power2Of31();
    if shift >= 31 {
      Power2Grows(31, shift);
    }
  }

  lemma SignedInverts(delta: int)
    ensures Signed(ZigZag(delta)) == delta
  {
  }

  /** What one number reads back as: itself, exactly when it is within 2^30. */
  lemma NumberRoundTrip(before: seq<nat>, delta: int, rest: seq<nat>)
    ensures var (value, index) := ReadGroups(before + Groups(ZigZag(delta)) + rest, |before|, 0, 0);
            && index == |before| + |Groups(ZigZag(delta))|
            && (Signed(value) == delta <==> Fits(delta))
  {
    var n := ZigZag(delta);
    ReadsToTheEnd(before, n, rest, 0, 0);
    if Fits(delta) {
      ReadsTheNumber(before, n, rest, 0, 0);
      SignedInverts(delta);
    } else {
      ReadGroupsIsInt32(before + Groups(n) + rest, |before|, 0, 0);
    }
  }

  lemma {:induction false} ReadGroupsIsInt32(s: seq<nat>, index: nat, shift: nat, value: int)
    ensures -TWO_TO_31 <= ReadGroups(s, index, shift, value).0 < TWO_TO_31
    decreases |s| - index
  {
    var byte := ByteAt(s, index);
    if byte >= 32 {
      ReadGroupsIsInt32(s, index + 1, shift + 5, OrShifted(value, byte % 32, shift));
    }
  }

  lemma DecodesOnePoint(s: seq<nat>, index: nat, mid: nat, end: nat, latitude: int, longitude: int, q: Point)
    requires index < |s|
    requires ReadGroups(s, index, 0, 0).1 == mid && ReadGroups(s, mid, 0, 0).1 == end
    requires q.latitude == latitude + Signed(ReadGroups(s, index, 0, 0).0)
    requires q.longitude == longitude + Signed(ReadGroups(s, mid, 0, 0).0)
    ensures DecodeFrom(s, index, latitude, longitude) == [q] + DecodeFrom(s, end, q.latitude, q.longitude)
  {
  }

  /** One encoded point is read as one point: the same one exactly when both steps fit. */
  lemma PointRoundTrip(before: seq<nat>, p: Point, tail: seq<nat>, latitude: int, longitude: int)
    returns (q: Point)
    ensures var step := Groups(ZigZag(p.latitude - latitude)) + Groups(ZigZag(p.longitude - longitude));
            (DecodeFrom(before + step + tail, |before|, latitude, longitude)
             == [q] + DecodeFrom(before + step + tail, |before + step|, q.latitude, q.longitude))
    ensures q == p <==> Fits(p.latitude - latitude) && Fits(p.longitude - longitude)
  {
    var north, east := Groups(ZigZag(p.latitude - latitude)), Groups(ZigZag(p.longitude - longitude));
    var s := before + (north + east) + tail;
    GroupsNonEmpty(ZigZag(p.latitude - latitude));
    var first := ReadGroups(s, |before|, 0, 0);
    assert first.1 == |before + north|
        && (Signed(first.0) == p.latitude - latitude <==> Fits(p.latitude - latitude)) by {
      assert s == before + north + (east + tail);
      NumberRoundTrip(before, p.latitude - latitude, east + tail);
    }
    var second := ReadGroups(s, |before + north|, 0, 0);
    assert second.1 == |before + (north + east)|
        && (Signed(second.0) == p.longitude - longitude <==> Fits(p.longitude - longitude)) by {
      assert s == (before + north) + east + tail;
      NumberRoundTrip(before + north, p.longitude - longitude, tail);
    }
    q := Point(longitude + Signed(second.0), latitude + Signed(first.0));
    DecodesOnePoint(s, |before|, |before + north|, |before + (north + east)|, latitude, longitude, q);
  }

  lemma GroupsNonEmpty(n: nat)
    ensures Groups(n) != []
  {
  }

  lemma {:induction false} RoundTripFrom(before: seq<nat>, points: seq<Point>, latitude: int, longitude: int)
    ensures DecodeFrom(before + EncodeFrom(points, latitude, longitude), |before|, latitude, longitude) == points
       <==> StepsFit(points, latitude, longitude)
    decreases |points|
  {
    if points != [] {
      var p := points[0];
      var step := Groups(ZigZag(p.latitude - latitude)) + Groups(ZigZag(p.longitude - longitude));
      var tail := EncodeFrom(points[1..], p.latitude, p.longitude);
      var s := before + step + tail;
      assert before + EncodeFrom(points, latitude, longitude) == s;
      var q := PointRoundTrip(before, p, tail, latitude, longitude);
      RoundTripFrom(before + step, points[1..], p.latitude, p.longitude);
      SameHeadAndTail(q, DecodeFrom(s, |before + step|, q.latitude, q.longitude), points);
    }
  }

  lemma SameHeadAndTail<T>(head: T, tail: seq<T>, s: seq<T>)
    requires s != []
    ensures [head] + tail == s <==> head == s[0] && tail == s[1..]
  {
    assert s == [s[0]] + s[1..];
    assert ([head] + tail)[1..] == tail;
  }

  /** A list of points survives encoding and decoding exactly when its steps fit. */
  lemma RoundTrip(points: seq<Point>)
    ensures DecodeFrom(Encode(points), 0, 0, 0) == points <==> StepsFit(points, 0, 0)
  {
    RoundTripFrom([], points, 0, 0);
    assert [] + EncodeFrom(points, 0, 0) == Encode(points);
  }
}
