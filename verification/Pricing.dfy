/** pricing.c: the money columns of a sale and of a return, in fixed-point arithmetic. */
module Pricing {
  import opened CInt
  import opened Lehmer
  import opened Streams
  import opened Decimals

  // ---------------------------------------------------------------- limits

  datatype Limits = Limits(quantityMax: int, markupMax: Decimal, discountMax: Decimal, wholesaleMax: Decimal)

  /** A row of `aPriceLimits`. */
  datatype LimitRow = LimitRow(nId: int, limits: Limits)

  /** The last row with an id, or -1. */
  function LastWith(rows: seq<LimitRow>, id: int): (k: int)
    ensures -1 <= k < |rows|
    ensures k >= 0 ==> rows[k].nId == id
    ensures forall i :: k < i < |rows| ==> rows[i].nId != id
  {
    if rows == [] then -1
    else if rows[|rows| - 1].nId == id then |rows| - 1
    else LastWith(rows[..|rows| - 1], id)
  }

  /** The answer for an id: refused when no row has it, otherwise the limits of the last row that does. */
  predicate IsSelected(rows: seq<LimitRow>, id: int, found: bool, limits: Limits) {
    (found <==> LastWith(rows, id) >= 0) && (found ==> limits == rows[LastWith(rows, id)].limits)
  }

  /** The static `nLastId` and the limits read from that row. */
  class LimitCache {
    var nLastId: int
    var limits: Limits

    ghost predicate Valid(rows: seq<LimitRow>)
      reads this
    {
      -1 <= nLastId < |rows| && (nLastId >= 0 ==> limits == rows[nLastId].limits)
    }

    constructor (unset: Limits)
      ensures nLastId == -1
    {
      nLastId := -1;
      limits := unset;
    }

    /** What is remembered is the position of the row selected before, and it is compared with the
        id: an id that happens to be that position keeps that row's limits. The answer is the right
        one exactly when the id is not that position or its own last row has the same limits. */
    method Select(rows: seq<LimitRow>, nTabId: nat) returns (found: bool)
      requires Valid(rows)
      modifies this
      ensures Valid(rows)
      ensures nTabId == old(nLastId) ==> found && nLastId == old(nLastId) && limits == rows[nTabId].limits
      ensures nTabId != old(nLastId) ==> nLastId == LastWith(rows, nTabId)
      ensures IsSelected(rows, nTabId, found, limits)
        <==> (nTabId != old(nLastId)
              || (LastWith(rows, nTabId) >= 0 && rows[nTabId].limits == rows[LastWith(rows, nTabId)].limits))
    {
      if nTabId != nLastId {
        nLastId := -1;
        for i := 0 to |rows|
          invariant -1 <= nLastId < i
          invariant nLastId >= 0 ==> rows[nLastId].nId == nTabId
          invariant forall j :: nLastId < j < i ==> rows[j].nId != nTabId
        {
          if nTabId == rows[i].nId {
            nLastId := i;
          }
        }
        if nLastId == -1 {
          return false;
        }
        limits := rows[nLastId].limits;
      }
      return true;
    }

    /** A table id past the rows is never a position, so whatever was selected before, every
        such id in turn gets its own limits. */
    method SelectEach(rows: seq<LimitRow>, ids: seq<nat>) returns (found: seq<bool>, chosen: seq<Limits>)
      requires Valid(rows) && forall k :: 0 <= k < |ids| ==> ids[k] >= |rows|
      modifies this
      ensures Valid(rows) && |found| == |chosen| == |ids|
      ensures forall k :: 0 <= k < |ids| ==> IsSelected(rows, ids[k], found[k], chosen[k])
    {
      found, chosen := [], [];
      for k := 0 to |ids|
        invariant Valid(rows) && |found| == |chosen| == k
        invariant forall j :: 0 <= j < k ==> IsSelected(rows, ids[j], found[j], chosen[j])
      {
        var ok := Select(rows, ids[k]);
        found, chosen := found + [ok], chosen + [limits];
      }
    }
  }

  // ---------------------------------------------------------------- draws

  /** An amount with two decimal places. */
  function Cents(n: int): Decimal {
    Decimal(2, n)
  }

  function LessPrecision(a: Decimal, b: Decimal): nat {
    if a.precision < b.precision then a.precision else b.precision
  }

  lemma AdvanceInRange(s: int, k: nat)
    requires SeedOk(s)
    ensures SeedOk(Advance(s, k))
  {
  }

  lemma FactorAtLeast(x: int, d: int, y: int, q: int)
    requires d >= 1 && d * y <= x < d * y + d
    ensures y >= q <==> q * d <= x
  {
    MultipleAtLeast(d, y - q);
    assert d * (y - q) == d * y - q * d;
  }

  lemma QuotAtLeast(x: int, d: int, q: int)
    requires d >= 1 && q >= 1
    ensures Quot(x, d) >= q <==> q * d <= x
  {
    if x >= 0 {
      var y, r := x / d, x % d;
      assert x == d * y + r;
      FactorAtLeast(x, d, y, q);
    } else {
      MultipleAtLeast(d, q);
    }
  }

  lemma {:induction false} StillAbove(number: int, n: nat)
    ensures DropDigits(number, n) > 10 <==> 11 * TenTo(n) <= number
  {
    DropDigitsIsQuot(number, n);
    QuotAtLeast(number, TenTo(n), 11);
  }

  method Width(number: int) returns (scale: nat)
    ensures number < 11 * TenTo(scale) && (scale > 0 ==> 11 * TenTo(scale - 1) <= number)
  {
    scale := 0;
    var left := number;
    while left > 10
      invariant scale > 0 ==> 11 * TenTo(scale - 1) <= number
      invariant left == DropDigits(number, scale)
      decreases left
    {
      StillAbove(number, scale);
      DropDigitsAdds(number, scale, 1);
      assert DropDigits(left, 1) == Quot(left, 10);
      left := left / 10;
      scale := scale + 1;
    }
    StillAbove(number, scale);
  }

  /** `genrand_decimal` with DIST_UNIFORM. The width it leaves is the number of divisions by ten that
      bring the number to 10 or less, which is below 11 in front of that many digits. */
  method GenrandDecimal(streams: array<Stream>, min: Decimal, max: Decimal, i: nat) returns (r: Decimal, scale: nat)
    requires i < streams.Length && StreamOk(streams[i])
    requires min.number <= max.number
    modifies streams
    ensures r == Decimal(LessPrecision(min, max), Uniform(Next(old(streams[i].nSeed)), min.number, max.number))
    ensures min.number <= r.number <= max.number
    ensures (Next(old(streams[i].nSeed)) - (r.number - min.number)) % (max.number - min.number + 1) == 0
    ensures r.number < 11 * TenTo(scale) && (scale > 0 ==> 11 * TenTo(scale - 1) <= r.number)
    ensures streams[..] == old(streams[..])[i := Drawn(old(streams[i]))]
  {
    var number := NextRandom(streams, i);
    UniformLaw(number, min.number, max.number);
    number := Rem(number, max.number - min.number + 1);
    number := number + min.number;
    r := Decimal(LessPrecision(min, max), number);
    scale := Width(number);
  }

  datatype SaleDraws = SaleDraws(quantity: int, wholesale: int, markup: int, discount: int, coupon: int,
                                 usage: int, shipping: int, tax: int)

  /** Limits as the constants give them. */
  predicate LimitsOk(m: Limits) {
    && 1 <= m.quantityMax < 1_000_000_000 && m.wholesaleMax.number >= 100 && m.markupMax.number >= 0 && m.discountMax.number >= 0
    && m.wholesaleMax.precision == 2 && m.markupMax.precision == 2 && m.discountMax.precision == 2
  }

  predicate AllLimitsOk(rows: seq<LimitRow>) {
    forall k :: 0 <= k < |rows| ==> LimitsOk(rows[k].limits)
  }

  /** The next `n` values of a stream. */
  function Values(seed: int, n: nat): (u: seq<int>)
    ensures |u| == n && forall k :: 0 <= k < n ==> 0 <= u[k]
    decreases seed, n
  {
    if n == 0 then [] else Values(seed, n - 1) + [Next(Advance(seed, n - 1))]
  }

  lemma {:induction false} ValueAt(seed: int, n: nat, k: nat)
    requires k < n
    ensures Values(seed, n)[k] == Next(Advance(seed, k))
  {
    if k == n - 1 {
    } else {
      ValueAt(seed, n - 1, k);
    }
  }

  /** The stream `i` has given the first `k` of the values `u`, and gives the others next. */
  ghost predicate Giving(ss: array<Stream>, i: nat, st: Stream, u: seq<int>, k: nat)
    reads ss
  {
    i < ss.Length && ss[i] == DrawnTimes(st, k) && StreamOk(st) && k < |u| && u == Values(st.nSeed, |u|)
  }

  method DrawInteger(streams: array<Stream>, min: int, max: int, i: nat, ghost st: Stream, ghost u: seq<int>,
                     ghost k: nat)
    returns (r: int)
    requires Giving(streams, i, st, u, k) && min <= max
    modifies streams
    ensures r == Uniform(u[k], min, max)
    ensures streams[..] == old(streams[..])[i := DrawnTimes(st, k + 1)]
  {
    AdvanceInRange(st.nSeed, k);
    ValueAt(st.nSeed, |u|, k);
    r := GenrandInteger(streams, min, max, i);
  }

  method DrawDecimal(streams: array<Stream>, min: Decimal, max: Decimal, i: nat, ghost st: Stream,
                     ghost u: seq<int>, ghost k: nat)
    returns (r: Decimal)
    requires Giving(streams, i, st, u, k) && min.number <= max.number
    modifies streams
    ensures r == Decimal(LessPrecision(min, max), Uniform(u[k], min.number, max.number))
    ensures streams[..] == old(streams[..])[i := DrawnTimes(st, k + 1)]
  {
    AdvanceInRange(st.nSeed, k);
    ValueAt(st.nSeed, |u|, k);
    var scale;
    r, scale := GenrandDecimal(streams, min, max, i);
  }

  predicate SaleDrawsOk(d: SaleDraws, m: Limits) {
    && 1 <= d.quantity <= m.quantityMax && 100 <= d.wholesale <= m.wholesaleMax.number
    && 0 <= d.markup <= m.markupMax.number && 0 <= d.discount <= m.discountMax.number
    && 0 <= d.coupon <= 100 && 1 <= d.usage <= 100 && 0 <= d.shipping <= 50 && 0 <= d.tax <= 9
  }

  /** The eight draws of a sale, in the order the stream gives them. */
  function DrawSale(m: Limits, u: seq<int>): (d: SaleDraws)
    requires LimitsOk(m) && |u| == 8 && forall k :: 0 <= k < 8 ==> 0 <= u[k]
    ensures SaleDrawsOk(d, m)
  {
    SaleDraws(Uniform(u[0], 1, m.quantityMax), Uniform(u[1], 100, m.wholesaleMax.number),
              Uniform(u[2], 0, m.markupMax.number), Uniform(u[3], 0, m.discountMax.number),
              Uniform(u[4], 0, 100), Uniform(u[5], 1, 100), Uniform(u[6], 0, 50), Uniform(u[7], 0, 9))
  }

  datatype ReturnDraws = ReturnDraws(shipping: int, cash: int, credit: int, fee: int)

  function DrawReturn(u: seq<int>): (d: ReturnDraws)
    requires |u| == 4 && forall k :: 0 <= k < 4 ==> 0 <= u[k]
    ensures 0 <= d.shipping <= 50 && 0 <= d.cash <= 100 && 1 <= d.credit <= 100 && 50 <= d.fee <= 10000
  {
    ReturnDraws(Uniform(u[0], 0, 50), Uniform(u[1], 0, 100), Uniform(u[2], 1, 100), Uniform(u[3], 50, 10000))
  }

  // ---------------------------------------------------------------- amounts

  /** A percentage of an amount in cents, truncated to whole cents. */
  function Percent(amount: int, pct: int): int {
    Quot(amount * pct, 100)
  }

  /** The amounts of a sale, in cents. */
  datatype Sale = Sale(
    wholesale: int, list: int, sales: int,
    extWholesale: int, extList: int, extSales: int, extDiscount: int,
    coupon: int, netPaid: int, ship: int, extShip: int, extTax: int,
    netPaidIncShip: int, netPaidIncTax: int, netPaidIncShipTax: int, netProfit: int)

  function SaleOf(d: SaleDraws): Sale {
    var list := Percent(d.wholesale, d.markup + 100);
    var sales := Percent(list, 100 - d.discount);
    var extSales := sales * d.quantity;
    var coupon := if d.usage <= 20 then Percent(extSales, d.coupon) else 0;
    var netPaid := extSales - coupon;
    var ship := Percent(list, d.shipping);
    var extShip := ship * d.quantity;
    var extTax := Percent(netPaid, d.tax);
    Sale(d.wholesale, list, sales, d.wholesale * d.quantity, list * d.quantity, extSales, list * d.quantity - extSales,
         coupon, netPaid, ship, extShip, extTax,
         netPaid + extShip, netPaid + extTax, netPaid + extShip + extTax, netPaid - d.wholesale * d.quantity)
  }

  /** The amounts of a return, in cents, from the unit prices of the sale. */
  datatype Return = Return(
    extWholesale: int, extList: int, extSales: int, netPaid: int, ship: int, extShip: int, extTax: int,
    netPaidIncShip: int, netPaidIncTax: int, netPaidIncShipTax: int, netProfit: int,
    refundedCash: int, reversedCharge: int, storeCredit: int, fee: int, netLoss: int)

  datatype Sold = Sold(quantity: int, wholesale: int, list: int, sales: int, taxPct: int)

  function ReturnOf(s: Sold, d: ReturnDraws): Return {
    var netPaid := s.sales * s.quantity;
    var ship := Percent(s.list, d.shipping);
    var extShip := ship * s.quantity;
    var extTax := Percent(netPaid, s.taxPct);
    var refundedCash := Percent(d.cash, netPaid);
    var reversedCharge := Percent(netPaid - refundedCash, d.credit);
    var storeCredit := netPaid - reversedCharge - refundedCash;
    var gross := netPaid + extShip + extTax;
    Return(s.wholesale * s.quantity, s.list * s.quantity, netPaid, netPaid, ship, extShip, extTax,
           netPaid + extShip, netPaid + extTax, gross, netPaid - s.wholesale * s.quantity,
           refundedCash, reversedCharge, storeCredit, d.fee,
           gross - storeCredit - refundedCash - reversedCharge + d.fee)
  }

  // ---------------------------------------------------------------- what the amounts are

  /** `q` is a hundredth of `x`, truncated toward zero. */
  predicate IsHundredth(q: int, x: int) {
    && (x >= 0 ==> 100 * q <= x < 100 * q + 100)
    && (x <= 0 ==> 100 * q - 100 < x <= 100 * q)
  }

  lemma PercentLaw(amount: int, pct: int)
    ensures IsHundredth(Percent(amount, pct), amount * pct)
  {
  }

  /** `r` is the value from `min` to `max` that differs from the draw by whole ranges. */
  predicate IsUniform(draw: int, r: int, min: int, max: int) {
    min <= r <= max && (draw - (r - min)) % (max - min + 1) == 0
  }

  /** The values a stream gives one after the other. */
  predicate Consecutive(seed: int, u: seq<int>) {
    && (|u| > 0 ==> u[0] == (MULT * seed) % MODULUS)
    && forall k :: 0 < k < |u| ==> u[k] == (MULT * u[k - 1]) % MODULUS
  }

  lemma ValuesConsecutive(seed: int, n: nat)
    ensures Consecutive(seed, Values(seed, n))
  {
    if n > 0 {
      ValueAt(seed, n, 0);
    }
    forall k | 0 < k < n
      ensures Values(seed, n)[k] == (MULT * Values(seed, n)[k - 1]) % MODULUS
    {
      ValueAt(seed, n, k);
      ValueAt(seed, n, k - 1);
    }
  }

  /** The numbers of a sale, each from its own draw. */
  predicate SaleDrawnFrom(d: SaleDraws, m: Limits, u: seq<int>) {
    && |u| == 8
    && IsUniform(u[0], d.quantity, 1, m.quantityMax) && IsUniform(u[1], d.wholesale, 100, m.wholesaleMax.number)
    && IsUniform(u[2], d.markup, 0, m.markupMax.number) && IsUniform(u[3], d.discount, 0, m.discountMax.number)
    && IsUniform(u[4], d.coupon, 0, 100) && IsUniform(u[5], d.usage, 1, 100)
    && IsUniform(u[6], d.shipping, 0, 50) && IsUniform(u[7], d.tax, 0, 9)
  }

  lemma UniformIs(draw: int, min: int, max: int)
    requires min <= max && 0 <= draw
    ensures IsUniform(draw, Uniform(draw, min, max), min, max)
  {
    UniformLaw(draw, min, max);
  }

  lemma DrawSaleLaw(m: Limits, u: seq<int>)
    requires LimitsOk(m) && |u| == 8 && forall k :: 0 <= k < 8 ==> 0 <= u[k]
    ensures SaleDrawnFrom(DrawSale(m, u), m, u)
  {
    UniformIs(u[0], 1, m.quantityMax);
    UniformIs(u[1], 100, m.wholesaleMax.number);
    UniformIs(u[2], 0, m.markupMax.number);
    UniformIs(u[3], 0, m.discountMax.number);
    UniformIs(u[4], 0, 100);
    UniformIs(u[5], 1, 100);
    UniformIs(u[6], 0, 50);
    UniformIs(u[7], 0, 9);
  }

  /** The numbers of a return. */
  predicate ReturnDrawnFrom(d: ReturnDraws, u: seq<int>) {
    && |u| == 4
    && IsUniform(u[0], d.shipping, 0, 50) && IsUniform(u[1], d.cash, 0, 100)
    && IsUniform(u[2], d.credit, 1, 100) && IsUniform(u[3], d.fee, 50, 10000)
  }

  lemma DrawReturnLaw(u: seq<int>)
    requires |u| == 4 && forall k :: 0 <= k < 4 ==> 0 <= u[k]
    ensures ReturnDrawnFrom(DrawReturn(u), u)
  {
    UniformIs(u[0], 0, 50);
    UniformIs(u[1], 0, 100);
    UniformIs(u[2], 1, 100);
    UniformIs(u[3], 50, 10000);
  }

  /** Every amount of a sale, by additions, multiplications and truncated hundredths. */
  lemma SaleLaw(d: SaleDraws)
    ensures var s := SaleOf(d);
      && s.wholesale == d.wholesale && IsHundredth(s.list, s.wholesale * (100 + d.markup))
      && IsHundredth(s.sales, s.list * (100 - d.discount))
      && s.extWholesale == s.wholesale * d.quantity && s.extList == s.list * d.quantity
      && s.extSales == s.sales * d.quantity && s.extDiscount == s.extList - s.extSales
      && (d.usage <= 20 ==> IsHundredth(s.coupon, s.extSales * d.coupon)) && (d.usage > 20 ==> s.coupon == 0)
      && s.netPaid == s.extSales - s.coupon
      && IsHundredth(s.ship, s.list * d.shipping) && s.extShip == s.ship * d.quantity
      && IsHundredth(s.extTax, s.netPaid * d.tax)
      && s.netPaidIncShip == s.netPaid + s.extShip && s.netPaidIncTax == s.netPaid + s.extTax
      && s.netPaidIncShipTax == s.netPaid + s.extShip + s.extTax && s.netProfit == s.netPaid - s.extWholesale
  {
    var s := SaleOf(d);
    PercentLaw(d.wholesale, d.markup + 100);
    PercentLaw(s.list, 100 - d.discount);
    PercentLaw(s.extSales, d.coupon);
    PercentLaw(s.list, d.shipping);
    PercentLaw(s.netPaid, d.tax);
  }

  /** And of a return. */
  lemma ReturnLaw(s: Sold, d: ReturnDraws)
    ensures var r := ReturnOf(s, d);
      && r.extWholesale == s.wholesale * s.quantity && r.extList == s.list * s.quantity
      && r.extSales == s.sales * s.quantity && r.netPaid == r.extSales
      && IsHundredth(r.ship, s.list * d.shipping) && r.extShip == r.ship * s.quantity
      && IsHundredth(r.extTax, r.netPaid * s.taxPct)
      && r.netPaidIncShip == r.netPaid + r.extShip && r.netPaidIncTax == r.netPaid + r.extTax
      && r.netPaidIncShipTax == r.netPaid + r.extShip + r.extTax && r.netProfit == r.netPaid - r.extWholesale
      && IsHundredth(r.refundedCash, d.cash * r.netPaid)
      && IsHundredth(r.reversedCharge, (r.netPaid - r.refundedCash) * d.credit)
      && r.storeCredit == r.netPaid - r.refundedCash - r.reversedCharge && r.fee == d.fee
      && r.netLoss == r.netPaidIncShipTax - r.storeCredit - r.refundedCash - r.reversedCharge + r.fee
  {
    var r := ReturnOf(s, d);
    PercentLaw(s.list, d.shipping);
    PercentLaw(r.netPaid, s.taxPct);
    PercentLaw(d.cash, r.netPaid);
    PercentLaw(r.netPaid - r.refundedCash, d.credit);
  }

  // ---------------------------------------------------------------- what the amounts satisfy

  /** A percentage is below its exact value by less than a cent. */
  lemma PercentBounds(amount: int, pct: int)
    requires amount >= 0 && pct >= 0
    ensures 0 <= Percent(amount, pct)
    ensures 100 * Percent(amount, pct) <= amount * pct < 100 * Percent(amount, pct) + 100
    ensures pct <= 100 ==> Percent(amount, pct) <= amount
    ensures pct >= 100 ==> Percent(amount, pct) >= amount
  {
    assert amount * pct >= 0;
    if pct <= 100 {
      assert amount * (100 - pct) >= 0;
    } else {
      assert amount * (pct - 100) >= 0;
    }
  }

  lemma ScaledBound(a: int, b: int, q: int)
    requires 0 <= a <= b && q >= 0
    ensures 0 <= a * q <= b * q
  {
    assert (b - a) * q >= 0;
  }

  lemma CouponBounds(d: SaleDraws, extSales: int)
    requires extSales >= 0 && 0 <= d.coupon <= 100
    ensures 0 <= (if d.usage <= 20 then Percent(extSales, d.coupon) else 0) <= extSales
  {
    PercentBounds(extSales, d.coupon);
  }

  lemma HalfAtMost(amount: int, pct: int)
    requires amount >= 0 && 0 <= pct <= 50
    ensures 0 <= 2 * Percent(amount, pct) <= amount
  {
    PercentBounds(amount, pct);
    assert amount * (50 - pct) >= 0;
  }

  lemma ShippingBounds(list: int, pct: int, q: int)
    requires list >= 0 && 0 <= pct <= 50 && q >= 0
    ensures 0 <= 2 * (Percent(list, pct) * q) <= list * q
  {
    HalfAtMost(list, pct);
    ScaledBound(2 * Percent(list, pct), list, q);
    assert (2 * Percent(list, pct)) * q == 2 * (Percent(list, pct) * q);
  }

  lemma TaxBounds(netPaid: int, pct: int)
    requires netPaid >= 0 && 0 <= pct <= 9
    ensures 0 <= 100 * Percent(netPaid, pct) <= 9 * netPaid
  {
    PercentBounds(netPaid, pct);
    assert netPaid * (9 - pct) >= 0;
  }

  /** The sales chain, for every draw within limits whose discount is at most 1.00. */
  lemma SaleChain(d: SaleDraws, m: Limits)
    requires SaleDrawsOk(d, m) && m.discountMax.number <= 100
    ensures var s := SaleOf(d);
      && s.wholesale <= s.list && 0 <= s.sales <= s.list
      && 0 <= s.extDiscount && s.extDiscount + s.extSales == s.extList
      && 0 <= s.netPaid && 0 <= s.coupon && s.netPaid + s.coupon == s.extSales
      && 0 <= 100 * s.extTax <= 9 * s.netPaid
      && 0 <= 2 * s.extShip <= s.extList
      && s.netPaidIncShipTax == s.netPaid + s.extShip + s.extTax
      && s.netPaid <= s.netPaidIncShip <= s.netPaidIncShipTax
      && s.netProfit + s.extWholesale == s.netPaid
  {
    var s := SaleOf(d);
    PercentBounds(d.wholesale, d.markup + 100);
    PercentBounds(s.list, 100 - d.discount);
    ScaledBound(s.sales, s.list, d.quantity);
    CouponBounds(d, s.extSales);
    ShippingBounds(s.list, d.shipping, d.quantity);
    TaxBounds(s.netPaid, d.tax);
  }

  /** A percentage keeps the sign of its exact value once that reaches a whole cent. */
  lemma PercentSign(amount: int, pct: int)
    ensures Percent(amount, pct) >= 0 <==> amount * pct > -100
  {
  }

  /** A price is negative exactly when the discount passes 1.00 by enough to cost a cent. */
  lemma NegativePriceIff(d: SaleDraws)
    requires d.wholesale >= 100 && d.markup >= 0
    ensures SaleOf(d).sales < 0 <==> SaleOf(d).list * (d.discount - 100) >= 100
  {
    var list := SaleOf(d).list;
    PercentSign(list, 100 - d.discount);
    assert list * (100 - d.discount) == -(list * (d.discount - 100));
  }

  /** The three parts of a return always make up the amount paid, and none of them is negative exactly
      when the amount itself is not. The loss is the shipping, the tax and the fee. */
  lemma ReturnConserves(s: Sold, d: ReturnDraws)
    requires 0 <= d.cash <= 100 && 0 <= d.credit <= 100
    ensures var r := ReturnOf(s, d);
      && r.refundedCash + r.reversedCharge + r.storeCredit == r.netPaid
      && (r.refundedCash >= 0 && r.reversedCharge >= 0 && r.storeCredit >= 0 <==> r.netPaid >= 0)
      && r.netLoss == r.extShip + r.extTax + r.fee
      && r.netPaidIncShipTax == r.netPaid + r.extShip + r.extTax
  {
    var r := ReturnOf(s, d);
    if r.netPaid >= 0 {
      PercentBounds(r.netPaid, d.cash);
      assert r.netPaid * d.cash == d.cash * r.netPaid;
      PercentBounds(r.netPaid - r.refundedCash, d.credit);
    }
  }

  /** Returning any part of a sale pays back no more than was charged for it, in three parts none of
      which is negative, and loses at least the fee. */
  lemma ReturnOfSale(d: SaleDraws, m: Limits, q: nat, e: ReturnDraws)
    requires SaleDrawsOk(d, m) && m.discountMax.number <= 100 && q <= d.quantity
    requires 0 <= e.shipping <= 50 && 0 <= e.cash <= 100 && 0 <= e.credit <= 100
    ensures var s := SaleOf(d); var r := ReturnOf(Sold(q, s.wholesale, s.list, s.sales, d.tax), e);
      && 0 <= r.netPaid <= s.extSales
      && r.refundedCash >= 0 && r.reversedCharge >= 0 && r.storeCredit >= 0
      && r.refundedCash + r.reversedCharge + r.storeCredit == r.netPaid
      && r.netLoss >= r.fee
  {
    var s := SaleOf(d);
    var sold := Sold(q, s.wholesale, s.list, s.sales, d.tax);
    var r := ReturnOf(sold, e);
    SaleChain(d, m);
    ScaledBound(q, d.quantity, s.sales);
    assert s.sales * q == q * s.sales && s.sales * d.quantity == d.quantity * s.sales;
    ReturnConserves(sold, e);
    ShippingBounds(s.list, e.shipping, q);
    TaxBounds(r.netPaid, d.tax);
  }

  // ---------------------------------------------------------------- decimal_t_op on amounts in cents

  /** All amounts have two places, so an operation over its own first operand reads it as it was. */
  lemma InPlaceOnCents(op: Op, x: int, y: int)
    requires op.Div? ==> y != 0
    ensures ApplyAliased(op, Cents(x), Cents(y), true, false) == Apply(op, Cents(x), Cents(y))
  {
  }

  method PlusOver(a: Decimal, b: Decimal, ghost x: int, ghost y: int) returns (r: Decimal)
    requires a == Cents(x) && b == Cents(y)
    ensures r == Cents(x + y)
  {
    r := OperateInPlace(Plus, a, b);
    InPlaceOnCents(Plus, x, y);
  }

  method MinusOver(a: Decimal, b: Decimal, ghost x: int, ghost y: int) returns (r: Decimal)
    requires a == Cents(x) && b == Cents(y)
    ensures r == Cents(x - y)
  {
    r := OperateInPlace(Minus, a, b);
    InPlaceOnCents(Minus, x, y);
  }

  lemma TwoDigits(n: int)
    ensures TenTo(2) == 100 && DropDigits(n, 2) == Quot(n, 100)
  {
    DropDigitsIsQuot(n, 2);
    assert TenTo(1) == 10;
  }

  lemma TimesPercent(x: int, pct: int)
    ensures Product(Cents(x), Cents(pct)) == Cents(Percent(x, pct))
  {
    TwoDigits(x * pct);
  }

  method PercentOver(a: Decimal, b: Decimal, ghost x: int, ghost pct: int) returns (r: Decimal)
    requires a == Cents(x) && b == Cents(pct)
    ensures r == Cents(Percent(x, pct))
  {
    r := OperateInPlace(Mult, a, b);
    InPlaceOnCents(Mult, x, pct);
    TimesPercent(x, pct);
  }

  lemma TimesQuantity(x: int, n: int)
    ensures Product(Cents(x), Decimal(0, n)) == Cents(x * n)
    ensures Product(Decimal(0, n), Cents(x)) == Cents(x * n)
  {
    assert n * x == x * n;
  }

  method PercentOf(a: Decimal, b: Decimal, ghost x: int, ghost pct: int) returns (r: Decimal)
    requires a == Cents(x) && b == Cents(pct)
    ensures r == Cents(Percent(x, pct))
  {
    r := Operate(Mult, a, b);
    TimesPercent(x, pct);
  }

  const HUNDRED := Decimal(2, 10000)

  /** `n / 100.00` is n hundredths. */
  method OverHundred(n: int) returns (r: Decimal)
    requires 0 <= n < 1_000_000_000
    ensures r == Cents(n)
  {
    var dTemp := IntToDecimal(n);
    r := Operate(Div, dTemp, HUNDRED);
    TwoDigits(n);
    assert n * 100 * 100 / 10000 == n;
  }

  // ---------------------------------------------------------------- set_pricing

  /** Which branch of the switch a table takes: the staged returns have none. */
  datatype Kind = SaleTable | ReturnTable | StagedReturnTable

  const ZERO := Decimal(2, 0)
  const ONE_HALF := Decimal(2, 50)
  const ONE := Decimal(2, 100)
  const NINE_PERCENT := Decimal(2, 9)

  /** `ds_pricing_t` */
  class PricingRow {
    var quantity: int
    var wholesaleCost: Decimal
    var listPrice: Decimal
    var salesPrice: Decimal
    var extDiscountAmt: Decimal
    var extSalesPrice: Decimal
    var extWholesaleCost: Decimal
    var extListPrice: Decimal
    var taxPct: Decimal
    var extTax: Decimal
    var couponAmt: Decimal
    var shipCost: Decimal
    var extShipCost: Decimal
    var netPaid: Decimal
    var netPaidIncTax: Decimal
    var netPaidIncShip: Decimal
    var netPaidIncShipTax: Decimal
    var netProfit: Decimal
    var refundedCash: Decimal
    var reversedCharge: Decimal
    var storeCredit: Decimal
    var fee: Decimal
    var netLoss: Decimal

    /** The unit prices and the quantity of a sale. */
    ghost predicate HasUnits(d: SaleDraws)
      reads this
    {
      var s := SaleOf(d);
      && quantity == d.quantity && wholesaleCost == Cents(s.wholesale) && listPrice == Cents(s.list)
      && salesPrice == Cents(s.sales) && extWholesaleCost == Cents(s.extWholesale)
      && extListPrice == Cents(s.extList) && extSalesPrice == Cents(s.extSales)
      && extDiscountAmt == Cents(s.extDiscount)
    }

    /** What is paid for a sale. */
    ghost predicate Settled(d: SaleDraws, s: Sale)
      reads this
    {
      && couponAmt == Cents(s.coupon) && netPaid == Cents(s.netPaid)
      && shipCost == Cents(s.ship) && extShipCost == Cents(s.extShip)
      && taxPct == Cents(d.tax) && extTax == Cents(s.extTax)
      && netPaidIncShip == Cents(s.netPaidIncShip) && netPaidIncTax == Cents(s.netPaidIncTax)
      && netPaidIncShipTax == Cents(s.netPaidIncShipTax) && netProfit == Cents(s.netProfit)
    }

    /** The row holds exactly the amounts of this sale. */
    ghost predicate HoldsSale(d: SaleDraws)
      reads this
    {
      var s := SaleOf(d);
      && HasUnits(d) && Settled(d, s)
    }

    /** The prices a return starts from. */
    ghost predicate HasSold(s: Sold)
      reads this
    {
      && quantity == s.quantity && wholesaleCost == Cents(s.wholesale) && listPrice == Cents(s.list)
      && salesPrice == Cents(s.sales) && taxPct == Cents(s.taxPct)
    }

    ghost predicate HoldsTotals(r: Return)
      reads this
    {
      && extWholesaleCost == Cents(r.extWholesale) && extListPrice == Cents(r.extList)
      && extSalesPrice == Cents(r.extSales) && netPaid == Cents(r.netPaid)
      && shipCost == Cents(r.ship) && extShipCost == Cents(r.extShip) && extTax == Cents(r.extTax)
      && netPaidIncShip == Cents(r.netPaidIncShip) && netPaidIncTax == Cents(r.netPaidIncTax)
      && netPaidIncShipTax == Cents(r.netPaidIncShipTax) && netProfit == Cents(r.netProfit)
    }

    /** Where the money of a return goes. */
    ghost predicate Refunded(r: Return)
      reads this
    {
      && refundedCash == Cents(r.refundedCash) && reversedCharge == Cents(r.reversedCharge)
      && storeCredit == Cents(r.storeCredit) && fee == Cents(r.fee) && netLoss == Cents(r.netLoss)
    }

    ghost predicate HoldsReturn(s: Sold, d: ReturnDraws)
      reads this
    {
      var r := ReturnOf(s, d);
      HasSold(s) && HoldsTotals(r) && Refunded(r)
    }

    constructor ()
    {
      quantity := 0;
      wholesaleCost, listPrice, salesPrice, extDiscountAmt := ZERO, ZERO, ZERO, ZERO;
      extSalesPrice, extWholesaleCost, extListPrice, taxPct, extTax := ZERO, ZERO, ZERO, ZERO, ZERO;
      couponAmt, shipCost, extShipCost, netPaid, netPaidIncTax := ZERO, ZERO, ZERO, ZERO, ZERO;
      netPaidIncShip, netPaidIncShipTax, netProfit := ZERO, ZERO, ZERO;
      refundedCash, reversedCharge, storeCredit, fee, netLoss := ZERO, ZERO, ZERO, ZERO, ZERO;
    }

    /** Quantity and wholesale cost. */
    method PriceUnits(m: Limits, streams: array<Stream>, i: nat, ghost st: Stream, ghost u: seq<int>)
      requires Giving(streams, i, st, u, 0) && |u| == 8 && LimitsOk(m)
      modifies `quantity, `wholesaleCost, `extWholesaleCost, streams
      ensures var q := Uniform(u[0], 1, m.quantityMax); var w := Uniform(u[1], 100, m.wholesaleMax.number);
        quantity == q && wholesaleCost == Cents(w) && extWholesaleCost == Cents(w * q)
      ensures streams[..] == old(streams[..])[i := DrawnTimes(st, 2)]
    {
      quantity := DrawInteger(streams, 1, m.quantityMax, i, st, u, 0);
      wholesaleCost := DrawDecimal(streams, ONE, m.wholesaleMax, i, st, u, 1);
      var dQuantity := IntToDecimal(quantity);
      extWholesaleCost := Operate(Mult, dQuantity, wholesaleCost);
      TimesQuantity(wholesaleCost.number, quantity);
    }

    /** The list price is the wholesale cost marked up. */
    method MarkUp(m: Limits, streams: array<Stream>, i: nat, ghost st: Stream, ghost u: seq<int>, ghost w: int)
      requires Giving(streams, i, st, u, 2) && LimitsOk(m)
      requires wholesaleCost == Cents(w)
      modifies `listPrice, streams
      ensures listPrice == Cents(Percent(w, Uniform(u[2], 0, m.markupMax.number) + 100))
      ensures streams[..] == old(streams[..])[i := DrawnTimes(st, 3)]
    {
      var dMarkup := DrawDecimal(streams, ZERO, m.markupMax, i, st, u, 2);
      ghost var markup := dMarkup.number;
      dMarkup := PlusOver(dMarkup, ONE, markup, 100);
      listPrice := PercentOf(wholesaleCost, dMarkup, w, markup + 100);
    }

    /** List and sales price times the quantity. */
    method ExtendPrices(ghost list: int, ghost sales: int, ghost q: int)
      requires listPrice == Cents(list) && salesPrice == Cents(sales) && quantity == q < 1_000_000_000
      modifies `extListPrice, `extSalesPrice
      ensures extListPrice == Cents(list * q) && extSalesPrice == Cents(sales * q)
    {
      var dQuantity := IntToDecimal(quantity);
      extListPrice := Operate(Mult, listPrice, dQuantity);
      TimesQuantity(list, q);
      extSalesPrice := Operate(Mult, salesPrice, dQuantity);
      TimesQuantity(sales, q);
    }

    /** The discount, and what the quantity makes of the two prices. */
    method Discount(m: Limits, streams: array<Stream>, i: nat, ghost st: Stream, ghost u: seq<int>,
                    ghost list: int, ghost q: int,
                    ghost discount: int)
      requires Giving(streams, i, st, u, 3)
      requires LimitsOk(m) && discount == Uniform(u[3], 0, m.discountMax.number)
      requires listPrice == Cents(list) && quantity == q < 1_000_000_000
      modifies `extDiscountAmt, `salesPrice, `extListPrice, `extSalesPrice, streams
      ensures var sales := Percent(list, 100 - discount);
        && salesPrice == Cents(sales) && extListPrice == Cents(list * q)
        && extSalesPrice == Cents(sales * q) && extDiscountAmt == Cents(list * q - sales * q)
      ensures streams[..] == old(streams[..])[i := DrawnTimes(st, 4)]
    {
      var dDiscount := DrawDecimal(streams, ZERO, m.discountMax, i, st, u, 3);
      dDiscount := dDiscount.(number := dDiscount.number * -1);
      extDiscountAmt := Operate(Plus, dDiscount, ONE);
      salesPrice := PercentOf(listPrice, extDiscountAmt, list, 100 - discount);
      ExtendPrices(list, Percent(list, 100 - discount), q);
      extDiscountAmt := Operate(Minus, extListPrice, extSalesPrice);
    }

    /** One sale in five uses a coupon. */
    method ApplyCoupon(streams: array<Stream>, i: nat, ghost st: Stream, ghost u: seq<int>, ghost extSales: int)
      requires Giving(streams, i, st, u, 4) && |u| == 8
      requires extSalesPrice == Cents(extSales)
      modifies `couponAmt, `netPaid, streams
      ensures var c := if Uniform(u[5], 1, 100) <= 20 then Percent(extSales, Uniform(u[4], 0, 100)) else 0;
        couponAmt == Cents(c) && netPaid == Cents(extSales - c)
      ensures streams[..] == old(streams[..])[i := DrawnTimes(st, 6)]
    {
      var dCoupon := DrawDecimal(streams, ZERO, ONE, i, st, u, 4);
      ghost var pct := dCoupon.number;
      var nCouponUsage := DrawInteger(streams, 1, 100, i, st, u, 5);
      if nCouponUsage <= 20 {
        couponAmt := PercentOf(extSalesPrice, dCoupon, extSales, pct);
      } else {
        couponAmt := ZERO;
      }
      netPaid := Operate(Minus, extSalesPrice, couponAmt);
    }

    /** Shipping, a share of the list price. */
    method AddShipping(streams: array<Stream>, i: nat, ghost st: Stream, ghost u: seq<int>, ghost k: nat,
                       ghost list: int, ghost q: int, ghost paid: int)
      requires Giving(streams, i, st, u, k)
      requires listPrice == Cents(list) && netPaid == Cents(paid) && quantity == q < 1_000_000_000
      modifies `shipCost, `extShipCost, `netPaidIncShip, streams
      ensures var ship := Percent(list, Uniform(u[k], 0, 50));
        shipCost == Cents(ship) && extShipCost == Cents(ship * q) && netPaidIncShip == Cents(paid + ship * q)
      ensures streams[..] == old(streams[..])[i := DrawnTimes(st, k + 1)]
    {
      var dShipping := DrawDecimal(streams, ZERO, ONE_HALF, i, st, u, k);
      shipCost := PercentOf(listPrice, dShipping, list, dShipping.number);
      var dQuantity := IntToDecimal(quantity);
      extShipCost := Operate(Mult, shipCost, dQuantity);
      TimesQuantity(Percent(list, dShipping.number), q);
      netPaidIncShip := Operate(Plus, netPaid, extShipCost);
    }

    /** Tax, the totals and the profit. */
    method AddTax(ghost paid: int, ghost pct: int, ghost incShip: int, ghost wholesale: int)
      requires netPaid == Cents(paid) && taxPct == Cents(pct)
      requires netPaidIncShip == Cents(incShip) && extWholesaleCost == Cents(wholesale)
      modifies `extTax, `netPaidIncTax, `netPaidIncShipTax, `netProfit
      ensures var tax := Percent(paid, pct);
        && extTax == Cents(tax) && netPaidIncTax == Cents(paid + tax)
        && netPaidIncShipTax == Cents(incShip + tax) && netProfit == Cents(paid - wholesale)
    {
      extTax := PercentOf(netPaid, taxPct, paid, pct);
      netPaidIncTax := Operate(Plus, netPaid, extTax);
      netPaidIncShipTax := Operate(Plus, netPaidIncShip, extTax);
      netProfit := Operate(Minus, netPaid, extWholesaleCost);
    }

    /** The first half of a sale: what the goods cost. */
    method PriceGoods(m: Limits, streams: array<Stream>, i: nat, ghost st: Stream, ghost u: seq<int>)
      requires Giving(streams, i, st, u, 0) && |u| == 8 && LimitsOk(m)
      modifies `quantity, `wholesaleCost, `extWholesaleCost, `listPrice,
               `extDiscountAmt, `salesPrice, `extListPrice, `extSalesPrice, streams
      ensures HasUnits(DrawSale(m, u))
      ensures streams[..] == old(streams[..])[i := DrawnTimes(st, 4)]
    {
      ghost var d := DrawSale(m, u);
      PriceUnits(m, streams, i, st, u);
      MarkUp(m, streams, i, st, u, d.wholesale);
      Discount(m, streams, i, st, u, Percent(d.wholesale, d.markup + 100), d.quantity, d.discount);
    }

    /** The second half: what the buyer pays. */
    method SettleSale(m: Limits, streams: array<Stream>, i: nat, ghost st: Stream, ghost u: seq<int>,
                      ghost d: SaleDraws, ghost s: Sale)
      requires Giving(streams, i, st, u, 4) && |u| == 8 && LimitsOk(m)
      requires d == DrawSale(m, u) && s == SaleOf(d) && quantity == d.quantity
      requires listPrice == Cents(s.list) && extSalesPrice == Cents(s.extSales)
      requires extWholesaleCost == Cents(s.extWholesale)
      modifies `couponAmt, `netPaid, `shipCost, `extShipCost, `netPaidIncShip,
               `taxPct, `extTax, `netPaidIncTax, `netPaidIncShipTax, `netProfit, streams
      ensures Settled(d, s)
      ensures streams[..] == old(streams[..])[i := DrawnTimes(st, 8)]
    {
      ApplyCoupon(streams, i, st, u, s.extSales);
      AddShipping(streams, i, st, u, 6, s.list, d.quantity, s.netPaid);
      taxPct := DrawDecimal(streams, ZERO, NINE_PERCENT, i, st, u, 7);
      AddTax(s.netPaid, d.tax, s.netPaidIncShip, s.extWholesale);
    }

    /** The sales branch. */
    method PriceSale(m: Limits, streams: array<Stream>, i: nat) returns (ghost d: SaleDraws, ghost u: seq<int>)
      requires i < streams.Length && StreamOk(streams[i]) && LimitsOk(m)
      modifies this, streams
      ensures Consecutive(old(streams[i].nSeed), u) && SaleDrawnFrom(d, m, u)
      ensures quantity == d.quantity && wholesaleCost.number == d.wholesale && taxPct.number == d.tax
      ensures IsHundredth(listPrice.number, wholesaleCost.number * (100 + d.markup))
      ensures IsHundredth(salesPrice.number, listPrice.number * (100 - d.discount))
      ensures extWholesaleCost.number == wholesaleCost.number * quantity
      ensures extListPrice.number == listPrice.number * quantity
      ensures extSalesPrice.number == salesPrice.number * quantity
      ensures extDiscountAmt.number == extListPrice.number - extSalesPrice.number
      ensures d.usage <= 20 ==> IsHundredth(couponAmt.number, extSalesPrice.number * d.coupon)
      ensures d.usage > 20 ==> couponAmt.number == 0
      ensures netPaid.number == extSalesPrice.number - couponAmt.number
      ensures IsHundredth(shipCost.number, listPrice.number * d.shipping)
      ensures extShipCost.number == shipCost.number * quantity
      ensures IsHundredth(extTax.number, netPaid.number * taxPct.number)
      ensures netPaidIncShip.number == netPaid.number + extShipCost.number
      ensures netPaidIncTax.number == netPaid.number + extTax.number
      ensures netPaidIncShipTax.number == netPaid.number + extShipCost.number + extTax.number
      ensures netProfit.number == netPaid.number - extWholesaleCost.number
      ensures d == DrawSale(m, Values(old(streams[i].nSeed), 8))
      ensures HoldsSale(DrawSale(m, Values(old(streams[i].nSeed), 8)))
      ensures streams[..] == old(streams[..])[i := DrawnTimes(old(streams[i]), 8)]
    {
      ghost var st := streams[i];
      u := Values(st.nSeed, 8);
      PriceGoods(m, streams, i, st, u);
      d := DrawSale(m, u);
      SettleSale(m, streams, i, st, u, d, SaleOf(d));
      ValuesConsecutive(st.nSeed, 8);
      DrawSaleLaw(m, u);
      SaleLaw(d);
    }

    /** Some of a return goes back in cash. */
    method RefundCash(streams: array<Stream>, i: nat, ghost st: Stream, ghost u: seq<int>, ghost paid: int)
      requires Giving(streams, i, st, u, 1)
      requires netPaid == Cents(paid)
      modifies `refundedCash, streams
      ensures refundedCash == Cents(Percent(Uniform(u[1], 0, 100), paid))
      ensures streams[..] == old(streams[..])[i := DrawnTimes(st, 2)]
    {
      var nCashPct := DrawInteger(streams, 0, 100, i, st, u, 1);
      refundedCash := OverHundred(nCashPct);
      refundedCash := PercentOver(refundedCash, netPaid, nCashPct, paid);
    }

    /** Some of the rest reverses the charge; what then remains is store credit. */
    method ReverseCharge(streams: array<Stream>, i: nat, ghost st: Stream, ghost u: seq<int>, ghost paid: int,
                         ghost cash: int)
      requires Giving(streams, i, st, u, 2)
      requires netPaid == Cents(paid) && refundedCash == Cents(cash)
      modifies `reversedCharge, `storeCredit, streams
      ensures var c := Percent(paid - cash, Uniform(u[2], 1, 100));
        reversedCharge == Cents(c) && storeCredit == Cents(paid - c - cash)
      ensures streams[..] == old(streams[..])[i := DrawnTimes(st, 3)]
    {
      var nCreditPct := DrawInteger(streams, 1, 100, i, st, u, 2);
      var dTemp := OverHundred(nCreditPct);
      ghost var c := Percent(paid - cash, nCreditPct);
      var dTemp2 := Operate(Minus, netPaid, refundedCash);
      reversedCharge := PercentOf(dTemp2, dTemp, paid - cash, nCreditPct);
      storeCredit := Operate(Minus, netPaid, reversedCharge);
      storeCredit := MinusOver(storeCredit, refundedCash, paid - c, cash);
    }

    /** The fee, and the loss after everything is paid back. */
    method NetLoss(streams: array<Stream>, i: nat, ghost st: Stream, ghost u: seq<int>, ghost r: Return)
      requires Giving(streams, i, st, u, 3)
      requires netPaidIncShipTax == Cents(r.netPaidIncShipTax) && storeCredit == Cents(r.storeCredit)
      requires refundedCash == Cents(r.refundedCash) && reversedCharge == Cents(r.reversedCharge)
      modifies `fee, `netLoss, streams
      ensures var f := Uniform(u[3], 50, 10000);
        && fee == Cents(f)
        && netLoss == Cents(r.netPaidIncShipTax - r.storeCredit - r.refundedCash - r.reversedCharge + f)
      ensures streams[..] == old(streams[..])[i := DrawnTimes(st, 4)]
    {
      fee := DrawDecimal(streams, ONE_HALF, HUNDRED, i, st, u, 3);
      netLoss := Operate(Minus, netPaidIncShipTax, storeCredit);
      ghost var loss := r.netPaidIncShipTax - r.storeCredit;
      netLoss := MinusOver(netLoss, refundedCash, loss, r.refundedCash);
      netLoss := MinusOver(netLoss, reversedCharge, loss - r.refundedCash, r.reversedCharge);
      netLoss := PlusOver(netLoss, fee, loss - r.refundedCash - r.reversedCharge, fee.number);
    }

    /** What a return is worth, for the unit prices and the quantity left in the row. */
    method PriceReturned(streams: array<Stream>, i: nat, ghost st: Stream, ghost u: seq<int>, ghost s: Sold)
      requires Giving(streams, i, st, u, 0) && |u| == 4 && HasSold(s) && s.quantity < 1_000_000_000
      modifies `extWholesaleCost, `extListPrice, `extSalesPrice, `netPaid, `shipCost, `extShipCost,
               `netPaidIncShip, `extTax, `netPaidIncTax, `netPaidIncShipTax, `netProfit, streams
      ensures HoldsTotals(ReturnOf(s, DrawReturn(u)))
      ensures streams[..] == old(streams[..])[i := DrawnTimes(st, 1)]
    {
      ghost var r := ReturnOf(s, DrawReturn(u));
      var dQuantity := IntToDecimal(quantity);
      extWholesaleCost := Operate(Mult, dQuantity, wholesaleCost);
      TimesQuantity(s.wholesale, s.quantity);
      ExtendPrices(s.list, s.sales, s.quantity);
      netPaid := extSalesPrice;
      AddShipping(streams, i, st, u, 0, s.list, s.quantity, r.netPaid);
      AddTax(r.netPaid, s.taxPct, r.netPaidIncShip, r.extWholesale);
    }

    /** The three ways the money goes back. */
    method Refund(streams: array<Stream>, i: nat, ghost st: Stream, ghost u: seq<int>, ghost s: Sold, ghost r: Return)
      requires Giving(streams, i, st, u, 1) && |u| == 4 && r == ReturnOf(s, DrawReturn(u))
      requires netPaid == Cents(r.netPaid) && netPaidIncShipTax == Cents(r.netPaidIncShipTax)
      modifies `refundedCash, `reversedCharge, `storeCredit, `fee, `netLoss, streams
      ensures Refunded(r)
      ensures streams[..] == old(streams[..])[i := DrawnTimes(st, 4)]
    {
      RefundCash(streams, i, st, u, r.netPaid);
      ReverseCharge(streams, i, st, u, r.netPaid, r.refundedCash);
      NetLoss(streams, i, st, u, r);
    }

    /** What was sold and where its money goes. */
    method ReturnGoods(streams: array<Stream>, i: nat, ghost st: Stream, ghost u: seq<int>, ghost s: Sold, ghost r: Return)
      requires Giving(streams, i, st, u, 0) && |u| == 4 && HasSold(s) && s.quantity < 1_000_000_000
      requires r == ReturnOf(s, DrawReturn(u))
      modifies `extWholesaleCost, `extListPrice, `extSalesPrice, `netPaid, `shipCost, `extShipCost,
               `netPaidIncShip, `extTax, `netPaidIncTax, `netPaidIncShipTax, `netProfit,
               `refundedCash, `reversedCharge, `storeCredit, `fee, `netLoss, streams
      ensures HoldsTotals(r) && Refunded(r)
      ensures streams[..] == old(streams[..])[i := DrawnTimes(st, 4)]
    {
      PriceReturned(streams, i, st, u, s);
      Refund(streams, i, st, u, s, r);
    }

    lemma GoodsReturned(s: Sold, d: ReturnDraws)
      requires HoldsReturn(s, d)
      ensures extWholesaleCost.number == wholesaleCost.number * quantity
      ensures extListPrice.number == listPrice.number * quantity
      ensures extSalesPrice.number == salesPrice.number * quantity && netPaid.number == extSalesPrice.number
      ensures IsHundredth(shipCost.number, listPrice.number * d.shipping)
      ensures extShipCost.number == shipCost.number * quantity
      ensures IsHundredth(extTax.number, netPaid.number * taxPct.number)
    {
      ReturnLaw(s, d);
    }

    lemma MoneyReturned(s: Sold, d: ReturnDraws)
      requires HoldsReturn(s, d)
      ensures netPaidIncShip.number == netPaid.number + extShipCost.number
      ensures netPaidIncTax.number == netPaid.number + extTax.number
      ensures netPaidIncShipTax.number == netPaid.number + extShipCost.number + extTax.number
      ensures netProfit.number == netPaid.number - extWholesaleCost.number
      ensures IsHundredth(refundedCash.number, d.cash * netPaid.number)
      ensures IsHundredth(reversedCharge.number, (netPaid.number - refundedCash.number) * d.credit)
      ensures storeCredit.number == netPaid.number - refundedCash.number - reversedCharge.number
      ensures fee.number == d.fee && netLoss.number == extShipCost.number + extTax.number + fee.number
    {
      ReturnLaw(s, d);
    }

    /** The returns branch. */
    method PriceReturn(streams: array<Stream>, i: nat, ghost s: Sold) returns (ghost d: ReturnDraws, ghost u: seq<int>)
      requires i < streams.Length && StreamOk(streams[i]) && HasSold(s) && s.quantity < 1_000_000_000
      modifies this, streams
      ensures Consecutive(old(streams[i].nSeed), u) && ReturnDrawnFrom(d, u)
      ensures quantity == old(quantity) && wholesaleCost == old(wholesaleCost) && listPrice == old(listPrice)
      ensures salesPrice == old(salesPrice) && taxPct == old(taxPct)
      ensures extWholesaleCost.number == wholesaleCost.number * quantity
      ensures extListPrice.number == listPrice.number * quantity
      ensures extSalesPrice.number == salesPrice.number * quantity && netPaid.number == extSalesPrice.number
      ensures IsHundredth(shipCost.number, listPrice.number * d.shipping)
      ensures extShipCost.number == shipCost.number * quantity
      ensures IsHundredth(extTax.number, netPaid.number * taxPct.number)
      ensures netPaidIncShip.number == netPaid.number + extShipCost.number
      ensures netPaidIncTax.number == netPaid.number + extTax.number
      ensures netPaidIncShipTax.number == netPaid.number + extShipCost.number + extTax.number
      ensures netProfit.number == netPaid.number - extWholesaleCost.number
      ensures IsHundredth(refundedCash.number, d.cash * netPaid.number)
      ensures IsHundredth(reversedCharge.number, (netPaid.number - refundedCash.number) * d.credit)
      ensures storeCredit.number == netPaid.number - refundedCash.number - reversedCharge.number
      ensures fee.number == d.fee && netLoss.number == extShipCost.number + extTax.number + fee.number
      ensures d == DrawReturn(Values(old(streams[i].nSeed), 4))
      ensures HoldsReturn(s, DrawReturn(Values(old(streams[i].nSeed), 4)))
      ensures streams[..] == old(streams[..])[i := DrawnTimes(old(streams[i]), 4)]
    {
      ghost var st := streams[i];
      u := Values(st.nSeed, 4);
      d := DrawReturn(u);
      ReturnGoods(streams, i, st, u, s, ReturnOf(s, d));
      ValuesConsecutive(st.nSeed, 4);
      DrawReturnLaw(u);
      GoodsReturned(s, d);
      MoneyReturned(s, d);
    }

    /** The switch of `set_pricing`. */
    method Price(kind: Kind, m: Limits, streams: array<Stream>, i: nat, ghost s: Sold)
      requires i < streams.Length && StreamOk(streams[i])
      requires kind.SaleTable? ==> LimitsOk(m)
      requires kind.ReturnTable? ==> HasSold(s) && s.quantity < 1_000_000_000
      modifies this, streams
      ensures kind.SaleTable? ==>
        && HoldsSale(DrawSale(m, Values(old(streams[i].nSeed), 8)))
        && streams[..] == old(streams[..])[i := DrawnTimes(old(streams[i]), 8)]
      ensures kind.ReturnTable? ==>
        && HoldsReturn(s, DrawReturn(Values(old(streams[i].nSeed), 4)))
        && streams[..] == old(streams[..])[i := DrawnTimes(old(streams[i]), 4)]
      ensures kind.StagedReturnTable? ==> unchanged(this) && unchanged(streams)
    {
      match kind
      case SaleTable =>
        ghost var d, u := PriceSale(m, streams, i);
      case ReturnTable =>
        ghost var d, u := PriceReturn(streams, i, s);
      case StagedReturnTable =>
    }

    /** `set_pricing` for a table id past the rows of limits, after any calls before it: a sale is priced
        within its own table's limits. The id is also the number of the stream. */
    method SetPricing(cache: LimitCache, rows: seq<LimitRow>, nTabId: nat, kind: Kind, streams: array<Stream>,
                      ghost s: Sold)
      returns (found: bool)
      requires cache.Valid(rows) && nTabId >= |rows| && AllLimitsOk(rows)
      requires nTabId < streams.Length && StreamOk(streams[nTabId])
      requires kind.ReturnTable? ==> HasSold(s) && s.quantity < 1_000_000_000
      modifies cache, this, streams
      ensures cache.Valid(rows) && (found <==> LastWith(rows, nTabId) >= 0)
      ensures found && kind.SaleTable? ==>
        && HoldsSale(DrawSale(rows[LastWith(rows, nTabId)].limits, Values(old(streams[nTabId].nSeed), 8)))
        && streams[..] == old(streams[..])[nTabId := DrawnTimes(old(streams[nTabId]), 8)]
      ensures found && kind.ReturnTable? ==>
        && HoldsReturn(s, DrawReturn(Values(old(streams[nTabId].nSeed), 4)))
        && streams[..] == old(streams[..])[nTabId := DrawnTimes(old(streams[nTabId]), 4)]
      ensures !found || kind.StagedReturnTable? ==> unchanged(this) && unchanged(streams)
    {
      found := cache.Select(rows, nTabId);
      if found {
        Price(kind, cache.limits, streams, nTabId, s);
      }
    }
  }
}
