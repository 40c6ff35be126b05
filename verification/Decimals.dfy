/** decimal.c: numbers kept as an integer and a count of decimal places. */
module Decimals {
  import opened CInt

  /** The value of a `decimal_t`. */
  datatype Decimal = Decimal(precision: nat, number: int)

  datatype Op = Plus | Minus | Mult | Div

  function TenTo(n: nat): int {
    if n == 0 then 1 else 10 * TenTo(n - 1)
  }

  lemma {:induction false} TenToPositive(n: nat)
    ensures TenTo(n) >= 1
  {
    if n == 0 {
    } else {
      TenToPositive(n - 1);
    }
  }

  function Max(a: nat, b: nat): nat {
    if a > b then a else b
  }

  /** `n` divisions by ten, each truncating. */
  function DropDigits(x: int, n: nat): int
    decreases n
  {
    if n == 0 then x else DropDigits(Quot(x, 10), n - 1)
  }

  /** C's division for a divisor of either sign. */
  function QuotSigned(a: int, b: int): int
    requires b != 0
  {
    if b > 0 then Quot(a, b) else Quot(-a, -b)
  }

  function Sum(a: Decimal, b: Decimal): Decimal {
    Decimal(Max(a.precision, b.precision), a.number + b.number)
  }

  function Difference(a: Decimal, b: Decimal): Decimal {
    Decimal(Max(a.precision, b.precision), a.number - b.number)
  }

  function Product(a: Decimal, b: Decimal): Decimal {
    var p := Max(a.precision, b.precision);
    Decimal(p, DropDigits(a.number * b.number, a.precision + b.precision - p))
  }

  function Ratio(a: Decimal, b: Decimal): Decimal
    requires b.number != 0
  {
    var p := Max(a.precision, b.precision);
    TenToPositive(p - b.precision);
    assert b.number * TenTo(p - b.precision) != 0;
    Decimal(p, QuotSigned(a.number * TenTo(p - a.precision) * TenTo(p), b.number * TenTo(p - b.precision)))
  }

  /** The result of an operation on two values. */
  function Apply(op: Op, a: Decimal, b: Decimal): Decimal
    requires op.Div? ==> b.number != 0
  {
    match op
    case Plus => Sum(a, b)
    case Minus => Difference(a, b)
    case Mult => Product(a, b)
    case Div => Ratio(a, b)
  }

  /** An operand as the operation reads it: `dest->precision` is stored first, so an operand that is
      also the destination already has the precision of the result. */
  function AsRead(d: Decimal, isDest: bool, p: nat): Decimal {
    if isDest then d.(precision := p) else d
  }

  /** `q` is `x / n`, truncated toward zero, for a positive `n`. */
  predicate IsTruncated(q: int, x: int, n: int) {
    && (x >= 0 ==> n * q <= x < n * q + n)
    && (x <= 0 ==> n * q - n < x <= n * q)
  }

  lemma TruncatedFrom(q: int, x: int, n: int, r: int)
    requires n >= 1 && 0 <= r < n && x == n * q + r && x >= 0
    ensures IsTruncated(q, x, n) && IsTruncated(-q, -x, n)
  {
    assert n * -q == -(n * q);
  }

  lemma QuotTruncates(x: int, n: int)
    requires n >= 1
    ensures IsTruncated(Quot(x, n), x, n)
  {
    var y := if x >= 0 then x else -x;
    var q, r := y / n, y % n;
    assert y == n * q + r;
    TruncatedFrom(q, y, n, r);
    assert Quot(x, n) == if x >= 0 then q else -q;
  }

  /** The result when the destination is the first operand, the second, both or neither. */
  function ApplyAliased(op: Op, a: Decimal, b: Decimal, first: bool, second: bool): Decimal
    requires op.Div? ==> b.number != 0
  {
    var p := Max(a.precision, b.precision);
    Apply(op, AsRead(a, first, p), AsRead(b, second, p))
  }

  /** Every product `bound * 10` that `itodec` forms for this integer is an int. */
  ghost predicate WidthFits(src: int) {
    forall k: nat :: k == 0 || TenTo(k) <= src ==> IsInt32(TenTo(k + 1))
  }

  lemma {:induction false} TenToMonotone(m: nat, n: nat)
    requires m <= n
    ensures TenTo(m) <= TenTo(n)
    decreases n
  {
    if m == n {
    } else {
      TenToMonotone(m, n - 1);
      TenToPositive(n - 1);
    }
  }

  lemma {:induction false} TenToNine()
    ensures TenTo(9) == 1_000_000_000
  {
    assert TenTo(3) == 1000;
    assert TenTo(6) == 1000 * TenTo(3);
    assert TenTo(9) == 1000 * TenTo(6);
  }

  /** That is so below ten digits and for no other integer. */
  lemma {:induction false} WidthFitsIff(src: int)
    ensures WidthFits(src) <==> src < 1_000_000_000
  {
    TenToNine();
    if src < 1_000_000_000 {
      forall k: nat | k == 0 || TenTo(k) <= src
        ensures IsInt32(TenTo(k + 1))
      {
        if k >= 9 {
          TenToMonotone(9, k);
        } else {
          TenToMonotone(k + 1, 9);
          TenToPositive(k + 1);
        }
      }
    } else {
      assert TenTo(10) == 10 * TenTo(9);
      assert !IsInt32(TenTo(9 + 1));
    }
  }

  /** `decimal_t`: the value, and the display width `scale`. */
  class DecimalVar {
    var scale: nat
    var precision: nat
    var number: int

    function Value(): Decimal
      reads this
    {
      Decimal(precision, number)
    }

    constructor (d: Decimal)
      ensures Value() == d
    {
      scale, precision, number := 0, d.precision, d.number;
    }

    /** `itodec`: the integer with no decimal places; the width is its number of digits. */
    method FromInt(src: int)
      requires src < 1_000_000_000
      modifies this
      ensures Value() == Decimal(0, src)
      ensures scale >= 1 && src < TenTo(scale) && (scale == 1 || TenTo(scale - 1) <= src)
    {
      WidthFitsIff(src);
      var width, bound := 1, 1;
      while bound * 10 <= src
        invariant width >= 1 && bound == TenTo(width - 1)
        invariant width == 1 || bound <= src
        decreases src - bound
      {
        TenToPositive(width - 1);
        assert IsInt32(TenTo(width));
        width := width + 1;
        bound := bound * 10;
      }
      precision := 0;
      scale := width;
      number := src;
    }
  }

  /** Multiply by ten for each place from `np` to `precision`. */
  method Scale(f: int, np: nat, precision: nat) returns (r: int)
    requires np <= precision
    ensures r == f * TenTo(precision - np)
  {
    r := f;
    for i := np to precision
      invariant r == f * TenTo(i - np)
    {
      r := r * 10;
    }
  }

  /** The quotient of two operands that have at most `precision` places. */
  method Divide(a: Decimal, b: Decimal, precision: nat) returns (r: int)
    requires a.precision <= precision && b.precision <= precision && b.number != 0
    ensures TenTo(precision - b.precision) >= 1
    ensures r == QuotSigned(a.number * TenTo(precision - a.precision) * TenTo(precision),
                            b.number * TenTo(precision - b.precision))
  {
    var f1 := Scale(a.number, a.precision, precision);
    f1 := Scale(f1, 0, precision);
    var f2 := Scale(b.number, b.precision, precision);
    TenToPositive(precision - b.precision);
    r := QuotSigned(f1, f2);
  }

  /** Divide by ten for each place from `res` down to `precision`. */
  method DropPlaces(product: int, res: nat, precision: nat) returns (r: int)
    requires precision <= res
    ensures r == DropDigits(product, res - precision)
  {
    r := product;
    var left := res;
    while left > precision
      invariant precision <= left
      invariant DropDigits(r, left - precision) == DropDigits(product, res - precision)
    {
      left := left - 1;
      r := Quot(r, 10);
    }
  }

  /** The switch over the operations. */
  method Compute(op: Op, a: Decimal, b: Decimal, precision: nat) returns (r: int)
    requires op.Div? ==> b.number != 0
    requires precision == Max(a.precision, b.precision)
    ensures r == Apply(op, a, b).number
  {
    match op {
      case Plus => r := a.number + b.number;
      case Minus => r := a.number - b.number;
      case Mult => r := DropPlaces(a.number * b.number, a.precision + b.precision, precision);
      case Div => r := Divide(a, b, precision);
    }
  }

  /** The result of an operation whose destination is neither operand. Sums and differences are those of the numbers whatever the
      precisions; a product loses the digits beyond the larger precision; a quotient is scaled by it. */
  ghost predicate IsResult(op: Op, a: Decimal, b: Decimal, r: Decimal) {
    var (low, high) := if a.precision <= b.precision then (a.precision, b.precision) else (b.precision, a.precision);
    && r.precision == high
    && match op
       case Plus => r.number == a.number + b.number
       case Minus => r.number == a.number - b.number
       case Mult => IsTruncated(r.number, a.number * b.number, TenTo(low))
       case Div =>
         var f1, f2 := a.number * TenTo(high - a.precision) * TenTo(high), b.number * TenTo(high - b.precision);
         if f2 > 0 then IsTruncated(r.number, f1, f2) else IsTruncated(r.number, -f1, -f2)
  }

  lemma {:induction false} DropDigitsIsQuot(x: int, n: nat)
    ensures TenTo(n) >= 1 && DropDigits(x, n) == Quot(x, TenTo(n))
    decreases n
  {
    TenToPositive(n);
    if n == 0 {
    } else {
      DropDigitsIsQuot(Quot(x, 10), n - 1);
      TenToPositive(n - 1);
      if x >= 0 {
        NestedDiv(x, 10, TenTo(n - 1));
      } else {
        NestedDiv(-x, 10, TenTo(n - 1));
      }
    }
  }

  lemma ProductLaw(a: Decimal, b: Decimal)
    ensures IsResult(Mult, a, b, Product(a, b))
  {
    var dropped := a.precision + b.precision - Max(a.precision, b.precision);
    DropDigitsIsQuot(a.number * b.number, dropped);
    QuotTruncates(a.number * b.number, TenTo(dropped));
  }

  lemma ScaledNonzero(x: int, n: nat)
    requires x != 0
    ensures x * TenTo(n) != 0
  {
    TenToPositive(n);
  }

  lemma RatioLaw(a: Decimal, b: Decimal)
    requires b.number != 0
    ensures IsResult(Div, a, b, Ratio(a, b))
  {
    var p := Max(a.precision, b.precision);
    var f1, f2 := a.number * TenTo(p - a.precision) * TenTo(p), b.number * TenTo(p - b.precision);
    ScaledNonzero(b.number, p - b.precision);
    if f2 > 0 {
      QuotTruncates(f1, f2);
    } else {
      QuotTruncates(-f1, -f2);
    }
  }

  lemma {:induction false} OperationLaw(op: Op, a: Decimal, b: Decimal)
    requires op.Div? ==> b.number != 0
    ensures IsResult(op, a, b, Apply(op, a, b))
  {
    match op
    case Plus =>
    case Minus =>
    case Mult => ProductLaw(a, b);
    case Div => RatioLaw(a, b);
  }

  /** `decimal_t_op`, where `dest` may be either operand or both. OP_DIV is computed exactly. */
  method DecimalOp(dest: DecimalVar, op: Op, d1: DecimalVar, d2: DecimalVar)
    requires op.Div? ==> d2.number != 0
    modifies dest
    ensures dest.Value() == ApplyAliased(op, old(d1.Value()), old(d2.Value()), d1 == dest, d2 == dest)
    ensures d1 != dest && d2 != dest ==> IsResult(op, old(d1.Value()), old(d2.Value()), dest.Value())
    ensures dest.scale == Max(old(d1.scale), old(d2.scale))
  {
    OperationLaw(op, d1.Value(), d2.Value());
    dest.scale := if d1.scale > d2.scale then d1.scale else d2.scale;
    if d1.precision > d2.precision {
      dest.precision := d1.precision;
    } else {
      dest.precision := d2.precision;
    }
    dest.number := Compute(op, d1.Value(), d2.Value(), dest.precision);
  }

  /** An operation whose destination is neither operand. */
  method Operate(op: Op, a: Decimal, b: Decimal) returns (r: Decimal)
    requires op.Div? ==> b.number != 0
    ensures r == Apply(op, a, b)
  {
    var dest := new DecimalVar(a);
    var d1 := new DecimalVar(a);
    var d2 := new DecimalVar(b);
    DecimalOp(dest, op, d1, d2);
    r := dest.Value();
  }

  /** An operation whose destination is its first operand. */
  method OperateInPlace(op: Op, a: Decimal, b: Decimal) returns (r: Decimal)
    requires op.Div? ==> b.number != 0
    ensures r == ApplyAliased(op, a, b, true, false)
  {
    var dest := new DecimalVar(a);
    var d2 := new DecimalVar(b);
    DecimalOp(dest, op, dest, d2);
    r := dest.Value();
  }

  /** `itodec` into a variable of its own. */
  method IntToDecimal(src: int) returns (r: Decimal)
    requires src < 1_000_000_000
    ensures r == Decimal(0, src)
  {
    var dest := new DecimalVar(Decimal(0, 0));
    dest.FromInt(src);
    r := dest.Value();
  }

  // ---------------------------------------------------------------- what an operation computes

  // ---------------------------------------------------------------- aliasing

  /** A product written over an operand of `own` places, the other having `other`: whether it is still right. */
  predicate KeepsProduct(own: nat, other: nat, product: int) {
    own >= other || -TenTo(own) < product < TenTo(own)
  }

  lemma {:induction false} DropDigitsAdds(x: int, m: nat, n: nat)
    ensures DropDigits(DropDigits(x, m), n) == DropDigits(x, m + n)
    decreases m
  {
    if m == 0 {
    } else {
      DropDigitsAdds(Quot(x, 10), m - 1, n);
    }
  }

  lemma TenToAtLeastTen(n: nat)
    requires n > 0
    ensures TenTo(n) >= 10
  {
    TenToPositive(n - 1);
  }

  lemma QuotFixed(x: int, n: int)
    requires n >= 2
    ensures Quot(x, n) == x <==> x == 0
  {
    QuotTruncates(x, n);
    MultipleAtLeast(n - 1, x);
    assert n * x == (n - 1) * x + x;
  }

  lemma QuotZeroIff(x: int, n: int)
    requires n >= 1
    ensures Quot(x, n) == 0 <==> -n < x < n
  {
    var y := if x >= 0 then x else -x;
    var d := y / n;
    assert y == n * d + y % n;
    MultipleAtLeast(n, d);
    MultipleAtLeast(n, -d);
  }

  lemma {:induction false} MultOverFirst(a: Decimal, b: Decimal)
    ensures ApplyAliased(Mult, a, b, true, false) == Apply(Mult, a, b)
      <==> KeepsProduct(a.precision, b.precision, a.number * b.number)
  {
    var x := a.number * b.number;
    if a.precision < b.precision {
      var extra := b.precision - a.precision;
      DropDigitsIsQuot(x, b.precision);
      DropDigitsIsQuot(x, a.precision);
      DropDigitsIsQuot(Quot(x, TenTo(a.precision)), extra);
      DropDigitsAdds(x, a.precision, extra);
      TenToAtLeastTen(extra);
      QuotFixed(Quot(x, TenTo(a.precision)), TenTo(extra));
      QuotZeroIff(x, TenTo(a.precision));
    }
  }

  /** Writing a product over one of its own operands keeps its value exactly when that operand already has
      the result's precision, or when the product has too few digits to reach the result at all. Over both
      at once it is always right. */
  lemma {:induction false} MultInPlaceIff(a: Decimal, b: Decimal, first: bool, second: bool)
    requires first && second ==> a == b
    ensures ApplyAliased(Mult, a, b, first, second) == Apply(Mult, a, b)
      <==> ((first ==> KeepsProduct(a.precision, b.precision, a.number * b.number))
            && (second ==> KeepsProduct(b.precision, a.precision, a.number * b.number)))
  {
    if first && second {
    } else if first {
      MultOverFirst(a, b);
    } else if second {
      assert a.number * b.number == b.number * a.number;
      MultOverFirst(b, a);
    }
  }
}
