/** The arithmetic of the Lehmer generator x -> 16807 x mod 2^31 - 1. */
module Lehmer {
  const MULT := 16807
  const MODULUS := 2147483647

  /** One step of the generator, as a residue. */
  function Next(s: int): int {
    (MULT * s) % MODULUS
  }

  /** `n` steps of the generator. */
  function Advance(s: int, n: nat): int {
    if n == 0 then s else Next(Advance(s, n - 1))
  }

  function Pow(b: int, n: nat): int {
    if n == 0 then 1 else b * Pow(b, n - 1)
  }

  predicate Congruent(a: int, b: int) {
    a % MODULUS == b % MODULUS
  }

  lemma AddMultiple(x: int, k: int)
    ensures Congruent(x + MODULUS * k, x)
  {
  }

  lemma MulCongruent(a: int, b: int, c: int)
    requires Congruent(a, b)
    ensures Congruent(a * c, b * c)
  {
    var k := a / MODULUS - b / MODULUS;
    assert a == b + MODULUS * k;
    assert a * c == b * c + MODULUS * (k * c);
    AddMultiple(b * c, k * c);
  }

  lemma ProductCongruent(a: int, b: int, c: int, d: int)
    requires Congruent(a, b) && Congruent(c, d)
    ensures Congruent(a * c, b * d)
  {
    MulCongruent(a, b, c);
    MulCongruent(c, d, b);
  }

  lemma {:induction false} PowPositive(b: int, n: nat)
    requires b > 0
    ensures Pow(b, n) > 0
  {
    if n == 0 {
    } else {
      PowPositive(b, n - 1);
    }
  }

  lemma {:induction false} PowAdd(b: int, m: nat, n: nat)
    ensures Pow(b, m + n) == Pow(b, m) * Pow(b, n)
  {
    if m == 0 {
    } else {
      PowAdd(b, m - 1, n);
      assert b * (Pow(b, m - 1) * Pow(b, n)) == (b * Pow(b, m - 1)) * Pow(b, n);
    }
  }

  lemma {:induction false} PowSquare(b: int, n: nat)
    ensures Pow(b * b, n) == Pow(b, 2 * n)
  {
    if n == 0 {
    } else {
      PowSquare(b, n - 1);
      assert Pow(b, 2 * n) == b * (b * Pow(b, 2 * n - 2));
      assert b * (b * Pow(b, 2 * n - 2)) == (b * b) * Pow(b, 2 * n - 2);
    }
  }

  lemma {:induction false} PowCongruent(a: int, b: int, n: nat)
    requires Congruent(a, b)
    ensures Congruent(Pow(a, n), Pow(b, n))
  {
    if n == 0 {
    } else {
      PowCongruent(a, b, n - 1);
      MulCongruent(a, b, Pow(a, n - 1));
      MulCongruent(Pow(a, n - 1), Pow(b, n - 1), b);
    }
  }

  /** n steps multiply the seed by 16807^n, modulo 2^31 - 1. */
  lemma {:induction false} AdvanceIsPower(s: int, n: nat)
    ensures Congruent(Advance(s, n), Pow(MULT, n) * s)
    ensures n > 0 ==> 0 <= Advance(s, n) < MODULUS
  {
    if n == 0 {
    } else {
      AdvanceIsPower(s, n - 1);
      MulCongruent(Advance(s, n - 1), Pow(MULT, n - 1) * s, MULT);
      assert MULT * (Pow(MULT, n - 1) * s) == Pow(MULT, n) * s;
    }
  }

  /** The multiplier is invertible: 16807 * 1407677000 = 11017 * (2^31 - 1) + 1. */
  lemma NextInverse(s: int)
    ensures Congruent(1407677000 * Next(s), s)
  {
    MulCongruent(Next(s), MULT * s, 1407677000);
    AddMultiple(s, 11017 * s);
  }

  lemma NextInjective(a: int, b: int)
    ensures Congruent(Next(a), Next(b)) <==> Congruent(a, b)
  {
    NextInverse(a);
    NextInverse(b);
    if Congruent(Next(a), Next(b)) {
      MulCongruent(Next(a), Next(b), 1407677000);
    }
    if Congruent(a, b) {
      MulCongruent(a, b, MULT);
    }
  }

  /** A stream reaches 0 exactly when it starts at a multiple of the modulus. */
  lemma {:induction false} ReachesZeroIff(s: int, n: nat)
    ensures Congruent(Advance(s, n), 0) <==> Congruent(s, 0)
  {
    if n == 0 {
    } else {
      ReachesZeroIff(s, n - 1);
      NextInjective(Advance(s, n - 1), 0);
    }
  }
}
