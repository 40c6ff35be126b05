/** The global `Streams[]` array of genrand.c: one Lehmer stream for each column. */
module Streams {
  import opened CInt
  import opened Lehmer

  const SCHRAGE_Q := 127773
  const SCHRAGE_R := 2836

  /** `rng_t` */
  datatype Stream = Stream(
    nUsed: int, nUsedPerRow: int,
    nSeed: int, nInitialSeed: int,
    nColumn: int, nTable: int, nDuplicateOf: int,
    nTotal: int)

  /** The seeds the generator handles without overflow: reduced seeds, the unreduced sums
      and the wrapped (negative) sums that `init_rand` can store. */
  predicate SeedOk(s: int) {
    -2 * MODULUS < s < 2 * MODULUS
  }

  predicate StreamOk(st: Stream) {
    SeedOk(st.nSeed) && SeedOk(st.nInitialSeed)
  }

  ghost predicate StreamsOk(ss: seq<Stream>) {
    forall i :: 0 <= i < |ss| ==> StreamOk(ss[i])
  }

  /** What one draw does to a stream. */
  function Drawn(st: Stream): Stream {
    st.(nSeed := Next(st.nSeed), nUsed := st.nUsed + 1, nTotal := st.nTotal + 1)
  }

  /** `d` draws from a stream. */
  function DrawnTimes(st: Stream, d: nat): Stream {
    st.(nSeed := Advance(st.nSeed, d), nUsed := st.nUsed + d, nTotal := st.nTotal + d)
  }

  /** The value `genrand_integer` and `genrand_key` make of one draw. */
  function Uniform(draw: int, min: int, max: int): (r: int)
    requires min <= max && 0 <= draw
    ensures min <= r <= max
  {
    draw % (max - min + 1) + min
  }

  /** The value and the draw differ by whole ranges. */
  lemma UniformLaw(draw: int, min: int, max: int)
    requires min <= max && 0 <= draw
    ensures (draw - (Uniform(draw, min, max) - min)) % (max - min + 1) == 0
  {
    var n := max - min + 1;
    assert draw == n * (draw / n) + draw % n;
    DivModUnique(draw - draw % n, n, draw / n, 0);
  }

  lemma SameInRange(a: int, b: int, n: int)
    requires n >= 1 && a % n == b % n && -n < a - b < n
    ensures a == b
  {
    assert a == n * (a / n) + a % n && b == n * (b / n) + b % n;
    assert a - b == n * (a / n - b / n);
    MultipleAtLeast(n, a / n - b / n);
  }

  /** Over any `max - min + 1` consecutive draws every value from `min` to `max`, both included, comes
      up exactly once. */
  lemma UniformOnce(first: nat, min: int, max: int, v: int) returns (d: nat)
    requires min <= v <= max
    ensures first <= d <= first + (max - min) && Uniform(d, min, max) == v
    ensures forall e :: first <= e <= first + (max - min) && Uniform(e, min, max) == v ==> e == d
  {
    var n := max - min + 1;
    var x := v - min - first;
    d := first + x % n;
    assert x == n * (x / n) + x % n;
    DivModUnique(d, n, -(x / n), v - min);
    forall e | first <= e <= first + (max - min) && Uniform(e, min, max) == v
      ensures e == d
    {
      SameInRange(e, d, n);
    }
  }

  /** The seed `skip_random` stores: C's remainder of 16807^n times the initial seed. */
  function SkipSeed(initial: int, n: int): int {
    if n <= 0 then initial else Rem(Pow(MULT, n) * initial, MODULUS)
  }

  lemma QuotBounds(s: int)
    requires SeedOk(s)
    ensures var d := Quot(s, 127773);
      if s >= 0 then 0 <= d <= 33614 && 0 <= s - 127773 * d <= 127772
      else -33614 <= d <= 0 && -127772 <= s - 127773 * d <= 0
  {
  }

  /** Schrage's decomposition: no intermediate leaves the 32-bit range, and the corrected
      difference is 16807 s modulo 2^31 - 1. */
  lemma SchrageStep(s: int)
    requires SeedOk(s)
    ensures var d := Quot(s, SCHRAGE_Q); var m := s - SCHRAGE_Q * d; var t := MULT * m - d * SCHRAGE_R;
      && IsInt32(MULT * m) && IsInt32(d * SCHRAGE_R) && -MODULUS < t < MODULUS
      && Next(s) == if t < 0 then t + MODULUS else t
  {
    var d := Quot(s, 127773);
    var m := s - 127773 * d;
    QuotBounds(s);
    var t := 16807 * m - d * 2836;
    assert t == 16807 * s - 2147483647 * d;
    AddMultiple(16807 * s, -d);
  }

  method NextRandom(streams: array<Stream>, i: nat) returns (s: int)
    requires i < streams.Length && StreamOk(streams[i])
    modifies streams
    ensures s == Next(old(streams[i].nSeed)) && 0 <= s < MODULUS
    ensures streams[..] == old(streams[..])[i := Drawn(old(streams[i]))]
  {
    s := streams[i].nSeed;
    SchrageStep(s);
    var divRes := Quot(s, SCHRAGE_Q);
    var modRes := s - SCHRAGE_Q * divRes;
    s := MULT * modRes - divRes * SCHRAGE_R;
    if s < 0 {
      s := s + MODULUS;
    }
    streams[i] := streams[i].(nSeed := s, nUsed := streams[i].nUsed + 1, nTotal := streams[i].nTotal + 1);
  }

  /** `genrand_integer` with DIST_UNIFORM. */
  method GenrandInteger(streams: array<Stream>, min: int, max: int, i: nat) returns (r: int)
    requires i < streams.Length && StreamOk(streams[i])
    requires min <= max
    modifies streams
    ensures min <= r <= max && (Next(old(streams[i].nSeed)) - (r - min)) % (max - min + 1) == 0
    ensures r == Uniform(Next(old(streams[i].nSeed)), min, max)
    ensures streams[..] == old(streams[..])[i := Drawn(old(streams[i]))]
  {
    r := NextRandom(streams, i);
    UniformLaw(r, min, max);
    r := Rem(r, max - min + 1);
    r := r + min;
  }

  lemma CastsFit(draw: int, min: int, max: int)
    requires 0 <= draw && min <= max && IsInt32(min) && IsInt32(max - min + 1)
    ensures Int32(max - min + 1) == max - min + 1
    ensures Rem(draw, Int32(max - min + 1)) + Int32(min) == Uniform(draw, min, max)
  {
    assert Int32(max - min + 1) == max - min + 1;
    assert Int32(min) == min;
  }

  /** `genrand_key` with DIST_UNIFORM: the range and the lower bound are cast to `int`. */
  method GenrandKey(streams: array<Stream>, min: int, max: int, i: nat) returns (r: int)
    requires i < streams.Length && StreamOk(streams[i])
    requires min <= max && IsInt32(min) && IsInt32(max - min + 1)
    modifies streams
    ensures min <= r <= max && (Next(old(streams[i].nSeed)) - (r - min)) % (max - min + 1) == 0
    ensures r == Uniform(Next(old(streams[i].nSeed)), min, max)
    ensures streams[..] == old(streams[..])[i := Drawn(old(streams[i]))]
  {
    r := NextRandom(streams, i);
    UniformLaw(r, min, max);
    CastsFit(r, min, max);
    r := Rem(r, Int32(max - min + 1));
    r := r + Int32(min);
  }

  lemma MulBound(x: int, y: int, a: int, b: int)
    requires 0 <= x <= a && -b <= y <= b
    ensures -(a * b) <= x * y <= a * b
  {
    assert 0 <= x * (b - y) && 0 <= x * (b + y) && 0 <= (a - x) * b;
  }

  lemma ProductFits(m: int, z: int)
    requires 0 <= m < MODULUS && SeedOk(z)
    ensures IsInt64(m * z) && IsInt64(m * m)
  {
    MulBound(m, z, 2147483646, 4294967293);
    MulBound(m, m, 2147483646, 2147483646);
  }

  lemma SignOfProduct(m: int, z: int)
    requires 0 <= m
    ensures z >= 0 ==> m * z >= 0
    ensures z <= 0 ==> m * z <= 0
  {
  }

  lemma ModSmall(z: int)
    requires -MODULUS < z < MODULUS
    ensures z % MODULUS == if z >= 0 then z else z + MODULUS
  {
  }

  lemma ModNegate(x: int)
    ensures x % MODULUS == if (-x) % MODULUS == 0 then 0 else MODULUS - (-x) % MODULUS
  {
  }

  lemma RemUnique(z: int, x: int)
    requires -MODULUS < z < MODULUS && Congruent(z, x)
    requires (x > 0 ==> z >= 0) && (x < 0 ==> z <= 0)
    ensures z == Rem(x, MODULUS)
  {
    ModSmall(z);
    if x < 0 {
      ModNegate(x);
    }
  }

  lemma RemCongruent(x: int)
    ensures Congruent(Rem(x, MODULUS), x)
  {
  }

  /** One turn of the loop keeps m^k * z modulo 2^31 - 1. */
  lemma SquareMultiplyStep(m: int, k: nat, z: int)
    requires k > 0
    ensures Congruent(Pow(Rem(m * m, MODULUS), k / 2) * (if k % 2 != 0 then Rem(m * z, MODULUS) else z), Pow(m, k) * z)
  {
    var h := k / 2;
    var q := Pow(m, 2 * h);
    RemCongruent(m * m);
    PowCongruent(Rem(m * m, MODULUS), m * m, h);
    PowSquare(m, h);
    if k % 2 != 0 {
      RemCongruent(m * z);
      ProductCongruent(Pow(Rem(m * m, MODULUS), h), q, Rem(m * z, MODULUS), m * z);
      assert k == 2 * h + 1 && Pow(m, k) == m * q;
      assert q * (m * z) == (m * q) * z;
    } else {
      assert k == 2 * h;
      MulCongruent(Pow(Rem(m * m, MODULUS), h), q, z);
    }
  }

  /** Square-and-multiply over the bits of `n`. */
  method SkipRandom(streams: array<Stream>, i: nat, n: int)
    requires i < streams.Length && StreamOk(streams[i])
    modifies streams
    ensures streams[..] == old(streams[..])[i := old(streams[i]).(nSeed := SkipSeed(old(streams[i].nInitialSeed), n))]
  {
    var m := MULT;
    var z := streams[i].nInitialSeed;
    ghost var z0 := z;
    var k := n;
    while k > 0
      invariant streams[..] == old(streams[..])
      invariant k <= n && (n > 0 ==> 0 <= k) && (n <= 0 ==> k == n)
      invariant 0 <= m < MODULUS && SeedOk(z)
      invariant 0 < n ==> Congruent(Pow(m, k) * z, Pow(MULT, n) * z0)
      invariant (z0 >= 0 ==> z >= 0) && (z0 <= 0 ==> z <= 0)
      invariant if k == n then z == z0 else k == 0 ==> -MODULUS < z < MODULUS
    {
      // the products fit in the 64-bit ds_key_t
      assert IsInt64(m * z) && IsInt64(m * m) by { ProductFits(m, z); }
      SquareMultiplyStep(m, k, z);
      if k % 2 != 0 {
        SignOfProduct(m, z);
        z := Rem(m * z, MODULUS);
      }
      k := k / 2;
      m := Rem(m * m, MODULUS);
    }
    if n > 0 {
      assert Pow(m, 0) * z == z;
      PowPositive(MULT, n);
      SignOfProduct(Pow(MULT, n), z0);
      RemUnique(z, Pow(MULT, n) * z0);
      assert z == SkipSeed(z0, n);
    }
    assert z == SkipSeed(z0, n);
    streams[i] := streams[i].(nSeed := z);
  }

  lemma RemZero(x: int)
    ensures Rem(x, MODULUS) == 0 <==> Congruent(x, 0)
  {
  }

  /** Skipping against stepping: the two seeds are always congruent, so every later draw is the
      same. */
  lemma SkipIsAdvance(initial: int, n: nat)
    ensures Congruent(SkipSeed(initial, n), Advance(initial, n))
    ensures Next(SkipSeed(initial, n)) == Next(Advance(initial, n))
  {
    var x := Pow(MULT, n) * initial;
    AdvanceIsPower(initial, n);
    RemCongruent(x);
    assert n == 0 ==> x == initial;
    MulCongruent(SkipSeed(initial, n), Advance(initial, n), MULT);
  }

  lemma RepresentativeIff(x: int, r: int)
    requires 0 <= r < MODULUS && Congruent(r, x)
    ensures Rem(x, MODULUS) == r <==> x >= 0 || r == 0
  {
    ModSmall(r);
    RemZero(x);
    if x < 0 {
      ModNegate(x);
    }
  }

  /** The stored seeds are equal exactly when nothing is skipped, the initial seed is not negative,
      or it is a multiple of the modulus: a negative initial seed leaves its negative representative. */
  lemma SkipEqualsAdvanceIff(initial: int, n: nat)
    ensures SkipSeed(initial, n) == Advance(initial, n) <==> n == 0 || initial >= 0 || Congruent(initial, 0)
  {
    if n > 0 {
      var x := Pow(MULT, n) * initial;
      SkipIsAdvance(initial, n);
      AdvanceIsPower(initial, n);
      ReachesZeroIff(initial, n);
      PowPositive(MULT, n);
      SignOfProduct(Pow(MULT, n), initial);
      RemZero(x);
      RepresentativeIff(x, Advance(initial, n));
    }
  }

  /** A stream started in [1 .. 2^31 - 2] stays there on every run. */
  lemma NeverZero(s: int, n: nat)
    requires 1 <= s < MODULUS
    ensures 1 <= Advance(s, n) < MODULUS
  {
    AdvanceIsPower(s, n);
    ReachesZeroIff(s, n);
  }

  /** The seed `init_rand` gives stream `i`: the sum is computed in 32-bit `int`. */
  function InitialSeed(seed: int, skip: int, i: int): int {
    Int32(seed + skip * i)
  }

  lemma SeedsSpaced(seed: int, skip: int, i: int)
    ensures (InitialSeed(seed, skip, i) - InitialSeed(seed, skip, i - 1) - skip) % 0x1_0000_0000 == 0
  {
    var a, b := seed + skip * i, seed + skip * (i - 1);
    assert a - b == skip;
  }

  function Seeded(st: Stream, seed: int): Stream {
    st.(nInitialSeed := seed, nSeed := seed, nUsed := 0)
  }

  /** RNG_SEED, and MAX_COLUMN for the 799 columns of column_list.txt. */
  const RNG_SEED := 19620718

  const MAX_COLUMN := 799

  /** With the default seed exactly the last seven streams that `init_rand` seeds wrap around. */
  lemma DefaultSeedsWrap(i: int)
    requires 0 <= i < MAX_COLUMN
    ensures InitialSeed(RNG_SEED, MODULUS / MAX_COLUMN, i) < 0 <==> i >= 792
  {
    assert MODULUS / MAX_COLUMN == 2687714;
  }

  method InitRand(streams: array<Stream>, seed: int, maxColumn: nat)
    requires 0 < maxColumn <= streams.Length
    modifies streams
    ensures forall i :: 0 <= i < maxColumn ==>
      streams[i] == Seeded(old(streams[i]), InitialSeed(seed, MODULUS / maxColumn, i)) && StreamOk(streams[i])
    ensures IsInt32(seed) ==> streams[0].nInitialSeed == seed
    ensures forall i :: 0 <= i < maxColumn ==>
      streams[i].nSeed == streams[i].nInitialSeed && IsInt32(streams[i].nSeed) && streams[i].nUsed == 0
    ensures forall i :: 0 < i < maxColumn ==>
      (streams[i].nInitialSeed - streams[i - 1].nInitialSeed - MODULUS / maxColumn) % 0x1_0000_0000 == 0
    ensures forall i :: maxColumn <= i < streams.Length ==> streams[i] == old(streams[i])
  {
    var skip := MODULUS / maxColumn;
    for i := 0 to maxColumn
      invariant forall j :: 0 <= j < i ==>
        streams[j] == Seeded(old(streams[j]), InitialSeed(seed, skip, j)) && StreamOk(streams[j])
      invariant forall j :: i <= j < streams.Length ==> streams[j] == old(streams[j])
    {
      streams[i] := streams[i].(nInitialSeed := Int32(seed + skip * i), nSeed := Int32(seed + skip * i), nUsed := 0);
    }
    forall i | 0 < i < maxColumn
      ensures (streams[i].nInitialSeed - streams[i - 1].nInitialSeed - skip) % 0x1_0000_0000 == 0
    {
      SeedsSpaced(seed, skip, i);
    }
  }
}
