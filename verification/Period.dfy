/** The period of the Lehmer generator: 16807 generates every residue but 0, so its powers repeat
    exactly every 2^31 - 2 = 2 * 9 * 7 * 11 * 31 * 151 * 331 steps. */
module Period {
  import opened CInt
  import opened Lehmer

  const PERIOD := 2147483646

  // ---------------------------------------------------------------- powers

  lemma {:induction false} OneToThe(n: nat)
    ensures Pow(1, n) == 1
  {
    if n == 0 {
    } else {
      OneToThe(n - 1);
    }
  }

  lemma {:induction false} PowMul(b: int, m: nat, n: nat)
    ensures m * n >= 0 && Pow(Pow(b, m), n) == Pow(b, m * n)
    decreases n
  {
    if n == 0 {
    } else {
      PowMul(b, m, n - 1);
      assert m * n == m + m * (n - 1);
      PowAdd(b, m, m * (n - 1));
    }
  }

  lemma DropFactor(b: int, m: nat, n: nat)
    requires Congruent(Pow(b, m), 1)
    ensures Congruent(Pow(b, m + n), Pow(b, n))
  {
    PowAdd(b, m, n);
    MulCongruent(Pow(b, m), 1, Pow(b, n));
  }

  /** An exponent matters only modulo one whose power is 1. */
  lemma PowRemainder(b: int, m: nat, q: nat, r: nat)
    requires Congruent(Pow(b, m), 1)
    ensures m * q >= 0 && Congruent(Pow(b, m * q), 1) && Congruent(Pow(b, m * q + r), Pow(b, r))
  {
    PowMul(b, m, q);
    PowCongruent(Pow(b, m), 1, q);
    OneToThe(q);
    DropFactor(b, m * q, r);
  }

  // ---------------------------------------------------------------- orders

  predicate IsPrime(p: int) {
    p >= 2 && forall k {:trigger p % k} :: 2 <= k < p ==> p % k != 0
  }

  /** If two powers of `b`, one of them the p-th, are 1, so is `b`: the remainders of p by the other
      exponent go down to 1. */
  lemma {:induction false} CoprimePowers(b: int, p: nat, r: nat)
    requires IsPrime(p) && 1 <= r < p && Congruent(Pow(b, p), 1) && Congruent(Pow(b, r), 1)
    ensures Congruent(b, 1)
    decreases r
  {
    if r == 1 {
      assert Pow(b, 1) == b * Pow(b, 0);
    } else {
      assert p == r * (p / r) + p % r;
      PowRemainder(b, r, p / r, p % r);
      CoprimePowers(b, p, p % r);
    }
  }

  lemma NoRemainder(b: int, p: nat, n: nat, q: nat, r: nat)
    requires IsPrime(p) && Congruent(Pow(b, p), 1) && !Congruent(b, 1)
    requires n == p * q + r && r < p && Congruent(Pow(b, n), 1)
    ensures r == 0
  {
    PowRemainder(b, p, q, r);
    if r != 0 {
      CoprimePowers(b, p, r);
    }
  }

  /** A base whose p-th power is 1, but which is not 1, has order p. */
  lemma OrderIsPrime(b: int, p: nat, n: nat)
    requires IsPrime(p) && Congruent(Pow(b, p), 1) && !Congruent(b, 1)
    requires Congruent(Pow(b, n), 1)
    ensures n % p == 0
  {
    NoRemainder(b, p, n, n / p, n % p);
  }

  lemma ThirdPower(b: int, r: nat)
    requires Congruent(Pow(b, 9), 1) && Congruent(Pow(b, r), 1) && 1 <= r <= 8
    ensures Congruent(Pow(b, 3), 1)
  {
    // a multiple of r that leaves 3 modulo 9
    var t := if r == 1 then 3 else if r == 2 then 6 else if r == 3 then 1 else if r == 4 then 3
             else if r == 5 then 6 else if r == 6 then 2 else if r == 7 then 3 else 6;
    PowRemainder(b, r, t, 0);
    assert r * t == 9 * (r * t / 9) + 3;
    PowRemainder(b, 9, r * t / 9, 3);
  }

  /** And one whose ninth power is 1, but whose third is not, has order 9. */
  lemma OrderIsNine(b: int, n: nat)
    requires Congruent(Pow(b, 9), 1) && !Congruent(Pow(b, 3), 1)
    requires Congruent(Pow(b, n), 1)
    ensures n % 9 == 0
  {
    var r := n % 9;
    assert n == 9 * (n / 9) + r;
    PowRemainder(b, 9, n / 9, r);
    if r != 0 {
      ThirdPower(b, r);
    }
  }

  // ---------------------------------------------------------------- computed powers

  /** An exponent and the value of the power, modulo 2^31 - 1. */
  datatype Power = Power(exponent: nat, value: int)

  function Mul(x: Power, y: Power): Power {
    Power(x.exponent + y.exponent, (x.value * y.value) % MODULUS)
  }

  /** A set of powers that multiplies out. */
  ghost predicate Closed(p: Power -> bool) {
    forall x, y {:trigger Mul(x, y)} :: p(x) && p(y) ==> p(Mul(x, y))
  }

  function PowersOf(b: int): Power -> bool {
    (x: Power) => Congruent(Pow(b, x.exponent), x.value)
  }

  lemma Reduced(x: int)
    ensures Congruent(x % MODULUS, x)
  {
  }

  lemma PowTimes(b: int, m: nat, u: int, n: nat, v: int)
    requires Congruent(Pow(b, m), u) && Congruent(Pow(b, n), v)
    ensures Congruent(Pow(b, m + n), (u * v) % MODULUS)
  {
    PowAdd(b, m, n);
    ProductCongruent(Pow(b, m), u, Pow(b, n), v);
    Reduced(u * v);
  }

  lemma PowersClosed(b: int)
    ensures Closed(PowersOf(b))
  {
    forall x, y | PowersOf(b)(x) && PowersOf(b)(y)
      ensures PowersOf(b)(Mul(x, y))
    {
      PowTimes(b, x.exponent, x.value, y.exponent, y.value);
    }
  }

  lemma Times(p: Power -> bool, m: nat, u: int, n: nat, v: int, w: int)
    requires Closed(p) && p(Power(m, u)) && p(Power(n, v)) && w == (u * v) % MODULUS
    ensures p(Power(m + n, w))
  {
    assert Mul(Power(m, u), Power(n, v)) == Power(m + n, w);
  }

  lemma Square(p: Power -> bool, n: nat, v: int, w: int)
    requires Closed(p) && p(Power(n, v)) && w == (v * v) % MODULUS
    ensures p(Power(2 * n, w))
  {
    Times(p, n, v, n, v, w);
  }

  // Addition chains, from 2^30 - 1 = (2^15 - 1)(2^15 + 1) with 2^15 - 1 = 7 * 31 * 151 and
  // 2^15 + 1 = 9 * 11 * 331.

  lemma PowersUpTo15(p: Power -> bool)
    requires Closed(p) && p(Power(1, 16807))
    ensures p(Power(32767, 1079224412)) && p(Power(2, 282475249))
  {
    Square(p, 1, 16807, 282475249);
    Times(p, 2, 282475249, 1, 16807, 1622650073);
    Square(p, 3, 1622650073, 470211272);
    Times(p, 6, 470211272, 1, 16807, 101027544);
    Square(p, 7, 101027544, 74243042);
    Square(p, 14, 74243042, 1404280278);
    Square(p, 28, 1404280278, 357571490);
    Times(p, 56, 357571490, 7, 101027544, 1108728549);
    Square(p, 63, 1108728549, 1524325968);
    Square(p, 126, 1524325968, 1887638);
    Square(p, 252, 1887638, 501848671);
    Square(p, 504, 501848671, 1795289992);
    Square(p, 1008, 1795289992, 1479588719);
    Square(p, 2016, 1479588719, 1604218471);
    Times(p, 4032, 1604218471, 63, 1108728549, 1083014291);
    Square(p, 4095, 1083014291, 387634529);
    Square(p, 8190, 387634529, 2075801871);
    Square(p, 16380, 2075801871, 1478271864);
    Times(p, 32760, 1478271864, 7, 101027544, 1079224412);
  }

  lemma PowerOfThirty(p: Power -> bool)
    requires Closed(p) && p(Power(32767, 1079224412))
    ensures p(Power(65534, 984924185)) && p(Power(1073741823, 2147483646)) && p(Power(2147483646, 1))
    ensures p(Power(262136, 457589386)) && p(Power(524272, 378748167))
  {
    Square(p, 32767, 1079224412, 984924185);
    Square(p, 65534, 984924185, 574246853);
    Square(p, 131068, 574246853, 457589386);
    Square(p, 262136, 457589386, 378748167);
    Square(p, 524272, 378748167, 1553046665);
    Square(p, 1048544, 1553046665, 1843083259);
    Square(p, 2097088, 1843083259, 1878565602);
    Square(p, 4194176, 1878565602, 1534455036);
    Square(p, 8388352, 1534455036, 1662235051);
    Square(p, 16776704, 1662235051, 1767924245);
    Square(p, 33553408, 1767924245, 1175748407);
    Square(p, 67106816, 1175748407, 1512967229);
    Square(p, 134213632, 1512967229, 168466512);
    Square(p, 268427264, 168466512, 27836845);
    Square(p, 536854528, 27836845, 530305133);
    Times(p, 1073709056, 530305133, 32767, 1079224412, 2147483646);
    Square(p, 1073741823, 2147483646, 1);
  }

  lemma PowersNine(p: Power -> bool)
    requires Closed(p) && p(Power(65534, 984924185)) && p(Power(262136, 457589386))
    ensures p(Power(238609294, 473297587)) && p(Power(715827882, 634005911)) && p(Power(195225786, 298192073))
  {
    Times(p, 262136, 457589386, 65534, 984924185, 1968068956);
    Square(p, 327670, 1968068956, 381846626);
    Square(p, 655340, 381846626, 1158232735);
    Square(p, 1310680, 1158232735, 131490463);
    Times(p, 2621360, 131490463, 65534, 984924185, 1867192180);
    Square(p, 2686894, 1867192180, 954365259);
    Square(p, 5373788, 954365259, 930175809);
    Times(p, 10747576, 930175809, 65534, 984924185, 1805930831);
    Square(p, 10813110, 1805930831, 730898754);
    Times(p, 21626220, 730898754, 65534, 984924185, 611601736);
    Square(p, 21691754, 611601736, 1794521444);
    Square(p, 43383508, 1794521444, 40851395);
    Times(p, 86767016, 40851395, 21691754, 611601736, 1573117158);
    Square(p, 108458770, 1573117158, 632285015);
    Times(p, 216917540, 632285015, 21691754, 611601736, 473297587);
    Square(p, 238609294, 473297587, 309107220);
    Times(p, 477218588, 309107220, 238609294, 473297587, 634005911);
    Square(p, 86767016, 40851395, 1161558561);
    Times(p, 173534032, 1161558561, 21691754, 611601736, 298192073);
  }

  lemma PowerOf331(p: Power -> bool)
    requires Closed(p) && p(Power(65534, 984924185)) && p(Power(524272, 378748167))
    ensures p(Power(6487866, 759513457))
  {
    Times(p, 524272, 378748167, 65534, 984924185, 728550981);
    Square(p, 589806, 728550981, 1831245228);
    Square(p, 1179612, 1831245228, 463826459);
    Times(p, 2359224, 463826459, 589806, 728550981, 401963622);
    Square(p, 2949030, 401963622, 1513975655);
    Times(p, 5898060, 1513975655, 589806, 728550981, 759513457);
  }

  lemma PowersUpTo16(p: Power -> bool)
    requires Closed(p) && p(Power(1, 16807)) && p(Power(2, 282475249))
    ensures p(Power(65538, 826450001))
  {
    Square(p, 2, 282475249, 984943658);
    Square(p, 4, 984943658, 1457850878);
    Square(p, 8, 1457850878, 1137522503);
    Square(p, 16, 1137522503, 1636807826);
    Square(p, 32, 1636807826, 685118024);
    Square(p, 64, 685118024, 515204530);
    Square(p, 128, 515204530, 897054849);
    Square(p, 256, 897054849, 2038299453);
    Square(p, 512, 2038299453, 1836275591);
    Square(p, 1024, 1836275591, 349037107);
    Square(p, 2048, 349037107, 149796865);
    Square(p, 4096, 149796865, 1186652285);
    Square(p, 8192, 1186652285, 2106880871);
    Square(p, 16384, 2106880871, 877809922);
    Times(p, 32768, 877809922, 1, 16807, 138704164);
    Square(p, 32769, 138704164, 826450001);
  }

  lemma PowersSeven(p: Power -> bool)
    requires Closed(p) && p(Power(65538, 826450001))
    ensures p(Power(306783378, 1600955193)) && p(Power(69273666, 16384)) && p(Power(131076, 589201165))
  {
    Square(p, 65538, 826450001, 589201165);
    Square(p, 131076, 589201165, 498899816);
    Square(p, 262152, 498899816, 905946772);
    Times(p, 524304, 905946772, 65538, 826450001, 955264524);
    Square(p, 589842, 955264524, 941374343);
    Square(p, 1179684, 941374343, 1006123905);
    Times(p, 2359368, 1006123905, 65538, 826450001, 1041346995);
    Square(p, 2424906, 1041346995, 1731733952);
    Times(p, 4849812, 1731733952, 65538, 826450001, 1846964216);
    Square(p, 4915350, 1846964216, 1850184865);
    Times(p, 9830700, 1850184865, 65538, 826450001, 1853715678);
    Square(p, 9896238, 1853715678, 2105936984);
    Times(p, 19792476, 2105936984, 9896238, 1853715678, 1529400943);
    Square(p, 29688714, 1529400943, 1410524841);
    Times(p, 59377428, 1410524841, 9896238, 1853715678, 16384);
    Square(p, 69273666, 16384, 268435456);
    Times(p, 138547332, 268435456, 9896238, 1853715678, 1842327195);
    Square(p, 148443570, 1842327195, 838211633);
    Times(p, 296887140, 838211633, 9896238, 1853715678, 1600955193);
  }

  lemma PowerOf151(p: Power -> bool)
    requires Closed(p) && p(Power(65538, 826450001)) && p(Power(131076, 589201165))
    ensures p(Power(14221746, 1013763951))
  {
    Times(p, 131076, 589201165, 65538, 826450001, 2011973493);
    Square(p, 196614, 2011973493, 168109183);
    Times(p, 393228, 168109183, 65538, 826450001, 503913307);
    Square(p, 458766, 503913307, 1247713233);
    Times(p, 917532, 1247713233, 458766, 503913307, 1332705387);
    Square(p, 1376298, 1332705387, 1622832752);
    Times(p, 2752596, 1622832752, 458766, 503913307, 1835564890);
    Square(p, 3211362, 1835564890, 972995033);
    Times(p, 6422724, 972995033, 458766, 503913307, 2137179903);
    Square(p, 6881490, 2137179903, 1991360797);
    Times(p, 13762980, 1991360797, 458766, 503913307, 1013763951);
  }

  lemma PeriodPowers()
    ensures PowersOf(MULT)(Power(2147483646, 1))
    ensures PowersOf(MULT)(Power(1073741823, 2147483646))
    ensures PowersOf(MULT)(Power(715827882, 634005911))
    ensures PowersOf(MULT)(Power(306783378, 1600955193))
    ensures PowersOf(MULT)(Power(195225786, 298192073))
    ensures PowersOf(MULT)(Power(69273666, 16384))
    ensures PowersOf(MULT)(Power(14221746, 1013763951))
    ensures PowersOf(MULT)(Power(6487866, 759513457))
  {
    PowersClosed(MULT);
    assert Pow(MULT, 1) == MULT * Pow(MULT, 0);
    PowersUpTo15(PowersOf(MULT));
    PowerOfThirty(PowersOf(MULT));
    PowersNine(PowersOf(MULT));
    PowerOf331(PowersOf(MULT));
    PowersUpTo16(PowersOf(MULT));
    PowersSeven(PowersOf(MULT));
    PowerOf151(PowersOf(MULT));
  }

  // ---------------------------------------------------------------- the period

  lemma ProductAtLeast(x: int, y: int, n: int)
    requires x >= n >= 1
    ensures y >= n ==> x * y >= n * n
  {
    if y >= n {
      assert x * y == (x - n) * y + n * (y - n) + n * n;
      assert (x - n) * y >= 0 && n * (y - n) >= 0;
    }
  }

  lemma SmallCofactor(p: int, k: int, j: int)
    requires 18 < k < p < 361 && p == k * j
    ensures 2 <= j <= 18
  {
    MultipleAtLeast(k, j);
    ProductAtLeast(k, j, 19);
    assert j == 1 ==> p == k;
  }

  /** Trial division up to 18 decides primes below 361. */
  lemma TrialDivision(p: int)
    requires 2 <= p < 361 && forall k {:trigger p % k} :: 2 <= k <= 18 && k < p ==> p % k != 0
    ensures IsPrime(p)
  {
    forall k | 2 <= k < p
      ensures p % k != 0
    {
      if k > 18 && p % k == 0 {
        var j := p / k;
        assert p == k * j;
        SmallCofactor(p, k, j);
        DivModUnique(p, j, k, 0);
      }
    }
  }

  lemma SmallPrimes()
    ensures IsPrime(2) && IsPrime(7) && IsPrime(11) && IsPrime(31) && IsPrime(151) && IsPrime(331)
  {
    TrialDivision(2);
    TrialDivision(7);
    TrialDivision(11);
    TrialDivision(31);
    TrialDivision(151);
    TrialDivision(331);
  }

  /** The powers of 16807^m stay 1 where those of 16807 are. */
  lemma PowerOfPower(m: nat, n: nat)
    requires Congruent(Pow(MULT, n), 1)
    ensures Congruent(Pow(Pow(MULT, m), n), 1)
  {
    PowMul(MULT, m, n);
    PowRemainder(MULT, n, m, 0);
    assert m * n == n * m;
  }

  lemma PrimeDivides(n: nat, p: nat, m: nat, v: int, period: nat)
    requires IsPrime(p) && m * p == period
    requires PowersOf(MULT)(Power(m, v)) && PowersOf(MULT)(Power(period, 1)) && !Congruent(v, 1)
    requires Congruent(Pow(MULT, n), 1)
    ensures n % p == 0
  {
    PowMul(MULT, m, p);
    PowerOfPower(m, n);
    OrderIsPrime(Pow(MULT, m), p, n);
  }

  lemma NineDivides(n: nat, m: nat, third: nat, v: int, period: nat)
    requires m * 9 == period && m * 3 == third
    requires PowersOf(MULT)(Power(third, v)) && PowersOf(MULT)(Power(period, 1)) && !Congruent(v, 1)
    requires Congruent(Pow(MULT, n), 1)
    ensures n % 9 == 0
  {
    PowMul(MULT, m, 9);
    PowMul(MULT, m, 3);
    PowerOfPower(m, n);
    OrderIsNine(Pow(MULT, m), n);
  }

  /** Two coprime divisors divide together: `s` and `t` are their Bezout coefficients. */
  lemma BothDivide(n: int, a: int, b: int, s: int, t: int)
    requires a >= 1 && b >= 1 && n % a == 0 && n % b == 0 && s * a + t * b == 1
    ensures a * b >= 1 && n % (a * b) == 0
  {
    var x, y := n / a, n / b;
    assert n == a * x && n == b * y;
    assert n == (s * a + t * b) * n;
    assert (s * a) * n == (s * a) * (b * y) && (t * b) * n == (t * b) * (a * x);
    assert n == (a * b) * (s * y + t * x);
    DivModUnique(n, a * b, s * y + t * x, 0);
  }

  lemma AllDivide(n: int)
    requires n % 2 == 0 && n % 9 == 0 && n % 7 == 0 && n % 11 == 0 && n % 31 == 0 && n % 151 == 0 && n % 331 == 0
    ensures n % PERIOD == 0
  {
    BothDivide(n, 2, 9, -4, 1);
    BothDivide(n, 18, 7, 2, -5);
    BothDivide(n, 126, 11, -2, 23);
    BothDivide(n, 1386, 31, -7, 313);
    BothDivide(n, 42966, 151, 35, -9959);
    BothDivide(n, 6487866, 331, 56, -1097645);
  }

  lemma WholePeriods(n: nat, period: nat)
    requires period > 0 && n % period == 0 && PowersOf(MULT)(Power(period, 1))
    ensures Congruent(Pow(MULT, n), 1)
  {
    PowRemainder(MULT, period, n / period, 0);
  }

  /** The powers of 16807 are 1 at the multiples of the period and nowhere else. */
  lemma PowerIsOneIff(n: nat)
    ensures Congruent(Pow(MULT, n), 1) <==> n % PERIOD == 0
  {
    PeriodPowers();
    if n % PERIOD == 0 {
      WholePeriods(n, PERIOD);
    }
    if Congruent(Pow(MULT, n), 1) {
      SmallPrimes();
      PrimeDivides(n, 2, 1073741823, 2147483646, PERIOD);
      NineDivides(n, 238609294, 715827882, 634005911, PERIOD);
      PrimeDivides(n, 7, 306783378, 1600955193, PERIOD);
      PrimeDivides(n, 11, 195225786, 298192073, PERIOD);
      PrimeDivides(n, 31, 69273666, 16384, PERIOD);
      PrimeDivides(n, 151, 14221746, 1013763951, PERIOD);
      PrimeDivides(n, 331, 6487866, 759513457, PERIOD);
      AllDivide(n);
    }
  }

  // ---------------------------------------------------------------- every residue is a power

  /** Steps can be undone, so equal residues had equal origins. */
  lemma {:induction false} PowCancel(n: nat, a: int, b: int)
    ensures Congruent(Pow(MULT, n) * a, Pow(MULT, n) * b) <==> Congruent(a, b)
  {
    if n == 0 {
    } else {
      PowCancel(n - 1, a, b);
      var x, y := Pow(MULT, n - 1) * a, Pow(MULT, n - 1) * b;
      assert Pow(MULT, n) * a == MULT * x && Pow(MULT, n) * b == MULT * y;
      NextInjective(x, y);
    }
  }

  /** The residues of the first `n` powers. */
  function Residues(n: nat): set<int> {
    if n == 0 then {} else Residues(n - 1) + {Pow(MULT, n - 1) % MODULUS}
  }

  lemma {:induction false} InResidues(n: nat, x: int) returns (k: nat)
    requires x in Residues(n)
    ensures k < n && Pow(MULT, k) % MODULUS == x
  {
    if x == Pow(MULT, n - 1) % MODULUS {
      k := n - 1;
    } else {
      k := InResidues(n - 1, x);
    }
  }

  lemma PowersDiffer(m: nat, n: nat)
    requires m < n && n - m < PERIOD
    ensures !Congruent(Pow(MULT, m), Pow(MULT, n))
  {
    PowAdd(MULT, m, n - m);
    PowCancel(m, 1, Pow(MULT, n - m));
    PowerIsOneIff(n - m);
  }

  lemma {:induction false} ResiduesAreMany(n: nat)
    requires n <= PERIOD
    ensures |Residues(n)| == n && forall x :: x in Residues(n) ==> 1 <= x < MODULUS
  {
    if n == 0 {
    } else {
      ResiduesAreMany(n - 1);
      var x := Pow(MULT, n - 1) % MODULUS;
      PowCancel(n - 1, 1, 0);
      if x in Residues(n - 1) {
        var k := InResidues(n - 1, x);
        PowersDiffer(k, n - 1);
      }
    }
  }

  function Range(n: nat): (s: set<int>)
    ensures |s| == n && forall x :: x in s <==> 1 <= x <= n
  {
    if n == 0 then {} else Range(n - 1) + {n}
  }

  /** A set of `n` numbers from 1 to `n` is all of them. */
  lemma Full(s: set<int>, n: nat)
    requires |s| == n && forall x :: x in s ==> 1 <= x <= n
    ensures s == Range(n)
  {
    var rest := Range(n) - s;
    assert Range(n) == s + rest;
    assert |Range(n)| == |s| + |rest|;
  }

  /** 2^31 - 2 powers fill the 2^31 - 2 residues other than 0. */
  lemma EveryResidueIsPower(a: int, period: nat) returns (k: nat)
    requires period == PERIOD && !Congruent(a, 0)
    ensures Congruent(Pow(MULT, k), a)
  {
    ResiduesAreMany(period);
    Full(Residues(period), period);
    k := InResidues(period, a % MODULUS);
  }

  /** Every residue but 0 can be cancelled. */
  lemma Unit(x: int, a: int)
    requires !Congruent(a, 0)
    ensures Congruent(x * a, a) <==> Congruent(x, 1)
  {
    var t := EveryResidueIsPower(a, PERIOD);
    MulCongruent(Pow(MULT, t), a, x);
    assert Pow(MULT, t) * x == x * Pow(MULT, t) && a * x == x * a;
    PowCancel(t, x, 1);
    assert Pow(MULT, t) * 1 == Pow(MULT, t);
  }

  lemma ZeroStays(a: int, x: int)
    requires Congruent(a, 0)
    ensures Congruent(x * a, a)
  {
    MulCongruent(a, 0, x);
    assert a * x == x * a;
  }

  lemma Returns(a: int, d: nat)
    ensures Congruent(Pow(MULT, d) * a, a) <==> Congruent(a, 0) || d % PERIOD == 0
  {
    if Congruent(a, 0) {
      ZeroStays(a, Pow(MULT, d));
    } else {
      Unit(Pow(MULT, d), a);
      PowerIsOneIff(d);
    }
  }

  lemma Associate(x: int, y: int, z: int)
    ensures (x * y) * z == x * (y * z)
  {
  }

  /** From any seed but a multiple of the modulus, m and n steps arrive at the same residue exactly
      when they differ by whole periods. */
  lemma SameResidueIff(a: int, m: nat, n: nat)
    requires m <= n
    ensures Congruent(Pow(MULT, m) * a, Pow(MULT, n) * a) <==> Congruent(a, 0) || (n - m) % PERIOD == 0
  {
    PowAdd(MULT, m, n - m);
    Associate(Pow(MULT, m), Pow(MULT, n - m), a);
    PowCancel(m, a, Pow(MULT, n - m) * a);
    Returns(a, n - m);
  }
}
