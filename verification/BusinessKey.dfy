/** build_support.c: the 16-character business key made of a 64-bit number. */
module BusinessKey {
  import opened CInt

  const NUL := '\0'

  /** `szXlate`: the letters A to P. */
  function Letter(v: int): char
    requires 0 <= v < 16
  {
    ('A' as int + v) as char
  }

  function LetterValue(c: char): int {
    c as int - 'A' as int
  }

  /** The low `n` hexadecimal digits of `v`, least significant first. */
  function Digits(v: nat, n: nat): (s: string)
    ensures |s| == n
    decreases v, n
  {
    if n == 0 then [] else [Letter(v % 16)] + Digits(v / 16, n - 1)
  }

  function FromDigits(s: string): int {
    if s == [] then 0 else LetterValue(s[0]) + 16 * FromDigits(s[1..])
  }

  function SixteenToThe(n: nat): nat {
    if n == 0 then 1 else 16 * SixteenToThe(n - 1)
  }

  const WORD := 0x1_0000_0000
  const LONG := 0x1_0000_0000_0000_0000

  /** The conversion to a 64-bit `unsigned long`. */
  function UnsignedLong(x: int): (r: nat)
    ensures r < LONG && (0 <= x < LONG ==> r == x)
  {
    x % LONG
  }

  lemma LetterRoundTrip(v: int)
    requires 0 <= v < 16
    ensures LetterValue(Letter(v)) == v
  {
  }

  lemma {:induction false} DigitsRoundTrip(v: nat, n: nat)
    requires v < SixteenToThe(n)
    ensures FromDigits(Digits(v, n)) == v
    decreases n
  {
    if n == 0 {
    } else {
      LetterRoundTrip(v % 16);
      DigitsRoundTrip(v / 16, n - 1);
      assert Digits(v, n)[1..] == Digits(v / 16, n - 1);
    }
  }

  /** The key: eight digits for the high 32 bits and eight for the low. */
  function BKey(k: nat): (s: string)
    ensures |s| == 16
  {
    Digits(k / WORD, 8) + Digits(k % WORD, 8)
  }

  function FromBKey(s: string): int
    requires |s| == 16
  {
    FromDigits(s[..8]) * WORD + FromDigits(s[8..])
  }

  /** A key can be read back, so different numbers have different keys. */
  lemma BKeyRoundTrip(k: nat)
    requires k < LONG
    ensures FromBKey(BKey(k)) == k
  {
    assert SixteenToThe(8) == WORD;
    DigitsRoundTrip(k / WORD, 8);
    DigitsRoundTrip(k % WORD, 8);
    assert BKey(k)[..8] == Digits(k / WORD, 8);
    assert BKey(k)[8..] == Digits(k % WORD, 8);
  }

  lemma DigitsTail(s: string, v: nat, i: nat)
    requires i < 8 == |s| && s[i..] == Digits(v, 8 - i)
    ensures s[i] == Letter(v % 16) && s[i + 1..] == Digits(v / 16, 8 - (i + 1))
  {
    assert s[i..][0] == s[i] && s[i..][1..] == s[i + 1..];
  }

  /** `szXlate`, and the weights of the eight letters. */
  const XLATE := "ABCDEFGHIJKLMNOP"

  const PLACES: seq<nat> := [1, 0x10, 0x100, 0x1000, 0x1_0000, 0x10_0000, 0x100_0000, 0x1000_0000]

  lemma LetterIsXlate(v: int)
    requires 0 <= v < 16
    ensures Letter(v) == XLATE[v]
  {
  }

  lemma {:induction false} DigitAt(v: nat, n: nat, i: nat)
    requires i < n
    ensures SixteenToThe(i) >= 1 && Digits(v, n)[i] == Letter(v / SixteenToThe(i) % 16)
    decreases n
  {
    if i == 0 {
    } else {
      DigitAt(v / 16, n - 1, i - 1);
      NestedDiv(v, 16, SixteenToThe(i - 1));
    }
  }

  lemma PlaceIsPower(i: nat)
    requires i < 8
    ensures PLACES[i] == SixteenToThe(i)
    decreases i
  {
    if i > 0 {
      PlaceIsPower(i - 1);
    }
  }

  /** The eight letters of a number, each by its place. */
  lemma EightLetters(v: nat)
    ensures forall i :: 0 <= i < 8 ==> Digits(v, 8)[i] == XLATE[v / PLACES[i] % 16]
  {
    forall i | 0 <= i < 8
      ensures Digits(v, 8)[i] == XLATE[v / PLACES[i] % 16]
    {
      DigitAt(v, 8, i);
      PlaceIsPower(i);
      LetterIsXlate(v / PLACES[i] % 16);
    }
  }

  /** `ltoc`: eight letters and the terminator, from position `at`. */
  method Ltoc(dest: array<char>, at: nat, value: nat)
    requires at + 9 <= dest.Length
    modifies dest
    ensures dest[at..at + 8] == Digits(value, 8) && dest[at + 8] == NUL
    ensures forall i :: 0 <= i < 8 ==> dest[at..at + 8][i] == XLATE[value / PLACES[i] % 16]
    ensures forall k :: 0 <= k < dest.Length && !(at <= k <= at + 8) ==> dest[k] == old(dest[k])
  {
    ghost var all := Digits(value, 8);
    var v := value;
    for i := 0 to 8
      invariant |all| == 8 && all[i..] == Digits(v, 8 - i)
      invariant dest[at..at + i] == all[..i]
      invariant forall k :: 0 <= k < dest.Length && !(at <= k < at + i) ==> dest[k] == old(dest[k])
    {
      DigitsTail(all, v, i);
      dest[at + i] := Letter(v % 16);
      assert dest[at..at + (i + 1)] == dest[at..at + i] + [all[i]];
      v := v / 16;
    }
    dest[at + 8] := NUL;
    assert dest[at..at + 8] == all;
    EightLetters(value);
  }

  /** Eight letters show the low 32 bits. */
  lemma {:induction false} DigitsWrap(v: nat, m: nat, n: nat)
    ensures Digits(v + m * SixteenToThe(n), n) == Digits(v, n)
    decreases n
  {
    if n == 0 {
    } else {
      var p := SixteenToThe(n - 1);
      assert v + m * (16 * p) == v + 16 * (m * p);
      assert (v + 16 * (m * p)) / 16 == v / 16 + m * p && (v + 16 * (m * p)) % 16 == v % 16;
      DigitsWrap(v / 16, m, n - 1);
    }
  }

  lemma Split(x: int, n: int)
    requires n >= 1
    ensures x == n * (x / n) + x % n && 0 <= x % n < n
  {
  }

  /** The two words of the 64 bits: the high one is sign-extended by the cast to `unsigned long`. */
  lemma Words(k: int) returns (m: nat)
    ensures k % WORD == UnsignedLong(k) % WORD
    ensures UnsignedLong(k / WORD) == UnsignedLong(k) / WORD + m * WORD
  {
    var q, r := k / LONG, k % LONG;
    var h, l := r / WORD, r % WORD;
    Split(k, LONG);
    Split(r, WORD);
    DivModUnique(k, WORD, WORD * q + h, l);
    var t := (WORD * q + h) / LONG;
    Split(WORD * q + h, LONG);
    m := q - WORD * t;
  }

  lemma SixteenToTheEight()
    ensures SixteenToThe(8) == WORD
  {
    assert SixteenToThe(4) == 0x1_0000;
    assert SixteenToThe(8) == 0x1_0000 * SixteenToThe(4);
  }

  lemma HighWord(k: int)
    ensures k % WORD == UnsignedLong(k) % WORD
    ensures Digits(UnsignedLong(k / WORD), 8) == Digits(UnsignedLong(k) / WORD, 8)
  {
    var m := Words(k);
    DigitsWrap(UnsignedLong(k) / WORD, m, 8);
    SixteenToTheEight();
  }

  /** `mk_bkey`: the key of the 64 bits of `kPrimary`. */
  method MkBKey(dest: array<char>, kPrimary: int)
    requires 17 <= dest.Length
    modifies dest
    ensures dest[..16] == BKey(UnsignedLong(kPrimary)) && dest[16] == NUL
    ensures forall i :: 0 <= i < 8 ==> dest[..16][i] == XLATE[UnsignedLong(kPrimary) / WORD / PLACES[i] % 16]
    ensures forall i :: 0 <= i < 8 ==> dest[..16][8 + i] == XLATE[kPrimary % WORD / PLACES[i] % 16]
    ensures dest[17..] == old(dest[17..])
  {
    HighWord(kPrimary);
    Ltoc(dest, 0, UnsignedLong(kPrimary / WORD));
    ghost var high := dest[..8];
    Ltoc(dest, 8, kPrimary % WORD);
    assert dest[..8] == high;
    assert dest[..16] == dest[..8] + dest[8..16];
    EightLetters(UnsignedLong(kPrimary) / WORD);
    EightLetters(kPrimary % WORD);
  }
}
