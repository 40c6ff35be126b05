/** checksum.c: a bit-serial CRC, and the polynomial division it performs (section 2 of ITU-T V.41). */
module Checksum {
  // ---------------------------------------------------------------- polynomials over GF(2)

  /** A polynomial is the set of the exponents whose coefficient is 1. */
  type Poly = set<nat>

  function Add(p: Poly, q: Poly): Poly {
    (p - q) + (q - p)
  }

  /** Multiplication by x^k. */
  function Times(p: Poly, k: nat): Poly {
    set e | e in p :: e + k
  }

  /** Multiplication by the generator x^16 + x^12 + x^5 + 1. */
  function TimesG(p: Poly): Poly {
    Add(Add(Times(p, 16), Times(p, 12)), Add(Times(p, 5), p))
  }

  predicate DegreeBelow(p: Poly, n: nat) {
    forall e :: e in p ==> e < n
  }

  /** `r` is what division of `p` by the generator leaves. */
  ghost predicate IsRemainder(p: Poly, r: Poly) {
    DegreeBelow(r, 16) && exists q :: p == Add(TimesG(q), r)
  }

  lemma InTimes(p: Poly, k: nat, e: nat)
    ensures e in Times(p, k) <==> e >= k && e - k in p
  {
    if e >= k && e - k in p {
      assert e == (e - k) + k;
    }
  }

  lemma AddCancels(p: Poly, q: Poly, r: Poly)
    requires p == Add(q, r)
    ensures r == Add(p, q)
  {
  }

  lemma AddSwap(a: Poly, b: Poly, c: Poly, d: Poly)
    ensures Add(Add(a, b), Add(c, d)) == Add(Add(a, c), Add(b, d))
  {
  }

  lemma AddAssoc(a: Poly, b: Poly, c: Poly)
    ensures Add(Add(a, b), c) == Add(a, Add(b, c))
  {
  }

  lemma TimesAdds(p: Poly, q: Poly, k: nat)
    ensures Times(Add(p, q), k) == Add(Times(p, k), Times(q, k))
  {
    forall e: nat
      ensures e in Times(Add(p, q), k) <==> e in Add(Times(p, k), Times(q, k))
    {
      InTimes(Add(p, q), k, e);
      InTimes(p, k, e);
      InTimes(q, k, e);
    }
  }

  lemma TimesTimes(p: Poly, j: nat, k: nat)
    ensures Times(Times(p, j), k) == Times(p, j + k)
  {
    forall e: nat
      ensures e in Times(Times(p, j), k) <==> e in Times(p, j + k)
    {
      InTimes(Times(p, j), k, e);
      InTimes(p, j + k, e);
      if e >= k {
        InTimes(p, j, e - k);
      }
    }
  }

  lemma TimesGAdds(p: Poly, q: Poly)
    ensures TimesG(Add(p, q)) == Add(TimesG(p), TimesG(q))
  {
    TimesAdds(p, q, 16);
    TimesAdds(p, q, 12);
    TimesAdds(p, q, 5);
    AddSwap(Times(p, 16), Times(q, 16), Times(p, 12), Times(q, 12));
    AddSwap(Times(p, 5), Times(q, 5), p, q);
    AddSwap(Add(Times(p, 16), Times(p, 12)), Add(Times(q, 16), Times(q, 12)), Add(Times(p, 5), p), Add(Times(q, 5), q));
  }

  lemma TimesGTimes(p: Poly, k: nat)
    ensures TimesG(Times(p, k)) == Times(TimesG(p), k)
  {
    TimesAdds(Add(Times(p, 16), Times(p, 12)), Add(Times(p, 5), p), k);
    TimesAdds(Times(p, 16), Times(p, 12), k);
    TimesAdds(Times(p, 5), p, k);
    TimesTimes(p, 16, k);
    TimesTimes(p, k, 16);
    TimesTimes(p, 12, k);
    TimesTimes(p, k, 12);
    TimesTimes(p, 5, k);
    TimesTimes(p, k, 5);
  }

  lemma Highest(p: Poly) returns (h: nat)
    requires p != {}
    ensures h in p && forall e :: e in p ==> e <= h
    decreases p
  {
    var c :| c in p;
    if p == {c} {
      h := c;
    } else {
      assert p == {c} + (p - {c});
      h := Highest(p - {c});
      h := if h < c then c else h;
    }
  }

  lemma Lowest(p: Poly) returns (l: nat)
    requires p != {}
    ensures l in p && forall e :: e in p ==> l <= e
    decreases p
  {
    var c :| c in p;
    if p == {c} {
      l := c;
    } else {
      assert p == {c} + (p - {c});
      l := Lowest(p - {c});
      l := if c < l then c else l;
    }
  }

  lemma InTimesG(q: Poly, e: nat)
    ensures e in TimesG(q) <==>
      (((e >= 16 && e - 16 in q) != (e >= 12 && e - 12 in q)) != ((e >= 5 && e - 5 in q) != (e in q)))
  {
    InTimes(q, 16, e);
    InTimes(q, 12, e);
    InTimes(q, 5, e);
  }

  /** A multiple of the generator keeps its factor's lowest term and reaches 16 above its highest. */
  lemma MultipleSpan(q: Poly, l: nat, h: nat)
    requires l in q && h in q && forall e :: e in q ==> l <= e <= h
    ensures l in TimesG(q) && h + 16 in TimesG(q)
  {
    InTimesG(q, l);
    InTimesG(q, h + 16);
  }

  /** Division by the generator leaves one remainder. */
  lemma RemainderUnique(p: Poly, r: Poly, s: Poly)
    requires IsRemainder(p, r) && IsRemainder(p, s)
    ensures r == s
  {
    var q :| p == Add(TimesG(q), r);
    var t :| p == Add(TimesG(t), s);
    var d := Add(q, t);
    TimesGAdds(q, t);
    assert TimesG(d) == Add(r, s) by {
      AddSwap(TimesG(q), r, TimesG(t), s);
      assert Add(Add(TimesG(q), TimesG(t)), Add(r, s)) == {};
    }
    if d != {} {
      var h := Highest(d);
      var l := Lowest(d);
      MultipleSpan(d, l, h);
      assert false;
    }
    assert TimesG({}) == {};
    assert Add(r, s) == {};
  }

  lemma RemainderAdds(p: Poly, r: Poly, q: Poly, s: Poly)
    requires IsRemainder(p, r) && IsRemainder(q, s)
    ensures IsRemainder(Add(p, q), Add(r, s))
  {
    var a :| p == Add(TimesG(a), r);
    var b :| q == Add(TimesG(b), s);
    TimesGAdds(a, b);
    AddSwap(TimesG(a), r, TimesG(b), s);
    assert Add(p, q) == Add(TimesG(Add(a, b)), Add(r, s));
  }

  // ---------------------------------------------------------------- 16-bit registers

  function Mask(i: nat): bv16 {
    if i == 0 then 1 else Mask(i - 1) << 1
  }

  predicate Bit(w: bv16, i: nat) {
    i < 16 && w & Mask(i) != 0
  }

  /** The polynomial a register holds. */
  function Bits(w: bv16): Poly {
    set i: nat | i < 16 && Bit(w, i)
  }

  lemma MaskIsOneBit(i: nat)
    requires i < 16
    ensures Mask(i) != 0 && Mask(i) & (Mask(i) - 1) == 0
  {
    assert Mask(4) == 0x10 && Mask(8) == 0x100 && Mask(12) == 0x1000;
    match i
    case 0 => case 1 => case 2 => case 3 => case 4 => case 5 => case 6 => case 7 =>
    case 8 => case 9 => case 10 => case 11 => case 12 => case 13 => case 14 => case 15 =>
  }

  lemma OneBitXor(a: bv16, b: bv16, m: bv16)
    requires m != 0 && m & (m - 1) == 0
    ensures (a ^ b) & m != 0 <==> (a & m != 0) != (b & m != 0)
  {
    assert (a ^ b) & m == (a & m) ^ (b & m);
  }

  lemma BitXor(a: bv16, b: bv16, i: nat)
    requires i < 16
    ensures Bit(a ^ b, i) == (Bit(a, i) != Bit(b, i))
  {
    MaskIsOneBit(i);
    OneBitXor(a, b, Mask(i));
  }

  lemma BitsXor(a: bv16, b: bv16)
    ensures Bits(a ^ b) == Add(Bits(a), Bits(b))
  {
    forall i: nat | i < 16
      ensures Bit(a ^ b, i) == (Bit(a, i) != Bit(b, i))
    {
      BitXor(a, b, i);
    }
  }

  lemma MaskBelowTop(i: nat)
    requires i < 15
    ensures Mask(i) & 0x8000 == 0
  {
    match i
    case 0 => case 1 => case 2 => case 3 => case 4 => case 5 => case 6 => case 7 =>
    case 8 => case 9 => case 10 => case 11 => case 12 => case 13 => case 14 =>
  }

  lemma ShiftUnderMask(w: bv16, m: bv16)
    ensures (w << 1) & 1 == 0
    ensures m & 0x8000 == 0 ==> ((w << 1) & (m << 1) != 0 <==> w & m != 0)
  {
  }

  lemma BitShift(w: bv16, i: nat)
    requires i < 16
    ensures Bit(w << 1, i) == (i > 0 && Bit(w, i - 1))
  {
    if i > 0 {
      MaskBelowTop(i - 1);
      ShiftUnderMask(w, Mask(i - 1));
    } else {
      ShiftUnderMask(w, 0);
    }
  }

  lemma BitGenerator(i: nat)
    requires i < 16
    ensures Bit(0x1021, i) <==> i == 0 || i == 5 || i == 12
  {
    match i
    case 0 => case 1 => case 2 => case 3 => case 4 => case 5 => case 6 => case 7 =>
    case 8 => case 9 => case 10 => case 11 => case 12 => case 13 => case 14 => case 15 =>
  }

  lemma AllMasks(w: bv16)
    requires forall i: nat :: i < 16 ==> w & Mask(i) == 0
    ensures w == 0
  {
    assert w & Mask(0) == 0 && w & Mask(1) == 0 && w & Mask(2) == 0 && w & Mask(3) == 0;
    assert w & Mask(4) == 0 && w & Mask(5) == 0 && w & Mask(6) == 0 && w & Mask(7) == 0;
    assert w & Mask(8) == 0 && w & Mask(9) == 0 && w & Mask(10) == 0 && w & Mask(11) == 0;
    assert w & Mask(12) == 0 && w & Mask(13) == 0 && w & Mask(14) == 0 && w & Mask(15) == 0;
  }

  lemma ZeroAnd(m: bv16)
    ensures 0 & m == 0
  {
  }

  lemma BitsOfZero()
    ensures Bits(0) == {}
  {
    forall i: nat | i < 16
      ensures !Bit(0, i)
    {
      ZeroAnd(Mask(i));
    }
  }

  lemma NoBits(w: bv16)
    requires Bits(w) == {}
    ensures w == 0
  {
    forall i: nat | i < 16
      ensures w & Mask(i) == 0
    {
      assert i !in Bits(w);
    }
    AllMasks(w);
  }

  lemma XorZero(a: bv16, b: bv16)
    requires a ^ b == 0
    ensures a == b
  {
  }

  /** A register is known by its polynomial. */
  lemma BitsInjective(a: bv16, b: bv16)
    requires Bits(a) == Bits(b)
    ensures a == b
  {
    BitsXor(a, b);
    NoBits(a ^ b);
    XorZero(a, b);
  }

  // ---------------------------------------------------------------- GetCCITT

  /** One turn of the bit loop, on the exclusive or of `crc` and `ch`. */
  function Turn(w: bv16): bv16 {
    if w & 0x8000 != 0 then (w << 1) ^ 0x1021 else w << 1
  }

  function Turns(w: bv16, n: nat): bv16
    decreases w, n
  {
    if n == 0 then w else Turn(Turns(w, n - 1))
  }

  /** What `GetCCITT` returns. */
  function Ccitt(crc: bv16, ch: bv16): bv16 {
    Turns(crc ^ (ch << 8), 8)
  }

  /** `ch` after `n` turns: eight more zeros have come in at the bottom. */
  function Shifted(ch: bv16, n: nat): bv16
    decreases ch, n
  {
    if n == 0 then ch << 8 else Shifted(ch, n - 1) << 1
  }

  lemma EightShifts(ch: bv16)
    ensures (((((((((ch << 8) << 1) << 1) << 1) << 1) << 1) << 1) << 1) << 1) == 0
  {
  }

  lemma AllShifted(ch: bv16)
    ensures Shifted(ch, 8) == 0
  {
    EightShifts(ch);
    assert Shifted(ch, 1) == (ch << 8) << 1;
    assert Shifted(ch, 2) == Shifted(ch, 1) << 1;
    assert Shifted(ch, 3) == Shifted(ch, 2) << 1;
    assert Shifted(ch, 4) == Shifted(ch, 3) << 1;
    assert Shifted(ch, 5) == Shifted(ch, 4) << 1;
    assert Shifted(ch, 6) == Shifted(ch, 5) << 1;
    assert Shifted(ch, 7) == Shifted(ch, 6) << 1;
  }

  // The turn taken depends only on the exclusive or of the two registers.

  lemma LoopTurnSet(crc: bv16, ch: bv16)
    requires (ch ^ crc) & 0x8000 != 0
    ensures ((crc << 1) ^ 0x1021) ^ (ch << 1) == Turn(crc ^ ch)
  {
  }

  lemma LoopTurnClear(crc: bv16, ch: bv16)
    requires (ch ^ crc) & 0x8000 == 0
    ensures (crc << 1) ^ (ch << 1) == Turn(crc ^ ch)
  {
  }

  lemma XorWithZero(x: bv16)
    ensures x ^ 0 == x
  {
  }

  lemma NothingLeft(crc: bv16, ch: bv16, c: bv16)
    requires ch == Shifted(c, 8)
    ensures crc ^ ch == crc
  {
    AllShifted(c);
    XorWithZero(crc);
  }

  /** The body of the bit loop. */
  method TurnBoth(crc0: bv16, ch0: bv16) returns (crc: bv16, ch: bv16)
    ensures crc ^ ch == Turn(crc0 ^ ch0) && ch == ch0 << 1
  {
    if (ch0 ^ crc0) & 0x8000 != 0 {
      LoopTurnSet(crc0, ch0);
      crc := (crc0 << 1) ^ 0x1021;
    } else {
      LoopTurnClear(crc0, ch0);
      crc := crc0 << 1;
    }
    ch := ch0 << 1;
  }

  /** The body again, as one of the eight turns on the exclusive or `w` of the registers. */
  method NextTurn(crc0: bv16, ch0: bv16, ghost w: bv16, ghost c: bv16, ghost n: nat) returns (crc: bv16, ch: bv16)
    requires crc0 ^ ch0 == Turns(w, n) && ch0 == Shifted(c, n)
    ensures crc ^ ch == Turns(w, n + 1) && ch == Shifted(c, n + 1)
  {
    crc, ch := TurnBoth(crc0, ch0);
  }

  method BitLoop(crc0: bv16, ch0: bv16, ghost w: bv16, ghost c: bv16) returns (crc: bv16)
    requires crc0 ^ ch0 == w && ch0 == Shifted(c, 0)
    ensures crc == Turns(w, 8)
  {
    crc := crc0;
    var ch := ch0;
    var i := 8;
    while i > 0
      invariant 0 <= i <= 8
      invariant crc ^ ch == Turns(w, 8 - i) && ch == Shifted(c, 8 - i)
    {
      crc, ch := NextTurn(crc, ch, w, c, 8 - i);
      i := i - 1;
    }
    NothingLeft(crc, ch, c);
  }

  method GetCCITT(crc0: bv16, ch0: bv16) returns (crc: bv16)
    ensures crc == Ccitt(crc0, ch0)
  {
    var ch := ch0 << 8;
    crc := BitLoop(crc0, ch, crc0 ^ ch, ch0);
  }

  // ---------------------------------------------------------------- the division

  lemma TurnCases(w: bv16)
    ensures Turn(w) == if Bit(w, 15) then (w << 1) ^ 0x1021 else w << 1
  {
    assert Mask(15) == 0x8000 by {
      assert Mask(4) == 0x10 && Mask(8) == 0x100 && Mask(12) == 0x1000;
    }
  }

  lemma TurnBit(w: bv16, i: nat)
    requires i < 16
    ensures Bit(Turn(w), i) == ((i > 0 && Bit(w, i - 1)) != (Bit(w, 15) && (i == 0 || i == 5 || i == 12)))
  {
    TurnCases(w);
    BitShift(w, i);
    if Bit(w, 15) {
      BitXor(w << 1, 0x1021, i);
      BitGenerator(i);
    }
  }

  /** One turn is one step of long division: it multiplies by x and takes off the generator when a
      term of degree 16 appears. */
  lemma TurnDivides(w: bv16)
    ensures Times(Bits(w), 1) == Add(TimesG(if Bit(w, 15) then {0} else {}), Bits(Turn(w)))
  {
    var t: Poly := if Bit(w, 15) then {0} else {};
    forall e: nat
      ensures e in Times(Bits(w), 1) <==> e in Add(TimesG(t), Bits(Turn(w)))
    {
      InTimes(Bits(w), 1, e);
      InTimesG(t, e);
      if e < 16 {
        TurnBit(w, e);
      }
    }
  }

  lemma {:induction false} TurnsDivide(w: bv16, n: nat) returns (q: Poly)
    ensures Times(Bits(w), n) == Add(TimesG(q), Bits(Turns(w, n)))
    decreases n
  {
    if n == 0 {
      q := {};
      assert Times(Bits(w), 0) == Bits(w);
      assert TimesG({}) == {};
    } else {
      var r := TurnsDivide(w, n - 1);
      var v := Turns(w, n - 1);
      var t: Poly := if Bit(v, 15) then {0} else {};
      TurnDivides(v);
      TimesTimes(Bits(w), n - 1, 1);
      TimesAdds(TimesG(r), Bits(v), 1);
      TimesGTimes(r, 1);
      q := Add(Times(r, 1), t);
      TimesGAdds(Times(r, 1), t);
      AddAssoc(TimesG(Times(r, 1)), TimesG(t), Bits(Turn(v)));
    }
  }

  /** The low byte of a widened character; the sign extension is above it. */
  function LowByte(ch: bv16): Poly {
    set i: nat | i < 8 && Bit(ch, i)
  }

  /** A message, first byte highest. */
  function Message(m: seq<bv16>): Poly {
    if m == [] then {} else Add(Times(Message(m[..|m| - 1]), 8), LowByte(m[|m| - 1]))
  }

  /** The checksum of a message, from zero. */
  function Crc(m: seq<bv16>): bv16 {
    if m == [] then 0 else Ccitt(Crc(m[..|m| - 1]), m[|m| - 1])
  }

  lemma MaskOfByte(i: nat)
    requires i < 8
    ensures Mask(i) & 0xFF00 == 0 && Mask(i + 8) == Mask(i) << 8
  {
    assert Mask(2) == 0x4 && Mask(4) == 0x10 && Mask(6) == 0x40 && Mask(8) == 0x100;
    assert Mask(10) == 0x400 && Mask(12) == 0x1000 && Mask(14) == 0x4000;
    match i
    case 0 => case 1 => case 2 => case 3 => case 4 => case 5 => case 6 => case 7 =>
  }

  lemma ByteUnderMask(w: bv16, m: bv16)
    requires m & 0xFF00 == 0
    ensures (w << 8) & m == 0
    ensures (w << 8) & (m << 8) != 0 <==> w & m != 0
  {
  }

  lemma BitOfByte(ch: bv16, high: bv16, i: nat)
    requires i < 8 && high == ch << 8
    ensures !Bit(high, i) && Bit(high, i + 8) == Bit(ch, i)
  {
    MaskOfByte(i);
    ByteUnderMask(ch, Mask(i));
  }

  lemma BitsOfByte(ch: bv16, high: bv16)
    requires high == ch << 8
    ensures Bits(high) == Times(LowByte(ch), 8)
  {
    forall e: nat
      ensures e in Bits(high) <==> e in Times(LowByte(ch), 8)
    {
      InTimes(LowByte(ch), 8, e);
      if e < 8 {
        BitOfByte(ch, high, e);
      } else if e < 16 {
        BitOfByte(ch, high, e - 8);
      }
    }
  }

  /** Eight turns divide the register, with the new byte added to its upper half. */
  lemma CcittDivides(c: bv16, ch: bv16) returns (t: Poly)
    ensures Add(Times(Bits(c), 8), Times(LowByte(ch), 16)) == Add(TimesG(t), Bits(Ccitt(c, ch)))
  {
    var high := ch << 8;
    t := TurnsDivide(c ^ high, 8);
    BitsXor(c, high);
    BitsOfByte(ch, high);
    TimesAdds(Bits(c), Bits(high), 8);
    TimesTimes(LowByte(ch), 8, 8);
  }

  lemma OneMoreByte(p: Poly, q: Poly, c: Poly, byte: Poly, t: Poly, c': Poly)
    requires Times(p, 16) == Add(TimesG(q), c)
    requires Add(Times(c, 8), Times(byte, 16)) == Add(TimesG(t), c') && DegreeBelow(c', 16)
    ensures IsRemainder(Times(Add(Times(p, 8), byte), 16), c')
  {
    var high := Times(q, 8);
    calc {
      Times(Add(Times(p, 8), byte), 16);
      { TimesAdds(Times(p, 8), byte, 16); TimesTimes(p, 8, 16); TimesTimes(p, 16, 8); }
      Add(Times(Add(TimesG(q), c), 8), Times(byte, 16));
      { TimesAdds(TimesG(q), c, 8); TimesGTimes(q, 8); }
      Add(Add(TimesG(high), Times(c, 8)), Times(byte, 16));
      { AddAssoc(TimesG(high), Times(c, 8), Times(byte, 16)); }
      Add(TimesG(high), Add(TimesG(t), c'));
      { AddAssoc(TimesG(high), TimesG(t), c'); TimesGAdds(high, t); }
      Add(TimesG(Add(high, t)), c');
    }
  }

  /** The checksum is the remainder of m(x) x^16 by the generator. */
  lemma {:induction false} CrcIsRemainder(m: seq<bv16>)
    ensures IsRemainder(Times(Message(m), 16), Bits(Crc(m)))
  {
    if m == [] {
      BitsOfZero();
      assert Times({}, 16) == Add(TimesG({}), {});
    } else {
      var front, ch := m[..|m| - 1], m[|m| - 1];
      CrcIsRemainder(front);
      var q :| Times(Message(front), 16) == Add(TimesG(q), Bits(Crc(front)));
      var t := CcittDivides(Crc(front), ch);
      OneMoreByte(Message(front), q, Bits(Crc(front)), LowByte(ch), t, Bits(Crc(m)));
    }
  }

  // ---------------------------------------------------------------- what the checksum promises

  function Xor(m: seq<bv16>, n: seq<bv16>): (x: seq<bv16>)
    requires |m| == |n|
  {
    if m == [] then [] else Xor(m[..|m| - 1], n[..|n| - 1]) + [m[|m| - 1] ^ n[|n| - 1]]
  }

  lemma LowByteXor(a: bv16, b: bv16)
    ensures LowByte(a ^ b) == Add(LowByte(a), LowByte(b))
  {
    forall i: nat | i < 8
      ensures Bit(a ^ b, i) == (Bit(a, i) != Bit(b, i))
    {
      BitXor(a, b, i);
    }
  }

  lemma {:induction false} MessageXor(m: seq<bv16>, n: seq<bv16>)
    requires |m| == |n|
    ensures Message(Xor(m, n)) == Add(Message(m), Message(n))
  {
    if m == [] {
    } else {
      var m', n' := m[..|m| - 1], n[..|n| - 1];
      var x, y := m[|m| - 1], n[|n| - 1];
      MessageXor(m', n');
      assert Xor(m, n)[..|Xor(m, n)| - 1] == Xor(m', n');
      LowByteXor(x, y);
      TimesAdds(Message(m'), Message(n'), 8);
      AddSwap(Times(Message(m'), 8), LowByte(x), Times(Message(n'), 8), LowByte(y));
    }
  }

  lemma XorRemainder(p: Poly, a: bv16, q: Poly, b: bv16, c: bv16)
    requires IsRemainder(p, Bits(a)) && IsRemainder(q, Bits(b)) && IsRemainder(Add(p, q), Bits(c))
    ensures c == a ^ b
  {
    RemainderAdds(p, Bits(a), q, Bits(b));
    BitsXor(a, b);
    RemainderUnique(Add(p, q), Bits(a ^ b), Bits(c));
    BitsInjective(a ^ b, c);
  }

  /** Linearity: on messages of one length, the checksum of the exclusive or is the exclusive or of the
      checksums. */
  lemma CrcIsLinear(m: seq<bv16>, n: seq<bv16>)
    requires |m| == |n|
    ensures Crc(Xor(m, n)) == Crc(m) ^ Crc(n)
  {
    CrcIsRemainder(m);
    CrcIsRemainder(n);
    CrcIsRemainder(Xor(m, n));
    MessageXor(m, n);
    TimesAdds(Message(m), Message(n), 16);
    XorRemainder(Times(Message(m), 16), Crc(m), Times(Message(n), 16), Crc(n), Crc(Xor(m, n)));
  }

  lemma ShortSpan(e: Poly, k: nat, l: nat, h: nat)
    requires DegreeBelow(e, 16) && l in Times(e, k) && h + 16 in Times(e, k)
    ensures h < l
  {
    InTimes(e, k, l);
    InTimes(e, k, h + 16);
  }

  /** A multiple of the generator is never confined to 16 neighbouring terms. */
  lemma NoShortMultiple(e: Poly, k: nat, q: Poly)
    requires Times(e, k) == TimesG(q) && DegreeBelow(e, 16)
    ensures e == {}
  {
    if q != {} {
      var h := Highest(q);
      var l := Lowest(q);
      MultipleSpan(q, l, h);
      ShortSpan(e, k, l, h);
      assert false;
    }
    assert TimesG({}) == {};
    if e != {} {
      var x :| x in e;
      InTimes(e, k, x + k);
    }
  }

  /** Two messages of one length that differ within 16 neighbouring bits never have the same checksum. */
  lemma BurstChangesCrc(m: seq<bv16>, n: seq<bv16>, burst: Poly, k: nat)
    requires |m| == |n|
    requires Add(Message(m), Message(n)) == Times(burst, k) && DegreeBelow(burst, 16) && burst != {}
    ensures Crc(m) != Crc(n)
  {
    if Crc(m) == Crc(n) {
      CrcIsRemainder(m);
      CrcIsRemainder(n);
      RemainderAdds(Times(Message(m), 16), Bits(Crc(m)), Times(Message(n), 16), Bits(Crc(n)));
      TimesAdds(Message(m), Message(n), 16);
      TimesTimes(burst, k, 16);
      assert Add(Bits(Crc(m)), Bits(Crc(n))) == {};
      var q :| Times(burst, k + 16) == Add(TimesG(q), {});
      assert Add(TimesG(q), {}) == TimesG(q);
      NoShortMultiple(burst, k + 16, q);
      assert false;
    }
  }

  /** Multiplying by x^16 does not make a short polynomial divisible. */
  lemma ZeroRemainderIff(p: Poly, q: Poly, d: Poly, z: Poly)
    requires p == Add(TimesG(q), d) && DegreeBelow(d, 16) && IsRemainder(Times(p, 16), z)
    ensures z == {} <==> d == {}
  {
    var high := Times(q, 16);
    TimesAdds(TimesG(q), d, 16);
    TimesGTimes(q, 16);
    if d == {} {
      assert Times(p, 16) == Add(TimesG(high), {}) by {
        assert Times(d, 16) == {};
      }
      RemainderUnique(Times(p, 16), z, {});
    } else if z == {} {
      var t :| Times(p, 16) == Add(TimesG(t), z);
      assert Add(TimesG(t), z) == TimesG(t);
      AddCancels(TimesG(t), TimesG(high), Times(d, 16));
      TimesGAdds(t, high);
      NoShortMultiple(d, 16, Add(t, high));
      assert false;
    }
  }

  lemma LowUnderMask(l: bv16, m: bv16)
    requires m & 0xFF00 == 0
    ensures (l & 0xFF) & m == l & m && (l & 0xFF) & (m << 8) == 0
  {
  }

  lemma LowBits(l: bv16, i: nat)
    requires i < 8
    ensures Bit(l & 0xFF, i) == Bit(l, i) && !Bit(l & 0xFF, i + 8)
  {
    MaskOfByte(i);
    LowUnderMask(l, Mask(i));
  }

  lemma BitsOfLow(l: bv16, low: bv16)
    requires low == l & 0xFF
    ensures Bits(low) == LowByte(l)
  {
    forall i: nat | i < 16
      ensures Bit(low, i) <==> i < 8 && Bit(l, i)
    {
      LowBits(l, if i < 8 then i else i - 8);
    }
  }

  /** The register two characters spell, the first one on top. */
  function Trailer(h: bv16, l: bv16): bv16 {
    (h << 8) ^ (l & 0xFF)
  }

  lemma BitsOfTrailer(h: bv16, l: bv16, high: bv16, low: bv16)
    requires high == h << 8 && low == l & 0xFF
    ensures Bits(high ^ low) == Add(Times(LowByte(h), 8), LowByte(l))
  {
    BitsXor(high, low);
    BitsOfByte(h, high);
    BitsOfLow(l, low);
  }

  lemma MessageLast(m: seq<bv16>, ch: bv16)
    ensures Message(m + [ch]) == Add(Times(Message(m), 8), LowByte(ch))
  {
    assert (m + [ch])[..|m|] == m;
  }

  lemma TwoBytesUp(p: Poly, h: Poly, l: Poly)
    ensures Add(Times(Add(Times(p, 8), h), 8), l) == Add(Times(p, 16), Add(Times(h, 8), l))
  {
    TimesAdds(Times(p, 8), h, 8);
    TimesTimes(p, 8, 8);
    AddAssoc(Times(p, 16), Times(h, 8), l);
  }

  lemma MessageWithTrailer(m: seq<bv16>, h: bv16, l: bv16)
    ensures Message(m + [h, l]) == Add(Times(Message(m), 16), Bits(Trailer(h, l)))
  {
    assert m + [h, l] == m + [h] + [l];
    MessageLast(m, h);
    MessageLast(m + [h], l);
    TwoBytesUp(Message(m), LowByte(h), LowByte(l));
    BitsOfTrailer(h, l, h << 8, l & 0xFF);
  }

  lemma FoldsToZeroIff(p: Poly, q: Poly, c: bv16, v: bv16, z: bv16)
    requires p == Add(TimesG(q), Bits(c)) && IsRemainder(Times(Add(p, Bits(v)), 16), Bits(z))
    ensures z == 0 <==> c == v
  {
    AddAssoc(TimesG(q), Bits(c), Bits(v));
    ZeroRemainderIff(Add(p, Bits(v)), q, Add(Bits(c), Bits(v)), Bits(z));
    assert Add(Bits(c), Bits(v)) == {} <==> Bits(c) == Bits(v);
    BitsOfZero();
    if Bits(z) == {} {
      NoBits(z);
    }
    if Bits(c) == Bits(v) {
      BitsInjective(c, v);
    }
  }

  /** A message with two more characters folds to zero exactly when they spell its checksum. */
  lemma TrailerFoldsToZeroIff(m: seq<bv16>, h: bv16, l: bv16)
    ensures Crc(m + [h, l]) == 0 <==> Crc(m) == Trailer(h, l)
  {
    CrcIsRemainder(m);
    CrcIsRemainder(m + [h, l]);
    MessageWithTrailer(m, h, l);
    var q :| Times(Message(m), 16) == Add(TimesG(q), Bits(Crc(m)));
    FoldsToZeroIff(Times(Message(m), 16), q, Crc(m), Trailer(h, l), Crc(m + [h, l]));
  }

  // ---------------------------------------------------------------- the byte loop of main

  const LF: bv16 := 10
  const CR: bv16 := 13
  const DELIM: bv16 := 124

  /** The characters the checksum covers. */
  function WithoutLineEnds(m: seq<bv16>): seq<bv16> {
    if m == [] then []
    else
      var front, ch := WithoutLineEnds(m[..|m| - 1]), m[|m| - 1];
      if ch == LF || ch == CR then front else front + [ch]
  }

  /** It keeps every other character, in order. */
  lemma {:induction false} WithoutLineEndsParts(a: seq<bv16>, b: seq<bv16>)
    ensures WithoutLineEnds(a + b) == WithoutLineEnds(a) + WithoutLineEnds(b)
    ensures |a| == 1 ==> WithoutLineEnds(a) == if a[0] == LF || a[0] == CR then [] else a
  {
    if b == [] {
      assert a + b == a;
    } else {
      var front := b[..|b| - 1];
      assert (a + b)[..|a + b| - 1] == a + front;
      WithoutLineEndsParts(a, front);
    }
    if |a| == 1 {
      assert a[..0] == [] && a == [a[0]];
    }
  }

  /** The buffers, one after another. */
  function Joined(buffers: seq<seq<bv16>>): seq<bv16> {
    if buffers == [] then [] else Joined(buffers[..|buffers| - 1]) + buffers[|buffers| - 1]
  }

  lemma {:induction false} JoinedParts(a: seq<seq<bv16>>, b: seq<seq<bv16>>)
    ensures Joined(a + b) == Joined(a) + Joined(b)
    ensures |a| == 1 ==> Joined(a) == a[0]
  {
    if b == [] {
      assert a + b == a;
    } else {
      var front := b[..|b| - 1];
      assert (a + b)[..|a + b| - 1] == a + front;
      JoinedParts(a, front);
    }
    if |a| == 1 {
      assert a[..0] == [] && a == [a[0]];
    }
  }

  datatype Summary = Summary(crc: bv16, nLF: nat, nCR: nat, nDelim: nat, nChar: nat)

  ghost function Count<T>(m: seq<T>, ch: T): nat {
    multiset(m)[ch]
  }

  /** What is printed for a file: it does not depend on how the file was cut into buffers. */
  ghost predicate Describes(r: Summary, m: seq<bv16>) {
    && r.crc == Crc(WithoutLineEnds(m)) && r.nChar == |m|
    && r.nLF == Count(m, LF) && r.nCR == Count(m, CR) && r.nDelim == Count(m, DELIM)
  }

  lemma CountLast<T>(m: seq<T>, ch: T, x: T)
    ensures Count(m + [ch], x) == Count(m, x) + if ch == x then 1 else 0
  {
    assert multiset(m + [ch]) == multiset(m) + multiset{ch};
  }

  lemma TakeOneMore<T>(a: seq<T>, b: seq<T>, j: nat)
    requires j < |b|
    ensures a + b[..j + 1] == a + b[..j] + [b[j]]
  {
  }

  lemma LastChar(m: seq<bv16>, ch: bv16)
    ensures Crc(m + [ch]) == Ccitt(Crc(m), ch)
  {
    assert (m + [ch])[..|m|] == m;
  }

  method AddChar(r0: Summary, ch: bv16, ghost m: seq<bv16>) returns (r: Summary)
    requires Describes(r0, m)
    ensures Describes(r, m + [ch])
  {
    assert (m + [ch])[..|m|] == m;
    CountLast(m, ch, LF);
    CountLast(m, ch, CR);
    CountLast(m, ch, DELIM);
    r := r0.(nChar := r0.nChar + 1);
    if ch == LF {
      r := r.(nLF := r.nLF + 1);
    } else if ch == CR {
      r := r.(nCR := r.nCR + 1);
    } else {
      if ch == DELIM {
        r := r.(nDelim := r.nDelim + 1);
      }
      var crc := GetCCITT(r.crc, ch);
      r := r.(crc := crc);
      LastChar(WithoutLineEnds(m), ch);
    }
  }

  method AddBuffer(r0: Summary, buffer: seq<bv16>, ghost before: seq<bv16>) returns (r: Summary)
    requires Describes(r0, before)
    ensures Describes(r, before + buffer)
  {
    r := r0;
    assert before + buffer[..0] == before;
    for j := 0 to |buffer|
      invariant Describes(r, before + buffer[..j])
    {
      r := AddChar(r, buffer[j], before + buffer[..j]);
      TakeOneMore(before, buffer, j);
    }
    assert buffer[..|buffer|] == buffer;
  }

  /** The read loop of `main`. */
  method Summarise(buffers: seq<seq<bv16>>) returns (r: Summary)
    ensures Describes(r, Joined(buffers))
  {
    r := Summary(0, 0, 0, 0, 0);
    for i := 0 to |buffers|
      invariant Describes(r, Joined(buffers[..i]))
    {
      r := AddBuffer(r, buffers[i], Joined(buffers[..i]));
      assert buffers[..i + 1][..i] == buffers[..i];
    }
    assert buffers[..|buffers|] == buffers;
  }
}
