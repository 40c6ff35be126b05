/** The distribution file: 32-bit integers in network byte order and zero-terminated strings. */
module DistFormat {
  import opened CInt

  type Byte = b: int | 0 <= b < 256

  // ---------------------------------------------------------------- what a file holds where

  /** The file holds `s` at `pos`. */
  predicate At(f: seq<Byte>, pos: nat, s: seq<Byte>) {
    pos + |s| <= |f| && forall i :: 0 <= i < |s| ==> f[pos + i] == s[i]
  }

  lemma {:induction false} AtSlice(f: seq<Byte>, pos: nat, s: seq<Byte>, n: nat)
    requires n == |s|
    ensures At(f, pos, s) <==> pos + n <= |f| && f[pos..pos + n] == s
  {
    if pos + n <= |f| && f[pos..pos + n] == s {
      forall i | 0 <= i < n
        ensures f[pos + i] == s[i]
      {
        assert f[pos..pos + n][i] == s[i];
      }
    }
  }

  lemma {:induction false} AtSplit(f: seq<Byte>, pos: nat, a: seq<Byte>, b: seq<Byte>)
    requires At(f, pos, a + b)
    ensures At(f, pos, a) && At(f, pos + |a|, b)
  {
    forall i | 0 <= i < |a|
      ensures f[pos + i] == a[i]
    {
      assert (a + b)[i] == a[i];
    }
    forall i | 0 <= i < |b|
      ensures f[pos + |a| + i] == b[i]
    {
      assert (a + b)[|a| + i] == b[i];
    }
  }

  lemma {:induction false} AtPart(a: seq<Byte>, s: seq<Byte>, b: seq<Byte>)
    ensures At(a + s + b, |a|, s)
  {
  }

  // ---------------------------------------------------------------- integers

  /** `htonl` */
  function IntBytes(n: int): (b: seq<Byte>)
    ensures |b| == 4
  {
    var u := n % 0x1_0000_0000;
    [u / 0x100_0000, u / 0x1_0000 % 0x100, u / 0x100 % 0x100, u % 0x100]
  }

  /** `ntohl` */
  function IntAt(f: seq<Byte>, pos: nat): (n: int)
    requires pos + 4 <= |f|
    ensures IsInt32(n)
  {
    var b0: int, b1: int, b2: int := f[pos], f[pos + 1], f[pos + 2];
    Int32(((b0 * 0x100 + b1) * 0x100 + b2) * 0x100 + f[pos + 3])
  }

  lemma {:induction false} Digits(u: int)
    requires 0 <= u < 0x1_0000_0000
    ensures ((u / 0x100_0000 * 0x100 + u / 0x1_0000 % 0x100) * 0x100 + u / 0x100 % 0x100) * 0x100 + u % 0x100 == u
  {
  }

  /** The most significant byte comes first. */
  lemma {:induction false} BigEndian(n: int)
    ensures var b := IntBytes(n);
      (((b[0] as int) * 0x100 + b[1] as int) * 0x100 + b[2] as int) * 0x100 + b[3] as int == n % 0x1_0000_0000
  {
    Digits(n % 0x1_0000_0000);
  }

  lemma {:induction false} SignedAgain(n: int)
    requires IsInt32(n)
    ensures Int32(n % 0x1_0000_0000) == n
  {
  }

  lemma {:induction false} IntRead(f: seq<Byte>, pos: nat, n: int)
    requires At(f, pos, IntBytes(n)) && IsInt32(n)
    ensures IntAt(f, pos) == n
  {
    var b := IntBytes(n);
    assert f[pos] == b[0] && f[pos + 1] == b[1] && f[pos + 2] == b[2] && f[pos + 3] == b[3];
    Digits(n % 0x1_0000_0000);
    SignedAgain(n);
  }

  function IntsBytes(xs: seq<int>): (b: seq<Byte>)
    ensures |b| == 4 * |xs|
  {
    if xs == [] then [] else IntsBytes(xs[..|xs| - 1]) + IntBytes(xs[|xs| - 1])
  }

  function Ints(f: seq<Byte>, pos: nat, n: nat): (xs: seq<int>)
    requires pos + 4 * n <= |f|
    ensures |xs| == n
    decreases f, pos, n
  {
    if n == 0 then [] else Ints(f, pos, n - 1) + [IntAt(f, pos + 4 * (n - 1))]
  }

  predicate AllInt32(xs: seq<int>) {
    forall k :: 0 <= k < |xs| ==> IsInt32(xs[k])
  }

  lemma {:induction false} IntsRead(f: seq<Byte>, pos: nat, xs: seq<int>)
    requires At(f, pos, IntsBytes(xs)) && AllInt32(xs)
    ensures pos + 4 * |xs| <= |f| && Ints(f, pos, |xs|) == xs
  {
    if xs == [] {
    } else {
      var front, last := xs[..|xs| - 1], xs[|xs| - 1];
      AtSplit(f, pos, IntsBytes(front), IntBytes(last));
      IntsRead(f, pos, front);
      IntRead(f, pos + 4 * |front|, last);
    }
  }

  /** Sets of integers, one after another. */
  function TableBytes(t: seq<seq<int>>): seq<Byte> {
    if t == [] then [] else TableBytes(t[..|t| - 1]) + IntsBytes(t[|t| - 1])
  }

  /** The bytes in `n` sets of `length` integers. */
  function TableSize(n: nat, length: nat): nat {
    if n == 0 then 0 else TableSize(n - 1, length) + 4 * length
  }

  predicate IsTable(t: seq<seq<int>>, n: nat, length: nat)
    decreases n
  {
    |t| == n && (n > 0 ==> |t[n - 1]| == length && AllInt32(t[n - 1]) && IsTable(t[..n - 1], n - 1, length))
  }

  lemma {:induction false} IsTableIff(t: seq<seq<int>>, n: nat, length: nat)
    ensures IsTable(t, n, length) <==> |t| == n && forall k :: 0 <= k < n ==> |t[k]| == length && AllInt32(t[k])
    decreases n
  {
    if |t| != n || n == 0 {
    } else {
      IsTableIff(t[..n - 1], n - 1, length);
    }
  }

  function Table(f: seq<Byte>, pos: nat, n: nat, length: nat): (t: seq<seq<int>>)
    requires pos + TableSize(n, length) <= |f|
    ensures |t| == n
    decreases f, pos, n
  {
    if n == 0 then [] else Table(f, pos, n - 1, length) + [Ints(f, pos + TableSize(n - 1, length), length)]
  }

  lemma {:induction false} TableRead(f: seq<Byte>, pos: nat, t: seq<seq<int>>, n: nat, length: nat)
    requires At(f, pos, TableBytes(t)) && IsTable(t, n, length)
    ensures |TableBytes(t)| == TableSize(n, length) && Table(f, pos, n, length) == t
    decreases n
  {
    if n == 0 {
    } else {
      var front, last := t[..n - 1], t[n - 1];
      AtSplit(f, pos, TableBytes(front), IntsBytes(last));
      TableRead(f, pos, front, n - 1, length);
      IntsRead(f, pos + TableSize(n - 1, length), last);
    }
  }

  // ---------------------------------------------------------------- strings

  /** A C string's characters. */
  predicate IsText(s: seq<Byte>) {
    forall k :: 0 <= k < |s| ==> s[k] != 0
  }

  /** The characters before the first zero. */
  function Text(s: seq<Byte>): (t: seq<Byte>)
    ensures IsText(t)
  {
    if s == [] || s[0] == 0 then [] else [s[0]] + Text(s[1..])
  }

  /** The string that a pointer to position `pos` of a buffer denotes. */
  function TextAt(s: seq<Byte>, pos: nat): seq<Byte>
    requires pos <= |s|
  {
    Text(s[pos..])
  }

  lemma {:induction false} TextOfTerminated(t: seq<Byte>, rest: seq<Byte>)
    requires IsText(t)
    ensures Text(t + [0] + rest) == t
  {
    var s := t + [0] + rest;
    if t == [] {
    } else {
      assert s[1..] == t[1..] + [0] + rest;
      TextOfTerminated(t[1..], rest);
    }
  }

  /** A string stored with its terminator is the one read back at its position. */
  lemma {:induction false} TextRead(s: seq<Byte>, pos: nat, t: seq<Byte>)
    requires IsText(t) && At(s, pos, t + [0])
    ensures TextAt(s, pos) == t
  {
    var rest := s[pos + |t| + 1..];
    AtSlice(s, pos, t + [0], |t| + 1);
    assert s[pos..] == s[pos..pos + |t| + 1] + rest;
    TextOfTerminated(t, rest);
  }

  function Zeros(n: nat): (z: seq<Byte>)
    ensures |z| == n && forall k :: 0 <= k < n ==> z[k] == 0
  {
    if n == 0 then [] else [0] + Zeros(n - 1)
  }
}
