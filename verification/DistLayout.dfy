/** Where each number of a distribution lies in its file, counted in bytes. */
module DistLayout {
  import opened DistFormat
  import opened DistCompiler
  import opened DistLoader

  lemma {:induction false} AtFront(a: seq<Byte>, b: seq<Byte>, pos: nat, s: seq<Byte>)
    requires At(a, pos, s)
    ensures At(a + b, pos, s)
  {
  }

  lemma {:induction false} AtBehind(a: seq<Byte>, b: seq<Byte>, pos: nat, s: seq<Byte>, at: nat)
    requires At(b, pos, s) && at == |a| + pos
    ensures At(a + b, at, s)
  {
    forall i | 0 <= i < |s|
      ensures (a + b)[at + i] == s[i]
    {
      assert b[pos + i] == s[i];
    }
  }

  lemma {:induction false} AtStart(s: seq<Byte>)
    ensures At(s, 0, s)
  {
  }

  /** Four bytes for each integer. */
  lemma {:induction false} IntsAt(xs: seq<int>, j: nat)
    requires j < |xs|
    ensures At(IntsBytes(xs), 4 * j, IntBytes(xs[j]))
    decreases |xs|
  {
    var front, last := xs[..|xs| - 1], xs[|xs| - 1];
    if j == |xs| - 1 {
      AtStart(IntBytes(last));
      AtBehind(IntsBytes(front), IntBytes(last), 0, IntBytes(last), 4 * j);
    } else {
      IntsAt(front, j);
      AtFront(IntsBytes(front), IntBytes(last), 4 * j, IntBytes(xs[j]));
    }
  }

  lemma {:induction false} OneMoreSet(n: nat, length: nat)
    requires n > 0
    ensures 4 * (n * length) == 4 * ((n - 1) * length) + 4 * length
  {
  }

  ghost predicate Rectangular(t: seq<seq<int>>, length: nat) {
    forall k :: 0 <= k < |t| ==> |t[k]| == length
  }

  lemma {:induction false} SetsSize(t: seq<seq<int>>, length: nat)
    requires Rectangular(t, length)
    ensures |TableBytes(t)| == 4 * (|t| * length)
  {
    if t == [] {
    } else {
      SetsSize(t[..|t| - 1], length);
      OneMoreSet(|t|, length);
    }
  }

  /** Set after set. */
  lemma {:induction false} SetsAt(t: seq<seq<int>>, length: nat, k: nat, j: nat)
    requires Rectangular(t, length) && k < |t| && j < length
    ensures 4 * (k * length) + 4 * j >= 0 && At(TableBytes(t), 4 * (k * length) + 4 * j, IntBytes(t[k][j]))
    decreases |t|
  {
    var front, last := t[..|t| - 1], t[|t| - 1];
    SetsSize(front, length);
    if k == |t| - 1 {
      IntsAt(last, j);
      AtBehind(TableBytes(front), IntsBytes(last), 4 * j, IntBytes(last[j]), 4 * (k * length) + 4 * j);
    } else {
      SetsAt(front, length, k, j);
      AtFront(TableBytes(front), IntsBytes(last), 4 * (k * length) + 4 * j, IntBytes(t[k][j]));
    }
  }

  /** An entry of the index: the name, padded with zeros to 20 bytes, and seven integers. */
  lemma {:induction false} EntryLayout(e: Entry)
    requires |e.name| <= 20
    ensures var b := EntryBytes(e);
      && |b| == 48 && At(b, 0, e.name) && (forall i :: |e.name| <= i < 20 ==> b[i] == 0)
      && At(b, 20, IntBytes(e.index)) && At(b, 24, IntBytes(e.offset)) && At(b, 28, IntBytes(e.strSpace))
      && At(b, 32, IntBytes(e.length)) && At(b, 36, IntBytes(e.wWidth)) && At(b, 40, IntBytes(e.vWidth))
      && At(b, 44, IntBytes(e.nameSpace))
  {
    var name, numbers := Padded(e.name), EntryNumbers(e);
    forall j: nat | j < 7
      ensures At(EntryBytes(e), 20 + 4 * j, IntBytes(numbers[j]))
    {
      IntsAt(numbers, j);
      AtBehind(name, IntsBytes(numbers), 4 * j, IntBytes(numbers[j]), 20 + 4 * j);
    }
    assert At(EntryBytes(e), 20 + 4 * 0, IntBytes(numbers[0])) && At(EntryBytes(e), 20 + 4 * 1, IntBytes(numbers[1]));
    assert At(EntryBytes(e), 20 + 4 * 2, IntBytes(numbers[2])) && At(EntryBytes(e), 20 + 4 * 3, IntBytes(numbers[3]));
    assert At(EntryBytes(e), 20 + 4 * 4, IntBytes(numbers[4])) && At(EntryBytes(e), 20 + 4 * 5, IntBytes(numbers[5]));
    assert At(EntryBytes(e), 20 + 4 * 6, IntBytes(numbers[6]));
  }

  lemma {:induction false} PartsOfBody(d: Dist, weights: nat, values: nat, names: nat)
    requires weights == 4 * |d.typeVector| && values == weights + |TableBytes(d.weightSets)|
    requires names == values + |TableBytes(d.valueSets)|
    ensures var b := BodyBytes(d);
      && |b| == names + |d.names| + |d.strings|
      && At(b, 0, IntsBytes(d.typeVector)) && At(b, weights, TableBytes(d.weightSets))
      && At(b, values, TableBytes(d.valueSets)) && At(b, names, d.names) && At(b, names + |d.names|, d.strings)
  {
    AtStart(BodyBytes(d));
    AtFive(BodyBytes(d), 0, IntsBytes(d.typeVector), TableBytes(d.weightSets), TableBytes(d.valueSets), d.names, d.strings);
  }

  /** The sizes before each part of a body: types, weights, value positions, names, strings. */
  lemma {:induction false} BodyLayout(e: Entry, weights: nat, values: nat, names: nat)
    requires Shaped(e) && weights == 4 * e.vWidth
    requires values == weights + 4 * (e.wWidth * e.length) && names == values + 4 * (e.vWidth * e.length)
    ensures var b, d := BodyBytes(e.dist), e.dist;
      && |b| == names + e.nameSpace + e.strSpace
      && At(b, 0, IntsBytes(d.typeVector)) && At(b, weights, TableBytes(d.weightSets))
      && At(b, values, TableBytes(d.valueSets)) && At(b, names, d.names) && At(b, names + e.nameSpace, d.strings)
  {
    SetsSize(e.dist.weightSets, e.length);
    SetsSize(e.dist.valueSets, e.length);
    PartsOfBody(e.dist, weights, values, names);
  }

  lemma {:induction false} AtInside(f: seq<Byte>, pos: nat, part: seq<Byte>, inner: nat, s: seq<Byte>)
    requires At(f, pos, part) && At(part, inner, s)
    ensures At(f, pos + inner, s)
  {
    forall i | 0 <= i < |s|
      ensures f[pos + inner + i] == s[i]
    {
      assert f[pos + (inner + i)] == part[inner + i];
    }
  }

  /** Weight `w` of row `j` in a body. */
  lemma {:induction false} WeightLayout(e: Entry, w: nat, j: nat, weights: nat, inner: nat)
    requires Shaped(e) && w < e.wWidth && j < e.length
    requires weights == 4 * e.vWidth && inner == 4 * (w * e.length) + 4 * j
    ensures At(BodyBytes(e.dist), weights + inner, IntBytes(e.dist.weightSets[w][j]))
  {
    var sets := e.dist.weightSets;
    var values := weights + |TableBytes(sets)|;
    PartsOfBody(e.dist, weights, values, values + |TableBytes(e.dist.valueSets)|);
    SetsAt(sets, e.length, w, j);
    AtInside(BodyBytes(e.dist), weights, TableBytes(sets), inner, IntBytes(sets[w][j]));
  }

  lemma {:induction false} ValueInTable(e: Entry, v: nat, j: nat, values: nat, inner: nat)
    requires Shaped(e) && v < e.vWidth && j < e.length
    requires values == 4 * e.vWidth + |TableBytes(e.dist.weightSets)| && inner == 4 * (v * e.length) + 4 * j
    ensures At(BodyBytes(e.dist), values + inner, IntBytes(e.dist.valueSets[v][j]))
  {
    var sets := e.dist.valueSets;
    PartsOfBody(e.dist, 4 * e.vWidth, values, values + |TableBytes(sets)|);
    SetsAt(sets, e.length, v, j);
    AtInside(BodyBytes(e.dist), values, TableBytes(sets), inner, IntBytes(sets[v][j]));
  }

  /** The position of string `v` of row `j`. */
  lemma {:induction false} ValueLayout(e: Entry, v: nat, j: nat, values: nat, inner: nat)
    requires Shaped(e) && v < e.vWidth && j < e.length
    requires values == 4 * e.vWidth + 4 * (e.wWidth * e.length) && inner == 4 * (v * e.length) + 4 * j
    ensures At(BodyBytes(e.dist), values + inner, IntBytes(e.dist.valueSets[v][j]))
  {
    SetsSize(e.dist.weightSets, e.length);
    ValueInTable(e, v, j, values, inner);
  }
}
