/** dcgram.c and dcomp.c: building distributions row by row, and writing them to a file. */
module DistCompiler {
  import opened DistFormat

  const D_NAME_LEN := 20
  const IDX_SIZE := 48

  /** `dist_t` before it is loaded: plain weights, and positions in the string pool. */
  datatype Dist = Dist(typeVector: seq<int>, weightSets: seq<seq<int>>, valueSets: seq<seq<int>>,
                       names: seq<Byte>, strings: seq<Byte>)

  /** `d_idx_t` */
  datatype Entry = Entry(name: seq<Byte>, index: int, offset: int, strSpace: nat, nameSpace: nat,
                         length: nat, wWidth: nat, vWidth: nat, nRemainingStrSpace: int, dist: Dist)

  /** One `add` statement. */
  datatype Row = Row(values: seq<seq<Byte>>, weights: seq<int>)

  // ---------------------------------------------------------------- what an entry represents

  predicate Shaped(e: Entry) {
    && |e.dist.typeVector| == e.vWidth && |e.dist.valueSets| == e.vWidth && |e.dist.weightSets| == e.wWidth
    && e.nameSpace == |e.dist.names| && e.strSpace == |e.dist.strings|
    && (forall i :: 0 <= i < e.vWidth ==> |e.dist.valueSets[i]| == e.length)
    && (forall w :: 0 <= w < e.wWidth ==> |e.dist.weightSets[w]| == e.length)
  }

  /** The pool holds the string `v` where `pos` points. */
  predicate Points(strings: seq<Byte>, pos: int, v: seq<Byte>) {
    0 <= pos && IsText(v) && At(strings, pos, v + [0])
  }

  predicate HoldsWeight(d: Dist, j: nat, w: nat, row: Row) {
    && w < |d.weightSets| && j < |d.weightSets[w]| && w < |row.weights|
    && d.weightSets[w][j] == row.weights[w]
  }

  predicate HoldsValue(d: Dist, j: nat, i: nat, row: Row) {
    && i < |d.valueSets| && j < |d.valueSets[i]| && i < |row.values|
    && Points(d.strings, d.valueSets[i][j], row.values[i])
  }

  /** Row `j` has these weights, and its values are in the pool. */
  ghost predicate HoldsRow(d: Dist, j: nat, row: Row) {
    && (forall w: nat :: w < |d.weightSets| ==> HoldsWeight(d, j, w, row))
    && (forall i: nat :: i < |d.valueSets| ==> HoldsValue(d, j, i, row))
  }

  /** The distribution's rows are these. */
  ghost predicate Holds(e: Entry, rows: seq<Row>) {
    Shaped(e) && |rows| == e.length && forall j :: 0 <= j < |rows| ==> HoldsRow(e.dist, j, rows[j])
  }

  lemma {:induction false} PointsGrows(strings: seq<Byte>, more: seq<Byte>, pos: int, v: seq<Byte>)
    requires Points(strings, pos, v)
    ensures Points(strings + more, pos, v)
  {
  }

  lemma {:induction false} PointsNew(strings: seq<Byte>, v: seq<Byte>)
    requires IsText(v)
    ensures Points(strings + (v + [0]), |strings|, v)
  {
    AtPart(strings, v + [0], []);
    assert strings + (v + [0]) + [] == strings + (v + [0]);
  }

  // ---------------------------------------------------------------- names

  function Lower(b: Byte): Byte {
    if 65 <= b <= 90 then b + 32 else b
  }

  /** What `strcasecmp` compares. */
  function Fold(s: seq<Byte>): (r: seq<Byte>)
    ensures |r| == |s| && forall k :: 0 <= k < |s| ==> r[k] == Lower(s[k])
  {
    if s == [] then [] else [Lower(s[0])] + Fold(s[1..])
  }

  predicate SameName(a: seq<Byte>, b: seq<Byte>) {
    Fold(a) == Fold(b)
  }

  ghost predicate UniqueNames(es: seq<Entry>) {
    forall i, j :: 0 <= i < j < |es| ==> !SameName(es[i].name, es[j].name)
  }

  function Truncated(name: seq<Byte>): seq<Byte> {
    if |name| > D_NAME_LEN then name[..D_NAME_LEN] else name
  }

  ghost predicate NamesFit(es: seq<Entry>) {
    forall i :: 0 <= i < |es| ==> IsText(es[i].name) && |es[i].name| <= D_NAME_LEN
  }

  // ---------------------------------------------------------------- the file

  function BodyBytes(d: Dist): seq<Byte> {
    IntsBytes(d.typeVector) + (TableBytes(d.weightSets) + (TableBytes(d.valueSets) + (d.names + d.strings)))
  }

  function Bodies(es: seq<Entry>): seq<Byte> {
    if es == [] then [] else Bodies(es[..|es| - 1]) + BodyBytes(es[|es| - 1].dist)
  }

  function Padded(name: seq<Byte>): (p: seq<Byte>)
    ensures |name| <= D_NAME_LEN ==> |p| == D_NAME_LEN
  {
    name + Zeros(if |name| <= D_NAME_LEN then D_NAME_LEN - |name| else 0)
  }

  function EntryNumbers(e: Entry): seq<int> {
    [e.index, e.offset, e.strSpace, e.length, e.wWidth, e.vWidth, e.nameSpace]
  }

  function EntryBytes(e: Entry): seq<Byte> {
    Padded(e.name) + IntsBytes(EntryNumbers(e))
  }

  function IndexBytes(es: seq<Entry>): seq<Byte> {
    if es == [] then [] else IndexBytes(es[..|es| - 1]) + EntryBytes(es[|es| - 1])
  }

  function Image(es: seq<Entry>): seq<Byte> {
    IntBytes(|es|) + Bodies(es) + IndexBytes(es)
  }

  /** The entries once each knows where its body starts. */
  function Placed(es: seq<Entry>): (r: seq<Entry>)
    ensures |r| == |es|
  {
    if es == [] then []
    else Placed(es[..|es| - 1]) + [es[|es| - 1].(offset := 4 + |Bodies(es[..|es| - 1])|)]
  }

  // ---------------------------------------------------------------- adding a row

  datatype AddResult = Added | NoType | NoWeight

  /** Each set gets its new element at the end. */
  predicate EachGrows(before: seq<seq<int>>, after: seq<seq<int>>) {
    && |after| == |before|
    && forall k :: 0 <= k < |before| ==> |after[k]| == |before[k]| + 1 && after[k][..|before[k]|] == before[k]
  }

  /** The bytes a row's strings take, terminators included. */
  function PoolSize(values: seq<seq<Byte>>): nat {
    if values == [] then 0 else PoolSize(values[..|values| - 1]) + |values[|values| - 1]| + 1
  }

  const POOL_CHUNK := 1000

  /** The room left in the string buffer after a row: a row that needs more than is left gets one
      chunk beyond the strings stored so far. */
  function RoomAfter(room: int, need: nat): int {
    (if room <= need then POOL_CHUNK else room) - need
  }

  /** As long as rows fit a chunk, the buffer holds each row's strings exactly when they do. */
  lemma {:induction false} RowFitsBufferIff(room: int, need: nat)
    requires 0 <= room <= POOL_CHUNK
    ensures RoomAfter(room, need) >= 0 <==> need <= POOL_CHUNK
    ensures RoomAfter(room, need) <= POOL_CHUNK
  {
  }

  /** The room left after several rows. */
  function Room(needs: seq<nat>): int {
    if needs == [] then 0 else RoomAfter(Room(needs[..|needs| - 1]), needs[|needs| - 1])
  }

  /** No row was copied past the end of the buffer. */
  predicate NeverShort(needs: seq<nat>) {
    needs == [] || (NeverShort(needs[..|needs| - 1]) && Room(needs) >= 0)
  }

  /** For a whole distribution: every copy stays in the buffer exactly when no row's strings take more
      than a chunk. */
  lemma {:induction false} NeverShortIff(needs: seq<nat>)
    ensures NeverShort(needs) <==> forall k :: 0 <= k < |needs| ==> needs[k] <= POOL_CHUNK
    ensures NeverShort(needs) ==> 0 <= Room(needs) <= POOL_CHUNK
  {
    if needs == [] {
    } else {
      var front, last := needs[..|needs| - 1], needs[|needs| - 1];
      NeverShortIff(front);
      if NeverShort(front) {
        RowFitsBufferIff(Room(front), last);
      }
      assert needs == front + [last];
    }
  }

  method AppendWeights(sets0: seq<seq<int>>, weights: seq<int>) returns (sets: seq<seq<int>>)
    requires |weights| == |sets0|
    ensures EachGrows(sets0, sets)
    ensures forall w :: 0 <= w < |sets| ==> sets[w][|sets0[w]|] == weights[w]
  {
    sets := sets0;
    for i := 0 to |sets0|
      invariant |sets| == |sets0|
      invariant forall w :: 0 <= w < i ==> sets[w] == sets0[w] + [weights[w]]
      invariant forall w :: i <= w < |sets0| ==> sets[w] == sets0[w]
    {
      sets := sets[i := sets[i] + [weights[i]]];
    }
  }

  /** The new strings go to the end of the pool, and each set gets the position of its own. */
  method AppendValues(sets0: seq<seq<int>>, pool0: seq<Byte>, values: seq<seq<Byte>>)
    returns (sets: seq<seq<int>>, pool: seq<Byte>, strSpace: nat)
    requires |values| == |sets0| && forall i :: 0 <= i < |values| ==> IsText(values[i])
    ensures EachGrows(sets0, sets) && |pool| >= |pool0| && pool[..|pool0|] == pool0
    ensures strSpace == |pool| == |pool0| + PoolSize(values)
    ensures forall i :: 0 <= i < |sets| ==> Points(pool, sets[i][|sets0[i]|], values[i])
  {
    sets, pool, strSpace := sets0, pool0, |pool0|;
    for i := 0 to |sets0|
      invariant |sets| == |sets0| && |pool| >= |pool0| && pool[..|pool0|] == pool0
      invariant strSpace == |pool| == |pool0| + PoolSize(values[..i])
      invariant forall k :: 0 <= k < i ==> |sets[k]| == |sets0[k]| + 1 && sets[k][..|sets0[k]|] == sets0[k]
      invariant forall k :: 0 <= k < i ==> Points(pool, sets[k][|sets0[k]|], values[k])
      invariant forall k :: i <= k < |sets0| ==> sets[k] == sets0[k]
    {
      forall k | 0 <= k < i
        ensures Points(pool + (values[i] + [0]), sets[k][|sets0[k]|], values[k])
      {
        PointsGrows(pool, values[i] + [0], sets[k][|sets0[k]|], values[k]);
      }
      PointsNew(pool, values[i]);
      sets := sets[i := sets[i] + [strSpace]];
      pool := pool + (values[i] + [0]);
      strSpace := strSpace + |values[i]| + 1;
      assert values[..i + 1][..i] == values[..i];
    }
    assert values[..|values|] == values;
  }

  lemma {:induction false} RowKept(d: Dist, d': Dist, j: nat, row: Row)
    requires HoldsRow(d, j, row)
    requires EachGrows(d.weightSets, d'.weightSets) && EachGrows(d.valueSets, d'.valueSets)
    requires |d'.strings| >= |d.strings| && d'.strings[..|d.strings|] == d.strings
    ensures HoldsRow(d', j, row)
  {
    forall w: nat | w < |d'.weightSets|
      ensures HoldsWeight(d', j, w, row)
    {
      assert HoldsWeight(d, j, w, row);
      assert d.weightSets[w][j] == d'.weightSets[w][..|d.weightSets[w]|][j];
    }
    forall i: nat | i < |d'.valueSets|
      ensures HoldsValue(d', j, i, row)
    {
      assert HoldsValue(d, j, i, row);
      assert d.valueSets[i][j] == d'.valueSets[i][..|d.valueSets[i]|][j];
      assert d'.strings == d.strings + d'.strings[|d.strings|..];
      PointsGrows(d.strings, d'.strings[|d.strings|..], d.valueSets[i][j], row.values[i]);
    }
  }

  /** The entry with one more row: the old rows read as before. */
  lemma {:induction false} HoldsOneMore(e: Entry, rows: seq<Row>, row: Row, e': Entry)
    requires Holds(e, rows) && |row.weights| == e.wWidth && |row.values| == e.vWidth
    requires e'.length == e.length + 1 && e'.wWidth == e.wWidth && e'.vWidth == e.vWidth
    requires e'.strSpace == |e'.dist.strings| && e'.nameSpace == e.nameSpace
    requires e'.dist.names == e.dist.names && e'.dist.typeVector == e.dist.typeVector
    requires EachGrows(e.dist.weightSets, e'.dist.weightSets) && EachGrows(e.dist.valueSets, e'.dist.valueSets)
    requires |e'.dist.strings| >= |e.dist.strings| && e'.dist.strings[..|e.dist.strings|] == e.dist.strings
    requires forall w :: 0 <= w < e.wWidth ==> e'.dist.weightSets[w][e.length] == row.weights[w]
    requires forall i :: 0 <= i < e.vWidth ==> Points(e'.dist.strings, e'.dist.valueSets[i][e.length], row.values[i])
    ensures Holds(e', rows + [row])
  {
    forall j | 0 <= j < |rows + [row]|
      ensures HoldsRow(e'.dist, j, (rows + [row])[j])
    {
      if j < |rows| {
        RowKept(e.dist, e'.dist, j, rows[j]);
      }
    }
  }

  // ---------------------------------------------------------------- writing

  /** A loop of `fwrite(htonl(..))`. */
  method WriteInts(f0: seq<Byte>, offset0: nat, xs: seq<int>, n: nat) returns (f: seq<Byte>, offset: nat)
    requires |xs| == n
    ensures f == f0 + IntsBytes(xs) && offset == offset0 + |IntsBytes(xs)|
  {
    f, offset := f0, offset0;
    for i := 0 to n
      invariant f == f0 + IntsBytes(xs[..i]) && offset == offset0 + |IntsBytes(xs[..i])|
    {
      f := f + IntBytes(xs[i]);
      offset := offset + 4;
      assert xs[..i + 1][..i] == xs[..i];
    }
    assert xs[..n] == xs;
  }

  method WriteSets(f0: seq<Byte>, offset0: nat, sets: seq<seq<int>>, n: nat, length: nat)
    returns (f: seq<Byte>, offset: nat)
    requires |sets| == n && forall k :: 0 <= k < n ==> |sets[k]| == length
    ensures f == f0 + TableBytes(sets) && offset == offset0 + |TableBytes(sets)|
  {
    f, offset := f0, offset0;
    for i := 0 to n
      invariant f == f0 + TableBytes(sets[..i]) && offset == offset0 + |TableBytes(sets[..i])|
    {
      f, offset := WriteInts(f, offset, sets[i], length);
      assert sets[..i + 1][..i] == sets[..i];
    }
    assert sets[..n] == sets;
  }

  lemma {:induction false} JoinBody(f: seq<Byte>, a: seq<Byte>, b: seq<Byte>, c: seq<Byte>, d: seq<Byte>, e: seq<Byte>)
    ensures f + a + b + c + d + e == f + (a + (b + (c + (d + e))))
  {
  }

  method WriteBody(f0: seq<Byte>, offset0: nat, e: Entry) returns (f: seq<Byte>, offset: nat)
    requires Shaped(e)
    ensures f == f0 + BodyBytes(e.dist) && offset == offset0 + |BodyBytes(e.dist)|
  {
    var d := e.dist;
    f, offset := WriteInts(f0, offset0, d.typeVector, e.vWidth);
    f, offset := WriteSets(f, offset, d.weightSets, e.wWidth, e.length);
    f, offset := WriteSets(f, offset, d.valueSets, e.vWidth, e.length);
    if |d.names| > 0 {
      f, offset := f + d.names, offset + e.nameSpace;
    }
    f, offset := f + d.strings, offset + e.strSpace;
    JoinBody(f0, IntsBytes(d.typeVector), TableBytes(d.weightSets), TableBytes(d.valueSets), d.names, d.strings);
  }

  lemma {:induction false} IntsAppend(xs: seq<int>, x: int)
    ensures IntsBytes(xs + [x]) == IntsBytes(xs) + IntBytes(x)
  {
    assert (xs + [x])[..|xs|] == xs;
  }

  lemma {:induction false} SevenInts(a: int, b: int, c: int, d: int, e: int, f: int, g: int)
    ensures IntsBytes([a, b, c, d, e, f, g])
         == IntBytes(a) + IntBytes(b) + IntBytes(c) + IntBytes(d) + IntBytes(e) + IntBytes(f) + IntBytes(g)
  {
    IntsAppend([], a);
    IntsAppend([a], b);
    IntsAppend([a, b], c);
    IntsAppend([a, b, c], d);
    IntsAppend([a, b, c, d], e);
    IntsAppend([a, b, c, d, e], f);
    IntsAppend([a, b, c, d, e, f], g);
    assert [] + [a] == [a] && [a] + [b] == [a, b] && [a, b] + [c] == [a, b, c];
    assert [a, b, c] + [d] == [a, b, c, d] && [a, b, c, d] + [e] == [a, b, c, d, e];
    assert [a, b, c, d, e] + [f] == [a, b, c, d, e, f] && [a, b, c, d, e, f] + [g] == [a, b, c, d, e, f, g];
    assert IntsBytes([]) == [];
  }

  method WriteEntry(f0: seq<Byte>, e: Entry) returns (f: seq<Byte>)
    requires |e.name| <= D_NAME_LEN
    ensures f == f0 + EntryBytes(e)
  {
    f := f0 + Padded(e.name);
    f := f + IntBytes(e.index);
    f := f + IntBytes(e.offset);
    f := f + IntBytes(e.strSpace);
    f := f + IntBytes(e.length);
    f := f + IntBytes(e.wWidth);
    f := f + IntBytes(e.vWidth);
    f := f + IntBytes(e.nameSpace);
    SevenInts(e.index, e.offset, e.strSpace, e.length, e.wWidth, e.vWidth, e.nameSpace);
  }

  ghost predicate AllShaped(es: seq<Entry>) {
    forall k :: 0 <= k < |es| ==> Shaped(es[k])
  }

  method WriteEntries(f0: seq<Byte>, es: seq<Entry>) returns (f: seq<Byte>)
    requires forall k :: 0 <= k < |es| ==> |es[k].name| <= D_NAME_LEN
    ensures f == f0 + IndexBytes(es)
  {
    f := f0;
    for i := 0 to |es|
      invariant f == f0 + IndexBytes(es[..i])
    {
      f := WriteEntry(f, es[i]);
      assert es[..i + 1][..i] == es[..i];
    }
    assert es[..|es|] == es;
  }

  /** Entry `k` with the offset of its body. */
  predicate IsPlaced(es: seq<Entry>, k: nat, e: Entry) {
    k < |es| && e == es[k].(offset := 4 + |Bodies(es[..k])|)
  }

  /** Only the offsets change. */
  lemma {:induction false} PlacedKeeps(es: seq<Entry>)
    ensures Bodies(Placed(es)) == Bodies(es)
    ensures forall k :: 0 <= k < |es| ==> IsPlaced(es, k, Placed(es)[k])
  {
    if es == [] {
    } else {
      var front := es[..|es| - 1];
      PlacedKeeps(front);
      assert Placed(es)[..|es| - 1] == Placed(front);
      forall k | 0 <= k < |es|
        ensures IsPlaced(es, k, Placed(es)[k])
      {
        if k < |es| - 1 {
          assert front[..k] == es[..k];
          assert IsPlaced(front, k, Placed(front)[k]);
        }
      }
    }
  }

  /** The entries before `n` know their offsets, the others are as they were. */
  ghost predicate Halfway(es: seq<Entry>, now: seq<Entry>, n: nat) {
    n <= |es| == |now| && now[..n] == Placed(es[..n]) && now[n..] == es[n..]
  }

  /** The first `n` bodies are in the file. */
  ghost predicate Written(es: seq<Entry>, n: nat, start: seq<Byte>, file: seq<Byte>, offset: nat) {
    n <= |es| && file == start + Bodies(es[..n]) && offset == 4 + |Bodies(es[..n])|
  }

  lemma {:induction false} Halfway0(es: seq<Entry>)
    ensures Halfway(es, es, 0)
  {
  }

  lemma {:induction false} AllTheWay(es: seq<Entry>, now: seq<Entry>, start: seq<Byte>, file: seq<Byte>, offset: nat)
    requires Halfway(es, now, |es|) && Written(es, |es|, start, file, offset)
    ensures now == Placed(es) && file == start + Bodies(es)
  {
    assert es[..|es|] == es && now[..|es|] == now;
  }

  method EmitBody(f0: seq<Byte>, offset0: nat, e: Entry, ghost es: seq<Entry>, ghost n: nat, ghost start: seq<Byte>)
    returns (f: seq<Byte>, offset: nat)
    requires n < |es| && e == es[n] && Shaped(e) && Written(es, n, start, f0, offset0)
    ensures Written(es, n + 1, start, f, offset)
  {
    f, offset := WriteBody(f0, offset0, e);
    assert es[..n + 1][..n] == es[..n];
  }

  lemma {:induction false} PlacedNamesFit(es: seq<Entry>)
    requires NamesFit(es)
    ensures NamesFit(Placed(es))
  {
    PlacedKeeps(es);
    forall k | 0 <= k < |es|
      ensures Placed(es)[k].name == es[k].name
    {
      assert IsPlaced(es, k, Placed(es)[k]);
    }
  }

  lemma {:induction false} ImageParts(es: seq<Entry>, file: seq<Byte>)
    requires file == IntBytes(|es|) + Bodies(es) + IndexBytes(Placed(es))
    ensures file == Image(Placed(es))
  {
    PlacedKeeps(es);
  }

  // ---------------------------------------------------------------- the compiler

  /** `distindex_t`; `pCurrentIndexEntry` is always its last entry. */
  class DistIndex {
    var pEntries: seq<Entry>

    constructor ()
      ensures pEntries == []
    {
      pEntries := [];
    }

    /** The uniqueness test looks at the whole name, but only its first 20 characters are stored. */
    method AddDistribution(szName: seq<Byte>) returns (ok: bool)
      requires IsText(szName)
      modifies this
      ensures ok <==> szName != [] && forall i :: 0 <= i < |old(pEntries)| ==> !SameName(szName, old(pEntries)[i].name)
      ensures !ok ==> pEntries == old(pEntries)
      ensures ok ==> |pEntries| == |old(pEntries)| + 1 && pEntries[..|old(pEntries)|] == old(pEntries)
      ensures ok ==> var e := pEntries[|old(pEntries)|];
        && e.name == Truncated(szName) && e.index == |pEntries| && Holds(e, [])
        && e.strSpace == 0 && e.nRemainingStrSpace == 0
      ensures NamesFit(old(pEntries)) ==> NamesFit(pEntries)
      ensures UniqueNames(old(pEntries)) ==>
        (UniqueNames(pEntries) <==>
          ok ==> forall i :: 0 <= i < |old(pEntries)| ==> !SameName(Truncated(szName), old(pEntries)[i].name))
    {
      if |szName| == 0 {
        return false;
      }
      for i := 0 to |pEntries|
        invariant pEntries == old(pEntries)
        invariant forall k :: 0 <= k < i ==> !SameName(szName, pEntries[k].name)
      {
        if SameName(szName, pEntries[i].name) {
          return false;
        }
      }
      var name := szName;
      if |name| > D_NAME_LEN {
        name := name[..D_NAME_LEN];
      }
      pEntries := pEntries + [Entry(name, |pEntries| + 1, 0, 0, 0, 0, 0, 0, 0, Dist([], [], [], [], []))];
      return true;
    }

    /** The `set` statements, before any row: types, number of weights, and the column aliases. */
    method SetShape(typeVector: seq<int>, wWidth: nat, names: seq<Byte>)
      requires |pEntries| > 0 && pEntries[|pEntries| - 1].length == 0 && Shaped(pEntries[|pEntries| - 1])
      modifies this
      ensures |pEntries| == |old(pEntries)|
      ensures var k := |pEntries| - 1; var e, e0 := pEntries[k], old(pEntries)[k];
        && pEntries[..k] == old(pEntries)[..k] && Holds(e, [])
        && e.name == e0.name && e.index == e0.index
        && e.strSpace == e0.strSpace && e.nRemainingStrSpace == e0.nRemainingStrSpace
        && e.vWidth == |typeVector| && e.wWidth == wWidth && e.dist.typeVector == typeVector && e.dist.names == names
    {
      var k := |pEntries| - 1;
      var e := pEntries[k];
      pEntries := pEntries[k := e.(vWidth := |typeVector|, wWidth := wWidth, nameSpace := |names|,
        dist := e.dist.(typeVector := typeVector, names := names,
                        weightSets := seq(wWidth, _ => []), valueSets := seq(|typeVector|, _ => [])))];
    }

    /** `ProcessAdd`, once the statement's values and weights are parsed. */
    method ProcessAdd(row: Row, ghost rows: seq<Row>) returns (r: AddResult)
      requires |pEntries| > 0 && Holds(pEntries[|pEntries| - 1], rows)
      requires var e := pEntries[|pEntries| - 1];
        e.vWidth > 0 && e.wWidth > 0 ==>
          |row.values| == e.vWidth && |row.weights| == e.wWidth && forall i :: 0 <= i < |row.values| ==> IsText(row.values[i])
      modifies this
      ensures |pEntries| == |old(pEntries)| && pEntries[..|pEntries| - 1] == old(pEntries)[..|pEntries| - 1]
      ensures var e0, e := old(pEntries)[|pEntries| - 1], pEntries[|pEntries| - 1];
        && r == (if e0.vWidth == 0 then NoType else if e0.wWidth == 0 then NoWeight else Added)
        && (r.Added? ==> Holds(e, rows + [row]) && e.strSpace == e0.strSpace + PoolSize(row.values))
        && (r.Added? ==> e.nRemainingStrSpace == RoomAfter(e0.nRemainingStrSpace, PoolSize(row.values)))
        && (!r.Added? ==> e == e0)
        && e.name == e0.name && e.index == e0.index && e.vWidth == e0.vWidth && e.wWidth == e0.wWidth
        && e.dist.typeVector == e0.dist.typeVector && e.dist.names == e0.dist.names
    {
      var k := |pEntries| - 1;
      var e := pEntries[k];
      if e.vWidth == 0 {
        return NoType;
      }
      if e.wWidth == 0 {
        return NoWeight;
      }
      var weightSets := AppendWeights(e.dist.weightSets, row.weights);
      var valueSets, pool, strSpace := AppendValues(e.dist.valueSets, e.dist.strings, row.values);
      var nStrSpace := strSpace - e.strSpace;
      var remaining := e.nRemainingStrSpace;
      if remaining <= nStrSpace {
        remaining := POOL_CHUNK;
      }
      var e' := e.(length := e.length + 1, strSpace := strSpace, nRemainingStrSpace := remaining - nStrSpace,
        dist := e.dist.(weightSets := weightSets, valueSets := valueSets, strings := pool));
      HoldsOneMore(e, rows, row, e');
      pEntries := pEntries[k := e'];
      return Added;
    }

    method PlaceEntry(nDist: nat, offset: nat, ghost es: seq<Entry>) returns (e: Entry)
      requires Halfway(es, pEntries, nDist) && nDist < |pEntries| && offset == 4 + |Bodies(es[..nDist])|
      modifies this
      ensures e == es[nDist] && Halfway(es, pEntries, nDist + 1)
    {
      e := pEntries[nDist];
      assert e == pEntries[nDist..][0] == es[nDist..][0];
      assert pEntries[nDist + 1..] == pEntries[nDist..][1..] == es[nDist..][1..];
      pEntries := pEntries[nDist := e.(offset := offset)];
      assert es[..nDist + 1][..nDist] == es[..nDist];
    }

    /** The first loop of `WriteIndex`: the bodies, each at the offset its entry remembers. */
    method WriteBodies(file0: seq<Byte>) returns (file: seq<Byte>)
      requires AllShaped(pEntries) && |file0| == 4
      modifies this
      ensures pEntries == Placed(old(pEntries))
      ensures file == file0 + Bodies(old(pEntries))
    {
      file := file0;
      var offset := 4;
      ghost var es := pEntries;
      Halfway0(es);
      for nDist := 0 to |pEntries|
        invariant Halfway(es, pEntries, nDist)
        invariant Written(es, nDist, file0, file, offset)
      {
        var e := PlaceEntry(nDist, offset, es);
        file, offset := EmitBody(file, offset, e, es, nDist, file0);
      }
      AllTheWay(es, pEntries, file0, file, offset);
    }

    /** `WriteIndex`: the count, the bodies, and the index at the end. */
    method WriteIndex() returns (file: seq<Byte>)
      requires AllShaped(pEntries) && NamesFit(pEntries)
      modifies this
      ensures pEntries == Placed(old(pEntries))
      ensures file == Image(pEntries)
    {
      file := WriteBodies(IntBytes(|pEntries|));
      PlacedNamesFit(old(pEntries));
      file := WriteEntries(file, pEntries);
      ImageParts(old(pEntries), file);
    }
  }
}
