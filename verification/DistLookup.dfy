/** dist.c: the loaded index, found by name and loaded on first use, and the two lookups by position. */
module DistLookup {
  import opened CInt
  import opened DistFormat
  import opened DistCompiler
  import opened DistLoader

  // ---------------------------------------------------------------- qsort and bsearch

  ghost predicate Sorted(hs: seq<Header>) {
    forall i, j :: 0 <= i < j < |hs| ==> StrCaseCmp(hs[i].name, hs[j].name) <= 0
  }

  lemma {:induction false} InsertedSame<T>(s: seq<T>, x: T, k: nat)
    requires k <= |s|
    ensures multiset(s[..k] + [x] + s[k..]) == multiset(s + [x])
  {
    assert s == s[..k] + s[k..];
  }

  lemma {:induction false} InsertedInOrder(hs: seq<Header>, h: Header, k: nat, i: nat, j: nat)
    requires Sorted(hs) && k <= |hs| && i < j < |hs| + 1
    requires k > 0 ==> StrCaseCmp(hs[k - 1].name, h.name) <= 0
    requires forall i :: k <= i < |hs| ==> StrCaseCmp(hs[i].name, h.name) > 0
    ensures var r := hs[..k] + [h] + hs[k..]; StrCaseCmp(r[i].name, r[j].name) <= 0
  {
    if j == k && i < k - 1 {
      CmpTransitive(hs[i].name, hs[k - 1].name, h.name);
    } else if i == k {
      CmpMirror(hs[j - 1].name, h.name);
    }
  }

  lemma {:induction false} InsertedSorted(hs: seq<Header>, h: Header, k: nat, r: seq<Header>)
    requires Sorted(hs) && k <= |hs| && r == hs[..k] + [h] + hs[k..]
    requires k > 0 ==> StrCaseCmp(hs[k - 1].name, h.name) <= 0
    requires forall i :: k <= i < |hs| ==> StrCaseCmp(hs[i].name, h.name) > 0
    ensures Sorted(r)
  {
    forall i, j | 0 <= i < j < |r|
      ensures StrCaseCmp(r[i].name, r[j].name) <= 0
    {
      InsertedInOrder(hs, h, k, i, j);
    }
  }

  method InsertHeader(hs: seq<Header>, h: Header) returns (r: seq<Header>)
    requires Sorted(hs)
    ensures Sorted(r) && multiset(r) == multiset(hs + [h])
  {
    var k := |hs|;
    while k > 0 && StrCaseCmp(hs[k - 1].name, h.name) > 0
      invariant 0 <= k <= |hs|
      invariant forall i :: k <= i < |hs| ==> StrCaseCmp(hs[i].name, h.name) > 0
    {
      k := k - 1;
    }
    r := hs[..k] + [h] + hs[k..];
    InsertedSorted(hs, h, k, r);
    InsertedSame(hs, h, k);
  }

  /** `qsort` with `di_compare`. */
  method Qsort(hs: seq<Header>) returns (r: seq<Header>)
    ensures Sorted(r) && multiset(r) == multiset(hs)
  {
    r := [];
    for i := 0 to |hs|
      invariant Sorted(r) && multiset(r) == multiset(hs[..i])
    {
      assert multiset(r + [hs[i]]) == multiset(hs[..i] + [hs[i]]);
      r := InsertHeader(r, hs[i]);
      assert hs[..i + 1] == hs[..i] + [hs[i]];
    }
    assert hs[..|hs|] == hs;
  }

  lemma {:induction false} NamesAbove(hs: seq<Header>, name: seq<Byte>, mid: nat)
    requires Sorted(hs) && mid < |hs| && StrCaseCmp(name, hs[mid].name) < 0
    ensures forall i :: mid <= i < |hs| ==> StrCaseCmp(name, hs[i].name) < 0
  {
    forall i | mid < i < |hs|
      ensures StrCaseCmp(name, hs[i].name) < 0
    {
      CmpTransitive(name, hs[mid].name, hs[i].name);
    }
  }

  lemma {:induction false} NamesBelow(hs: seq<Header>, name: seq<Byte>, mid: nat)
    requires Sorted(hs) && mid < |hs| && StrCaseCmp(name, hs[mid].name) > 0
    ensures forall i :: 0 <= i <= mid ==> StrCaseCmp(name, hs[i].name) > 0
  {
    CmpMirror(hs[mid].name, name);
    forall i | 0 <= i < mid
      ensures StrCaseCmp(name, hs[i].name) > 0
    {
      CmpTransitive(hs[i].name, hs[mid].name, name);
      CmpMirror(hs[i].name, name);
    }
  }

  /** `bsearch` with `di_compare`: a position whose name compares equal, or -1. */
  method Bsearch(hs: seq<Header>, name: seq<Byte>) returns (id: int)
    requires Sorted(hs)
    ensures -1 <= id < |hs|
    ensures id >= 0 ==> SameName(name, hs[id].name)
    ensures id < 0 ==> forall i :: 0 <= i < |hs| ==> !SameName(name, hs[i].name)
  {
    var lo, hi := 0, |hs|;
    while lo < hi
      invariant 0 <= lo <= hi <= |hs|
      invariant forall i :: 0 <= i < lo ==> StrCaseCmp(name, hs[i].name) > 0
      invariant forall i :: hi <= i < |hs| ==> StrCaseCmp(name, hs[i].name) < 0
    {
      var mid := (lo + hi) / 2;
      var c := StrCaseCmp(name, hs[mid].name);
      if c == 0 {
        CmpZeroIff(name, hs[mid].name);
        return mid;
      } else if c < 0 {
        NamesAbove(hs, name, mid);
        hi := mid;
      } else {
        NamesBelow(hs, name, mid);
        lo := mid + 1;
      }
    }
    forall i | 0 <= i < |hs|
      ensures !SameName(name, hs[i].name)
    {
      CmpZeroIff(name, hs[i].name);
    }
    return -1;
  }

  // ---------------------------------------------------------------- reading the file

  /** A loop of `ntohl(fread(..))`. */
  method ReadInts(f: seq<Byte>, pos0: nat, n: nat) returns (xs: seq<int>, pos: nat)
    requires pos0 + 4 * n <= |f|
    ensures xs == Ints(f, pos0, n) && pos == pos0 + 4 * n
  {
    xs, pos := [], pos0;
    for i := 0 to n
      invariant xs == Ints(f, pos0, i) && pos == pos0 + 4 * i
    {
      xs := xs + [IntAt(f, pos)];
      pos := pos + 4;
    }
  }

  /** The inner loop over one weight set: totals are accumulated as the weights are read. */
  method ReadWeights(f: seq<Byte>, pos0: nat, n: nat) returns (totals: seq<int>, maximum: int, pos: nat)
    requires pos0 + 4 * n <= |f|
    ensures totals == Running(Ints(f, pos0, n)) && maximum == LastOf(totals) && pos == pos0 + 4 * n
  {
    totals, maximum, pos := [], 0, pos0;
    for j := 0 to n
      invariant totals == Running(Ints(f, pos0, j)) && maximum == LastOf(totals) && pos == pos0 + 4 * j
    {
      ghost var more := Ints(f, pos0, j + 1);
      assert more[..j] == Ints(f, pos0, j);
      maximum := Int32(maximum + IntAt(f, pos));
      totals := totals + [maximum];
      pos := pos + 4;
    }
  }

  lemma {:induction false} TableSizeMonotone(m: nat, n: nat, length: nat)
    requires m <= n
    ensures TableSize(m, length) <= TableSize(n, length)
    decreases n
  {
    if m == n {
    } else {
      TableSizeMonotone(m, n - 1, length);
    }
  }

  /** The first `i` weight sets are in memory. */
  ghost predicate SetsRead(f: seq<Byte>, pos0: nat, i: nat, length: nat, sets: seq<seq<int>>, maximums: seq<int>) {
    pos0 + TableSize(i, length) <= |f| && sets == RunningAll(Table(f, pos0, i, length)) && maximums == Lasts(sets)
  }

  lemma {:induction false} LastsMore(sets: seq<seq<int>>, totals: seq<int>)
    ensures Lasts(sets + [totals]) == Lasts(sets) + [LastOf(totals)]
  {
    assert (sets + [totals])[..|sets|] == sets;
  }

  lemma {:induction false} OneMoreSet(f: seq<Byte>, pos0: nat, i: nat, length: nat, before: seq<seq<int>>,
                                      totals: seq<int>)
    requires pos0 + TableSize(i + 1, length) <= |f|
    requires before == RunningAll(Table(f, pos0, i, length))
    requires totals == Running(Ints(f, pos0 + TableSize(i, length), length))
    ensures RunningAll(Table(f, pos0, i + 1, length)) == before + [totals]
  {
    var t := Table(f, pos0, i + 1, length);
    assert t[..i] == Table(f, pos0, i, length);
  }

  method ReadNextSet(f: seq<Byte>, ghost pos0: nat, ghost i: nat, ghost n: nat, length: nat,
                     sets0: seq<seq<int>>, maximums0: seq<int>, at: nat)
    returns (sets: seq<seq<int>>, maximums: seq<int>, pos: nat)
    requires i < n && pos0 + TableSize(n, length) <= |f| && at == pos0 + TableSize(i, length)
    requires SetsRead(f, pos0, i, length, sets0, maximums0)
    ensures pos == pos0 + TableSize(i + 1, length) <= |f|
    ensures SetsRead(f, pos0, i + 1, length, sets, maximums)
  {
    TableSizeMonotone(i + 1, n, length);
    var totals, maximum;
    totals, maximum, pos := ReadWeights(f, at, length);
    OneMoreSet(f, pos0, i, length, sets0, totals);
    LastsMore(sets0, totals);
    sets := sets0 + [totals];
    maximums := maximums0 + [maximum];
  }

  method ReadWeightSets(f: seq<Byte>, pos0: nat, n: nat, length: nat)
    returns (sets: seq<seq<int>>, maximums: seq<int>, pos: nat)
    requires pos0 + TableSize(n, length) <= |f|
    ensures sets == RunningAll(Table(f, pos0, n, length)) && maximums == Lasts(sets)
    ensures pos == pos0 + TableSize(n, length)
  {
    sets, maximums, pos := [], [], pos0;
    TableSizeMonotone(0, n, length);
    for i := 0 to n
      invariant pos == pos0 + TableSize(i, length) <= |f|
      invariant SetsRead(f, pos0, i, length, sets, maximums)
    {
      sets, maximums, pos := ReadNextSet(f, pos0, i, n, length, sets, maximums, pos);
    }
  }

  method ReadSets(f: seq<Byte>, pos0: nat, n: nat, length: nat) returns (sets: seq<seq<int>>, pos: nat)
    requires pos0 + TableSize(n, length) <= |f|
    ensures sets == Table(f, pos0, n, length) && pos == pos0 + TableSize(n, length)
  {
    sets, pos := [], pos0;
    TableSizeMonotone(0, n, length);
    for i := 0 to n
      invariant pos == pos0 + TableSize(i, length) <= |f|
      invariant sets == Table(f, pos0, i, length)
    {
      TableSizeMonotone(i + 1, n, length);
      var totals;
      totals, pos := ReadInts(f, pos, length);
      sets := sets + [totals];
    }
  }

  method ReadTexts(f: seq<Byte>, at: nat, h: Header) returns (names: seq<Byte>, strings: seq<Byte>)
    requires BodyFits(f, h) && at == NamesAt(h)
    ensures names == f[NamesAt(h)..NamesAt(h) + h.nameSpace]
    ensures strings == f[NamesAt(h) + h.nameSpace..NamesAt(h) + h.nameSpace + h.strSpace]
  {
    var pos := at;
    names := [];
    if h.nameSpace != 0 {
      names := f[pos..pos + h.nameSpace];
      pos := pos + h.nameSpace;
    }
    strings := f[pos..pos + h.strSpace];
  }

  method ReadTables(f: seq<Byte>, at: nat, w: nat, v: nat, length: nat,
                    ghost weights: nat, ghost values: nat, ghost end: nat)
    returns (weightSets: seq<seq<int>>, maximums: seq<int>, valueSets: seq<seq<int>>, pos: nat)
    requires at == weights && values == weights + TableSize(w, length)
    requires end == values + TableSize(v, length) && end <= |f|
    ensures weightSets == RunningAll(Table(f, weights, w, length)) && maximums == Lasts(weightSets)
    ensures valueSets == Table(f, values, v, length) && pos == end
  {
    weightSets, maximums, pos := ReadWeightSets(f, at, w, length);
    valueSets, pos := ReadSets(f, pos, v, length);
  }

  method ReadNumbers(f: seq<Byte>, h: Header)
    returns (types: seq<int>, weightSets: seq<seq<int>>, maximums: seq<int>, valueSets: seq<seq<int>>, pos: nat)
    requires BodyFits(f, h)
    ensures types == Ints(f, h.offset, h.vWidth)
    ensures weightSets == RunningAll(Table(f, WeightsAt(h), h.wWidth, h.length)) && maximums == Lasts(weightSets)
    ensures valueSets == Table(f, ValuesAt(h), h.vWidth, h.length) && pos == NamesAt(h)
  {
    types, pos := ReadInts(f, h.offset, h.vWidth);
    weightSets, maximums, valueSets, pos := ReadTables(f, pos, h.wWidth, h.vWidth, h.length,
                                                            WeightsAt(h), ValuesAt(h), NamesAt(h));
  }

  lemma {:induction false} IsLoaded(f: seq<Byte>, h: Header, types: seq<int>, weightSets: seq<seq<int>>,
                                    maximums: seq<int>,
                 valueSets: seq<seq<int>>, names: seq<Byte>, strings: seq<Byte>)
    requires BodyFits(f, h)
    requires types == Ints(f, h.offset, h.vWidth)
    requires weightSets == RunningAll(Table(f, WeightsAt(h), h.wWidth, h.length)) && maximums == Lasts(weightSets)
    requires valueSets == Table(f, ValuesAt(h), h.vWidth, h.length)
    requires names == f[NamesAt(h)..NamesAt(h) + h.nameSpace]
    requires strings == f[NamesAt(h) + h.nameSpace..NamesAt(h) + h.nameSpace + h.strSpace]
    ensures Loaded(types, weightSets, maximums, valueSets, names, strings) == LoadedOf(f, h)
  {
  }

  /** `load_dist`, for a file that holds the whole body. */
  method LoadDist(f: seq<Byte>, h: Header) returns (d: Loaded)
    requires BodyFits(f, h)
    ensures d == LoadedOf(f, h)
  {
    var types, weightSets, maximums, valueSets, pos := ReadNumbers(f, h);
    var names, strings := ReadTexts(f, pos, h);
    d := Loaded(types, weightSets, maximums, valueSets, names, strings);
    IsLoaded(f, h, types, weightSets, maximums, valueSets, names, strings);
  }

  method ReadIndex(f: seq<Byte>) returns (hs: seq<Header>)
    requires HasIndex(f)
    ensures hs == Index(f)
  {
    var entryCount := IntAt(f, 0);
    var start := |f| - IDX_SIZE * entryCount;
    var pos := start;
    hs := [];
    for i := 0 to entryCount
      invariant pos == start + IDX_SIZE * i && hs == ReadEntries(f, start, i)
    {
      hs := hs + [ReadEntry(f, pos)];
      pos := pos + IDX_SIZE;
    }
  }

  // ---------------------------------------------------------------- the catalog

  /** An entry of the in-memory index: `flags` says whether `dist` is loaded. */
  datatype Slot = Slot(h: Header, loaded: bool, dist: Loaded)

  const NOTHING := Loaded([], [], [], [], [], [])

  function HeadersIn(slots: seq<Slot>): (hs: seq<Header>)
    ensures |hs| == |slots| && forall k :: 0 <= k < |slots| ==> hs[k] == slots[k].h
  {
    seq(|slots|, i requires 0 <= i < |slots| => slots[i].h)
  }

  ghost predicate SlotOk(f: seq<Byte>, s: Slot) {
    BodyFits(f, s.h) && (s.loaded ==> s.dist == LoadedOf(f, s.h))
  }

  predicate PositionOk(d: Loaded, i: nat, j: nat) {
    i < |d.valueSets| && j < |d.valueSets[i]| && 0 <= d.valueSets[i][j] <= |d.strings|
  }

  /** Every stored position lies in the string pool. */
  ghost predicate PositionsOk(d: Loaded, h: Header) {
    forall i: nat, j: nat :: i < h.vWidth && j < h.length ==> PositionOk(d, i, j)
  }

  ghost predicate WeightsOk(d: Loaded, h: Header) {
    |d.weightSets| == h.wWidth && forall w :: 0 <= w < h.wWidth ==> |d.weightSets[w]| == h.length
  }

  /** A file whose distributions can all be read. */
  ghost predicate Sound(f: seq<Byte>) {
    && Readable(f)
    && forall k :: 0 <= k < |Index(f)| ==>
         var d := LoadedOf(f, Index(f)[k]); PositionsOk(d, Index(f)[k]) && WeightsOk(d, Index(f)[k])
  }

  datatype Member = Unknown | OverRun | Value(text: seq<Byte>)

  /** The string at a row and a column, both counted from 1. */
  ghost function MemberOf(d: Loaded, h: Header, row: int, col: int): Member
    requires PositionsOk(d, h) && 1 <= col <= h.vWidth
  {
    assert 1 <= row <= h.length ==> PositionOk(d, col - 1, row - 1);
    if 1 <= row <= h.length then Value(TextAt(d.strings, d.valueSets[col - 1][row - 1])) else OverRun
  }

  /** The difference of neighbouring totals. */
  function WeightOf(totals: seq<int>, row: int): int
    requires 1 <= row <= |totals|
  {
    if row > 1 then Int32(totals[row - 1] - totals[row - 2]) else totals[0]
  }

  lemma {:induction false} WrapUndone(p: int, w: int)
    requires IsInt32(w)
    ensures Int32(Int32(p + w) - p) == w && Int32(0 + w) == w
  {
  }

  /** Differences undo the running totals, even when the totals wrap around. */
  lemma {:induction false} WeightIsRecovered(ws: seq<int>, row: int)
    requires AllInt32(ws) && 1 <= row <= |ws|
    ensures WeightOf(Running(ws), row) == ws[row - 1]
  {
    var n := |ws|;
    var front := Running(ws[..n - 1]);
    if row == n {
      WrapUndone(LastOf(front), ws[n - 1]);
    } else {
      WeightIsRecovered(ws[..n - 1], row);
      assert Running(ws)[..n - 1] == front;
    }
  }

  /** Some entry of the index with this name. */
  ghost predicate IsNamed(f: seq<Byte>, h: Header, name: seq<Byte>)
    requires HasIndex(f)
  {
    h in Index(f) && SameName(name, h.name)
  }

  method ReadMember(d: Loaded, h: Header, row: int, col: int) returns (r: Member)
    requires PositionsOk(d, h) && 1 <= col <= h.vWidth
    ensures r == MemberOf(d, h, row, col)
  {
    var index := row - 1;
    var dt := col - 1;
    if index >= h.length || index < 0 {
      return OverRun;
    }
    assert PositionOk(d, dt, index);
    r := Value(TextAt(d.strings, d.valueSets[dt][index]));
  }

  /** The name leads to this header and no other. */
  ghost predicate LeadsTo(f: seq<Byte>, name: seq<Byte>, h: Header) {
    HasIndex(f) && IsNamed(f, h, name) && forall g :: g in Index(f) && IsNamed(f, g, name) ==> g == h
  }

  ghost predicate MemberIs(f: seq<Byte>, h: Header, row: int, col: int, r: Member) {
    && BodyFits(f, h) && PositionsOk(LoadedOf(f, h), h) && 1 <= col <= h.vWidth
    && r == MemberOf(LoadedOf(f, h), h, row, col)
  }

  ghost predicate WeightIs(f: seq<Byte>, h: Header, row: int, wset: int, r: int) {
    && BodyFits(f, h) && WeightsOk(LoadedOf(f, h), h) && 1 <= wset <= h.wWidth && 1 <= row <= h.length
    && r == WeightOf(LoadedOf(f, h).weightSets[wset - 1], row)
  }

  lemma {:induction false} InSound(f: seq<Byte>, h: Header)
    requires Sound(f) && h in Index(f)
    ensures BodyFits(f, h) && PositionsOk(LoadedOf(f, h), h) && WeightsOk(LoadedOf(f, h), h)
  {
    var k :| 0 <= k < |Index(f)| && Index(f)[k] == h;
  }

  lemma {:induction false} SameMembers<T>(a: seq<T>, b: seq<T>)
    requires multiset(a) == multiset(b)
    ensures forall x :: x in a <==> x in b
  {
    forall x
      ensures x in a <==> x in b
    {
      assert x in a <==> x in multiset(a);
      assert x in b <==> x in multiset(b);
    }
  }

  class DistCatalog {
    const file: seq<Byte>

    var indexLoaded: bool
    var idx: seq<Slot>

    /** What every lookup keeps: the index is that of the file, sorted, and loaded distributions are
        the file's. */
    ghost predicate Valid()
      reads this
    {
      && Sound(file)
      && (indexLoaded ==>
            && Sorted(HeadersIn(idx)) && multiset(HeadersIn(idx)) == multiset(Index(file))
            && forall i :: 0 <= i < |idx| ==> SlotOk(file, idx[i]))
    }

    constructor (file: seq<Byte>)
      requires Sound(file)
      ensures Valid() && this.file == file
    {
      this.file := file;
      indexLoaded := false;
      idx := [];
    }

    method LoadIndex()
      requires Valid() && !indexLoaded
      modifies this
      ensures Valid() && indexLoaded
    {
      var entries := ReadIndex(file);
      var hs := Qsort(entries);
      SameMembers(hs, Index(file));
      idx := seq(|hs|, i requires 0 <= i < |hs| => Slot(hs[i], false, NOTHING));
      assert HeadersIn(idx) == hs;
      forall i | 0 <= i < |idx|
        ensures SlotOk(file, idx[i])
      {
        assert hs[i] in hs;
      }
      indexLoaded := true;
    }

    method LoadSlot(id: nat)
      requires Valid() && indexLoaded && id < |idx| && !idx[id].loaded
      modifies this
      ensures Valid() && indexLoaded && |idx| == |old(idx)|
      ensures idx[id].loaded && idx[id].h == old(idx)[id].h
    {
      var d := LoadDist(file, idx[id].h);
      ghost var before := HeadersIn(idx);
      idx := idx[id := idx[id].(loaded := true, dist := d)];
      assert HeadersIn(idx) == before;
    }

    /** `find_dist` */
    method FindDist(name: seq<Byte>) returns (id: int)
      requires Valid() && |name| <= D_NAME_LEN
      modifies this
      ensures Valid() && indexLoaded && -1 <= id < |idx|
      ensures id < 0 ==> forall h :: h in Index(file) ==> !IsNamed(file, h, name)
      ensures id >= 0 ==> IsNamed(file, idx[id].h, name) && idx[id].loaded
    {
      if !indexLoaded {
        LoadIndex();
      }
      id := Bsearch(HeadersIn(idx), name);
      SameMembers(HeadersIn(idx), Index(file));
      if id >= 0 {
        assert HeadersIn(idx)[id] in HeadersIn(idx);
        if !idx[id].loaded {
          LoadSlot(id);
        }
      }
    }

    /** `dist_member` */
    method DistMember(name: seq<Byte>, row: int, col: int) returns (r: Member)
      requires Valid() && |name| <= D_NAME_LEN
      requires forall h :: h in Index(file) && IsNamed(file, h, name) ==> 1 <= col <= h.vWidth
      modifies this
      ensures Valid()
      ensures r.Unknown? ==> forall h :: h in Index(file) ==> !IsNamed(file, h, name)
      ensures !r.Unknown? ==> exists h :: IsNamed(file, h, name) && MemberIs(file, h, row, col, r)
    {
      var id := FindDist(name);
      if id < 0 {
        return Unknown;
      }
      var slot := idx[id];
      InSound(file, slot.h);
      r := ReadMember(slot.dist, slot.h, row, col);
      assert MemberIs(file, slot.h, row, col, r);
    }

    /** `dist_weight` */
    method DistWeight(name: seq<Byte>, row: int, wset: int) returns (found: bool, r: int)
      requires Valid() && |name| <= D_NAME_LEN
      requires forall h :: h in Index(file) && IsNamed(file, h, name) ==> 1 <= wset <= h.wWidth && 1 <= row <= h.length
      modifies this
      ensures Valid()
      ensures !found ==> forall h :: h in Index(file) ==> !IsNamed(file, h, name)
      ensures found ==> exists h :: IsNamed(file, h, name) && WeightIs(file, h, row, wset, r)
    {
      var id := FindDist(name);
      if id < 0 {
        return false, 0;
      }
      var slot := idx[id];
      InSound(file, slot.h);
      var totals := slot.dist.weightSets[wset - 1];
      r := totals[row - 1];
      if row > 1 {
        r := Int32(r - totals[row - 2]);
      }
      found := true;
      assert WeightIs(file, slot.h, row, wset, r);
    }
  }
}
