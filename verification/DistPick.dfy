/** dist.c's `dist_op` with operation 0: a weighted choice by running totals. */
module DistPick {
  import opened Lehmer
  import opened Streams
  import opened DistFormat
  import opened DistCompiler
  import opened DistLoader
  import opened DistLookup

  /** The sum of the first `n` weights. */
  function Upto(ws: seq<int>, n: nat): int
    requires n <= |ws|
    decreases ws, n
  {
    if n == 0 then 0 else Upto(ws, n - 1) + ws[n - 1]
  }

  ghost predicate Nonnegative(ws: seq<int>) {
    forall k :: 0 <= k < |ws| ==> ws[k] >= 0
  }

  /** Weights one can draw from: none negative, at least one positive, and a total that fits `int`. */
  ghost predicate Drawable(ws: seq<int>) {
    Nonnegative(ws) && 1 <= Upto(ws, |ws|) < 0x8000_0000
  }

  lemma {:induction false} UptoMonotone(ws: seq<int>, m: nat, n: nat)
    requires Nonnegative(ws) && m <= n <= |ws|
    ensures 0 <= Upto(ws, m) <= Upto(ws, n)
    decreases m + n
  {
    if m < n {
      UptoMonotone(ws, m, n - 1);
    } else if m > 0 {
      UptoMonotone(ws, m - 1, m - 1);
    }
  }

  lemma {:induction false} UptoPrefix(ws: seq<int>, m: nat, n: nat)
    requires n <= m <= |ws|
    ensures Upto(ws[..m], n) == Upto(ws, n)
    decreases n
  {
    if n == 0 {
    } else {
      UptoPrefix(ws, m, n - 1);
    }
  }

  /** Without overflow the running totals are the partial sums. */
  lemma {:induction false} RunningIsUpto(ws: seq<int>, k: nat)
    requires Nonnegative(ws) && Upto(ws, |ws|) < 0x8000_0000 && k < |ws|
    ensures Running(ws)[k] == Upto(ws, k + 1)
    decreases |ws|
  {
    var n := |ws|;
    var front := ws[..n - 1];
    UptoPrefix(ws, n - 1, n - 1);
    UptoMonotone(ws, n - 1, n);
    if k < n - 1 {
      RunningIsUpto(front, k);
      UptoPrefix(ws, n - 1, k + 1);
      assert Running(ws)[k] == Running(front)[k];
    } else {
      if n > 1 {
        RunningIsUpto(front, n - 2);
      }
      UptoMonotone(ws, 0, n);
    }
  }

  /** A level selects the entry whose step it lies on. */
  ghost predicate Selects(ws: seq<int>, level: int, i: int) {
    0 <= i < |ws| && Upto(ws, i) < level <= Upto(ws, i + 1)
  }

  /** No level selects two entries, and none selects an entry of weight zero. */
  lemma {:induction false} SelectsOne(ws: seq<int>, level: int, i: int, j: int)
    requires Nonnegative(ws) && Selects(ws, level, i) && Selects(ws, level, j)
    ensures i == j && ws[i] > 0
  {
    if i < j {
      UptoMonotone(ws, i + 1, j);
    } else if j < i {
      UptoMonotone(ws, j + 1, i);
    }
  }

  /** The levels from `lo` (excluded) to `hi`. */
  function Levels(lo: int, hi: int): (s: set<int>)
    requires lo <= hi
    ensures forall x :: x in s <==> lo < x <= hi
    ensures |s| == hi - lo
    decreases hi - lo
  {
    if lo == hi then {} else Levels(lo, hi - 1) + {hi}
  }

  /** Inverse distribution: of the levels 1 .. total, exactly weight(i) select entry i. */
  lemma {:induction false} WeightManyLevels(ws: seq<int>, i: nat, levels: set<int>)
    requires Drawable(ws) && i < |ws|
    requires forall x :: x in levels <==> 1 <= x <= Upto(ws, |ws|) && Selects(ws, x, i)
    ensures |levels| == ws[i]
  {
    UptoMonotone(ws, 0, i);
    UptoMonotone(ws, i, i + 1);
    UptoMonotone(ws, i + 1, |ws|);
    assert levels == Levels(Upto(ws, i), Upto(ws, i + 1));
  }

  /** The search of `dist_op`. The total is read before the bound is tested, so it relies on the level
      not passing the last total. */
  method Search(totals: seq<int>, length: nat, level: int, ghost ws: seq<int>) returns (index: nat)
    requires |ws| == |totals| == length && totals == Running(ws) && Drawable(ws)
    requires 1 <= level <= LastOf(totals)
    ensures Selects(ws, level, index)
  {
    index := 0;
    RunningIsUpto(ws, 0);
    RunningIsUpto(ws, length - 1);
    while level > totals[index] && index < length
      invariant index < length && Upto(ws, index) < level && totals[index] == Upto(ws, index + 1)
    {
      if index == length - 1 {
        assert false;
      }
      index := index + 1;
      RunningIsUpto(ws, index);
    }
  }

  /** The weights in set `wset` of the distribution, from their totals. */
  ghost predicate TotalsOf(d: Loaded, wset: int, ws: seq<int>) {
    && 1 <= wset <= |d.weightSets| && |d.maximums| == |d.weightSets|
    && d.weightSets[wset - 1] == Running(ws) && d.maximums[wset - 1] == LastOf(Running(ws))
  }

  /** The level a draw gives: of any `total` consecutive draws, one for each level. */
  predicate IsLevel(draw: int, level: int, total: int) {
    1 <= level <= total && (draw - (level - 1)) % total == 0
  }

  lemma {:induction false} LevelLaw(draw: nat, level: int, total: int)
    requires total >= 1 && level == Uniform(draw, 1, total)
    ensures IsLevel(draw, level, total)
  {
    UniformLaw(draw, 1, total);
    assert total - 1 + 1 == total;
  }

  /** The draw and the search. */
  method PickIndex(d: Loaded, h: Header, wset: int, streams: array<Stream>, stream: nat, ghost ws: seq<int>)
    returns (index: nat, ghost level: int)
    requires TotalsOf(d, wset, ws) && Drawable(ws) && |ws| == h.length
    requires stream < streams.Length && StreamOk(streams[stream])
    modifies streams
    ensures IsLevel(Next(old(streams[stream].nSeed)), level, Upto(ws, |ws|))
    ensures level == Uniform(Next(old(streams[stream].nSeed)), 1, Upto(ws, |ws|))
    ensures Selects(ws, level, index)
    ensures streams[..] == old(streams[..])[stream := Drawn(old(streams[stream]))]
  {
    RunningIsUpto(ws, |ws| - 1);
    var drawn := GenrandInteger(streams, 1, d.maximums[wset - 1], stream);
    level := drawn;
    LevelLaw(Next(old(streams[stream].nSeed)), level, Upto(ws, |ws|));
    index := Search(d.weightSets[wset - 1], h.length, drawn, ws);
  }

  /** The name leads to this header, whose weights in set `wset` are `ws`. */
  ghost predicate Named(f: seq<Byte>, name: seq<Byte>, h: Header, vset: int, wset: int, ws: seq<int>) {
    && LeadsTo(f, name, h)
    && BodyFits(f, h) && TotalsOf(LoadedOf(f, h), wset, ws) && |ws| == h.length && 1 <= vset <= h.vWidth
  }

  /** `pick_distribution`: the string at the chosen row, and the row's number. */
  method PickDistribution(catalog: DistCatalog, name: seq<Byte>, vset: int, wset: int,
                          streams: array<Stream>, stream: nat, ghost ws: seq<int>, ghost h: Header)
    returns (r: Member, row: int, ghost level: int)
    requires catalog.Valid() && |name| <= D_NAME_LEN
    requires Drawable(ws) && Named(catalog.file, name, h, vset, wset, ws)
    requires stream < streams.Length && StreamOk(streams[stream])
    modifies catalog, streams
    ensures catalog.Valid()
    ensures level == Uniform(Next(old(streams[stream].nSeed)), 1, Upto(ws, |ws|))
    ensures Selects(ws, level, row - 1) && MemberIs(catalog.file, h, row, vset, r)
    ensures streams[..] == old(streams[..])[stream := Drawn(old(streams[stream]))]
  {
    var id := catalog.FindDist(name);
    var slot := catalog.idx[id];
    InSound(catalog.file, slot.h);
    var index;
    index, level := PickIndex(slot.dist, slot.h, wset, streams, stream, ws);
    row := index + 1;
    r := ReadMember(slot.dist, slot.h, row, vset);
  }
}
