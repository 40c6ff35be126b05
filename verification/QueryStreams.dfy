/** QgenMain.c's `generateQueryStreams`: which template each query stream runs, and when. */
module QueryStreams {
  import opened CInt
  import opened Streams
  import opened Permute

  const PERMUTE_SEED := 19620718

  /** The permutation of stream 0: it depends on the number of templates only. */
  function FirstPermutation(n: nat): (p: seq<int>)
    ensures |p| == n && Indices(p, n)
  {
    ShuffleIsRearrangement(Identity(n), PERMUTE_SEED);
    Shuffle(Identity(n), PERMUTE_SEED)
  }

  /** `k` applications of a permutation, one after the other. */
  function Power(p: seq<int>, k: nat): (r: seq<int>)
    requires Indices(p, |p|)
    ensures |r| == |p| && Indices(r, |p|)
  {
    if k == 0 then Identity(|p|) else Compose(Power(p, k - 1), p)
  }

  /** Reshuffling the array left by stream k - 1 with the same seed gives the next power. */
  lemma ReshuffleIsNextPower(n: nat, k: nat)
    ensures Shuffle(Power(FirstPermutation(n), k), PERMUTE_SEED) == Power(FirstPermutation(n), k + 1)
  {
    ShuffleIsRearrangement(Power(FirstPermutation(n), k), PERMUTE_SEED);
  }

  lemma {:induction false} PowerIsPermutation(n: nat, k: nat)
    ensures IsPermutation(Power(FirstPermutation(n), k))
  {
    if k == 0 {
    } else {
      PowerIsPermutation(n, k - 1);
      ReshuffleIsNextPower(n, k - 1);
      ShuffleMultiset(Power(FirstPermutation(n), k - 1), PERMUTE_SEED, 0);
    }
  }

  function Repeat(x: int, count: nat): seq<int> {
    if count == 0 then [] else Repeat(x, count - 1) + [x]
  }

  /** The template numbers a stream runs: each entry of the permutation, one-based, `count` times. */
  function Emission(p: seq<int>, count: nat): seq<int> {
    if p == [] then [] else Emission(p[..|p| - 1], count) + Repeat(p[|p| - 1] + 1, count)
  }

  lemma {:induction false} RepeatAt(x: int, count: nat)
    ensures |Repeat(x, count)| == count && forall v :: 0 <= v < count ==> Repeat(x, count)[v] == x
  {
    if count == 0 {
    } else {
      RepeatAt(x, count - 1);
    }
  }

  lemma BlockEnd(n: nat, count: nat)
    requires n > 0
    ensures n * count == (n - 1) * count + count
  {
  }

  lemma {:induction false} EmissionSize(p: seq<int>, count: nat)
    ensures |Emission(p, count)| == |p| * count
  {
    if p == [] {
    } else {
      EmissionSize(p[..|p| - 1], count);
      RepeatAt(p[|p| - 1] + 1, count);
      BlockEnd(|p|, count);
    }
  }

  /** Version `v` of the entry at `q`. */
  lemma {:induction false} EmissionAt(p: seq<int>, count: nat, q: nat, v: nat)
    requires q < |p| && v < count
    ensures 0 <= q * count + v < |Emission(p, count)| == |p| * count
    ensures Emission(p, count)[q * count + v] == p[q] + 1
    decreases |p|
  {
    var front := p[..|p| - 1];
    BlockBound(q, count, |p|, v + 1);
    EmissionSize(p, count);
    EmissionSize(front, count);
    RepeatAt(p[|p| - 1] + 1, count);
    if q < |front| {
      EmissionAt(front, count, q, v);
    }
  }

  /** Position `i` belongs to query number i / count, one-based. */
  ghost predicate InPlace(file: seq<int>, order: seq<int>, count: nat, i: nat) {
    && i < |file| && count > 0
    && var q := i / count; q < |order| && file[i] == order[q] + 1
  }

  /** The file runs `count` versions of each entry of `order`, one after the other. */
  ghost predicate RunsInOrder(file: seq<int>, order: seq<int>, count: nat) {
    |file| == |order| * count && forall i: nat :: i < |file| ==> InPlace(file, order, count, i)
  }

  lemma NoCopies(n: nat, count: nat)
    requires n * count > 0
    ensures count > 0
  {
  }

  lemma Position(i: nat, n: nat, count: nat) returns (q: nat, v: nat)
    requires i < n * count
    ensures count > 0 && q < n && v < count && i == q * count + v && i / count == q
  {
    NoCopies(n, count);
    assert n * count == count * n;
    QuotientBelow(i, count, n);
    q, v := i / count, i % count;
    assert i == count * q + v;
  }

  lemma EmissionPosition(p: seq<int>, count: nat, i: nat, size: nat)
    requires size == |p| * count && i < size
    ensures InPlace(Emission(p, count), p, count, i)
  {
    var q, v := Position(i, |p|, count);
    EmissionAt(p, count, q, v);
  }

  lemma EmissionInOrder(p: seq<int>, count: nat)
    ensures RunsInOrder(Emission(p, count), p, count)
  {
    EmissionSize(p, count);
    forall i: nat | i < |Emission(p, count)|
      ensures InPlace(Emission(p, count), p, count, i)
    {
      EmissionPosition(p, count, i, |p| * count);
    }
  }

  /** Version `v` of query `q`. */
  lemma VersionAt(file: seq<int>, order: seq<int>, count: nat, q: nat, v: nat)
    requires RunsInOrder(file, order, count) && q < |order| && v < count
    ensures 0 <= q * count + v < |file| && file[q * count + v] == order[q] + 1
  {
    BlockBound(q, count, |order|, v + 1);
    DivModUnique(q * count + v, count, q, v);
    assert InPlace(file, order, count, q * count + v);
  }

  /** How often `x` occurs in `s`. */
  function Count(s: seq<int>, x: int): nat {
    if s == [] then 0 else Count(s[..|s| - 1], x) + if s[|s| - 1] == x then 1 else 0
  }

  lemma {:induction false} CountIsMultiplicity(s: seq<int>, x: int)
    ensures Count(s, x) == multiset(s)[x]
  {
    if s == [] {
    } else {
      CountIsMultiplicity(s[..|s| - 1], x);
      assert s == s[..|s| - 1] + [s[|s| - 1]];
    }
  }

  lemma {:induction false} CountAppend(a: seq<int>, b: seq<int>, x: int)
    ensures Count(a + b, x) == Count(a, x) + Count(b, x)
  {
    if b == [] {
      assert a + b == a;
    } else {
      assert (a + b)[..|a + b| - 1] == a + b[..|b| - 1];
      CountAppend(a, b[..|b| - 1], x);
    }
  }

  lemma {:induction false} CountRepeat(x: int, count: nat, t: int)
    ensures Count(Repeat(x, count), t) == if t == x then count else 0
  {
    if count == 0 {
    } else {
      CountRepeat(x, count - 1, t);
      CountAppend(Repeat(x, count - 1), [x], t);
    }
  }

  /** `m` times `count`, by addition. */
  function Times(m: nat, count: nat): nat {
    if m == 0 then 0 else Times(m - 1, count) + count
  }

  lemma EmissionLast(p: seq<int>, count: nat, t: int, m: nat)
    requires p != [] && Count(Emission(p[..|p| - 1], count), t) == m
    ensures Count(Emission(p, count), t) == m + if p[|p| - 1] == t - 1 then count else 0
  {
    CountRepeat(p[|p| - 1] + 1, count, t);
    CountAppend(Emission(p[..|p| - 1], count), Repeat(p[|p| - 1] + 1, count), t);
  }

  lemma {:induction false} CountEmission(p: seq<int>, count: nat, t: int, m: nat)
    requires Count(p, t - 1) == m
    ensures Count(Emission(p, count), t) == Times(m, count)
  {
    if p == [] {
    } else {
      var m0 := Count(p[..|p| - 1], t - 1);
      CountEmission(p[..|p| - 1], count, t, m0);
      EmissionLast(p, count, t, Times(m0, count));
    }
  }

  /** What stream `k` runs, for `n` templates and `count` versions of each. */
  function StreamTemplates(n: nat, count: nat, qualify: bool, k: nat): seq<int> {
    Emission(if qualify then Identity(n) else Power(FirstPermutation(n), k + 1), count)
  }

  lemma PermutationEmission(p: seq<int>, count: nat, t: int)
    requires IsPermutation(p)
    ensures multiset(Emission(p, count))[t] == if 1 <= t <= |p| then count else 0
  {
    CountEmission(p, count, t, Count(p, t - 1));
    CountIsMultiplicity(Emission(p, count), t);
    CountIsMultiplicity(p, t - 1);
    IdentityOccurrences(|p|, t - 1);
    assert Times(1, count) == Times(0, count) + count;
  }

  /** Every stream runs every template exactly `count` times, and nothing else. */
  lemma EveryTemplateCountTimes(n: nat, count: nat, qualify: bool, k: nat, t: int)
    ensures multiset(StreamTemplates(n, count, qualify, k))[t] == if 1 <= t <= n then count else 0
  {
    if qualify {
      PermutationEmission(Identity(n), count, t);
    } else {
      PowerIsPermutation(n, k + 1);
      PermutationEmission(Power(FirstPermutation(n), k + 1), count, t);
    }
  }

  /** The array after `k` streams. */
  ghost predicate Shuffled(permutation: array?<int>, n: nat, k: nat)
    reads permutation
  {
    if n == 0 || k == 0 then permutation == null
    else permutation != null && permutation.Length == n && permutation[..] == Power(FirstPermutation(n), k)
  }

  /** Reset the seeds of stream 1 and reshuffle the array the previous query stream left. */
  method NextPermutation(streams: array<Stream>, permutation: array?<int>, nQueryCount: nat, ghost k: nat)
    returns (r: array?<int>)
    requires streams.Length > 1 && Shuffled(permutation, nQueryCount, k)
    modifies streams, if permutation == null then {} else {permutation}
    ensures Shuffled(r, nQueryCount, k + 1) && (r != null ==> fresh(r) || r == permutation)
  {
    streams[1] := streams[1].(nInitialSeed := PERMUTE_SEED, nSeed := PERMUTE_SEED);
    ReshuffleIsNextPower(nQueryCount, k);
    r := MakePermutation(permutation, nQueryCount, streams, 1);
  }

  /** The file runs the templates in their own order under QUALIFY, and in the array's otherwise. */
  ghost predicate TakesFrom(file: seq<int>, permutation: array?<int>, n: nat, count: nat, qualify: bool)
    reads permutation
  {
    RunsInOrder(file, if qualify || permutation == null then seq(n, q => q) else permutation[..], count)
  }

  lemma Taken(permutation: array?<int>, n: nat, count: nat, qualify: bool, k: nat)
    requires Shuffled(permutation, n, k + 1)
    ensures TakesFrom(StreamTemplates(n, count, qualify, k), permutation, n, count, qualify)
  {
    var p := if qualify then Identity(n) else Power(FirstPermutation(n), k + 1);
    EmissionInOrder(p, count);
    assert Identity(n) == seq(n, q => q);
    if n == 0 {
      assert p == Identity(n);
    }
  }

  /** The innermost loop: the versions of one query. */
  method RunQuery(permutation: array?<int>, nQuery: int, nVersionCount: nat, qualify: bool, file0: seq<int>, ghost x: int)
    returns (file: seq<int>)
    requires !qualify ==> permutation != null && 1 <= nQuery <= permutation.Length
    requires x == if qualify then nQuery else permutation[nQuery - 1] + 1
    ensures file == file0 + Repeat(x, nVersionCount)
  {
    file := file0;
    for nCount := 1 to nVersionCount + 1
      invariant file == file0 + Repeat(x, nCount - 1)
    {
      var nQID := if qualify then nQuery else permutation[nQuery - 1] + 1;
      file := file + [nQID];
    }
  }

  /** The two inner loops: every query, `nVersionCount` versions of each. */
  method RunStream(permutation: array?<int>, nQueryCount: nat, nVersionCount: nat, qualify: bool, ghost k: nat)
    returns (file: seq<int>)
    requires Shuffled(permutation, nQueryCount, k + 1)
    ensures TakesFrom(file, permutation, nQueryCount, nVersionCount, qualify)
    ensures file == StreamTemplates(nQueryCount, nVersionCount, qualify, k)
  {
    file := [];
    ghost var p := if qualify then Identity(nQueryCount) else Power(FirstPermutation(nQueryCount), k + 1);
    for nQuery := 1 to nQueryCount + 1
      invariant file == Emission(p[..nQuery - 1], nVersionCount)
    {
      file := RunQuery(permutation, nQuery, nVersionCount, qualify, file, p[nQuery - 1] + 1);
      assert p[..nQuery][..nQuery - 1] == p[..nQuery - 1];
    }
    assert p[..nQueryCount] == p;
    Taken(permutation, nQueryCount, nVersionCount, qualify, k);
  }

  /** The orders of the streams: each is the shuffle, with the seed reset, of the order before. */
  ghost predicate Reshuffled(orders: seq<seq<int>>, n: nat) {
    forall k :: 0 <= k < |orders| ==>
      |orders[k]| == n && IsShuffle(if k == 0 then seq(n, q => q) else orders[k - 1], orders[k], PERMUTE_SEED)
  }

  /** File `k` runs every query of order `k`, or of the templates' own order under QUALIFY. */
  ghost predicate AllInOrder(files: seq<seq<int>>, orders: seq<seq<int>>, n: nat, count: nat, qualify: bool) {
    && |orders| == |files|
    && forall k :: 0 <= k < |files| ==> RunsInOrder(files[k], if qualify then seq(n, q => q) else orders[k], count)
  }

  /** The order of stream `k`. */
  function Order(n: nat, k: nat): (p: seq<int>)
    ensures |p| == n
  {
    Power(FirstPermutation(n), k + 1)
  }

  /** The orders of the first `k` streams. */
  function Orders(n: nat, k: nat): (orders: seq<seq<int>>)
    ensures |orders| == k && forall j :: 0 <= j < k ==> orders[j] == Order(n, j)
  {
    seq(k, j requires 0 <= j < k => Order(n, j))
  }

  lemma OrderIsShuffle(n: nat, k: nat)
    ensures IsShuffle(if k == 0 then seq(n, q => q) else Order(n, k - 1), Order(n, k), PERMUTE_SEED)
  {
    var before := Power(FirstPermutation(n), k);
    ReshuffleIsNextPower(n, k);
    ShuffleIsRun(before, PERMUTE_SEED);
    if k == 0 {
      assert before == seq(n, q => q);
    }
  }

  lemma OrdersAreReshuffled(n: nat, k: nat)
    ensures Reshuffled(Orders(n, k), n)
  {
    forall j | 0 <= j < k
      ensures IsShuffle(if j == 0 then seq(n, q => q) else Orders(n, k)[j - 1], Orders(n, k)[j], PERMUTE_SEED)
    {
      OrderIsShuffle(n, j);
    }
  }

  lemma TemplatesInOrder(n: nat, count: nat, qualify: bool, k: nat)
    ensures RunsInOrder(StreamTemplates(n, count, qualify, k), if qualify then seq(n, q => q) else Order(n, k), count)
  {
    EmissionInOrder(if qualify then Identity(n) else Order(n, k), count);
    assert Identity(n) == seq(n, q => q);
  }

  ghost predicate IsFile(file: seq<int>, n: nat, count: nat, qualify: bool, k: nat) {
    file == StreamTemplates(n, count, qualify, k)
  }

  ghost predicate AllTemplates(files: seq<seq<int>>, n: nat, count: nat, qualify: bool) {
    forall k: nat :: k < |files| ==> IsFile(files[k], n, count, qualify, k)
  }

  lemma OneMoreFile(files: seq<seq<int>>, file: seq<int>, n: nat, count: nat, qualify: bool)
    requires AllTemplates(files, n, count, qualify) && IsFile(file, n, count, qualify, |files|)
    ensures AllTemplates(files + [file], n, count, qualify)
  {
    forall k: nat | k < |files| + 1
      ensures IsFile((files + [file])[k], n, count, qualify, k)
    {
      assert k < |files| ==> IsFile(files[k], n, count, qualify, k);
    }
  }

  lemma FilesInOrder(files: seq<seq<int>>, n: nat, count: nat, qualify: bool)
    requires AllTemplates(files, n, count, qualify)
    ensures AllInOrder(files, Orders(n, |files|), n, count, qualify)
  {
    forall k | 0 <= k < |files|
      ensures RunsInOrder(files[k], if qualify then seq(n, q => q) else Orders(n, |files|)[k], count)
    {
      assert IsFile(files[k], n, count, qualify, k);
      TemplatesInOrder(n, count, qualify, k);
    }
  }

  /** The stream loop. Query files are sequences of template numbers, in the order they are written. */
  method GenerateQueryStreams(streams: array<Stream>, nQueryCount: nat, nVersionCount: nat, nStreams: nat,
                              qualify: bool)
    returns (files: seq<seq<int>>, ghost orders: seq<seq<int>>)
    requires streams.Length > 1
    modifies streams
    ensures |files| == |orders| == nStreams && Reshuffled(orders, nQueryCount)
    ensures AllInOrder(files, orders, nQueryCount, nVersionCount, qualify)
    ensures AllTemplates(files, nQueryCount, nVersionCount, qualify)
  {
    files := [];
    var permutation: array?<int> := null;
    for nStream := 0 to nStreams
      invariant Shuffled(permutation, nQueryCount, nStream) && (permutation != null ==> fresh(permutation))
      invariant |files| == nStream && AllTemplates(files, nQueryCount, nVersionCount, qualify)
    {
      permutation := NextPermutation(streams, permutation, nQueryCount, nStream);
      var file := RunStream(permutation, nQueryCount, nVersionCount, qualify, nStream);
      OneMoreFile(files, file, nQueryCount, nVersionCount, qualify);
      files := files + [file];
    }
    orders := Orders(nQueryCount, nStreams);
    OrdersAreReshuffled(nQueryCount, nStreams);
    FilesInOrder(files, nQueryCount, nVersionCount, qualify);
  }
}
