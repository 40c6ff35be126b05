/** permute.c: the in-place shuffle driven by one random stream. */
module Permute {
  import opened Lehmer
  import opened Streams

  /** The entries at `i` and `j` have changed places and the others are where they were. */
  predicate Exchanged<T(==)>(s: seq<T>, t: seq<T>, i: int, j: int) {
    && |t| == |s| && 0 <= i < |s| && 0 <= j < |s| && t[i] == s[j] && t[j] == s[i]
    && forall k :: 0 <= k < |s| && k != i && k != j ==> t[k] == s[k]
  }

  function Swap<T>(s: seq<T>, i: int, j: int): (r: seq<T>)
    requires 0 <= i < |s| && 0 <= j < |s|
    ensures |r| == |s|
  {
    s[i := s[j]][j := s[i]]
  }

  function Identity(n: nat): (r: seq<int>)
    ensures |r| == n && forall i :: 0 <= i < n ==> r[i] == i
  {
    seq(n, i => i)
  }

  /** The index drawn in turn `i` of a shuffle of `n` entries from a stream at `seed`. */
  function Pick(seed: int, n: nat, i: nat): (j: int)
    requires n > 0
    ensures 0 <= j < n
  {
    assert 0 <= Next(Advance(seed, i));
    Uniform(Next(Advance(seed, i)), 0, n - 1)
  }

  /** Turns `i` to `n - 1` of the shuffle. */
  function ShuffleFrom<T>(s: seq<T>, seed: int, i: nat): (r: seq<T>)
    ensures |r| == |s|
    decreases |s| - i
  {
    if i >= |s| then s else ShuffleFrom(Swap(s, i, Pick(seed, |s|, i)), seed, i + 1)
  }

  function Shuffle<T>(s: seq<T>, seed: int): (r: seq<T>)
    ensures |r| == |s|
  {
    ShuffleFrom(s, seed, 0)
  }

  // ---------------------------------------------------------------- the shuffle, turn by turn

  /** Turn `i` on `n` entries: the draw is the stream's next value, and entry `i` is exchanged with the
      entry whose index is the draw modulo the size. */
  ghost predicate IsTurn(before: seq<int>, after: seq<int>, previous: int, drawn: int, pick: int, i: int, n: nat) {
    && drawn == (MULT * previous) % MODULUS
    && 0 <= pick < n && (drawn - pick) % n == 0
    && |before| == n && Exchanged(before, after, i, pick)
  }

  /** A run of the loop, one state and one draw a turn. */
  ghost predicate ShuffleRun(steps: seq<seq<int>>, drawn: seq<int>, picks: seq<int>, seed: int, n: nat) {
    && |steps| == |drawn| + 1 && |picks| == |drawn|
    && forall i :: 0 <= i < |drawn| ==>
      IsTurn(steps[i], steps[i + 1], if i == 0 then seed else drawn[i - 1], drawn[i], picks[i], i, n)
  }

  /** The run of all turns that starts from `s` ends with `t`. */
  ghost predicate IsShuffle(s: seq<int>, t: seq<int>, seed: int) {
    exists steps, drawn, picks ::
      ShuffleRun(steps, drawn, picks, seed, |s|) && |drawn| == |s| && steps[0] == s && steps[|s|] == t
  }

  lemma SwapExchanges(s: seq<int>, i: int, j: int)
    requires 0 <= i < |s| && 0 <= j < |s|
    ensures Exchanged(s, Swap(s, i, j), i, j)
  {
  }

  /** An index drawn from 0 to n - 1 is the draw modulo n. */
  lemma IndexLaw(draw: nat, n: nat, j: int)
    requires n > 0 && j == Uniform(draw, 0, n - 1)
    ensures (draw - j) % n == 0
  {
    UniformLaw(draw, 0, n - 1);
    assert n - 1 - 0 + 1 == n && j - 0 == j;
  }

  lemma TurnOfShuffle(s: seq<int>, seed: int, i: nat, n: nat)
    requires i < n == |s|
    ensures var previous := Advance(seed, i);
      IsTurn(s, Swap(s, i, Pick(seed, n, i)), previous, Next(previous), Pick(seed, n, i), i, n)
  {
    var j := Pick(seed, n, i);
    IndexLaw(Next(Advance(seed, i)), n, j);
    SwapExchanges(s, i, j);
  }

  lemma OneMoreTurn(steps: seq<seq<int>>, drawn: seq<int>, picks: seq<int>, seed: int, n: nat,
                    after: seq<int>, value: int, pick: int)
    requires ShuffleRun(steps, drawn, picks, seed, n)
    requires var k := |drawn|; IsTurn(steps[k], after, if k == 0 then seed else drawn[k - 1], value, pick, k, n)
    ensures ShuffleRun(steps + [after], drawn + [value], picks + [pick], seed, n)
  {
  }

  /** The first `k` turns. */
  lemma {:induction false} ShufflePrefix(s: seq<int>, seed: int, k: nat)
    returns (steps: seq<seq<int>>, drawn: seq<int>, picks: seq<int>)
    requires k <= |s|
    ensures ShuffleRun(steps, drawn, picks, seed, |s|) && |drawn| == k && steps[0] == s && |steps[k]| == |s|
    ensures ShuffleFrom(steps[k], seed, k) == Shuffle(s, seed)
    ensures (if k == 0 then seed else drawn[k - 1]) == Advance(seed, k)
  {
    if k == 0 {
      steps, drawn, picks := [s], [], [];
    } else {
      var now, before, chosen := ShufflePrefix(s, seed, k - 1);
      var j := Pick(seed, |s|, k - 1);
      var after, value := Swap(now[k - 1], k - 1, j), Next(Advance(seed, k - 1));
      TurnOfShuffle(now[k - 1], seed, k - 1, |s|);
      OneMoreTurn(now, before, chosen, seed, |s|, after, value, j);
      steps, drawn, picks := now + [after], before + [value], chosen + [j];
    }
  }

  /** The shuffle is the run of its turns. */
  lemma {:induction false} ShuffleIsRun(s: seq<int>, seed: int)
    ensures IsShuffle(s, Shuffle(s, seed), seed)
  {
    var steps, drawn, picks := ShufflePrefix(s, seed, |s|);
    assert ShuffleRun(steps, drawn, picks, seed, |s|);
  }

  // ---------------------------------------------------------------- permutations

  ghost predicate IsPermutation(p: seq<int>) {
    multiset(p) == multiset(Identity(|p|))
  }

  lemma SwapMultiset<T>(s: seq<T>, i: int, j: int)
    requires 0 <= i < |s| && 0 <= j < |s|
    ensures multiset(Swap(s, i, j)) == multiset(s)
  {
  }

  lemma {:induction false} ShuffleMultiset<T>(s: seq<T>, seed: int, i: nat)
    ensures multiset(ShuffleFrom(s, seed, i)) == multiset(s)
    decreases |s| - i
  {
    if i >= |s| {
    } else {
      SwapMultiset(s, i, Pick(seed, |s|, i));
      ShuffleMultiset(Swap(s, i, Pick(seed, |s|, i)), seed, i + 1);
    }
  }

  lemma PermutationEntries(p: seq<int>)
    requires IsPermutation(p)
    ensures forall i :: 0 <= i < |p| ==> 0 <= p[i] < |p|
  {
    forall i | 0 <= i < |p|
      ensures 0 <= p[i] < |p|
    {
      assert p[i] in multiset(p);
      assert p[i] in Identity(|p|);
    }
  }

  lemma {:induction false} IdentityOccurrences(n: nat, x: int)
    ensures multiset(Identity(n))[x] == if 0 <= x < n then 1 else 0
  {
    if n == 0 {
    } else {
      assert Identity(n) == Identity(n - 1) + [n - 1];
      IdentityOccurrences(n - 1, x);
    }
  }

  lemma PermutationInjective(p: seq<int>, i: nat, j: nat)
    requires IsPermutation(p) && i < j < |p|
    ensures p[i] != p[j]
  {
    IdentityOccurrences(|p|, p[i]);
    assert p == p[..i] + [p[i]] + p[i + 1..j] + [p[j]] + p[j + 1..];
  }

  predicate Indices(p: seq<int>, n: nat) {
    forall i :: 0 <= i < |p| ==> 0 <= p[i] < n
  }

  /** The sequence `s` read through the indices `p`. */
  function Compose<T>(s: seq<T>, p: seq<int>): (r: seq<T>)
    requires Indices(p, |s|)
    ensures |r| == |p| && forall i :: 0 <= i < |p| ==> r[i] == s[p[i]]
  {
    seq(|p|, i requires 0 <= i < |p| => s[p[i]])
  }

  lemma {:induction false} ShuffleComposed<T>(s: seq<T>, p: seq<int>, seed: int, i: nat)
    requires Indices(p, |s|)
    ensures Indices(ShuffleFrom(p, seed, i), |s|)
    ensures ShuffleFrom(Compose(s, p), seed, i) == Compose(s, ShuffleFrom(p, seed, i))
    decreases |p| - i
  {
    if i >= |p| {
    } else {
      var j := Pick(seed, |p|, i);
      assert Swap(Compose(s, p), i, j) == Compose(s, Swap(p, i, j));
      ShuffleComposed(s, Swap(p, i, j), seed, i + 1);
    }
  }

  /** A shuffle moves entries by position: it reads any array through the shuffled indices. */
  lemma ShuffleIsRearrangement<T>(s: seq<T>, seed: int)
    ensures Indices(Shuffle(Identity(|s|), seed), |s|) && IsPermutation(Shuffle(Identity(|s|), seed))
    ensures Shuffle(s, seed) == Compose(s, Shuffle(Identity(|s|), seed))
  {
    assert Compose(s, Identity(|s|)) == s;
    ShuffleComposed(s, Identity(|s|), seed, 0);
    ShuffleMultiset(Identity(|s|), seed, 0);
  }

  // ---------------------------------------------------------------- the code

  /** One exchange of the loop. */
  method Exchange(numbers: array<int>, i: nat, j: nat)
    requires i < numbers.Length && j < numbers.Length
    modifies numbers
    ensures numbers[i] == old(numbers[j]) && numbers[j] == old(numbers[i])
    ensures forall k :: 0 <= k < numbers.Length && k != i && k != j ==> numbers[k] == old(numbers[k])
    ensures numbers[..] == Swap(old(numbers[..]), i, j)
  {
    var nTemp := numbers[i];
    numbers[i] := numbers[j];
    numbers[j] := nTemp;
  }

  lemma ShuffleTurn<T>(s: seq<T>, seed: int, i: nat)
    requires i < |s|
    ensures ShuffleFrom(s, seed, i) == ShuffleFrom(Swap(s, i, Pick(seed, |s|, i)), seed, i + 1)
  {
  }

  method ShuffleInPlace(numbers: array<int>, streams: array<Stream>, nStream: nat)
    requires nStream < streams.Length && StreamOk(streams[nStream])
    modifies numbers, streams
    ensures numbers[..] == Shuffle(old(numbers[..]), old(streams[nStream]).nSeed)
    ensures streams[..] == old(streams[..])[nStream := DrawnTimes(old(streams[nStream]), numbers.Length)]
  {
    ghost var seed, start, n := streams[nStream].nSeed, numbers[..], numbers.Length;
    ghost var now := start;
    for i := 0 to numbers.Length
      invariant numbers[..] == now && |now| == n
      invariant StreamOk(streams[nStream]) && streams[nStream].nSeed == Advance(seed, i)
      invariant streams[..] == old(streams[..])[nStream := DrawnTimes(old(streams[nStream]), i)]
      invariant ShuffleFrom(now, seed, i) == Shuffle(start, seed)
    {
      ShuffleTurn(now, seed, i);
      var nIndex := GenrandInteger(streams, 0, numbers.Length - 1, nStream);
      Exchange(numbers, i, nIndex);
      now := Swap(now, i, nIndex);
    }
  }

  /** `makePermutation`: the numbers 0 to nSize - 1 when no array is passed, and then the shuffle in
      place. A size that is not positive gives no array. */
  method MakePermutation(nNumberSet: array?<int>, nSize: int, streams: array<Stream>,
                         nStream: nat) returns (r: array?<int>)
    requires nStream < streams.Length && StreamOk(streams[nStream])
    requires nNumberSet != null ==> nNumberSet.Length == nSize
    modifies streams, if nNumberSet == null then {} else {nNumberSet}
    ensures nSize <= 0 ==> r == null && streams[..] == old(streams[..])
    ensures nSize > 0 ==> streams[..] == old(streams[..])[nStream := DrawnTimes(old(streams[nStream]), nSize)]
    ensures nSize > 0 ==> r != null && r.Length == nSize
    ensures nSize > 0 && nNumberSet != null ==> r == nNumberSet && r[..] == Shuffle(old(nNumberSet[..]), old(streams[nStream]).nSeed)
    ensures nSize > 0 && nNumberSet == null ==> fresh(r) && r[..] == Shuffle(Identity(nSize), old(streams[nStream]).nSeed)
    ensures nSize > 0 && nNumberSet != null ==> IsShuffle(old(nNumberSet[..]), r[..], old(streams[nStream]).nSeed)
    ensures nSize > 0 && nNumberSet == null ==> IsShuffle(seq(nSize, i => i), r[..], old(streams[nStream]).nSeed)
  {
    if nSize <= 0 {
      return null;
    }
    var numbers: array<int>;
    if nNumberSet == null {
      numbers := new int[nSize];
      for i := 0 to nSize
        invariant streams[..] == old(streams[..])
        invariant forall k :: 0 <= k < i ==> numbers[k] == k
      {
        numbers[i] := i;
      }
      assert numbers[..] == Identity(nSize) == seq(nSize, i => i);
    } else {
      numbers := nNumberSet;
    }
    ShuffleIsRun(numbers[..], streams[nStream].nSeed);
    ShuffleInPlace(numbers, streams, nStream);
    r := numbers;
  }
}
