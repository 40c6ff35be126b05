/** Item choice in the order tables (s_purchase.c and s_pline.c, s_catalog_order.c and
    s_catalog_order_lineitem.c): neighbouring entries of one shuffled list of items. */
module Orders {
  import opened CInt
  import opened Lehmer
  import opened Streams
  import opened Permute
  import opened Scd

  const PURCHASE_LINES := 12
  const CATALOG_LINES := 9

  /** The cursor after one more line. */
  function NextCursor(cursor: int, n: int): int {
    if cursor + 1 > n then 1 else cursor + 1
  }

  /** The cursor on line `i`, where line 0 stands for the draw that starts the order. */
  function Cursor(start: int, n: int, i: nat): (c: int)
    requires 1 <= start <= n
    ensures 1 <= c <= n
  {
    if i == 0 then start else NextCursor(Cursor(start, n, i - 1), n)
  }

  /** The key of the item at a cursor. */
  function ItemKey(p: seq<int>, cursor: int): int
    requires 1 <= cursor <= |p|
  {
    GetFirstSK(p[cursor - 1] + 1)
  }

  /** The item keys of an order of `lines` lines. */
  function OrderItems(p: seq<int>, start: int, lines: nat): (items: seq<int>)
    requires 1 <= start <= |p|
    ensures |items| == lines && forall i :: 0 <= i < lines ==> items[i] == ItemKey(p, Cursor(start, |p|, i + 1))
  {
    if lines == 0 then [] else OrderItems(p, start, lines - 1) + [ItemKey(p, Cursor(start, |p|, lines))]
  }

  lemma NextModulo(a: nat, n: nat)
    requires n > 0
    ensures (a + 1) % n == if a % n + 1 == n then 0 else a % n + 1
  {
    var q, r := a / n, a % n;
    assert a == n * q + r;
    if r + 1 == n {
      DivModUnique(a + 1, n, q + 1, 0);
    } else {
      DivModUnique(a + 1, n, q, r + 1);
    }
  }

  lemma {:induction false} CursorModulo(start: int, n: int, i: nat)
    requires 1 <= start <= n
    ensures Cursor(start, n, i) == (start - 1 + i) % n + 1
  {
    if i == 0 {
      DivModUnique(start - 1, n, 0, start - 1);
    } else {
      CursorModulo(start, n, i - 1);
      NextModulo(start - 1 + (i - 1), n);
    }
  }

  /** The first surrogate key of an ID that is among the first `n`. */
  predicate IsFirstKeyOf(key: int, id: int, n: int) {
    1 <= id <= n && key >= 1 && Id(key) == id && (key == 1 || Id(key - 1) == id - 1)
  }

  lemma FirstKey(id: int, n: int)
    requires 1 <= id <= n
    ensures IsFirstKeyOf(GetFirstSK(id), id, n)
  {
    IdOfSk(id, 0);
    if id > 1 {
      FirstSKNext(id - 1);
      IdOfSk(id - 1, Revisions(id - 1) - 1);
    }
  }

  /** The line at position `i` of an order takes the entry `i` places, in a circle, from the one after
      the starting cursor. */
  ghost predicate TakesInTurn(items: seq<int>, p: seq<int>, start: int) {
    |p| > 0 && forall i :: 0 <= i < |items| ==> IsFirstKeyOf(items[i], p[(start + i) % |p|] + 1, |p|)
  }

  lemma EntryKey(p: seq<int>, at: int)
    requires IsPermutation(p) && 0 <= at < |p|
    ensures GetFirstSK(p[at] + 1) == ItemKey(p, at + 1) && IsFirstKeyOf(ItemKey(p, at + 1), p[at] + 1, |p|)
  {
    PermutationEntries(p);
    FirstKey(p[at] + 1, |p|);
  }

  lemma LineTakes(p: seq<int>, start: int, i: nat, at: int)
    requires IsPermutation(p) && 1 <= start <= |p| && at == (start + i) % |p|
    ensures 0 <= at < |p| && IsFirstKeyOf(ItemKey(p, Cursor(start, |p|, i + 1)), p[at] + 1, |p|)
  {
    CursorModulo(start, |p|, i + 1);
    assert Cursor(start, |p|, i + 1) == at + 1;
    EntryKey(p, at);
  }

  lemma OrderTakesInTurn(p: seq<int>, start: int, lines: nat)
    requires IsPermutation(p) && 1 <= start <= |p|
    ensures TakesInTurn(OrderItems(p, start, lines), p, start)
  {
    forall i: nat | i < lines
      ensures IsFirstKeyOf(OrderItems(p, start, lines)[i], p[(start + i) % |p|] + 1, |p|)
    {
      LineTakes(p, start, i, (start + i) % |p|);
    }
  }

  /** `nItemIndex` and the permutation of item IDs, made once. */
  class ItemCursor {
    const permutation: array<int>

    var nItemIndex: int

    ghost predicate Valid()
      reads this, permutation
    {
      permutation.Length > 0 && IsPermutation(permutation[..])
    }

    constructor (streams: array<Stream>, nItemIDCount: int, nStream: nat)
      requires nStream < streams.Length && StreamOk(streams[nStream]) && nItemIDCount > 0
      modifies streams
      ensures Valid() && fresh(permutation) && permutation.Length == nItemIDCount
      ensures IsShuffle(seq(nItemIDCount, i => i), permutation[..], old(streams[nStream].nSeed))
    {
      var p := MakePermutation(null, nItemIDCount, streams, nStream);
      permutation := p;
      nItemIndex := 0;
      new;
      ShuffleIsRearrangement(Identity(nItemIDCount), old(streams[nStream].nSeed));
    }

    /** One line item: advance the cursor, wrapping past the end, and take that entry. */
    method MkLine() returns (kItemID: int)
      requires Valid() && 1 <= nItemIndex <= permutation.Length
      modifies this
      ensures nItemIndex == NextCursor(old(nItemIndex), permutation.Length)
      ensures nItemIndex == if old(nItemIndex) == permutation.Length then 1 else old(nItemIndex) + 1
      ensures kItemID == ItemKey(permutation[..], nItemIndex)
      ensures IsFirstKeyOf(kItemID, permutation[nItemIndex - 1] + 1, permutation.Length)
    {
      nItemIndex := nItemIndex + 1;
      if nItemIndex > permutation.Length {
        nItemIndex := 1;
      }
      kItemID := permutation[nItemIndex - 1] + 1;
      EntryKey(permutation[..], nItemIndex - 1);
      kItemID := GetFirstSK(kItemID);
    }

    /** An order of `lines` line items, from a drawn starting cursor. */
    method MkOrder(streams: array<Stream>, nStream: nat, lines: nat) returns (items: seq<int>, ghost start: int)
      requires Valid() && nStream < streams.Length && StreamOk(streams[nStream])
      modifies this, streams
      ensures Valid() && |items| == lines
      ensures 1 <= start <= permutation.Length && (Next(old(streams[nStream].nSeed)) - (start - 1)) % permutation.Length == 0
      ensures items == OrderItems(permutation[..], start, lines) && TakesInTurn(items, permutation[..], start)
    {
      nItemIndex := GenrandInteger(streams, 1, permutation.Length, nStream);
      start := nItemIndex;
      ghost var p := permutation[..];
      items := [];
      for i := 0 to lines
        invariant permutation[..] == p && nItemIndex == Cursor(start, |p|, i)
        invariant items == OrderItems(p, start, i)
      {
        var item := MkLine();
        items := items + [item];
      }
      OrderTakesInTurn(p, start, lines);
    }
  }

  ghost predicate AllDistinct(items: seq<int>) {
    forall i, j :: 0 <= i < j < |items| ==> items[i] != items[j]
  }

  lemma {:induction false} CursorClosed(start: int, n: int, i: nat)
    requires 1 <= start <= n && i <= n
    ensures Cursor(start, n, i) == if start + i <= n then start + i else start + i - n
  {
    if i == 0 {
    } else {
      CursorClosed(start, n, i - 1);
    }
  }

  lemma KeysDiffer(p: seq<int>, a: int, b: int)
    requires IsPermutation(p) && 1 <= a <= |p| && 1 <= b <= |p| && a != b
    ensures ItemKey(p, a) != ItemKey(p, b)
  {
    PermutationEntries(p);
    PermutationInjective(p, if a < b then a - 1 else b - 1, if a < b then b - 1 else a - 1);
    IdOfSk(p[a - 1] + 1, 0);
    IdOfSk(p[b - 1] + 1, 0);
  }

  /** From any starting cursor, the items of an order are pairwise different exactly when there are
      at least as many items as lines. */
  lemma ItemsDistinctIff(p: seq<int>, start: int, lines: nat)
    requires IsPermutation(p) && 1 <= start <= |p|
    ensures AllDistinct(OrderItems(p, start, lines)) <==> lines <= |p|
  {
    var items := OrderItems(p, start, lines);
    if lines <= |p| {
      forall i, j | 0 <= i < j < lines
        ensures items[i] != items[j]
      {
        CursorClosed(start, |p|, i + 1);
        CursorClosed(start, |p|, j + 1);
        KeysDiffer(p, Cursor(start, |p|, i + 1), Cursor(start, |p|, j + 1));
      }
    } else {
      CursorClosed(start, |p|, |p|);
      assert Cursor(start, |p|, |p| + 1) == Cursor(start, |p|, 1);
      assert items[0] == items[|p|];
    }
  }

  /** Every purchase of an item list of 12 or more, and every catalog order of one of 9 or more, has
      pairwise different items. */
  lemma OrdersHaveDistinctItems(p: seq<int>, start: int)
    requires IsPermutation(p) && 1 <= start <= |p|
    ensures |p| >= PURCHASE_LINES <==> AllDistinct(OrderItems(p, start, PURCHASE_LINES))
    ensures |p| >= CATALOG_LINES <==> AllDistinct(OrderItems(p, start, CATALOG_LINES))
  {
    ItemsDistinctIff(p, start, PURCHASE_LINES);
    ItemsDistinctIff(p, start, CATALOG_LINES);
  }
}
