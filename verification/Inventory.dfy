/** The inventory update: s_inventory.c's rows, and scaling.c's division of an update into days. */
module Inventory {
  import opened CInt
  import opened Lehmer
  import opened Streams
  import opened Scd

  const DAYS := 6

  /** The rows of the first `n` days. */
  function RowsBefore(daily: seq<int>, n: nat): int
    requires n <= |daily|
  {
    if n == 0 then 0 else RowsBefore(daily, n - 1) + daily[n - 1]
  }

  /** The entry of `arRowcount` for an update table. */
  class RowCounts {
    const kDayRowcount: array<int>

    var kBaseRowcount: int
    var kNextInsertValue: int

    constructor (base: int)
      ensures fresh(kDayRowcount) && kDayRowcount.Length == DAYS && kBaseRowcount == base
    {
      kDayRowcount := new int[DAYS](_ => 0);
      kBaseRowcount, kNextInsertValue := base, 0;
    }

    /** `setUpdateScaling`: the running totals of the days, and where update number `update` starts to
        insert: after the base rows and the updates before it. `daily` is what `dateScaling` says of
        the update's days. */
    method SetUpdateScaling(daily: seq<int>, update: int)
      requires kDayRowcount.Length == DAYS == |daily|
      modifies this, kDayRowcount
      ensures forall i :: 0 <= i < DAYS ==> kDayRowcount[i] == RowsBefore(daily, i + 1)
      ensures forall i :: 0 <= i < DAYS ==> kDayRowcount[i] == daily[i] + if i == 0 then 0 else kDayRowcount[i - 1]
      ensures kBaseRowcount == kDayRowcount[5]
      ensures kNextInsertValue == old(kBaseRowcount) + (update - 1) * kDayRowcount[5]
    {
      var kNewRowcount := 0;
      kNextInsertValue := kBaseRowcount;
      for i := 0 to DAYS
        invariant kNewRowcount == RowsBefore(daily, i)
        invariant forall j :: 0 <= j < i ==> kDayRowcount[j] == RowsBefore(daily, j + 1)
        invariant kNextInsertValue == old(kBaseRowcount)
      {
        kNewRowcount := kNewRowcount + daily[i];
        kDayRowcount[i] := kNewRowcount;
      }
      kBaseRowcount := kNewRowcount;
      kNextInsertValue := kNextInsertValue + kNewRowcount * (update - 1);
    }
  }

  lemma {:induction false} RowsBeforeMonotone(daily: seq<int>, a: nat, b: nat)
    requires a <= b <= |daily| && forall i :: 0 <= i < |daily| ==> daily[i] >= 0
    ensures 0 <= RowsBefore(daily, a) <= RowsBefore(daily, b)
    decreases b
  {
    if a < b {
      RowsBeforeMonotone(daily, a, b - 1);
    } else if a > 0 {
      RowsBeforeMonotone(daily, a - 1, a - 1);
    }
  }

  /** Row `row` is among those of day `i`. */
  predicate InDay(daily: seq<int>, i: nat, row: int)
    requires i < |daily|
  {
    RowsBefore(daily, i) < row <= RowsBefore(daily, i + 1)
  }

  lemma OnlyDay(daily: seq<int>, day: nat, row: int, i: nat)
    requires day < |daily| && i < |daily| && i != day && forall j :: 0 <= j < |daily| ==> daily[j] >= 0
    requires InDay(daily, day, row)
    ensures !InDay(daily, i, row)
  {
    if i < day {
      RowsBeforeMonotone(daily, i + 1, day);
    } else {
      RowsBeforeMonotone(daily, day + 1, i);
    }
  }

  /** The search of `getUpdateDate`. Every row of the update is given the one day whose rows it is
      among; rows past the end are given the last day. */
  method DaySlot(kDayRowcount: array<int>, kRow: int, ghost daily: seq<int>) returns (nIndex: nat)
    requires kDayRowcount.Length == DAYS == |daily|
    requires forall i :: 0 <= i < DAYS ==> kDayRowcount[i] == RowsBefore(daily, i + 1) && daily[i] >= 0
    requires kRow >= 1
    ensures nIndex < DAYS && (nIndex > 0 ==> kDayRowcount[nIndex - 1] < kRow)
    ensures nIndex < 5 ==> kRow <= kDayRowcount[nIndex]
    ensures kRow <= RowsBefore(daily, DAYS) ==>
      forall i :: 0 <= i < DAYS ==> (InDay(daily, i, kRow) <==> i == nIndex)
    ensures kRow > RowsBefore(daily, DAYS) ==> nIndex == 5
  {
    nIndex := 0;
    while kRow > kDayRowcount[nIndex]
      invariant 0 <= nIndex < DAYS && RowsBefore(daily, nIndex) < kRow
      decreases DAYS - nIndex
    {
      if nIndex == 5 {
        break;
      }
      nIndex := nIndex + 1;
    }
    RowsBeforeMonotone(daily, nIndex + 1, DAYS);
    if kRow <= RowsBefore(daily, DAYS) {
      assert InDay(daily, nIndex, kRow);
      forall i | 0 <= i < DAYS && i != nIndex
        ensures !InDay(daily, i, kRow)
      {
        OnlyDay(daily, nIndex, kRow, i);
      }
    }
  }

  // ---------------------------------------------------------------- inventory rows

  /** The row number of a day slot (from 0), a warehouse and an item (from 1). */
  function RowOf(slot: int, warehouse: int, item: int, items: int, warehouses: int): int {
    slot * (warehouses * items) + (warehouse - 1) * items + item
  }

  predicate InRange(slot: int, warehouse: int, item: int, items: int, warehouses: int) {
    0 <= slot < DAYS && 1 <= warehouse <= warehouses && 1 <= item <= items
  }

  /** Slot, warehouse and item of a row, by successive division. */
  function SlotOf(row: int, items: int, warehouses: int): int
    requires items >= 1 && warehouses >= 1
  {
    (row - 1) / items / warehouses
  }

  function WarehouseOf(row: int, items: int, warehouses: int): int
    requires items >= 1 && warehouses >= 1
  {
    (row - 1) / items % warehouses + 1
  }

  function ItemOf(row: int, items: int): int
    requires items >= 1
  {
    (row - 1) % items + 1
  }

  lemma RowByBlock(slot: int, warehouse: int, item: int, items: int, warehouses: int)
    ensures RowOf(slot, warehouse, item, items, warehouses) == (slot * warehouses + (warehouse - 1)) * items + item
    ensures DAYS * (warehouses * items) == (DAYS * warehouses) * items
  {
    assert slot * (warehouses * items) == (slot * warehouses) * items;
  }

  /** Rows 1 to 6 * items * warehouses against the triples: one direction ... */
  lemma TripleOfRow(slot: int, warehouse: int, item: int, items: int, warehouses: int)
    requires items >= 1 && warehouses >= 1 && InRange(slot, warehouse, item, items, warehouses)
    ensures var row := RowOf(slot, warehouse, item, items, warehouses);
      && 1 <= row <= DAYS * (warehouses * items)
      && SlotOf(row, items, warehouses) == slot && WarehouseOf(row, items, warehouses) == warehouse && ItemOf(row, items) == item
  {
    var block := slot * warehouses + (warehouse - 1);
    BlockBound(slot, warehouses, DAYS, warehouse);
    BlockBound(block, items, DAYS * warehouses, item);
    RowByBlock(slot, warehouse, item, items, warehouses);
    DivModUnique(block * items + (item - 1), items, block, item - 1);
    DivModUnique(block, warehouses, slot, warehouse - 1);
  }

  /** ... and the other. */
  lemma RowOfTriple(row: int, items: int, warehouses: int)
    requires items >= 1 && warehouses >= 1 && 1 <= row <= DAYS * (warehouses * items)
    ensures InRange(SlotOf(row, items, warehouses), WarehouseOf(row, items, warehouses), ItemOf(row, items), items, warehouses)
    ensures RowOf(SlotOf(row, items, warehouses), WarehouseOf(row, items, warehouses), ItemOf(row, items), items, warehouses) == row
  {
    var x, b := row - 1, (row - 1) / items;
    var slot, w := b / warehouses, b % warehouses;
    QuotientBelow(x, items, DAYS * warehouses) by {
      assert DAYS * (warehouses * items) == items * (DAYS * warehouses);
    }
    QuotientBelow(b, warehouses, DAYS);
    RowByBlock(slot, w + 1, x % items + 1, items, warehouses);
    assert b == slot * warehouses + w;
    assert x == b * items + x % items;
  }

  lemma {:induction false} UniformDays(daily: seq<int>, perDay: int, n: nat)
    requires n <= |daily| && forall i :: 0 <= i < |daily| ==> daily[i] == perDay
    ensures RowsBefore(daily, n) == n * perDay
  {
    if n == 0 {
    } else {
      UniformDays(daily, perDay, n - 1);
    }
  }

  /** The search of the prefix sums and the successive divisions agree on the day. */
  lemma SlotHoldsRow(row: int, items: int, warehouses: int)
    requires items >= 1 && warehouses >= 1 && 1 <= row <= DAYS * (warehouses * items)
    ensures var slot := SlotOf(row, items, warehouses);
      slot * (warehouses * items) < row <= (slot + 1) * (warehouses * items)
  {
    RowOfTriple(row, items, warehouses);
    var warehouse := WarehouseOf(row, items, warehouses);
    BlockBound(warehouse - 1, items, warehouses, ItemOf(row, items));
  }

  lemma SlotIsDay(row: int, items: int, warehouses: int, daily: seq<int>)
    requires items >= 1 && warehouses >= 1 && 1 <= row <= DAYS * (warehouses * items)
    requires |daily| == DAYS && forall i :: 0 <= i < DAYS ==> daily[i] == warehouses * items
    ensures 0 <= SlotOf(row, items, warehouses) < DAYS && InDay(daily, SlotOf(row, items, warehouses), row)
    ensures row <= RowsBefore(daily, DAYS) && forall i :: 0 <= i < DAYS ==> daily[i] >= 0
  {
    var slot, perDay := SlotOf(row, items, warehouses), warehouses * items;
    RowOfTriple(row, items, warehouses);
    SlotHoldsRow(row, items, warehouses);
    UniformDays(daily, perDay, slot);
    UniformDays(daily, perDay, slot + 1);
    UniformDays(daily, perDay, DAYS);
  }

  /** `g_s_inventory` */
  datatype Row = Row(warehouseId: int, itemId: int, julian: int, quantity: int)

  const MIN_QUANTITY := 0
  const MAX_QUANTITY := 250

  /** The successive divisions. */
  method Decompose(kIndex: int, itemCount: int, warehouseCount: int) returns (kItem: int, warehouse: int)
    requires itemCount >= 1 && warehouseCount >= 1 && kIndex >= 1 && IsInt32(kIndex) && IsInt32(itemCount)
    ensures kItem == ItemOf(kIndex, itemCount) && warehouse == WarehouseOf(kIndex, itemCount, warehouseCount)
  {
    var nTemp := Int32(kIndex) - 1;
    kItem := Rem(nTemp, itemCount) + 1;
    nTemp := Quot(nTemp, Int32(itemCount));
    warehouse := Rem(nTemp, warehouseCount) + 1;
  }

  method DrawQuantity(streams: array<Stream>, col: nat) returns (quantity: int)
    requires col < streams.Length && StreamOk(streams[col])
    modifies streams
    ensures 0 <= quantity <= 250 && (Next(old(streams[col].nSeed)) - quantity) % 251 == 0
    ensures streams[..] == old(streams[..])[col := Drawn(old(streams[col]))]
  {
    quantity := GenrandInteger(streams, MIN_QUANTITY, MAX_QUANTITY, col);
  }

  /** `mk_s_inventory`: the row's triple, with the item printed as its first surrogate key and the day as
      its date in `arInventoryUpdateDates`, and a drawn quantity. */
  method MkSInventory(kDayRowcount: array<int>, dates: array<int>, kIndex: int, itemCount: int, warehouseCount: int,
                      streams: array<Stream>, col: nat, ghost daily: seq<int>)
    returns (r: Row, ghost slot: int, ghost item: int)
    requires itemCount >= 1 && warehouseCount >= 1
    requires 1 <= kIndex <= DAYS * (warehouseCount * itemCount) && IsInt32(kIndex) && IsInt32(itemCount)
    requires kDayRowcount.Length == DAYS == |daily| && forall i :: 0 <= i < DAYS ==> daily[i] == warehouseCount * itemCount
    requires forall i :: 0 <= i < DAYS ==> kDayRowcount[i] == RowsBefore(daily, i + 1)
    requires dates.Length == DAYS && col < streams.Length && StreamOk(streams[col])
    modifies streams
    ensures 0 <= slot < DAYS && 1 <= r.warehouseId <= warehouseCount && 1 <= item <= itemCount
    ensures kIndex == slot * (warehouseCount * itemCount) + (r.warehouseId - 1) * itemCount + item
    ensures r.julian == dates[slot] && r.itemId == GetFirstSK(item)
    ensures 0 <= r.quantity <= 250 && (Next(old(streams[col].nSeed)) - r.quantity) % 251 == 0
    ensures streams[..] == old(streams[..])[col := Drawn(old(streams[col]))]
  {
    var kItem, warehouse := Decompose(kIndex, itemCount, warehouseCount);
    RowOfTriple(kIndex, itemCount, warehouseCount);
    SlotIsDay(kIndex, itemCount, warehouseCount, daily);
    var nIndex := DaySlot(kDayRowcount, kIndex, daily);
    assert InDay(daily, SlotOf(kIndex, itemCount, warehouseCount), kIndex);
    slot, item := nIndex, kItem;
    var julian := dates[nIndex];
    var quantity := DrawQuantity(streams, col);
    r := Row(warehouse, GetFirstSK(kItem), julian, quantity);
  }

  /** Two rows never have the same slot, warehouse and printed item. */
  lemma RowsDiffer(a: int, b: int, items: int, warehouses: int)
    requires items >= 1 && warehouses >= 1
    requires 1 <= a < b <= DAYS * (warehouses * items)
    requires SlotOf(a, items, warehouses) == SlotOf(b, items, warehouses)
    requires WarehouseOf(a, items, warehouses) == WarehouseOf(b, items, warehouses)
    ensures GetFirstSK(ItemOf(a, items)) != GetFirstSK(ItemOf(b, items))
  {
    RowOfTriple(a, items, warehouses);
    RowOfTriple(b, items, warehouses);
    var x, y := ItemOf(a, items), ItemOf(b, items);
    IdOfSk(x, 0);
    IdOfSk(y, 0);
  }
}
