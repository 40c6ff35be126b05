/** scd.c: surrogate keys of slowly changing dimensions. Every block of six keys holds three IDs,
    with one, two and three revisions. */
module Scd {
  import opened CInt
  import opened Lehmer
  import opened Streams
  import opened BusinessKey
  import Calendar

  // ---------------------------------------------------------------- keys, IDs and revisions

  /** The ID of a surrogate key. */
  function Id(sk: int): int
    requires sk >= 1
  {
    var r := (sk - 1) % 6;
    (sk - 1) / 6 * 3 + if r == 0 then 1 else if r <= 2 then 2 else 3
  }

  /** How many revisions an ID has. */
  function Revisions(id: int): int {
    if id % 3 == 1 then 1 else if id % 3 == 2 then 2 else 3
  }

  /** `getFirstSK` */
  function GetFirstSK(kID: int): int {
    if Rem(kID, 3) == 1 then Quot(kID, 3) * 6 + 1
    else if Rem(kID, 3) == 2 then Quot(kID, 3) * 6 + 2
    else if Rem(kID, 3) == 0 then (Quot(kID, 3) - 1) * 6 + 4
    else -1
  }

  /** `getIDCount` of a table with FL_TYPE_2, from its row count. */
  function GetIDCount(kRowcount: int): int {
    var m := Rem(kRowcount, 6);
    Quot(kRowcount, 6) * 3 + if m == 1 then 1 else if m == 2 || m == 3 then 2 else if m == 4 || m == 5 then 3 else 0
  }

  /** The keys of the IDs follow each other without a gap, in increasing order from 1. */
  lemma FirstSKNext(id: int)
    requires id >= 1
    ensures GetFirstSK(1) == 1 && GetFirstSK(id + 1) == GetFirstSK(id) + Revisions(id)
  {
  }

  lemma {:induction false} FirstSKIncreasing(a: int, b: int)
    requires 1 <= a < b
    ensures GetFirstSK(a) + Revisions(a) <= GetFirstSK(b)
    decreases b - a
  {
    FirstSKNext(b - 1);
    if a < b - 1 {
      FirstSKIncreasing(a, b - 1);
    } else {
      FirstSKNext(a);
    }
  }

  /** A surrogate key is a revision of its ID ... */
  lemma SkOfId(sk: int)
    requires sk >= 1
    ensures Id(sk) >= 1 && GetFirstSK(Id(sk)) <= sk < GetFirstSK(Id(sk)) + Revisions(Id(sk))
  {
  }

  /** ... and each revision of each ID is one surrogate key: the correspondence is one to one. */
  lemma IdOfSk(id: int, revision: int)
    requires id >= 1 && 0 <= revision < Revisions(id)
    ensures GetFirstSK(id) + revision >= 1 && Id(GetFirstSK(id) + revision) == id
  {
  }

  /** The number of keys in 1 .. n that open a new ID. */
  function NewKeys(n: nat): nat {
    if n == 0 then 0 else NewKeys(n - 1) + if n == GetFirstSK(Id(n)) then 1 else 0
  }

  lemma IDCountStep(n: int)
    requires n >= 1
    ensures GetIDCount(n) == GetIDCount(n - 1) + if n == GetFirstSK(Id(n)) then 1 else 0
  {
    var q, r := (n - 1) / 6, (n - 1) % 6;
    assert n == 6 * q + r + 1;
  }

  /** `getIDCount` counts the IDs that have a key among the rows. */
  lemma {:induction false} IDCountCountsNewKeys(n: nat)
    ensures GetIDCount(n) == NewKeys(n)
  {
    if n == 0 {
    } else {
      IDCountCountsNewKeys(n - 1);
      IDCountStep(n);
    }
  }

  lemma IDCountIff(id: int, n: int)
    requires id >= 1 && n >= 0
    ensures id <= GetIDCount(n) <==> GetFirstSK(id) <= n
    ensures n >= 1 ==> GetIDCount(n) == Id(n)
  {
  }

  // ---------------------------------------------------------------- validity windows

  /** Julian days of DATA_START_DATE and DATA_END_DATE, and the last days before a second or third
      revision: at half the range, and at one and two thirds of it. */
  const MIN_DATE := 2450815

  const MAX_DATE := 2453005
  const H1_DATE := 2451910
  const T1_DATE := 2451545
  const T2_DATE := 2452275

  /** They are what the one-time initialisation computes. */
  lemma DataDates()
    ensures MIN_DATE == Calendar.Dttoj(Calendar.Date(1998, 1, 1))
    ensures MAX_DATE == Calendar.Dttoj(Calendar.Date(2003, 12, 31))
    ensures H1_DATE == MIN_DATE + Quot(MAX_DATE - MIN_DATE, 2)
    ensures T1_DATE == MIN_DATE + Quot(MAX_DATE - MIN_DATE, 3) && T2_DATE == Quot(MAX_DATE - MIN_DATE, 3) + T1_DATE
  {
  }

  /** The first day of a revision, before the shift of six days per table number. */
  function RevisionStart(revisions: int, revision: int): int {
    if revision == 0 then MIN_DATE
    else if revisions == 2 then H1_DATE + 1
    else if revision == 1 then T1_DATE + 1
    else T2_DATE + 1
  }

  const OPEN_END := -1

  function WindowOf(n: int, revision: int, table: int): (int, int) {
    (RevisionStart(n, revision) - table * 6,
     if revision == n - 1 then OPEN_END else RevisionStart(n, revision + 1) - table * 6 - 1)
  }

  /** A revision's window: up to the day before the next revision, open-ended at the last. */
  function Window(id: int, revision: int, table: int): (int, int) {
    WindowOf(Revisions(id), revision, table)
  }

  /** The revisions of an ID divide the data's range evenly: each begins the day after the one before
      ends, and the last does not end. */
  lemma WindowsAreEven(id: int, revision: int, table: int)
    requires id >= 1 && 0 <= revision < Revisions(id)
    ensures var n := Revisions(id); var (begin, end) := Window(id, revision, table);
      && begin == MIN_DATE + revision * ((MAX_DATE - MIN_DATE) / n) + (if revision == 0 then 0 else 1) - 6 * table
      && end == if revision == n - 1 then -1 else MIN_DATE + (revision + 1) * ((MAX_DATE - MIN_DATE) / n) - 6 * table
  {
  }

  predicate Holds(w: (int, int), day: int) {
    w.0 <= day && (w.1 == OPEN_END || day <= w.1)
  }

  /** The latest revision of an ID that has begun on a day of the data's calendar. */
  function RevisionOn(id: int, jDate: int): int {
    var n := Revisions(id);
    if n == 2 then (if jDate > H1_DATE then 1 else 0)
    else if n == 3 then (if jDate > T2_DATE then 2 else if jDate > T1_DATE then 1 else 0)
    else 0
  }

  /** The windows of an ID partition the days from its start on: exactly one holds each day. */
  lemma WindowsPartition(id: int, table: int, jDate: int, revision: int)
    requires id >= 1 && 0 <= table * 6 < MIN_DATE && jDate >= MIN_DATE && 0 <= revision < Revisions(id)
    ensures 0 <= RevisionOn(id, jDate) < Revisions(id)
    ensures Holds(Window(id, revision, table), jDate - 6 * table) <==> revision == RevisionOn(id, jDate)
  {
  }

  // ---------------------------------------------------------------- setSCDKeys

  lemma IdByBlock(q: int, r: int)
    requires q >= 0 && 0 <= r < 6
    ensures Id(6 * q + r + 1) == 3 * q + if r == 0 then 1 else if r <= 2 then 2 else 3
    ensures (6 * q + r + 1) % 6 == if r == 5 then 0 else r + 1
  {
  }

  lemma FirstSKByBlock(q: int, i: int)
    requires q >= 0 && 1 <= i <= 3
    ensures GetFirstSK(3 * q + i) == 6 * q + (if i == 1 then 1 else if i == 2 then 2 else 4)
    ensures Revisions(3 * q + i) == i
  {
  }

  /** Where a key stands in its block of six: how far behind the ID's first key is, and the
      revisions of the ID. */
  lemma PlaceInBlock(sk: int)
    requires sk >= 1
    ensures var m := sk % 6; var back := sk - GetFirstSK(Id(sk)); var n := Revisions(Id(sk));
      && back == (if m == 3 || m == 5 then 1 else if m == 0 then 2 else 0)
      && n == (if m == 1 then 1 else if m == 2 || m == 3 then 2 else 3)
      && 0 <= back <= sk - 1
  {
    var q, r := (sk - 1) / 6, (sk - 1) % 6;
    assert sk == 6 * q + r + 1;
    IdByBlock(q, r);
    FirstSKByBlock(q, if r == 0 then 1 else if r <= 2 then 2 else 3);
  }

  /** The window by a key's place in its block. */
  function BlockWindow(m: int, t: int): (int, int) {
    match m
    case 1 => (MIN_DATE - t * 6, OPEN_END)
    case 2 => (MIN_DATE - t * 6, H1_DATE - t * 6)
    case 3 => (H1_DATE + 1 - t * 6, OPEN_END)
    case 4 => (MIN_DATE - t * 6, T1_DATE - t * 6)
    case 5 => (T1_DATE + 1 - t * 6, T2_DATE - t * 6)
    case _ => (T2_DATE + 1 - t * 6, OPEN_END)
  }

  lemma WindowInBlock(sk: int, t: int)
    requires sk >= 1
    ensures Window(Id(sk), sk - GetFirstSK(Id(sk)), t) == BlockWindow(sk % 6, t)
  {
    PlaceInBlock(sk);
    var n, back := Revisions(Id(sk)), sk - GetFirstSK(Id(sk));
    assert Window(Id(sk), back, t) == WindowOf(n, back, t);
  }

  /** The switch of `setSCDKeys`: which row's key is stored, and the window. */
  method ReadPlace(nTableID: nat, kIndex: int) returns (k: int, bNewBKey: bool, begin: int, end: int)
    requires kIndex >= 1
    ensures var m := kIndex % 6; k == kIndex - (if m == 3 || m == 5 then 1 else if m == 0 then 2 else 0)
    ensures bNewBKey <==> kIndex == k
    ensures (begin, end) == BlockWindow(kIndex % 6, nTableID)
  {
    k, bNewBKey := kIndex, false;
    var nModulo := Rem(kIndex, 6);
    match nModulo {
      case 1 =>
        bNewBKey := true;
        begin, end := MIN_DATE - nTableID * 6, -1;
      case 2 =>
        bNewBKey := true;
        begin, end := MIN_DATE - nTableID * 6, H1_DATE - nTableID * 6;
      case 3 =>
        k := kIndex - 1;
        begin, end := H1_DATE - nTableID * 6 + 1, -1;
      case 4 =>
        bNewBKey := true;
        begin, end := MIN_DATE - nTableID * 6, T1_DATE - nTableID * 6;
      case 5 =>
        k := kIndex - 1;
        begin, end := T1_DATE - nTableID * 6 + 1, T2_DATE - nTableID * 6;
      case _ =>
        k := kIndex - 2;
        begin, end := T2_DATE - nTableID * 6 + 1, -1;
    }
    if end > MAX_DATE {
      end := -1;
    }
  }

  /** `arBKeys`, the most recent business key of each table. */
  class ScdKeys {
    const arBKeys: array<string>

    constructor (tables: nat)
      ensures fresh(arBKeys) && arBKeys.Length == tables
    {
      arBKeys := new string[tables](_ => "");
    }

    method Store(nTableID: nat, k: nat)
      requires nTableID < arBKeys.Length && k < LONG
      modifies arBKeys
      ensures arBKeys[nTableID] == BKey(k)
    {
      var buffer := new char[17];
      assert UnsignedLong(k) == k;
      MkBKey(buffer, k);
      arBKeys[nTableID] := buffer[..16];
    }

    /** The key the switch stores, and its results. */
    method WriteKey(nTableID: nat, kIndex: int, ghost first: int, ghost m: int)
      returns (bNewBKey: bool, szBKey: string, begin: int, end: int)
      requires nTableID < arBKeys.Length && 1 <= first && 1 <= kIndex < LONG
      requires m == kIndex % 6 && first == kIndex - (if m == 3 || m == 5 then 1 else if m == 0 then 2 else 0)
      modifies arBKeys
      ensures szBKey == BKey(first)
      ensures bNewBKey <==> kIndex == first
      ensures (begin, end) == BlockWindow(m, nTableID)
    {
      var k;
      k, bNewBKey, begin, end := ReadPlace(nTableID, kIndex);
      Store(nTableID, k);
      szBKey := arBKeys[nTableID];
    }

    /** The key of the ID, whether the row opens it, and the revision's window. What `arBKeys` held
        before makes no difference. */
    method SetSCDKeys(nTableID: nat, kIndex: int) returns (bNewBKey: bool, szBKey: string, begin: int, end: int)
      requires nTableID < arBKeys.Length && 1 <= kIndex < LONG
      modifies arBKeys
      ensures szBKey == BKey(GetFirstSK(Id(kIndex)))
      ensures bNewBKey <==> kIndex == GetFirstSK(Id(kIndex))
      ensures (begin, end) == Window(Id(kIndex), kIndex - GetFirstSK(Id(kIndex)), nTableID)
      ensures var n, revision := Revisions(Id(kIndex)), kIndex - GetFirstSK(Id(kIndex));
        && 0 <= revision < n
        && begin == MIN_DATE + revision * ((MAX_DATE - MIN_DATE) / n) + (if revision == 0 then 0 else 1) - 6 * nTableID
        && end == if revision == n - 1 then -1 else MIN_DATE + (revision + 1) * ((MAX_DATE - MIN_DATE) / n) - 6 * nTableID
    {
      SkOfId(kIndex);
      WindowsAreEven(Id(kIndex), kIndex - GetFirstSK(Id(kIndex)), nTableID);
      PlaceInBlock(kIndex);
      WindowInBlock(kIndex, nTableID);
      bNewBKey, szBKey, begin, end := WriteKey(nTableID, kIndex, GetFirstSK(Id(kIndex)), kIndex % 6);
    }
  }

  /** Two rows get the same business key exactly when they are revisions of one ID. */
  lemma SameBusinessKeyIff(a: int, b: int)
    requires 1 <= a < 0x8000_0000_0000_0000 && 1 <= b < 0x8000_0000_0000_0000
    ensures BKey(GetFirstSK(Id(a))) == BKey(GetFirstSK(Id(b))) <==> Id(a) == Id(b)
  {
    SkOfId(a);
    SkOfId(b);
    BKeyRoundTrip(GetFirstSK(Id(a)));
    BKeyRoundTrip(GetFirstSK(Id(b)));
    IdOfSk(Id(a), 0);
    IdOfSk(Id(b), 0);
  }

  // ---------------------------------------------------------------- joins

  function MatchUnclamped(kUnique: int, jDate: int): int {
    var block := Quot(kUnique, 3) * 6;
    if Rem(kUnique, 3) == 1 then block + 1
    else if Rem(kUnique, 3) == 2 then block + 2 + if jDate > H1_DATE then 1 else 0
    else block + -2 + (if jDate > T1_DATE then 1 else 0) + if jDate > T2_DATE then 1 else 0
  }

  /** `matchSCDSK`, with the row count of the table. */
  function MatchSCDSK(kUnique: int, jDate: int, kRowcount: int): int {
    var k := MatchUnclamped(kUnique, jDate);
    if k > kRowcount then kRowcount else k
  }

  /** Before the clamp, the match is the revision whose window holds the shifted date. */
  lemma MatchIsRevisionInWindow(kUnique: int, jDate: int, table: int)
    requires kUnique >= 1 && jDate >= MIN_DATE && 0 <= table * 6 < MIN_DATE
    ensures var sk := MatchUnclamped(kUnique, jDate);
      && sk >= 1 && Id(sk) == kUnique
      && Holds(Window(kUnique, sk - GetFirstSK(kUnique), table), jDate - 6 * table)
  {
    IdOfSk(kUnique, RevisionOn(kUnique, jDate));
    WindowsPartition(kUnique, table, jDate, RevisionOn(kUnique, jDate));
  }

  /** The clamp to the row count keeps the ID: it falls back to the last revision that has a row. */
  lemma ClampKeepsId(kUnique: int, jDate: int, kRowcount: int)
    requires 1 <= kUnique <= GetIDCount(kRowcount) && kRowcount >= 1
    ensures var sk := MatchSCDSK(kUnique, jDate, kRowcount);
      && 1 <= sk <= kRowcount && Id(sk) == kUnique
      && (sk < kRowcount ==> sk == MatchUnclamped(kUnique, jDate))
  {
    IdOfSk(kUnique, RevisionOn(kUnique, jDate));
    IDCountIff(kUnique, kRowcount);
    SkOfId(kRowcount);
    if kUnique < Id(kRowcount) {
      FirstSKIncreasing(kUnique, Id(kRowcount));
    }
  }

  /** `getIDCount`: the IDs of a table with revisions, the rows of one without. */
  function IDs(type2: bool, kRowcount: int): int {
    if type2 then GetIDCount(kRowcount) else kRowcount
  }

  /** `scd_join`: -1 exactly for dates past the end of the data, and otherwise a row of the table:
      with revisions, one that belongs to the ID drawn. */
  method ScdJoin(streams: array<Stream>, col: nat, type2: bool, kRowcount: int, jDate: int) returns (res: int)
    requires col < streams.Length && StreamOk(streams[col])
    requires 1 <= kRowcount && IDs(type2, kRowcount) < 0x8000_0000
    modifies streams
    ensures res == -1 <==> jDate > MAX_DATE
    ensures jDate <= MAX_DATE ==>
      var id := Uniform(Next(old(streams[col].nSeed)), 1, IDs(type2, kRowcount));
      1 <= res <= kRowcount && res == MatchSCDSK(id, jDate, kRowcount) && (type2 ==> Id(res) == id)
    ensures streams[..] == old(streams[..])[col := Drawn(old(streams[col]))]
  {
    SkOfId(kRowcount);
    IDCountIff(1, kRowcount);
    res := GenrandKey(streams, 1, IDs(type2, kRowcount), col);
    if type2 {
      ClampKeepsId(res, jDate, kRowcount);
    }
    res := MatchSCDSK(res, jDate, kRowcount);
    if jDate > MAX_DATE {
      res := -1;
    }
    res := if res > kRowcount then -1 else res;
  }

  /** `getSKFromID`: a drawn revision of the ID. */
  method GetSKFromID(streams: array<Stream>, kID: int, nColumn: nat) returns (kTemp: int)
    requires nColumn < streams.Length && StreamOk(streams[nColumn]) && kID >= 1
    modifies streams
    ensures kTemp >= 1 && Id(kTemp) == kID
    ensures kTemp == GetFirstSK(kID) + if Revisions(kID) == 1 then 0
      else Uniform(Next(old(streams[nColumn].nSeed)), 0, Revisions(kID) - 1)
  {
    kTemp := Quot(kID, 3);
    if Rem(kID, 3) == 1 {
      kTemp := kTemp * 6;
      kTemp := kTemp + 1;
    } else if Rem(kID, 3) == 2 {
      kTemp := kTemp * 6;
      var pick := GenrandInteger(streams, 2, 3, nColumn);
      kTemp := kTemp + pick;
    } else {
      kTemp := kTemp - 1;
      kTemp := kTemp * 6;
      var pick := GenrandInteger(streams, 4, 6, nColumn);
      kTemp := kTemp + pick;
    }
    IdOfSk(kID, kTemp - GetFirstSK(kID));
  }
}
