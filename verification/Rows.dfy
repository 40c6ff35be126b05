/** Building rows: parallel.c's `row_stop` and `row_skip`, driver.c's `gen_tbl` and validate.c's
    `validateGeneric`, over the array of random streams. */
module Rows {
  import opened CInt
  import opened Lehmer
  import opened Streams

  /** A row builder, as the streams see it: a program that draws from one column's stream after
      another, each choice depending on the values drawn so far, and ends with the lines to print
      (none when the builder's return code suppresses the row). */
  datatype Builder<R> =
    | Done(lines: seq<R>)
    | Draw(column: nat, next: imap<int, Builder<R>>)

  /** The part of `tdef` that row positioning uses; `nParam` is the child table of a parent. */
  datatype TableDef = TableDef(nFirstColumn: nat, nLastColumn: int, isParent: bool, nParam: int)

  predicate IsColumn(d: TableDef, c: nat) {
    d.nFirstColumn <= c <= d.nLastColumn
  }

  function Columns(d: TableDef): (cols: set<nat>)
    ensures forall c: nat :: c in cols <==> IsColumn(d, c)
  {
    set c: nat | c <= d.nLastColumn && IsColumn(d, c)
  }

  /** The columns of a table and, for a parent, of its child. */
  function Group(tdefs: map<int, TableDef>, tbl: int): set<nat>
    requires tbl in tdefs && (tdefs[tbl].isParent ==> tdefs[tbl].nParam in tdefs)
  {
    Columns(tdefs[tbl]) + if tdefs[tbl].isParent then Columns(tdefs[tdefs[tbl].nParam]) else {}
  }

  /** The table a stream belongs to and the stream it duplicates, which nothing changes. */
  datatype Place = Place(table: int, duplicateOf: int)

  function Layout(ss: seq<Stream>): seq<Place> {
    seq(|ss|, i requires 0 <= i < |ss| => Place(ss[i].nTable, ss[i].nDuplicateOf))
  }

  ghost predicate ColumnsOk(d: TableDef, tbl: int, layout: seq<Place>) {
    forall c :: c in Columns(d) ==> c < |layout| && layout[c].table == tbl
  }

  /** The generated headers are consistent: a table's columns are streams of that table, and a
      child is another, defined table. */
  ghost predicate CatalogOk(tdefs: map<int, TableDef>, layout: seq<Place>) {
    && (forall t :: t in tdefs ==> ColumnsOk(tdefs[t], t, layout))
    && (forall t :: t in tdefs && tdefs[t].isParent ==> tdefs[t].nParam in tdefs && tdefs[t].nParam != t)
  }

  /** No table in the group has a grandchild. */
  predicate TwoLevels(tdefs: map<int, TableDef>, tbl: int) {
    && tbl in tdefs
    && (tdefs[tbl].isParent ==> tdefs[tbl].nParam in tdefs && !tdefs[tdefs[tbl].nParam].isParent)
  }

  /** What a column duplicates is a column, or 0 for none. */
  ghost predicate DuplicatesOk(layout: seq<Place>) {
    forall i :: 0 <= i < |layout| ==> 0 <= layout[i].duplicateOf < |layout|
  }

  /** What a stream's draws depend on for ever: its row budget and its initial seed. */
  datatype ColumnSpec = ColumnSpec(perRow: nat, initial: int)

  /** Draws a row may make: at most `nUsedPerRow` from each of the given columns. */
  function Budget(spec: map<nat, ColumnSpec>): map<nat, int> {
    map c | c in spec :: spec[c].perRow
  }

  /** The builder stays in its budget whatever values it draws. */
  ghost predicate Within<R>(b: Builder<R>, budget: map<nat, int>)
    decreases b
  {
    match b
    case Done(_) => true
    case Draw(c, next) =>
      && c in budget && budget[c] > 0
      && forall v :: 0 <= v < MODULUS ==> v in next && Within(next[v], budget[c := budget[c] - 1])
  }

  /** The lines a builder prints, given the seed of each column's stream. */
  ghost function Lines<R>(b: Builder<R>, seeds: map<nat, int>, budget: map<nat, int>): seq<R>
    requires Within(b, budget) && budget.Keys <= seeds.Keys
    decreases b
  {
    match b
    case Done(lines) => lines
    case Draw(c, next) =>
      var v := Next(seeds[c]);
      Lines(next[v], seeds[c := v], budget[c := budget[c] - 1])
  }

  /** One value drawn from a column's stream. */
  datatype Taken = Taken(column: nat, value: int)

  /** Fed these draws in turn, the builder asks for each of them and then ends with these lines. */
  ghost predicate Ends<R>(b: Builder<R>, draws: seq<Taken>, lines: seq<R>)
    decreases |draws|
  {
    if draws == [] then b.Done? && b.lines == lines
    else
      && b.Draw? && b.column == draws[0].column && draws[0].value in b.next
      && Ends(b.next[draws[0].value], draws[1..], lines)
  }

  /** Each draw is the next value of its column's stream. */
  ghost predicate FromStreams(draws: seq<Taken>, seeds: map<nat, int>)
    decreases |draws|
  {
    draws == [] ||
    (var d := draws[0];
     && d.column in seeds && d.value == (MULT * seeds[d.column]) % MODULUS
     && FromStreams(draws[1..], seeds[d.column := d.value]))
  }

  /** From these seeds the builder prints these lines. */
  ghost predicate Prints<R>(b: Builder<R>, seeds: map<nat, int>, lines: seq<R>) {
    exists draws :: FromStreams(draws, seeds) && Ends(b, draws, lines)
  }

  lemma {:induction false} DrawsOf<R>(b: Builder<R>, seeds: map<nat, int>, budget: map<nat, int>) returns (draws: seq<Taken>)
    requires Within(b, budget) && budget.Keys <= seeds.Keys
    ensures FromStreams(draws, seeds) && Ends(b, draws, Lines(b, seeds, budget))
    decreases b
  {
    match b
    case Done(lines) =>
      draws := [];
    case Draw(c, next) =>
      var v := Next(seeds[c]);
      var rest := DrawsOf(next[v], seeds[c := v], budget[c := budget[c] - 1]);
      draws := [Taken(c, v)] + rest;
      assert draws[1..] == rest;
  }

  lemma LinesPrinted<R>(b: Builder<R>, seeds: map<nat, int>, budget: map<nat, int>)
    requires Within(b, budget) && budget.Keys <= seeds.Keys
    ensures Prints(b, seeds, Lines(b, seeds, budget))
  {
    var draws := DrawsOf(b, seeds, budget);
  }

  /** A builder prints one thing only. */
  lemma {:induction false} EndsOnce<R>(b: Builder<R>, seeds: map<nat, int>, d: seq<Taken>, e: seq<Taken>,
                                       x: seq<R>, y: seq<R>)
    requires FromStreams(d, seeds) && Ends(b, d, x) && FromStreams(e, seeds) && Ends(b, e, y)
    ensures d == e && x == y
    decreases |d|
  {
    if d == [] {
    } else {
      var v := d[0].value;
      EndsOnce(b.next[v], seeds[d[0].column := v], d[1..], e[1..], x, y);
      assert d == [d[0]] + d[1..] && e == [e[0]] + e[1..];
    }
  }

  /** Only the residues of the seeds matter. */
  lemma {:induction false} LinesCongruent<R>(b: Builder<R>, s: map<nat, int>, t: map<nat, int>, budget: map<nat, int>)
    requires Within(b, budget) && budget.Keys <= s.Keys && budget.Keys <= t.Keys
    requires forall c :: c in budget ==> Congruent(s[c], t[c])
    ensures Lines(b, s, budget) == Lines(b, t, budget)
    decreases b
  {
    if b.Draw? {
      var c := b.column;
      MulCongruent(s[c], t[c], MULT);
      var v := Next(s[c]);
      assert v == Next(t[c]);
      LinesCongruent(b.next[v], s[c := v], t[c := v], budget[c := budget[c] - 1]);
    }
  }

  function Seeds(ss: seq<Stream>, cols: set<nat>): map<nat, int>
    requires forall c :: c in cols ==> c < |ss|
  {
    map c | c in cols :: ss[c].nSeed
  }

  /** Between the two states, some of the budget was drawn and nothing else changed. */
  ghost predicate Spent(before: seq<Stream>, after: seq<Stream>, budget: map<nat, int>) {
    && |before| == |after|
    && forall c: nat :: c < |before| ==>
      if c in budget then
        var d := after[c].nUsed - before[c].nUsed;
        0 <= d && (d == 0 || d <= budget[c]) && after[c] == DrawnTimes(before[c], d)
      else after[c] == before[c]
  }

  /** The streams after these draws. */
  ghost function StreamsAfter(ss: seq<Stream>, draws: seq<Taken>): seq<Stream>
    decreases |draws|
  {
    if draws == [] || draws[0].column >= |ss| then ss
    else StreamsAfter(ss[draws[0].column := Drawn(ss[draws[0].column])], draws[1..])
  }

  /** From these streams the builder prints these lines, and its draws and no others move them on. */
  ghost predicate Ran<R>(b: Builder<R>, before: seq<Stream>, cols: set<nat>, lines: seq<R>, after: seq<Stream>)
    requires forall c :: c in cols ==> c < |before|
  {
    exists draws :: FromStreams(draws, Seeds(before, cols)) && Ends(b, draws, lines) && after == StreamsAfter(before, draws)
  }

  ghost function EndState<R>(b: Builder<R>, ss: seq<Stream>, budget: map<nat, int>): seq<Stream>
    requires Within(b, budget) && forall c :: c in budget ==> c < |ss|
    decreases b
  {
    match b
    case Done(_) => ss
    case Draw(c, next) => EndState(next[Next(ss[c].nSeed)], ss[c := Drawn(ss[c])], budget[c := budget[c] - 1])
  }

  lemma {:induction false} RunOf<R>(b: Builder<R>, ss: seq<Stream>, cols: set<nat>, budget: map<nat, int>)
    returns (draws: seq<Taken>)
    requires Within(b, budget) && budget.Keys == cols && forall c :: c in cols ==> c < |ss|
    ensures FromStreams(draws, Seeds(ss, cols)) && Ends(b, draws, Lines(b, Seeds(ss, cols), budget))
    ensures StreamsAfter(ss, draws) == EndState(b, ss, budget)
    decreases b
  {
    match b
    case Done(lines) =>
      draws := [];
    case Draw(c, next) =>
      var v, after := Next(ss[c].nSeed), ss[c := Drawn(ss[c])];
      var rest := RunOf(next[v], after, cols, budget[c := budget[c] - 1]);
      assert Seeds(after, cols) == Seeds(ss, cols)[c := v];
      draws := [Taken(c, v)] + rest;
      assert draws[1..] == rest;
  }

  lemma BuilderRan<R>(b: Builder<R>, ss: seq<Stream>, cols: set<nat>, budget: map<nat, int>)
    requires Within(b, budget) && budget.Keys == cols && forall c :: c in cols ==> c < |ss|
    ensures Ran(b, ss, cols, Lines(b, Seeds(ss, cols), budget), EndState(b, ss, budget))
  {
    var draws := RunOf(b, ss, cols, budget);
  }

  /** One draw of the builder, against the lines it will print and the budget it has left. */
  lemma DrawStep<R>(b: Builder<R>, before: seq<Stream>, now: seq<Stream>,
                    cols: set<nat>, budget: map<nat, int>, left: map<nat, int>)
    requires b.Draw? && Spent(before, now, budget) && StreamsOk(now)
    requires budget.Keys == cols && left.Keys == cols && forall c :: c in cols ==> c < |now|
    requires forall c :: c in cols ==> left[c] == budget[c] - (now[c].nUsed - before[c].nUsed)
    requires Within(b, left)
    ensures b.column in cols && b.column < |now|
    ensures var after := now[b.column := Drawn(now[b.column])];
      var v := Next(now[b.column].nSeed); var left' := left[b.column := left[b.column] - 1];
      && StreamsOk(after) && Spent(before, after, budget)
      && v in b.next && left'.Keys == cols && Within(b.next[v], left')
      && (forall c :: c in cols ==> left'[c] == budget[c] - (after[c].nUsed - before[c].nUsed))
      && Lines(b, Seeds(now, cols), left) == Lines(b.next[v], Seeds(after, cols), left')
      && EndState(b, now, left) == EndState(b.next[v], after, left')
  {
    var c := b.column;
    var d := now[c].nUsed - before[c].nUsed;
    var after := now[c := Drawn(now[c])];
    assert DrawnTimes(before[c], d + 1) == Drawn(now[c]);
    assert Seeds(after, cols) == Seeds(now, cols)[c := Next(now[c].nSeed)];
  }

  method RunBuilder<R>(builder: Builder<R>, streams: array<Stream>, ghost cols: set<nat>, ghost budget: map<nat, int>)
    returns (lines: seq<R>)
    requires StreamsOk(streams[..]) && budget.Keys == cols && forall c :: c in cols ==> c < streams.Length
    requires Within(builder, budget)
    modifies streams
    ensures StreamsOk(streams[..])
    ensures lines == Lines(builder, Seeds(old(streams[..]), cols), budget)
    ensures Ran(builder, old(streams[..]), cols, lines, streams[..])
    ensures Spent(old(streams[..]), streams[..], budget) && Layout(streams[..]) == Layout(old(streams[..]))
  {
    ghost var before, now, left := streams[..], streams[..], budget;
    var b := builder;
    while b.Draw?
      invariant streams[..] == now && StreamsOk(now) && left.Keys == cols && Within(b, left)
      invariant Lines(builder, Seeds(before, cols), budget) == Lines(b, Seeds(now, cols), left)
      invariant EndState(builder, before, budget) == EndState(b, now, left)
      invariant Spent(before, now, budget)
      invariant forall c :: c in cols ==> left[c] == budget[c] - (now[c].nUsed - before[c].nUsed)
      decreases b
    {
      DrawStep(b, before, now, cols, budget, left);
      var v := NextRandom(streams, b.column);
      now, left := now[b.column := Drawn(now[b.column])], left[b.column := left[b.column] - 1];
      b := b.next[v];
    }
    lines := b.lines;
    BuilderRan(builder, before, cols, budget);
  }

  /** What `checkSeeds` leaves of a stream: padded to its row budget and ready for the next row. */
  function Padded(st: Stream, chkSeeds: bool): Stream {
    var pad := if st.nUsed < st.nUsedPerRow then st.nUsedPerRow - st.nUsed else 0;
    DrawnTimes(st, pad).(
      nUsed := 0,
      nUsedPerRow := if chkSeeds && st.nUsed > st.nUsedPerRow then st.nUsed else st.nUsedPerRow)
  }

  method CheckSeeds(streams: array<Stream>, d: TableDef, chkSeeds: bool) returns (code: int)
    requires StreamsOk(streams[..]) && forall c :: c in Columns(d) ==> c < streams.Length
    modifies streams
    ensures StreamsOk(streams[..]) && Layout(streams[..]) == Layout(old(streams[..]))
    ensures forall c: nat :: c < streams.Length ==>
      streams[c] == if c in Columns(d) then Padded(old(streams[c]), chkSeeds) else old(streams[c])
    ensures code == 1 <==> chkSeeds && exists c :: c in Columns(d) && old(streams[c]).nUsed > old(streams[c]).nUsedPerRow
    ensures code == 0 || code == 1
  {
    code := 0;
    var i := d.nFirstColumn;
    while i <= d.nLastColumn
      invariant d.nFirstColumn <= i && StreamsOk(streams[..])
      invariant forall c: nat :: c < streams.Length ==>
        streams[c] == if c in Columns(d) && c < i then Padded(old(streams[c]), chkSeeds) else old(streams[c])
      invariant code == 1 <==>
        chkSeeds && exists c :: c in Columns(d) && c < i && old(streams[c]).nUsed > old(streams[c]).nUsedPerRow
      invariant code == 0 || code == 1
    {
      assert i in Columns(d);
      ghost var before := streams[..];
      while streams[i].nUsed < streams[i].nUsedPerRow
        invariant StreamsOk(streams[..])
        invariant before[i].nUsed <= streams[i].nUsed
        invariant before[i].nUsed < streams[i].nUsed ==> streams[i].nUsed <= before[i].nUsedPerRow
        invariant streams[i] == DrawnTimes(before[i], streams[i].nUsed - before[i].nUsed)
        invariant forall c: nat :: c < streams.Length && c != i ==> streams[c] == before[c]
        decreases streams[i].nUsedPerRow - streams[i].nUsed
      {
        ghost var now := streams[i];
        var res := GenrandInteger(streams, 1, 100, i);
        assert DrawnTimes(before[i], now.nUsed - before[i].nUsed + 1) == Drawn(now);
      }
      if chkSeeds {
        if streams[i].nUsed > streams[i].nUsedPerRow {
          streams[i] := streams[i].(nUsedPerRow := streams[i].nUsed);
          code := 1;
        }
      }
      streams[i] := streams[i].(nUsed := 0);
      i := i + 1;
    }
  }

  /** The columns `row_stop` pads: the table, its child and its grandchild. */
  function StopGroup(tdefs: map<int, TableDef>, tbl: int): set<nat>
    requires tbl in tdefs && (tdefs[tbl].isParent ==> tdefs[tbl].nParam in tdefs)
    requires tdefs[tbl].isParent && tdefs[tdefs[tbl].nParam].isParent ==> tdefs[tdefs[tbl].nParam].nParam in tdefs
  {
    Columns(tdefs[tbl]) + if tdefs[tbl].isParent then Group(tdefs, tdefs[tbl].nParam) else {}
  }

  method RowStop(streams: array<Stream>, tdefs: map<int, TableDef>, tbl: int, chkSeeds: bool)
    requires StreamsOk(streams[..]) && CatalogOk(tdefs, Layout(streams[..])) && tbl in tdefs
    requires tdefs[tbl].isParent && tdefs[tdefs[tbl].nParam].isParent ==> tdefs[tdefs[tbl].nParam].nParam != tbl
    modifies streams
    ensures StreamsOk(streams[..]) && Layout(streams[..]) == Layout(old(streams[..]))
    ensures forall c: nat :: c < streams.Length ==>
      streams[c] == if c in StopGroup(tdefs, tbl) then Padded(old(streams[c]), chkSeeds) else old(streams[c])
  {
    var d := tdefs[tbl];
    var code := CheckSeeds(streams, d, chkSeeds);
    if d.isParent {
      d := tdefs[d.nParam];
      code := CheckSeeds(streams, d, chkSeeds);
      if d.isParent {
        d := tdefs[d.nParam];
        code := CheckSeeds(streams, d, chkSeeds);
      }
    }
  }

  // ---------------------------------------------------------------- row_skip

  function Skipped(st: Stream, n: int): Stream {
    st.(nSeed := SkipSeed(st.nInitialSeed, n), nUsed := 0, nTotal := n)
  }

  /** One turn of the loop in `row_skip`: the stream itself if it belongs to the table, and then
      the stream it duplicates. */
  function SkipStep(ss: seq<Stream>, i: nat, tbl: int, count: int): (r: seq<Stream>)
    requires i < |ss| && 0 <= ss[i].nDuplicateOf < |ss|
  {
    var s := if ss[i].nTable == tbl then ss[i := Skipped(ss[i], count * ss[i].nUsedPerRow)] else ss;
    var d := ss[i].nDuplicateOf;
    if d != 0 && d != i
    then s[d := Skipped(s[d], count * s[d].nUsedPerRow).(nTotal := count * s[i].nUsedPerRow)]
    else s
  }

  ghost predicate DuplicatesInRange(ss: seq<Stream>) {
    forall i :: 0 <= i < |ss| ==> 0 <= ss[i].nDuplicateOf < |ss|
  }

  function SkipFrom(ss: seq<Stream>, i: nat, tbl: int, count: int): seq<Stream>
    requires DuplicatesInRange(ss)
    decreases |ss| - i
  {
    if i >= |ss| then ss else SkipFrom(SkipStep(ss, i, tbl, count), i + 1, tbl, count)
  }

  lemma RemBound(x: int)
    ensures -MODULUS < Rem(x, MODULUS) < MODULUS
  {
  }

  lemma SkippedOk(st: Stream, n: int)
    requires StreamOk(st)
    ensures StreamOk(Skipped(st, n))
  {
    if n > 0 {
      RemBound(Pow(MULT, n) * st.nInitialSeed);
    }
  }

  /** Reposition one stream and clear its counters. */
  method SkipStream(streams: array<Stream>, i: nat, n: int, total: int)
    requires i < streams.Length && StreamsOk(streams[..])
    modifies streams
    ensures StreamsOk(streams[..])
    ensures streams[..] == old(streams[..])[i := Skipped(old(streams[i]), n).(nTotal := total)]
  {
    SkippedOk(streams[i], n);
    SkipRandom(streams, i, n);
    streams[i] := streams[i].(nUsed := 0);
    streams[i] := streams[i].(nTotal := total);
  }

  /** One turn of the loop in `row_skip`. */
  method SkipTurn(streams: array<Stream>, i: nat, tbl: int, count: int)
    requires i < streams.Length && StreamsOk(streams[..]) && 0 <= streams[i].nDuplicateOf < streams.Length
    modifies streams
    ensures StreamsOk(streams[..]) && streams[..] == SkipStep(old(streams[..]), i, tbl, count)
  {
    if streams[i].nTable == tbl {
      SkipStream(streams, i, count * streams[i].nUsedPerRow, count * streams[i].nUsedPerRow);
    }
    var d := streams[i].nDuplicateOf;
    if d != 0 && d != i {
      SkipStream(streams, d, count * streams[d].nUsedPerRow, count * streams[i].nUsedPerRow);
    }
  }

  method RowSkip(streams: array<Stream>, tbl: int, count: int)
    requires StreamsOk(streams[..]) && DuplicatesInRange(streams[..])
    modifies streams
    ensures StreamsOk(streams[..])
    ensures streams[..] == SkipFrom(old(streams[..]), 0, tbl, count)
  {
    var i := 0;
    while i < streams.Length
      invariant 0 <= i <= streams.Length
      invariant StreamsOk(streams[..]) && DuplicatesInRange(streams[..])
      invariant SkipFrom(streams[..], i, tbl, count) == SkipFrom(old(streams[..]), 0, tbl, count)
    {
      SkipTurn(streams, i, tbl, count);
      i := i + 1;
    }
  }

  lemma LayoutInRange(ss: seq<Stream>)
    requires DuplicatesOk(Layout(ss))
    ensures DuplicatesInRange(ss)
  {
    forall i | 0 <= i < |ss|
      ensures 0 <= ss[i].nDuplicateOf < |ss|
    {
      assert Layout(ss)[i].duplicateOf == ss[i].nDuplicateOf;
    }
  }

  predicate Duplicates(ss: seq<Stream>, j: nat, c: nat)
    requires j < |ss|
  {
    ss[j].nDuplicateOf == c && c != 0 && c != j
  }

  /** The turns from `i` on reposition stream `c`: it belongs to the table, or another stream, of
      whatever table, duplicates it. */
  ghost predicate Moves(ss: seq<Stream>, i: nat, tbl: int, c: nat)
    requires c < |ss|
  {
    (i <= c && ss[c].nTable == tbl) || exists j: nat :: i <= j < |ss| && Duplicates(ss, j, c)
  }

  /** Two streams that give the same draws: only the count of all draws may differ. */
  predicate SameButTotal(a: Stream, b: Stream) {
    a == b.(nTotal := a.nTotal)
  }

  lemma TurnMeaning(ss: seq<Stream>, i: nat, tbl: int, count: int, c: nat)
    requires i < |ss| && 0 <= ss[i].nDuplicateOf < |ss| && c < |ss|
    ensures var t := SkipStep(ss, i, tbl, count);
      && |t| == |ss| && Layout(t) == Layout(ss)
      && Skipped(t[c], count * t[c].nUsedPerRow) == Skipped(ss[c], count * ss[c].nUsedPerRow)
      && if (i == c && ss[c].nTable == tbl) || Duplicates(ss, i, c)
         then SameButTotal(t[c], Skipped(ss[c], count * ss[c].nUsedPerRow)) else t[c] == ss[c]
  {
  }

  lemma SamePlaces(ss: seq<Stream>, t: seq<Stream>, i: nat, tbl: int, c: nat)
    requires |t| == |ss| && Layout(t) == Layout(ss) && c < |ss|
    ensures DuplicatesInRange(ss) ==> DuplicatesInRange(t)
    ensures Moves(t, i, tbl, c) <==> Moves(ss, i, tbl, c)
  {
    forall j: nat | j < |ss|
      ensures t[j].nTable == ss[j].nTable && t[j].nDuplicateOf == ss[j].nDuplicateOf
      ensures Duplicates(t, j, c) <==> Duplicates(ss, j, c)
    {
      assert Layout(t)[j] == Layout(ss)[j];
    }
  }

  lemma MovesNext(ss: seq<Stream>, i: nat, tbl: int, c: nat)
    requires i < |ss| && c < |ss|
    ensures Moves(ss, i, tbl, c)
      <==> ((i == c && ss[c].nTable == tbl) || Duplicates(ss, i, c) || Moves(ss, i + 1, tbl, c))
  {
  }

  /** `row_skip` repositions exactly the table's own streams and those that others duplicate, from
      their initial seeds, whatever their present state. */
  lemma {:induction false} SkipFromMeaning(ss: seq<Stream>, i: nat, tbl: int, count: int, c: nat)
    requires DuplicatesInRange(ss) && c < |ss|
    ensures var t := SkipFrom(ss, i, tbl, count);
      && |t| == |ss|
      && if Moves(ss, i, tbl, c) then SameButTotal(t[c], Skipped(ss[c], count * ss[c].nUsedPerRow)) else t[c] == ss[c]
    decreases |ss| - i
  {
    if i >= |ss| {
    } else {
      var next := SkipStep(ss, i, tbl, count);
      TurnMeaning(ss, i, tbl, count, c);
      SamePlaces(ss, next, i + 1, tbl, c);
      MovesNext(ss, i, tbl, c);
      SkipFromMeaning(next, i + 1, tbl, count, c);
    }
  }

  lemma {:induction false} SkipFromLayout(ss: seq<Stream>, i: nat, tbl: int, count: int)
    requires DuplicatesInRange(ss)
    ensures Layout(SkipFrom(ss, i, tbl, count)) == Layout(ss)
    decreases |ss| - i
  {
    if i >= |ss| {
    } else {
      var next := SkipStep(ss, i, tbl, count);
      TurnMeaning(ss, i, tbl, count, i);
      SamePlaces(ss, next, i + 1, tbl, i);
      SkipFromLayout(next, i + 1, tbl, count);
    }
  }

  // ---------------------------------------------------------------- row positions

  /** The residue of a stream before row `k + 1`: `k` times the row budget of draws. */
  ghost function RowSeed(spec: ColumnSpec, k: nat): int {
    if k == 0 then spec.initial % MODULUS else Advance(RowSeed(spec, k - 1), spec.perRow)
  }

  lemma ProductRegroup(a: int, b: int, x: int)
    ensures (a * b) * x == (b * x) * a
  {
  }

  lemma PowerOfRow(p: nat, m: nat, n: nat, x: int)
    requires n == p + m
    ensures Pow(MULT, n) * x == (Pow(MULT, m) * x) * Pow(MULT, p)
  {
    PowAdd(MULT, p, m);
    ProductRegroup(Pow(MULT, p), Pow(MULT, m), x);
  }

  lemma AdvanceTimesPower(x: int, y: int, p: nat)
    requires Congruent(x, y)
    ensures Congruent(Advance(x, p), y * Pow(MULT, p))
  {
    AdvanceIsPower(x, p);
    MulCongruent(x, y, Pow(MULT, p));
  }

  lemma {:induction false} RowSeedRange(spec: ColumnSpec, k: nat)
    ensures 0 <= RowSeed(spec, k) < MODULUS
  {
    if k == 0 {
    } else {
      RowSeedRange(spec, k - 1);
      AdvanceIsPower(RowSeed(spec, k - 1), spec.perRow);
    }
  }

  lemma {:induction false} RowSeedCongruent(spec: ColumnSpec, k: nat, n: nat)
    requires n == k * spec.perRow
    ensures Congruent(RowSeed(spec, k), Pow(MULT, n) * spec.initial)
  {
    if k == 0 {
    } else {
      var p := spec.perRow;
      assert k * p == p + (k - 1) * p;
      RowSeedCongruent(spec, k - 1, n - p);
      AdvanceTimesPower(RowSeed(spec, k - 1), Pow(MULT, n - p) * spec.initial, p);
      PowerOfRow(p, n - p, n, spec.initial);
    }
  }

  /** It is 16807^(k nUsedPerRow) times the initial seed, modulo 2^31 - 1. */
  lemma RowSeedIsPower(spec: ColumnSpec, k: nat)
    ensures k * spec.perRow >= 0
    ensures RowSeed(spec, k) == (Pow(MULT, k * spec.perRow) * spec.initial) % MODULUS
  {
    RowSeedRange(spec, k);
    assert k * spec.perRow >= 0;
    RowSeedCongruent(spec, k, k * spec.perRow);
    ModSmall(RowSeed(spec, k));
  }

  lemma {:induction false} AdvanceCongruent(s: int, t: int, n: nat)
    requires Congruent(s, t)
    ensures Congruent(Advance(s, n), Advance(t, n))
  {
    if n == 0 {
    } else {
      AdvanceCongruent(s, t, n - 1);
      MulCongruent(Advance(s, n - 1), Advance(t, n - 1), MULT);
    }
  }

  ghost function RowSeeds(spec: map<nat, ColumnSpec>, k: nat): map<nat, int> {
    map c | c in spec :: RowSeed(spec[c], k)
  }

  ghost predicate Matches(st: Stream, spec: ColumnSpec) {
    st.nUsedPerRow == spec.perRow && st.nInitialSeed == spec.initial
  }

  /** The streams of the group are those the specification describes. */
  ghost predicate GroupOk(ss: seq<Stream>, spec: map<nat, ColumnSpec>) {
    forall c :: c in spec ==> c < |ss| && Matches(ss[c], spec[c])
  }

  /** Where a stream stands: its draws so far in this row, its residue, and its fixed data. */
  datatype Standing = Standing(used: int, residue: int, perRow: int, initial: int)

  function StandingOf(st: Stream): Standing {
    Standing(st.nUsed, st.nSeed % MODULUS, st.nUsedPerRow, st.nInitialSeed)
  }

  /** Where a stream stands after `k` complete rows. */
  ghost function BoundaryStanding(spec: ColumnSpec, k: nat): Standing {
    Standing(0, RowSeed(spec, k), spec.perRow, spec.initial)
  }

  /** The group's streams among the first `n` stand after `k` complete rows. */
  ghost predicate AtRowUpTo(ss: seq<Stream>, spec: map<nat, ColumnSpec>, k: nat, n: nat)
    requires n <= |ss|
  {
    n == 0 || (AtRowUpTo(ss, spec, k, n - 1) && (n - 1 in spec ==> StandingOf(ss[n - 1]) == BoundaryStanding(spec[n - 1], k)))
  }

  ghost predicate InRange(spec: map<nat, ColumnSpec>, n: nat) {
    forall c :: c in spec ==> c < n
  }

  /** Every stream of the group stands after `k` complete rows. */
  ghost predicate AtRow(ss: seq<Stream>, spec: map<nat, ColumnSpec>, k: nat) {
    InRange(spec, |ss|) && AtRowUpTo(ss, spec, k, |ss|)
  }

  lemma {:induction false} AtRowColumn(ss: seq<Stream>, spec: map<nat, ColumnSpec>, k: nat, n: nat)
    requires n <= |ss|
    ensures AtRowUpTo(ss, spec, k, n) <==> forall c :: c in spec && c < n ==> StandingOf(ss[c]) == BoundaryStanding(spec[c], k)
  {
    if n == 0 {
    } else {
      AtRowColumn(ss, spec, k, n - 1);
    }
  }

  /** Row `row` builds within the budgets of the group. */
  ghost predicate RowFits<R>(builder: int -> Builder<R>, spec: map<nat, ColumnSpec>, row: int) {
    Within(builder(row), Budget(spec))
  }

  ghost predicate RowsFit<R>(builder: int -> Builder<R>, spec: map<nat, ColumnSpec>, lo: int, hi: int) {
    forall row :: lo <= row < hi ==> RowFits(builder, spec, row)
  }

  /** The lines of row `row`, a function of the initial seeds alone. */
  ghost function RowLines<R>(builder: int -> Builder<R>, spec: map<nat, ColumnSpec>, row: int): seq<R>
    requires row >= 1
  {
    if RowFits(builder, spec, row) then Lines(builder(row), RowSeeds(spec, row - 1), Budget(spec)) else []
  }

  /** The lines of `count` rows starting with row `first`. */
  ghost function TableLines<R>(builder: int -> Builder<R>, spec: map<nat, ColumnSpec>, first: int, count: nat): seq<R>
    requires first >= 1
  {
    if count == 0 then []
    else TableLines(builder, spec, first, count - 1) + RowLines(builder, spec, first + count - 1)
  }

  lemma TableLinesNext<R>(builder: int -> Builder<R>, spec: map<nat, ColumnSpec>, first: int, n: nat, row: int)
    requires first >= 1 && row == first + n
    ensures TableLines(builder, spec, first, n + 1) == TableLines(builder, spec, first, n) + RowLines(builder, spec, row)
  {
  }

  lemma {:induction false} TableLinesSplit<R>(builder: int -> Builder<R>, spec: map<nat, ColumnSpec>,
                                              first: int, a: nat, b: nat)
    requires first >= 1
    ensures TableLines(builder, spec, first, a + b)
         == TableLines(builder, spec, first, a) + TableLines(builder, spec, first + a, b)
  {
    if b == 0 {
    } else {
      TableLinesSplit(builder, spec, first, a, b - 1);
    }
  }

  lemma {:induction false} AdvanceAdd(s: int, m: nat, n: nat)
    ensures Advance(Advance(s, m), n) == Advance(s, m + n)
  {
    if n == 0 {
    } else {
      AdvanceAdd(s, m, n - 1);
    }
  }

  /** A row that drew `d` values and was padded to its budget has moved exactly one row on. */
  lemma RowBoundary(st: Stream, spec: ColumnSpec, k: nat, d: nat, chkSeeds: bool)
    requires StandingOf(st) == BoundaryStanding(spec, k) && d <= spec.perRow
    ensures StandingOf(Padded(DrawnTimes(st, d), chkSeeds)) == BoundaryStanding(spec, k + 1)
  {
    var n := spec.perRow;
    AdvanceAdd(st.nSeed, d, n - d);
    AdvanceCongruent(st.nSeed, RowSeed(spec, k), n);
    RowSeedRange(spec, k + 1);
  }

  /** `row_skip` reaches the same position from any state. */
  lemma SkipReachesRow(st: Stream, spec: ColumnSpec, k: nat)
    requires Matches(st, spec)
    ensures StandingOf(Skipped(st, k * spec.perRow)) == BoundaryStanding(spec, k)
  {
    var n := k * spec.perRow;
    assert n >= 0;
    RowSeedIsPower(spec, k);
    SkipIsAdvance(st.nInitialSeed, n);
    AdvanceIsPower(st.nInitialSeed, n);
  }

  // ---------------------------------------------------------------- the rows in the output

  /** Row `row` of a table prints these lines: its builder ends with them on the values that the
      table's streams give after `row - 1` complete rows. */
  ghost predicate RowPrints<R>(builder: int -> Builder<R>, spec: map<nat, ColumnSpec>, row: int, lines: seq<R>) {
    row >= 1 && Prints(builder(row), RowSeeds(spec, row - 1), lines)
  }

  lemma RowLinesPrinted<R>(builder: int -> Builder<R>, spec: map<nat, ColumnSpec>, row: int)
    requires row >= 1 && RowFits(builder, spec, row)
    ensures RowPrints(builder, spec, row, RowLines(builder, spec, row))
  {
    LinesPrinted(builder(row), RowSeeds(spec, row - 1), Budget(spec));
  }

  /** The lines of row `first + i` stand between `marks[i]` and `marks[i + 1]`. */
  ghost predicate RowAt<R>(out: seq<R>, marks: seq<nat>, builder: int -> Builder<R>, spec: map<nat, ColumnSpec>,
                           first: int, i: nat)
  {
    && i + 1 < |marks| && marks[i] <= marks[i + 1] <= |out|
    && RowPrints(builder, spec, first + i, out[marks[i]..marks[i + 1]])
  }

  ghost predicate Marked<R>(out: seq<R>, marks: seq<nat>, builder: int -> Builder<R>, spec: map<nat, ColumnSpec>,
                            first: int, count: nat)
  {
    && |marks| == count + 1 && marks[0] == 0 && marks[count] == |out|
    && forall i: nat :: i < count ==> RowAt(out, marks, builder, spec, first, i)
  }

  /** The output is what rows `first` to `first + count - 1` print, one after the other. */
  ghost predicate WritesRows<R>(out: seq<R>, builder: int -> Builder<R>, spec: map<nat, ColumnSpec>, first: int, count: nat) {
    exists marks: seq<nat> :: Marked(out, marks, builder, spec, first, count)
  }

  lemma RowStays<R>(out: seq<R>, marks: seq<nat>, builder: int -> Builder<R>, spec: map<nat, ColumnSpec>, first: int,
                    i: nat, lines: seq<R>, end: nat)
    requires RowAt(out, marks, builder, spec, first, i)
    ensures RowAt(out + lines, marks + [end], builder, spec, first, i)
  {
    assert (out + lines)[marks[i]..marks[i + 1]] == out[marks[i]..marks[i + 1]];
  }

  lemma OneMoreRow<R>(out: seq<R>, marks: seq<nat>, builder: int -> Builder<R>, spec: map<nat, ColumnSpec>, first: int,
                      count: nat, lines: seq<R>)
    requires Marked(out, marks, builder, spec, first, count) && RowPrints(builder, spec, first + count, lines)
    ensures Marked(out + lines, marks + [|out + lines|], builder, spec, first, count + 1)
  {
    var after, next := out + lines, marks + [|out + lines|];
    forall i: nat | i < count + 1
      ensures RowAt(after, next, builder, spec, first, i)
    {
      if i < count {
        RowStays(out, marks, builder, spec, first, i, lines, |after|);
      } else {
        assert after[|out|..|after|] == lines;
      }
    }
  }

  lemma NoRows<R>(builder: int -> Builder<R>, spec: map<nat, ColumnSpec>, first: int)
    ensures Marked([], [0], builder, spec, first, 0)
  {
  }

  lemma {:induction false} TableMarks<R>(builder: int -> Builder<R>, spec: map<nat, ColumnSpec>, first: int, count: nat, hi: int)
    returns (marks: seq<nat>)
    requires first >= 1 && first + count <= hi && RowsFit(builder, spec, first, hi)
    ensures Marked(TableLines(builder, spec, first, count), marks, builder, spec, first, count)
    decreases count
  {
    if count == 0 {
      marks := [0];
      NoRows(builder, spec, first);
    } else {
      var last := first + count - 1;
      assert RowFits(builder, spec, last);
      var lines := RowLines(builder, spec, last);
      RowLinesPrinted(builder, spec, last);
      var before := TableLines(builder, spec, first, count - 1);
      var front := TableMarks(builder, spec, first, count - 1, hi);
      OneMoreRow(before, front, builder, spec, first, count - 1, lines);
      marks := front + [|before + lines|];
      TableLinesNext(builder, spec, first, count - 1, last);
    }
  }

  lemma TableWritesRows<R>(builder: int -> Builder<R>, spec: map<nat, ColumnSpec>, first: int, count: nat)
    requires first >= 1 && RowsFit(builder, spec, first, first + count)
    ensures WritesRows(TableLines(builder, spec, first, count), builder, spec, first, count)
  {
    var marks := TableMarks(builder, spec, first, count, first + count);
  }

  /** The builder ends with exactly one line, whatever it draws. */
  ghost predicate OneLine<R>(b: Builder<R>)
    decreases b
  {
    match b
    case Done(lines) => |lines| == 1
    case Draw(_, next) => forall v :: v in next ==> OneLine(next[v])
  }

  lemma {:induction false} OneLineEnds<R>(b: Builder<R>, draws: seq<Taken>, lines: seq<R>)
    requires OneLine(b) && Ends(b, draws, lines)
    ensures |lines| == 1
    decreases |draws|
  {
    if draws == [] {
    } else {
      OneLineEnds(b.next[draws[0].value], draws[1..], lines);
    }
  }

  ghost predicate OneLineRows<R>(builder: int -> Builder<R>, first: int, count: nat) {
    forall row :: first <= row < first + count ==> OneLine(builder(row))
  }

  lemma {:induction false} MarksCount<R>(out: seq<R>, marks: seq<nat>, builder: int -> Builder<R>, spec: map<nat, ColumnSpec>,
                                         first: int, count: nat, i: nat)
    requires Marked(out, marks, builder, spec, first, count) && OneLineRows(builder, first, count) && i <= count
    ensures marks[i] == i
  {
    if i == 0 {
    } else {
      MarksCount(out, marks, builder, spec, first, count, i - 1);
      assert RowAt(out, marks, builder, spec, first, i - 1);
      var draws :| FromStreams(draws, RowSeeds(spec, first + i - 2)) && Ends(builder(first + i - 1), draws, out[marks[i - 1]..marks[i]]);
      OneLineEnds(builder(first + i - 1), draws, out[marks[i - 1]..marks[i]]);
    }
  }

  /** If every row prints one line, line `i` of the output is that of row `first + i`. */
  lemma {:induction false} LineOfRow<R>(out: seq<R>, builder: int -> Builder<R>, spec: map<nat, ColumnSpec>, first: int, count: nat)
    requires WritesRows(out, builder, spec, first, count) && OneLineRows(builder, first, count)
    ensures |out| == count && forall i :: 0 <= i < count ==> RowPrints(builder, spec, first + i, [out[i]])
  {
    var marks: seq<nat> :| Marked(out, marks, builder, spec, first, count);
    MarksCount(out, marks, builder, spec, first, count, count);
    forall i | 0 <= i < count
      ensures RowPrints(builder, spec, first + i, [out[i]])
    {
      MarksCount(out, marks, builder, spec, first, count, i);
      MarksCount(out, marks, builder, spec, first, count, i + 1);
      assert RowAt(out, marks, builder, spec, first, i);
      assert out[i..i + 1] == [out[i]];
    }
  }

  // ---------------------------------------------------------------- gen_tbl and validateGeneric

  lemma LinesAtRow<R>(builder: int -> Builder<R>, ss: seq<Stream>, spec: map<nat, ColumnSpec>, row: int)
    requires row >= 1 && AtRow(ss, spec, row - 1) && RowFits(builder, spec, row)
    ensures forall c :: c in spec ==> c < |ss|
    ensures Lines(builder(row), Seeds(ss, spec.Keys), Budget(spec)) == RowLines(builder, spec, row)
  {
    AtRowColumn(ss, spec, row - 1, |ss|);
    forall c | c in spec
      ensures c < |ss| && Congruent(ss[c].nSeed, RowSeed(spec[c], row - 1))
    {
      assert StandingOf(ss[c]) == BoundaryStanding(spec[c], row - 1);
    }
    LinesCongruent(builder(row), Seeds(ss, spec.Keys), RowSeeds(spec, row - 1), Budget(spec));
  }

  /** Closing a row leaves every stream of the group one row further. */
  lemma CloseRow(before: seq<Stream>, spent: seq<Stream>, after: seq<Stream>, spec: map<nat, ColumnSpec>,
                 k: nat, chkSeeds: bool)
    requires AtRow(before, spec, k) && Spent(before, spent, Budget(spec))
    requires |after| == |spent|
    requires forall c: nat :: c < |spent| ==> after[c] == if c in spec.Keys then Padded(spent[c], chkSeeds) else spent[c]
    ensures AtRow(after, spec, k + 1)
    ensures forall c: nat :: c < |before| && c !in spec ==> after[c] == before[c]
  {
    AtRowColumn(before, spec, k, |before|);
    AtRowColumn(after, spec, k + 1, |after|);
    forall c | c in spec
      ensures c < |after| && StandingOf(after[c]) == BoundaryStanding(spec[c], k + 1)
    {
      assert StandingOf(before[c]) == BoundaryStanding(spec[c], k);
      assert c in Budget(spec);
      RowBoundary(before[c], spec[c], k, spent[c].nUsed - before[c].nUsed, chkSeeds);
    }
  }

  lemma StopGroupTwoLevels(tdefs: map<int, TableDef>, tbl: int)
    requires TwoLevels(tdefs, tbl)
    ensures StopGroup(tdefs, tbl) == Group(tdefs, tbl)
  {
  }

  /** Build one row and collect its lines. */
  method BuildRow<R>(streams: array<Stream>, builder: int -> Builder<R>, i: int, ghost spec: map<nat, ColumnSpec>)
    returns (lines: seq<R>)
    requires StreamsOk(streams[..])
    requires i >= 1 && AtRow(streams[..], spec, i - 1) && RowFits(builder, spec, i)
    modifies streams
    ensures lines == RowLines(builder, spec, i)
    ensures StreamsOk(streams[..]) && Layout(streams[..]) == Layout(old(streams[..]))
    ensures Spent(old(streams[..]), streams[..], Budget(spec))
  {
    LinesAtRow(builder, streams[..], spec, i);
    lines := RunBuilder(builder(i), streams, spec.Keys, Budget(spec));
  }

  /** `row_stop` after a row built within its budget. */
  method StopRow(streams: array<Stream>, tdefs: map<int, TableDef>, tbl: int, chkSeeds: bool,
                 ghost spec: map<nat, ColumnSpec>, ghost before: seq<Stream>, ghost k: nat)
    requires StreamsOk(streams[..]) && CatalogOk(tdefs, Layout(streams[..])) && TwoLevels(tdefs, tbl)
    requires spec.Keys == Group(tdefs, tbl)
    requires AtRow(before, spec, k) && Spent(before, streams[..], Budget(spec))
    modifies streams
    ensures StreamsOk(streams[..]) && Layout(streams[..]) == Layout(old(streams[..]))
    ensures AtRow(streams[..], spec, k + 1)
    ensures forall c: nat :: c < streams.Length && c !in spec ==> streams[c] == before[c]
  {
    ghost var spent := streams[..];
    RowStop(streams, tdefs, tbl, chkSeeds);
    StopGroupTwoLevels(tdefs, tbl);
    CloseRow(before, spent, streams[..], spec, k, chkSeeds);
  }

  /** One turn of the row loop: build, print, `row_stop`. */
  method GenRow<R>(streams: array<Stream>, tdefs: map<int, TableDef>, tbl: int, builder: int -> Builder<R>, i: int,
                   chkSeeds: bool, ghost spec: map<nat, ColumnSpec>, ghost k: nat,
                   ghost lo: int, ghost hi: int)
    returns (lines: seq<R>)
    requires StreamsOk(streams[..]) && CatalogOk(tdefs, Layout(streams[..])) && TwoLevels(tdefs, tbl)
    requires spec.Keys == Group(tdefs, tbl)
    requires i == k + 1 && AtRow(streams[..], spec, k)
    requires lo <= i < hi && RowsFit(builder, spec, lo, hi)
    modifies streams
    ensures lines == RowLines(builder, spec, i)
    ensures StreamsOk(streams[..]) && Layout(streams[..]) == Layout(old(streams[..]))
    ensures AtRow(streams[..], spec, k + 1)
    ensures forall c: nat :: c < streams.Length && c !in spec ==> streams[c] == old(streams[c])
  {
    ghost var before := streams[..];
    lines := BuildRow(streams, builder, i, spec);
    StopRow(streams, tdefs, tbl, chkSeeds, spec, before, k);
  }

  /** The group stands after `k` rows and the other streams are as they were. */
  ghost predicate Stands(start: seq<Stream>, now: seq<Stream>, spec: map<nat, ColumnSpec>, k: nat) {
    && StreamsOk(now) && |now| == |start| && Layout(now) == Layout(start) && AtRow(now, spec, k)
    && forall c: nat :: c < |now| && c !in spec ==> now[c] == start[c]
  }

  lemma StandsNext(start: seq<Stream>, now: seq<Stream>, after: seq<Stream>, spec: map<nat, ColumnSpec>, k: nat)
    requires Stands(start, now, spec, k)
    requires StreamsOk(after) && |after| == |now| && Layout(after) == Layout(now) && AtRow(after, spec, k + 1)
    requires forall c: nat :: c < |now| && c !in spec ==> after[c] == now[c]
    ensures Stands(start, after, spec, k + 1)
  {
  }

  method GenTbl<R>(streams: array<Stream>, tdefs: map<int, TableDef>, tbl: int, builder: int -> Builder<R>,
                   kFirstRow: int, kRowCount: nat, chkSeeds: bool, ghost spec: map<nat, ColumnSpec>)
    returns (out: seq<R>, ghost k: nat)
    requires StreamsOk(streams[..]) && CatalogOk(tdefs, Layout(streams[..])) && TwoLevels(tdefs, tbl)
    requires spec.Keys == Group(tdefs, tbl)
    requires kFirstRow >= 1 && AtRow(streams[..], spec, kFirstRow - 1)
    requires RowsFit(builder, spec, kFirstRow, kFirstRow + kRowCount)
    modifies streams
    ensures WritesRows(out, builder, spec, kFirstRow, kRowCount)
    ensures OneLineRows(builder, kFirstRow, kRowCount) ==>
      |out| == kRowCount && forall i :: 0 <= i < kRowCount ==> RowPrints(builder, spec, kFirstRow + i, [out[i]])
    ensures out == TableLines(builder, spec, kFirstRow, kRowCount)
    ensures StreamsOk(streams[..]) && Layout(streams[..]) == Layout(old(streams[..]))
    ensures k == kFirstRow - 1 + kRowCount && AtRow(streams[..], spec, k)
    ensures forall c: nat :: c < streams.Length && c !in spec ==> streams[c] == old(streams[c])
  {
    out := [];
    k := kFirstRow - 1;
    ghost var start := streams[..];
    ghost var n: nat := 0;
    var i, left := kFirstRow, kRowCount;
    while left != 0
      invariant 0 <= left && left + n == kRowCount && i == k + 1 && k == kFirstRow - 1 + n
      invariant Stands(start, streams[..], spec, k)
      invariant out == TableLines(builder, spec, kFirstRow, n)
      decreases left
    {
      ghost var now := streams[..];
      var lines := GenRow(streams, tdefs, tbl, builder, i, chkSeeds, spec, k, kFirstRow, kFirstRow + kRowCount);
      StandsNext(start, now, streams[..], spec, k);
      TableLinesNext(builder, spec, kFirstRow, n, i);
      out := out + lines;
      n, k := n + 1, k + 1;
      i, left := i + 1, left - 1;
    }
    TableWritesRows(builder, spec, kFirstRow, kRowCount);
    if OneLineRows(builder, kFirstRow, kRowCount) {
      LineOfRow(out, builder, spec, kFirstRow, kRowCount);
    }
  }

  /** The stream as it was, or repositioned. */
  predicate Kept(before: Stream, after: Stream, count: int) {
    after == before || SameButTotal(after, Skipped(before, count * before.nUsedPerRow))
  }

  lemma SkipMeaning(ss: seq<Stream>, tbl: int, count: int)
    requires DuplicatesOk(Layout(ss))
    ensures DuplicatesInRange(ss)
    ensures var tt := SkipFrom(ss, 0, tbl, count);
      && |tt| == |ss| && Layout(tt) == Layout(ss)
      && forall c: nat :: c < |ss| ==>
        && Kept(ss[c], tt[c], count)
        && (ss[c].nTable == tbl ==> SameButTotal(tt[c], Skipped(ss[c], count * ss[c].nUsedPerRow)))
  {
    LayoutInRange(ss);
    SkipFromLayout(ss, 0, tbl, count);
    forall c: nat | c < |ss|
      ensures |SkipFrom(ss, 0, tbl, count)| == |ss|
      ensures Kept(ss[c], SkipFrom(ss, 0, tbl, count)[c], count)
      ensures ss[c].nTable == tbl ==> SameButTotal(SkipFrom(ss, 0, tbl, count)[c], Skipped(ss[c], count * ss[c].nUsedPerRow))
    {
      SkipFromMeaning(ss, 0, tbl, count, c);
    }
    assert |Layout(SkipFrom(ss, 0, tbl, count))| == |Layout(ss)|;
  }

  /** The streams of the table and of its child. */
  predicate InFamily(tdefs: map<int, TableDef>, tbl: int, st: Stream)
    requires tbl in tdefs
  {
    st.nTable == tbl || (tdefs[tbl].isParent && st.nTable == tdefs[tbl].nParam)
  }

  /** The skips that `main` and `validateGeneric` make before building: the table and its child. */
  method PositionTable(streams: array<Stream>, tdefs: map<int, TableDef>, tbl: int, count: int,
                       ghost spec: map<nat, ColumnSpec>)
    requires StreamsOk(streams[..]) && DuplicatesOk(Layout(streams[..]))
    requires CatalogOk(tdefs, Layout(streams[..])) && tbl in tdefs
    requires spec.Keys == Group(tdefs, tbl) && GroupOk(streams[..], spec)
    modifies streams
    ensures StreamsOk(streams[..]) && Layout(streams[..]) == Layout(old(streams[..]))
    ensures count >= 0 ==> AtRow(streams[..], spec, count)
    ensures forall c: nat :: c < streams.Length ==>
      && Kept(old(streams[c]), streams[c], count)
      && (InFamily(tdefs, tbl, old(streams[c])) ==>
            SameButTotal(streams[c], Skipped(old(streams[c]), count * old(streams[c]).nUsedPerRow)))
  {
    ghost var start := streams[..];
    SkipMeaning(start, tbl, count);
    RowSkip(streams, tbl, count);
    if tdefs[tbl].isParent {
      SkipMeaning(streams[..], tdefs[tbl].nParam, count);
      RowSkip(streams, tdefs[tbl].nParam, count);
    }
    if count >= 0 {
      AtRowColumn(streams[..], spec, count, streams.Length);
      forall c | c in spec
        ensures StandingOf(streams[c]) == BoundaryStanding(spec[c], count)
      {
        SkipReachesRow(start[c], spec[c], count);
        assert Layout(start)[c].table == start[c].nTable;
      }
    }
  }

  /** `validateGeneric`: jump to one row, from any state of the streams, and rebuild it. */
  method ValidateGeneric<R>(streams: array<Stream>, tdefs: map<int, TableDef>, tbl: int,
                            builder: int -> Builder<R>, kRow: int,
                            ghost spec: map<nat, ColumnSpec>)
    returns (lines: seq<R>)
    requires StreamsOk(streams[..]) && DuplicatesOk(Layout(streams[..]))
    requires CatalogOk(tdefs, Layout(streams[..])) && tbl in tdefs
    requires spec.Keys == Group(tdefs, tbl) && GroupOk(streams[..], spec)
    requires kRow >= 1 && RowFits(builder, spec, kRow)
    modifies streams
    ensures RowPrints(builder, spec, kRow, lines)
    ensures lines == RowLines(builder, spec, kRow)
  {
    PositionTable(streams, tdefs, tbl, kRow - 1, spec);
    LinesAtRow(builder, streams[..], spec, kRow);
    lines := RunBuilder(builder(kRow), streams, spec.Keys, Budget(spec));
    RowLinesPrinted(builder, spec, kRow);
  }
}
