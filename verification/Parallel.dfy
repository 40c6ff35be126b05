/** Parallel generation: `split_work`, the table loop of driver.c's `main`, and the equality of a
    run split over child processes with the serial run. */
module Parallel {
  import opened CInt
  import opened Lehmer
  import opened Period
  import opened Streams
  import opened Rows

  /** The options that decide a process's share: `parallel` is used when PARALLEL is set. */
  datatype Options = Options(parallelSet: bool, parallel: int, child: int)

  const SERIAL := Options(false, 0, 1)

  predicate OptionsOk(o: Options) {
    1 <= o.child && (o.parallelSet ==> 2 <= o.parallel)
  }

  // ---------------------------------------------------------------- split_work

  /** The rows of child `c` of `p`: an even share, one more for the first `total mod p` children. */
  function ChildRows(total: nat, p: int, c: int): nat
    requires p >= 1
  {
    total / p + if c <= total % p then 1 else 0
  }

  /** The rows of children 1 to `c`. */
  function RowsThrough(total: nat, p: int, c: nat): nat
    requires p >= 1
  {
    if c == 0 then 0 else RowsThrough(total, p, c - 1) + ChildRows(total, p, c)
  }

  lemma {:induction false} RowsThroughClosed(total: nat, p: int, c: nat)
    requires p >= 1
    ensures RowsThrough(total, p, c) == c * (total / p) + if c < total % p then c else total % p
  {
    if c == 0 {
    } else {
      RowsThroughClosed(total, p, c - 1);
      assert c * (total / p) == (c - 1) * (total / p) + total / p;
    }
  }

  /** The shares of children 1 to `p` use up the table exactly. */
  lemma SharesCover(total: nat, p: int)
    requires p >= 1
    ensures RowsThrough(total, p, p) == total
  {
    RowsThroughClosed(total, p, p);
    assert p * (total / p) + total % p == total;
  }

  const SMALL_TABLE := 1000000

  /** The first row and the row count a process builds of a table. */
  function Share(total: nat, o: Options): (int, nat)
    requires OptionsOk(o)
  {
    if total < SMALL_TABLE then (1, if o.child > 1 then 0 else total)
    else if !o.parallelSet then (1, total)
    else (1 + RowsThrough(total, o.parallel, o.child - 1), ChildRows(total, o.parallel, o.child))
  }

  lemma EvenShare(total: nat, p: int)
    requires p >= 1
    ensures total - total % p >= 0 && (total - total % p) / p == total / p
  {
    DivModUnique(total - total % p, p, total / p, 0);
  }

  /** The return value is 0 for a small table that another child builds. */
  method SplitWork(total: nat, o: Options) returns (firstRow: int, rowCount: nat, code: int)
    requires OptionsOk(o)
    ensures total < SMALL_TABLE ==> firstRow == 1 && rowCount == if o.child > 1 then 0 else total
    ensures total >= SMALL_TABLE && !o.parallelSet ==> firstRow == 1 && rowCount == total
    ensures total >= SMALL_TABLE && o.parallelSet ==>
      var even, extra, before := total / o.parallel, total % o.parallel, o.child - 1;
      && firstRow == 1 + before * even + (if before < extra then before else extra)
      && rowCount == even + (if o.child <= extra then 1 else 0)
    ensures (firstRow, rowCount) == Share(total, o)
    ensures code == 0 <==> total < SMALL_TABLE && o.child > 1
    ensures code == 0 || code == 1
  {
    firstRow, rowCount := 1, total;
    if total < SMALL_TABLE {
      if o.child > 1 {
        firstRow, rowCount := 1, 0;
        return firstRow, rowCount, 0;
      }
      return firstRow, rowCount, 1;
    }
    if !o.parallelSet {
      return firstRow, rowCount, 1;
    }
    RowsThroughClosed(total, o.parallel, o.child - 1);
    var extra := Rem(total, o.parallel);
    var rowset := Quot(total - extra, o.parallel);
    EvenShare(total, o.parallel);
    firstRow := firstRow + (o.child - 1) * rowset;
    if extra != 0 && o.child - 1 != 0 {
      firstRow := firstRow + if o.child - 1 < extra then o.child - 1 else extra;
    }
    rowCount := rowset;
    if extra != 0 && o.child <= extra {
      rowCount := rowCount + 1;
    }
    return firstRow, rowCount, 1;
  }

  // ---------------------------------------------------------------- main

  /** A table that `main` generates: neither skipped (FL_NOP) nor built by its parent (FL_CHILD). */
  datatype Job<!R> = Job(table: int, totalRows: nat, builder: int -> Builder<R>)

  /** The budgets and initial seeds of a job's columns in the table of streams it starts from. */
  ghost function Spec<R>(job: Job<R>, tdefs: map<int, TableDef>, ss: seq<Stream>): map<nat, ColumnSpec>
    requires TwoLevels(tdefs, job.table)
  {
    map c | c in Group(tdefs, job.table) && c < |ss| && ss[c].nUsedPerRow >= 0
      :: ColumnSpec(ss[c].nUsedPerRow, ss[c].nInitialSeed)
  }

  ghost predicate JobOk<R>(job: Job<R>, tdefs: map<int, TableDef>, ss: seq<Stream>) {
    && TwoLevels(tdefs, job.table)
    && Spec(job, tdefs, ss).Keys == Group(tdefs, job.table)
    && RowsFit(job.builder, Spec(job, tdefs, ss), 1, 1 + job.totalRows)
  }

  /** The table numbers whose streams a job touches. */
  function Family(tdefs: map<int, TableDef>, tbl: int): set<int>
    requires tbl in tdefs
  {
    {tbl} + if tdefs[tbl].isParent then {tdefs[tbl].nParam} else {}
  }

  ghost predicate JobsOk<R>(jobs: seq<Job<R>>, tdefs: map<int, TableDef>, ss: seq<Stream>) {
    && (forall j :: 0 <= j < |jobs| ==> JobOk(jobs[j], tdefs, ss))
    && (forall i, j :: 0 <= i < j < |jobs| ==> Family(tdefs, jobs[i].table) !! Family(tdefs, jobs[j].table))
  }

  /** What a process writes of one table. */
  ghost function JobLines<R>(job: Job<R>, spec: map<nat, ColumnSpec>, o: Options): seq<R>
    requires OptionsOk(o)
  {
    TableLines(job.builder, spec, Share(job.totalRows, o).0, Share(job.totalRows, o).1)
  }

  /** How many rows a skip of `k` really passes over: `main` converts the number to `int`, and
      `skip_random` does nothing for a negative one. */
  function SkippedRows(k: nat): (s: nat)
    ensures s <= k && (k < 0x8000_0000 ==> s == k)
  {
    if Int32(k) < 0 then 0 else Int32(k)
  }

  /** The skip leaves a column where `k` rows would: it has only zeros, or the rows not passed over
      draw whole periods of the generator. */
  predicate Lands(spec: ColumnSpec, k: nat) {
    Congruent(spec.initial, 0) || ((k - SkippedRows(k)) * spec.perRow) % PERIOD == 0
  }

  ghost predicate AllLand(spec: map<nat, ColumnSpec>, k: nat) {
    forall c :: c in spec ==> Lands(spec[c], k)
  }

  /** Every column of the job lands on the process's first row. */
  ghost predicate SkipLands<R>(job: Job<R>, spec: map<nat, ColumnSpec>, o: Options)
    requires OptionsOk(o)
  {
    AllLand(spec, Share(job.totalRows, o).0 - 1)
  }

  /** The process builds the table's first row. */
  ghost predicate FromTheStart<R>(job: Job<R>, o: Options)
    requires OptionsOk(o)
  {
    Share(job.totalRows, o).0 == 1 && Share(job.totalRows, o).1 != 0
  }

  /** The builder stays in its budgets on the process's rows. */
  ghost predicate ShareFits<R>(job: Job<R>, spec: map<nat, ColumnSpec>, o: Options)
    requires OptionsOk(o)
  {
    RowsFit(job.builder, spec, Share(job.totalRows, o).0, Share(job.totalRows, o).0 + Share(job.totalRows, o).1)
  }

  // ---------------------------------------------------------------- where a skip lands

  lemma SkipSeedOfNegative(initial: int, n: int)
    requires n <= 0
    ensures SkipSeed(initial, n) == SkipSeed(initial, 0)
  {
  }

  lemma NegativeTimes(a: int, p: int)
    requires a < 0 && p >= 0
    ensures a * p <= 0
  {
  }

  /** The converted argument leaves the stream after `SkippedRows(k)` rows. */
  lemma SkipReachesConverted(st: Stream, spec: ColumnSpec, k: nat)
    requires Matches(st, spec)
    ensures StandingOf(Skipped(st, Int32(k) * spec.perRow)) == BoundaryStanding(spec, SkippedRows(k))
  {
    SkipReachesRow(st, spec, SkippedRows(k));
    if Int32(k) < 0 {
      NegativeTimes(Int32(k), spec.perRow);
      SkipSeedOfNegative(st.nInitialSeed, Int32(k) * spec.perRow);
    }
  }

  /** Two row boundaries of a column coincide exactly when the rows between them draw whole periods. */
  lemma SameBoundaryIff(spec: ColumnSpec, m: nat, k: nat)
    requires m <= k
    ensures BoundaryStanding(spec, m) == BoundaryStanding(spec, k)
      <==> Congruent(spec.initial, 0) || ((k - m) * spec.perRow) % PERIOD == 0
  {
    var p := spec.perRow;
    RowSeedIsPower(spec, m);
    RowSeedIsPower(spec, k);
    assert (k - m) * p >= 0;
    assert k * p - m * p == (k - m) * p;
    SameResidueIff(spec.initial, m * p, k * p);
  }

  /** For every row number, `main`'s skip is right exactly when the column lands. */
  lemma SkipLandsIff(st: Stream, spec: ColumnSpec, k: nat)
    requires Matches(st, spec)
    ensures StandingOf(Skipped(st, Int32(k) * spec.perRow)) == BoundaryStanding(spec, k) <==> Lands(spec, k)
  {
    SkipReachesConverted(st, spec, k);
    SameBoundaryIff(spec, SkippedRows(k), k);
  }

  /** Below 2^31 it is always right. */
  lemma SmallSkipLands(spec: ColumnSpec, k: nat)
    requires k < 0x8000_0000
    ensures Lands(spec, k)
  {
    assert 0 * spec.perRow == 0;
  }

  /** So is a column that draws nothing. */
  lemma NoDrawsLand(spec: ColumnSpec, k: nat)
    requires spec.perRow == 0
    ensures Lands(spec, k)
  {
    assert (k - SkippedRows(k)) * 0 == 0;
  }

  /** Between 2^31 and 2^32 a column with one draw per row is in place at a single row. */
  lemma OneDrawLandsIff(initial: int, k: nat)
    requires 0x8000_0000 <= k < 0x1_0000_0000 && !Congruent(initial, 0)
    ensures Lands(ColumnSpec(1, initial), k) <==> k == 4294967292
  {
    assert Int32(k) == k - 0x1_0000_0000;
    assert (k - SkippedRows(k)) * 1 == k;
  }

  /** A row that prints one draw of a column. */
  ghost function PrintDraw(c: nat): Builder<int> {
    Draw(c, imap v | 0 <= v < MODULUS :: Done([v]))
  }

  lemma DrawsDiffer(spec: ColumnSpec, m: nat, k: nat)
    requires BoundaryStanding(spec, m) != BoundaryStanding(spec, k)
    ensures Next(RowSeed(spec, m)) != Next(RowSeed(spec, k))
  {
    RowSeedRange(spec, m);
    RowSeedRange(spec, k);
    NextInjective(RowSeed(spec, m), RowSeed(spec, k));
    ModSmall(RowSeed(spec, m));
    ModSmall(RowSeed(spec, k));
  }

  /** Where a column does not land, the output can show it: the row that prints one of its draws
      comes out wrong. */
  lemma MissedRowShows(spec: map<nat, ColumnSpec>, c: nat, k: nat)
    requires c in spec && !Lands(spec[c], k)
    ensures Within(PrintDraw(c), Budget(spec))
    ensures Lines(PrintDraw(c), RowSeeds(spec, SkippedRows(k)), Budget(spec)) != Lines(PrintDraw(c), RowSeeds(spec, k), Budget(spec))
  {
    var m := SkippedRows(k);
    SameBoundaryIff(spec[c], m, k);
    DrawsDiffer(spec[c], m, k);
    if spec[c].perRow == 0 {
      NoDrawsLand(spec[c], k);
    }
  }

  /** The skips of `main` put a table's group at row boundary `k` exactly when every column lands. */
  lemma GroupLandsIff(start: seq<Stream>, now: seq<Stream>, spec: map<nat, ColumnSpec>, k: nat)
    requires GroupOk(start, spec) && |now| == |start|
    requires forall c :: c in spec ==> SameButTotal(now[c], Skipped(start[c], Int32(k) * start[c].nUsedPerRow))
    ensures AtRow(now, spec, k) <==> AllLand(spec, k)
  {
    AtRowColumn(now, spec, k, |now|);
    forall c | c in spec
      ensures StandingOf(now[c]) == BoundaryStanding(spec[c], k) <==> Lands(spec[c], k)
    {
      SkipLandsIff(start[c], spec[c], k);
    }
  }

  lemma {:induction false} AtRowFrame(ss: seq<Stream>, tt: seq<Stream>, spec: map<nat, ColumnSpec>, k: nat)
    requires AtRow(ss, spec, k) && |ss| == |tt|
    requires forall c :: c in spec ==> c < |ss| && tt[c] == ss[c]
    ensures AtRow(tt, spec, k)
  {
    AtRowColumn(ss, spec, k, |ss|);
    AtRowColumn(tt, spec, k, |tt|);
  }

  /** Streams of tables outside the family are as they were. */
  ghost predicate Untouched(ss: seq<Stream>, tt: seq<Stream>, family: set<int>) {
    && |ss| == |tt|
    && forall c :: 0 <= c < |ss| && ss[c].nTable !in family ==> tt[c] == ss[c]
  }

  /** The budgets and initial seeds, which no operation changes. */
  ghost predicate SameColumns(ss: seq<Stream>, tt: seq<Stream>) {
    && |ss| == |tt|
    && forall c :: 0 <= c < |ss| ==> tt[c].nUsedPerRow == ss[c].nUsedPerRow && tt[c].nInitialSeed == ss[c].nInitialSeed
  }

  lemma GroupStays(ss: seq<Stream>, tt: seq<Stream>, spec: map<nat, ColumnSpec>)
    requires GroupOk(ss, spec) && SameColumns(ss, tt)
    ensures GroupOk(tt, spec)
  {
  }

  /** Rows of the group leave it the columns it had. */
  lemma RowsKeepColumns(ss: seq<Stream>, tt: seq<Stream>, spec: map<nat, ColumnSpec>, k: nat)
    requires GroupOk(ss, spec) && AtRow(tt, spec, k) && |ss| == |tt|
    requires forall c: nat :: c < |ss| && c !in spec ==> tt[c] == ss[c]
    ensures SameColumns(ss, tt)
  {
    AtRowColumn(tt, spec, k, |tt|);
    forall c: nat | c < |ss|
      ensures tt[c].nUsedPerRow == ss[c].nUsedPerRow && tt[c].nInitialSeed == ss[c].nInitialSeed
    {
      if c in spec {
        assert StandingOf(tt[c]) == BoundaryStanding(spec[c], k);
      }
    }
  }

  lemma GroupInFamily(tdefs: map<int, TableDef>, tbl: int, ss: seq<Stream>)
    requires TwoLevels(tdefs, tbl) && CatalogOk(tdefs, Layout(ss))
    ensures forall c :: c in Group(tdefs, tbl) ==> c < |ss| && ss[c].nTable in Family(tdefs, tbl)
  {
    forall c | c in Group(tdefs, tbl)
      ensures c < |ss| && ss[c].nTable in Family(tdefs, tbl)
    {
      if c in Columns(tdefs[tbl]) {
        assert ColumnsOk(tdefs[tbl], tbl, Layout(ss));
      } else {
        assert ColumnsOk(tdefs[tdefs[tbl].nParam], tdefs[tbl].nParam, Layout(ss));
      }
    }
  }

  /** The skips before a table's rows. */
  method SkipTo<R>(streams: array<Stream>, tdefs: map<int, TableDef>, job: Job<R>, firstRow: int,
                   ghost spec: map<nat, ColumnSpec>)
    requires StreamsOk(streams[..]) && CatalogOk(tdefs, Layout(streams[..])) && DuplicatesOk(Layout(streams[..]))
    requires TwoLevels(tdefs, job.table) && spec.Keys == Group(tdefs, job.table) && GroupOk(streams[..], spec)
    requires firstRow >= 1
    modifies streams
    ensures StreamsOk(streams[..]) && Layout(streams[..]) == Layout(old(streams[..]))
    ensures SameColumns(old(streams[..]), streams[..])
    ensures firstRow == 1 ==> streams[..] == old(streams[..])
    ensures firstRow != 1 ==> (AtRow(streams[..], spec, firstRow - 1) <==> AllLand(spec, firstRow - 1))
  {
    if firstRow != 1 {
      ghost var start := streams[..];
      PositionTable(streams, tdefs, job.table, Int32(firstRow - 1), spec);
      GroupInFamily(tdefs, job.table, start);
      GroupLandsIff(start, streams[..], spec, firstRow - 1);
    }
  }

  /** One turn of the table loop: take the share, skip to it, build it. The streams of the table need
      to be at its start only if its rows are built from there. */
  method GenerateTable<R>(streams: array<Stream>, tdefs: map<int, TableDef>, job: Job<R>, o: Options, chkSeeds: bool,
                          ghost spec: map<nat, ColumnSpec>)
    returns (out: seq<R>)
    requires StreamsOk(streams[..]) && CatalogOk(tdefs, Layout(streams[..])) && DuplicatesOk(Layout(streams[..]))
    requires TwoLevels(tdefs, job.table) && spec.Keys == Group(tdefs, job.table) && GroupOk(streams[..], spec)
    requires OptionsOk(o) && ShareFits(job, spec, o) && SkipLands(job, spec, o)
    requires FromTheStart(job, o) ==> AtRow(streams[..], spec, 0)
    modifies streams
    ensures out == JobLines(job, spec, o)
    ensures StreamsOk(streams[..]) && Layout(streams[..]) == Layout(old(streams[..]))
    ensures SameColumns(old(streams[..]), streams[..])
    ensures Share(job.totalRows, o).0 == 1 ==> Untouched(old(streams[..]), streams[..], Family(tdefs, job.table))
  {
    ghost var start := streams[..];
    var firstRow, rowCount, code := SplitWork(job.totalRows, o);
    SkipTo(streams, tdefs, job, firstRow, spec);
    out := [];
    if rowCount != 0 {
      ghost var mid := streams[..];
      ghost var k;
      GroupStays(start, mid, spec);
      out, k := GenTbl(streams, tdefs, job.table, job.builder, firstRow, rowCount, chkSeeds, spec);
      RowsKeepColumns(mid, streams[..], spec, k);
      GroupInFamily(tdefs, job.table, mid);
    }
  }

  lemma {:induction false} RowsThroughMonotone(total: nat, p: int, c: nat, d: nat)
    requires p >= 1 && c <= d
    ensures 0 <= RowsThrough(total, p, c) <= RowsThrough(total, p, d)
    decreases d
  {
    if c < d {
      RowsThroughMonotone(total, p, c, d - 1);
    } else if c > 0 {
      RowsThroughMonotone(total, p, c - 1, c - 1);
    }
  }

  lemma ShareInTable(total: nat, o: Options)
    requires OptionsOk(o) && (o.parallelSet ==> o.child <= o.parallel)
    ensures var (first, count) := Share(total, o); 1 <= first && first + count <= 1 + total
  {
    if total >= SMALL_TABLE && o.parallelSet {
      SharesCover(total, o.parallel);
      RowsThroughMonotone(total, o.parallel, o.child, o.parallel);
      RowsThroughMonotone(total, o.parallel, o.child - 1, o.child);
    }
  }

  // ---------------------------------------------------------------- the whole run

  /** The streams of a new process: `init_rand` sets the seed to the initial seed. */
  ghost predicate Fresh(ss: seq<Stream>) {
    forall c :: 0 <= c < |ss| ==> ss[c].nUsed == 0 && Congruent(ss[c].nSeed, ss[c].nInitialSeed)
  }

  lemma SpecFresh<R>(job: Job<R>, tdefs: map<int, TableDef>, ss: seq<Stream>)
    requires JobOk(job, tdefs, ss) && Fresh(ss)
    ensures GroupOk(ss, Spec(job, tdefs, ss)) && AtRow(ss, Spec(job, tdefs, ss), 0)
  {
    AtRowColumn(ss, Spec(job, tdefs, ss), 0, |ss|);
  }

  ghost predicate LinesSoFar<R>(out: seq<seq<R>>, jobs: seq<Job<R>>, tdefs: map<int, TableDef>,
                                start: seq<Stream>, o: Options)
    requires JobsOk(jobs, tdefs, start) && OptionsOk(o) && |out| <= |jobs|
  {
    forall j :: 0 <= j < |out| ==> out[j] == JobLines(jobs[j], Spec(jobs[j], tdefs, start), o)
  }

  /** What a process that starts from `start` writes: one output for each table. */
  ghost predicate RunLines<R>(out: seq<seq<R>>, jobs: seq<Job<R>>, tdefs: map<int, TableDef>,
                              start: seq<Stream>, o: Options)
    requires JobsOk(jobs, tdefs, start) && OptionsOk(o)
  {
    |out| == |jobs| && LinesSoFar(out, jobs, tdefs, start, o)
  }

  lemma OneMoreTable<R>(out: seq<seq<R>>, jobs: seq<Job<R>>, tdefs: map<int, TableDef>, start: seq<Stream>, o: Options,
                        lines: seq<R>)
    requires JobsOk(jobs, tdefs, start) && OptionsOk(o) && |out| < |jobs| && LinesSoFar(out, jobs, tdefs, start, o)
    requires lines == JobLines(jobs[|out|], Spec(jobs[|out|], tdefs, start), o)
    ensures LinesSoFar(out + [lines], jobs, tdefs, start, o)
  {
  }

  ghost predicate KeepsFamily(start: seq<Stream>, now: seq<Stream>, family: set<int>)
    requires |now| == |start|
  {
    forall c :: 0 <= c < |start| && start[c].nTable in family ==> now[c] == start[c]
  }

  /** The streams a later job needs are still those of the start. */
  ghost predicate Pending<R>(jobs: seq<Job<R>>, tdefs: map<int, TableDef>, start: seq<Stream>, now: seq<Stream>, j: nat)
    requires j <= |jobs| && JobsOk(jobs, tdefs, start)
  {
    && |now| == |start|
    && forall m :: j <= m < |jobs| ==> KeepsFamily(start, now, Family(tdefs, jobs[m].table))
  }

  lemma PendingReady<R>(jobs: seq<Job<R>>, tdefs: map<int, TableDef>, start: seq<Stream>, now: seq<Stream>, j: nat)
    requires j < |jobs| && JobsOk(jobs, tdefs, start) && Pending(jobs, tdefs, start, now, j)
    requires Fresh(start) && CatalogOk(tdefs, Layout(start))
    ensures TwoLevels(tdefs, jobs[j].table)
    ensures var spec := Spec(jobs[j], tdefs, start);
      && spec.Keys == Group(tdefs, jobs[j].table) && RowsFit(jobs[j].builder, spec, 1, 1 + jobs[j].totalRows)
      && GroupOk(now, spec) && AtRow(now, spec, 0)
  {
    assert JobOk(jobs[j], tdefs, start);
    var spec := Spec(jobs[j], tdefs, start);
    SpecFresh(jobs[j], tdefs, start);
    GroupInFamily(tdefs, jobs[j].table, start);
    AtRowFrame(start, now, spec, 0);
  }

  lemma PendingNext<R>(jobs: seq<Job<R>>, tdefs: map<int, TableDef>, start: seq<Stream>, now: seq<Stream>,
                       after: seq<Stream>, j: nat)
    requires j < |jobs| && JobsOk(jobs, tdefs, start) && Pending(jobs, tdefs, start, now, j)
    requires Untouched(now, after, Family(tdefs, jobs[j].table))
    ensures Pending(jobs, tdefs, start, after, j + 1)
  {
    forall m | j + 1 <= m < |jobs|
      ensures KeepsFamily(start, after, Family(tdefs, jobs[m].table))
    {
      assert KeepsFamily(start, now, Family(tdefs, jobs[m].table));
      assert Family(tdefs, jobs[j].table) !! Family(tdefs, jobs[m].table);
    }
  }

  /** A process that skips nothing: without PARALLEL, or the first child. */
  predicate SkipsNothing(o: Options) {
    !o.parallelSet || o.child == 1
  }

  lemma FirstShareNotEmpty(total: nat, p: int)
    requires total >= 1 && p >= 1
    ensures RowsThrough(total, p, 1) >= 1
  {
    assert RowsThrough(total, p, 1) == RowsThrough(total, p, 0) + ChildRows(total, p, 1);
    if total < p {
      assert total % p == total;
    } else {
      assert total / p >= 1;
    }
  }

  /** Every other process skips to each table it builds rows of. */
  lemma ShareStart(total: nat, o: Options)
    requires OptionsOk(o)
    ensures SkipsNothing(o) ==> Share(total, o).0 == 1
    ensures !SkipsNothing(o) && Share(total, o).1 != 0 ==> Share(total, o).0 != 1
  {
    if o.parallelSet && total >= SMALL_TABLE && o.child > 1 {
      FirstShareNotEmpty(total, o.parallel);
      RowsThroughMonotone(total, o.parallel, 1, o.child - 1);
    }
  }

  /** Before its turn a table has the columns it started with, and stands at its first row if its rows
      are built from there. A process that skips may have moved its streams, which tables built before
      it duplicate; its own skip then brings them back. */
  lemma TurnReady<R>(jobs: seq<Job<R>>, tdefs: map<int, TableDef>, start: seq<Stream>, now: seq<Stream>, j: nat,
                     o: Options)
    requires j < |jobs| && JobsOk(jobs, tdefs, start) && SameColumns(start, now) && OptionsOk(o)
    requires SkipsNothing(o) ==> Pending(jobs, tdefs, start, now, j)
    requires Fresh(start) && CatalogOk(tdefs, Layout(start))
    ensures TwoLevels(tdefs, jobs[j].table)
    ensures var spec := Spec(jobs[j], tdefs, start);
      && spec.Keys == Group(tdefs, jobs[j].table) && GroupOk(now, spec)
      && (FromTheStart(jobs[j], o) ==> AtRow(now, spec, 0))
  {
    assert JobOk(jobs[j], tdefs, start);
    SpecFresh(jobs[j], tdefs, start);
    GroupStays(start, now, Spec(jobs[j], tdefs, start));
    ShareStart(jobs[j].totalRows, o);
    if SkipsNothing(o) {
      PendingReady(jobs, tdefs, start, now, j);
    }
  }

  lemma TurnNext<R>(jobs: seq<Job<R>>, tdefs: map<int, TableDef>, start: seq<Stream>, now: seq<Stream>,
                    after: seq<Stream>, j: nat, o: Options)
    requires j < |jobs| && JobsOk(jobs, tdefs, start) && OptionsOk(o)
    requires SkipsNothing(o) ==> Pending(jobs, tdefs, start, now, j)
    requires Share(jobs[j].totalRows, o).0 == 1 ==> Untouched(now, after, Family(tdefs, jobs[j].table))
    ensures SkipsNothing(o) ==> Pending(jobs, tdefs, start, after, j + 1)
  {
    if SkipsNothing(o) {
      ShareStart(jobs[j].totalRows, o);
      PendingNext(jobs, tdefs, start, now, after, j);
    }
  }

  ghost predicate ReadyJob<R>(job: Job<R>, spec: map<nat, ColumnSpec>, o: Options)
    requires OptionsOk(o)
  {
    ShareFits(job, spec, o) && SkipLands(job, spec, o)
  }

  /** The table loop of `main`, from the streams of a new process. */
  method Generate<R>(streams: array<Stream>, tdefs: map<int, TableDef>, jobs: seq<Job<R>>, o: Options, chkSeeds: bool)
    returns (out: seq<seq<R>>)
    requires StreamsOk(streams[..]) && CatalogOk(tdefs, Layout(streams[..])) && DuplicatesOk(Layout(streams[..]))
    requires JobsOk(jobs, tdefs, streams[..]) && Fresh(streams[..])
    requires OptionsOk(o)
    requires forall j :: 0 <= j < |jobs| ==> ReadyJob(jobs[j], Spec(jobs[j], tdefs, streams[..]), o)
    modifies streams
    ensures RunLines(out, jobs, tdefs, old(streams[..]), o)
  {
    out := [];
    ghost var start, now := streams[..], streams[..];
    for j := 0 to |jobs|
      invariant streams[..] == now && StreamsOk(now) && Layout(now) == Layout(start)
      invariant SameColumns(start, now) && (SkipsNothing(o) ==> Pending(jobs, tdefs, start, now, j))
      invariant |out| == j && LinesSoFar(out, jobs, tdefs, start, o)
    {
      TurnReady(jobs, tdefs, start, now, j, o);
      ghost var spec := Spec(jobs[j], tdefs, start);
      assert ReadyJob(jobs[j], spec, o);
      var lines := GenerateTable(streams, tdefs, jobs[j], o, chkSeeds, spec);
      TurnNext(jobs, tdefs, start, now, streams[..], j, o);
      OneMoreTable(out, jobs, tdefs, start, o, lines);
      out := out + [lines];
      now := streams[..];
    }
  }

  // ---------------------------------------------------------------- parallel equals serial

  /** The outputs of children 1 to `c` of `p` for one table, one after the other. */
  ghost function ChildrenLines<R>(job: Job<R>, spec: map<nat, ColumnSpec>, p: int, c: nat): seq<R>
    requires p >= 2
  {
    if c == 0 then [] else ChildrenLines(job, spec, p, c - 1) + JobLines(job, spec, Options(true, p, c))
  }

  lemma {:induction false} SmallChildren<R>(job: Job<R>, spec: map<nat, ColumnSpec>, p: int, c: nat)
    requires p >= 2 && job.totalRows < SMALL_TABLE
    ensures ChildrenLines(job, spec, p, c) == if c == 0 then [] else TableLines(job.builder, spec, 1, job.totalRows)
  {
    if c == 0 {
    } else {
      SmallChildren(job, spec, p, c - 1);
    }
  }

  lemma ChildJobLines<R>(job: Job<R>, spec: map<nat, ColumnSpec>, p: int, c: nat, a: nat, b: nat)
    requires p >= 2 && job.totalRows >= SMALL_TABLE && c > 0
    requires a == RowsThrough(job.totalRows, p, c - 1) && b == ChildRows(job.totalRows, p, c)
    ensures JobLines(job, spec, Options(true, p, c)) == TableLines(job.builder, spec, 1 + a, b)
  {
  }

  lemma LargeStep<R>(job: Job<R>, spec: map<nat, ColumnSpec>, before: seq<R>, part: seq<R>, a: nat, b: nat)
    requires before == TableLines(job.builder, spec, 1, a) && part == TableLines(job.builder, spec, 1 + a, b)
    ensures before + part == TableLines(job.builder, spec, 1, a + b)
  {
    TableLinesSplit(job.builder, spec, 1, a, b);
  }

  lemma {:induction false} LargeChildren<R>(job: Job<R>, spec: map<nat, ColumnSpec>, p: int, c: nat, n: nat)
    requires p >= 2 && job.totalRows >= SMALL_TABLE && n == RowsThrough(job.totalRows, p, c)
    ensures ChildrenLines(job, spec, p, c) == TableLines(job.builder, spec, 1, n)
  {
    if c == 0 {
    } else {
      var a, b := RowsThrough(job.totalRows, p, c - 1), ChildRows(job.totalRows, p, c);
      LargeChildren(job, spec, p, c - 1, a);
      ChildJobLines(job, spec, p, c, a, b);
      LargeStep(job, spec, ChildrenLines(job, spec, p, c - 1), JobLines(job, spec, Options(true, p, c)), a, b);
    }
  }

  /** For any number of children, what they write of a table, concatenated, is what a serial run
      writes of it. */
  lemma ParallelEqualsSerial<R>(job: Job<R>, spec: map<nat, ColumnSpec>, p: int)
    requires p >= 2
    ensures ChildrenLines(job, spec, p, p) == JobLines(job, spec, SERIAL)
  {
    if job.totalRows < SMALL_TABLE {
      SmallChildren(job, spec, p, p);
    } else {
      SharesCover(job.totalRows, p);
      LargeChildren(job, spec, p, p, job.totalRows);
    }
  }

  /** The streams of mkheader.c's generated table, before `init_rand`. */
  ghost predicate Static(ss: seq<Stream>) {
    forall i :: 0 <= i < |ss| ==> ss[i].nUsed == 0 && ss[i].nSeed == 0 && ss[i].nInitialSeed == 0
  }

  /** The streams of a new process. `init_rand` stops before the last column, whose stream keeps the
      seed 0. */
  function Started(ss: seq<Stream>, seed: int): (r: seq<Stream>)
    requires |ss| >= 2
    ensures |r| == |ss|
  {
    seq(|ss|, i requires 0 <= i < |ss| =>
      if i < |ss| - 1 then Seeded(ss[i], InitialSeed(seed, MODULUS / (|ss| - 1), i)) else ss[i])
  }

  /** A new process can draw from every stream, each standing at its initial seed. */
  lemma StartedIsFresh(ss: seq<Stream>, seed: int)
    requires |ss| >= 2 && Static(ss)
    ensures StreamsOk(Started(ss, seed)) && Fresh(Started(ss, seed)) && Layout(Started(ss, seed)) == Layout(ss)
  {
  }

  method NewProcess(tables: seq<Stream>, seed: int) returns (streams: array<Stream>)
    requires |tables| >= 2 && Static(tables)
    ensures fresh(streams) && streams[..] == Started(tables, seed)
  {
    streams := new Stream[|tables|](i requires 0 <= i < |tables| => tables[i]);
    InitRand(streams, seed, |tables| - 1);
    assert streams[..] == Started(tables, seed);
  }

  lemma ChildIsReady<R>(job: Job<R>, spec: map<nat, ColumnSpec>, o: Options)
    requires OptionsOk(o) && (o.parallelSet ==> o.child <= o.parallel)
    requires RowsFit(job.builder, spec, 1, 1 + job.totalRows) && SkipLands(job, spec, o)
    ensures ReadyJob(job, spec, o)
  {
    ShareInTable(job.totalRows, o);
  }

  /** One child process. */
  method RunChild<R>(tables: seq<Stream>, seed: int, tdefs: map<int, TableDef>, jobs: seq<Job<R>>, o: Options, chkSeeds: bool)
    returns (out: seq<seq<R>>)
    requires |tables| >= 2 && Static(tables)
    requires CatalogOk(tdefs, Layout(tables)) && DuplicatesOk(Layout(tables))
    requires JobsOk(jobs, tdefs, Started(tables, seed))
    requires OptionsOk(o) && (o.parallelSet ==> o.child <= o.parallel)
    requires forall j :: 0 <= j < |jobs| ==> SkipLands(jobs[j], Spec(jobs[j], tdefs, Started(tables, seed)), o)
    ensures RunLines(out, jobs, tdefs, Started(tables, seed), o)
  {
    ghost var start := Started(tables, seed);
    StartedIsFresh(tables, seed);
    var streams := NewProcess(tables, seed);
    forall j | 0 <= j < |jobs|
      ensures ReadyJob(jobs[j], Spec(jobs[j], tdefs, start), o)
    {
      assert JobOk(jobs[j], tdefs, start);
      ChildIsReady(jobs[j], Spec(jobs[j], tdefs, start), o);
    }
    out := Generate(streams, tdefs, jobs, o, chkSeeds);
  }

  /** Row `i` of the whole table is what its builder prints after `i - 1` complete rows, and the rows
      stand one after the other. */
  ghost predicate WholeTable<R>(out: seq<R>, job: Job<R>, spec: map<nat, ColumnSpec>) {
    && WritesRows(out, job.builder, spec, 1, job.totalRows)
    && (OneLineRows(job.builder, 1, job.totalRows) ==>
          |out| == job.totalRows && forall i :: 0 <= i < job.totalRows ==> RowPrints(job.builder, spec, 1 + i, [out[i]]))
  }

  lemma RowsMakeTable<R>(out: seq<R>, job: Job<R>, spec: map<nat, ColumnSpec>)
    requires WritesRows(out, job.builder, spec, 1, job.totalRows)
    ensures WholeTable(out, job, spec)
  {
    if OneLineRows(job.builder, 1, job.totalRows) {
      LineOfRow(out, job.builder, spec, 1, job.totalRows);
    }
  }

  lemma SerialLines<R>(job: Job<R>, spec: map<nat, ColumnSpec>)
    ensures JobLines(job, spec, SERIAL) == TableLines(job.builder, spec, 1, job.totalRows)
  {
  }

  lemma SerialWritesTable<R>(job: Job<R>, spec: map<nat, ColumnSpec>)
    requires RowsFit(job.builder, spec, 1, 1 + job.totalRows)
    ensures WholeTable(JobLines(job, spec, SERIAL), job, spec)
  {
    SerialLines(job, spec);
    TableWritesRows(job.builder, spec, 1, job.totalRows);
    RowsMakeTable(TableLines(job.builder, spec, 1, job.totalRows), job, spec);
  }

  /** Every child process, each from the static stream table, and the files put together. */
  method GenerateInParallel<R>(tables: seq<Stream>, seed: int, tdefs: map<int, TableDef>, jobs: seq<Job<R>>, p: int,
                               chkSeeds: bool)
    returns (out: seq<seq<R>>)
    requires |tables| >= 2 && Static(tables)
    requires CatalogOk(tdefs, Layout(tables)) && DuplicatesOk(Layout(tables))
    requires JobsOk(jobs, tdefs, Started(tables, seed)) && p >= 2
    requires forall j, c :: 0 <= j < |jobs| && 1 <= c <= p ==>
      SkipLands(jobs[j], Spec(jobs[j], tdefs, Started(tables, seed)), Options(true, p, c))
    ensures RunLines(out, jobs, tdefs, Started(tables, seed), SERIAL)
    ensures forall j :: 0 <= j < |jobs| ==> WholeTable(out[j], jobs[j], Spec(jobs[j], tdefs, Started(tables, seed)))
  {
    ghost var start := Started(tables, seed);
    StartedIsFresh(tables, seed);
    out := seq(|jobs|, _ => []);
    var c := 0;
    while c < p
      invariant 0 <= c <= p && |out| == |jobs|
      invariant forall j :: 0 <= j < |jobs| ==> out[j] == ChildrenLines(jobs[j], Spec(jobs[j], tdefs, start), p, c)
    {
      c := c + 1;
      var part := RunChild(tables, seed, tdefs, jobs, Options(true, p, c), chkSeeds);
      out := seq(|jobs|, j requires 0 <= j < |jobs| => out[j] + part[j]);
    }
    forall j | 0 <= j < |jobs|
      ensures out[j] == JobLines(jobs[j], Spec(jobs[j], tdefs, start), SERIAL)
    {
      ParallelEqualsSerial(jobs[j], Spec(jobs[j], tdefs, start), p);
    }
    forall j | 0 <= j < |jobs|
      ensures WholeTable(out[j], jobs[j], Spec(jobs[j], tdefs, start))
    {
      assert JobOk(jobs[j], tdefs, start);
      SerialWritesTable(jobs[j], Spec(jobs[j], tdefs, start));
    }
  }

  // ---------------------------------------------------------------- children beyond the last

  lemma WholeShares(total: nat, p: int)
    requires p >= 1
    ensures total / p > 0 <==> total >= p
  {
  }

  /** Nothing keeps CHILD from exceeding PARALLEL, and exactly such a child builds rows past the end of
      the table. */
  lemma PastTheEndIff(total: nat, o: Options)
    requires OptionsOk(o) && o.parallelSet && total >= SMALL_TABLE
    ensures Share(total, o).0 > total && Share(total, o).1 > 0 <==> o.child > o.parallel && total >= o.parallel
  {
    if o.child > o.parallel {
      SharesCover(total, o.parallel);
      RowsThroughMonotone(total, o.parallel, o.parallel, o.child - 1);
      WholeShares(total, o.parallel);
    } else {
      ShareInTable(total, o);
    }
  }
}
