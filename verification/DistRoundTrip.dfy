/** Compiling distributions, writing the file, and reading it back by name. */
module DistRoundTrip {
  import opened CInt
  import opened Lehmer
  import opened Streams
  import opened DistFormat
  import opened DistCompiler
  import opened DistLoader
  import opened DistLookup
  import opened DistPick

  /** The compiled distributions and the rows added to them. */
  ghost predicate AllHold(es: seq<Entry>, rowsOf: seq<seq<Row>>) {
    |es| == |rowsOf| && forall k :: 0 <= k < |es| ==> Holds(es[k], rowsOf[k])
  }

  lemma {:induction false} PlacedHold(es: seq<Entry>, rowsOf: seq<seq<Row>>)
    requires AllHold(es, rowsOf)
    ensures AllHold(Placed(es), rowsOf)
  {
    PlacedKeeps(es);
    forall k | 0 <= k < |es|
      ensures Holds(Placed(es)[k], rowsOf[k])
    {
      assert IsPlaced(es, k, Placed(es)[k]);
    }
  }

  lemma {:induction false} PlacedName(es: seq<Entry>, k: nat)
    requires k < |es|
    ensures Placed(es)[k].name == es[k].name && Placed(es)[k].length == es[k].length
    ensures Placed(es)[k].vWidth == es[k].vWidth && Placed(es)[k].wWidth == es[k].wWidth
  {
    PlacedKeeps(es);
    assert IsPlaced(es, k, Placed(es)[k]);
  }

  // ---------------------------------------------------------------- one distribution

  lemma {:induction false} RowHeld(e: Entry, rows: seq<Row>, j: nat, i: nat)
    requires Holds(e, rows) && j < e.length && i < e.vWidth
    ensures HoldsValue(e.dist, j, i, rows[j])
  {
    assert HoldsRow(e.dist, j, rows[j]);
  }

  lemma {:induction false} LoadedPositionsOk(e: Entry, rows: seq<Row>)
    requires Holds(e, rows)
    ensures PositionsOk(LoadedFrom(e.dist), HeaderOf(e))
  {
    forall i: nat, j: nat | i < e.vWidth && j < e.length
      ensures PositionOk(LoadedFrom(e.dist), i, j)
    {
      RowHeld(e, rows, j, i);
    }
  }

  /** A loaded distribution gives back the strings that were added. */
  lemma {:induction false} MemberRecovered(e: Entry, rows: seq<Row>, row: int, col: int)
    requires Holds(e, rows) && 1 <= row <= e.length && 1 <= col <= e.vWidth
    ensures PositionsOk(LoadedFrom(e.dist), HeaderOf(e)) && col <= |rows[row - 1].values|
    ensures MemberOf(LoadedFrom(e.dist), HeaderOf(e), row, col) == Value(rows[row - 1].values[col - 1])
  {
    LoadedPositionsOk(e, rows);
    RowHeld(e, rows, row - 1, col - 1);
    TextRead(e.dist.strings, e.dist.valueSets[col - 1][row - 1], rows[row - 1].values[col - 1]);
  }

  lemma {:induction false} LoadedWeightsOk(e: Entry)
    requires Shaped(e)
    ensures WeightsOk(LoadedFrom(e.dist), HeaderOf(e))
  {
    forall w | 0 <= w < e.wWidth
      ensures |RunningAll(e.dist.weightSets)[w]| == e.length
    {
      RunningAllAt(e.dist.weightSets, w);
    }
  }

  /** And the weights that were added, although it keeps only their running totals. */
  lemma {:induction false} WeightRecovered(e: Entry, rows: seq<Row>, row: int, wset: int)
    requires Holds(e, rows) && Int32Fits(e) && 1 <= row <= e.length && 1 <= wset <= e.wWidth
    ensures WeightsOk(LoadedFrom(e.dist), HeaderOf(e)) && wset <= |rows[row - 1].weights|
    ensures WeightOf(LoadedFrom(e.dist).weightSets[wset - 1], row) == rows[row - 1].weights[wset - 1]
  {
    LoadedWeightsOk(e);
    RunningAllAt(e.dist.weightSets, wset - 1);
    IsTableIff(e.dist.weightSets, e.wWidth, e.length);
    WeightIsRecovered(e.dist.weightSets[wset - 1], row);
    assert HoldsRow(e.dist, row - 1, rows[row - 1]);
    assert HoldsWeight(e.dist, row - 1, wset - 1, rows[row - 1]);
  }

  // ---------------------------------------------------------------- the file

  lemma {:induction false} WrittenIsSound(f: seq<Byte>, ps: seq<Entry>, rowsOf: seq<seq<Row>>)
    requires HasIndex(f) && Index(f) == HeadersOf(ps) && AllHold(ps, rowsOf)
    requires forall k :: 0 <= k < |ps| ==> Recovers(f, HeaderOf(ps[k]), ps[k].dist)
    ensures Sound(f)
  {
    RecoveredIsReadable(f, ps);
    forall k | 0 <= k < |Index(f)|
      ensures PositionsOk(LoadedOf(f, Index(f)[k]), Index(f)[k]) && WeightsOk(LoadedOf(f, Index(f)[k]), Index(f)[k])
    {
      assert Recovers(f, HeaderOf(ps[k]), ps[k].dist);
      LoadedPositionsOk(ps[k], rowsOf[k]);
      LoadedWeightsOk(ps[k]);
    }
  }

  /** With unique names, a name finds its own distribution and no other. */
  lemma {:induction false} OnlyOneNamed(f: seq<Byte>, es: seq<Entry>, k: nat, name: seq<Byte>, h: Header)
    requires HasIndex(f) && Index(f) == HeadersOf(Placed(es)) && UniqueNames(es)
    requires k < |es| && SameName(name, es[k].name)
    ensures IsNamed(f, HeaderOf(Placed(es)[k]), name)
    ensures IsNamed(f, h, name) ==> h == HeaderOf(Placed(es)[k])
  {
    PlacedName(es, k);
    assert Index(f)[k] == HeaderOf(Placed(es)[k]);
    if IsNamed(f, h, name) {
      var j :| 0 <= j < |Index(f)| && Index(f)[j] == h;
      PlacedName(es, j);
    }
  }

  /** The file written for these distributions, as its readers need it. */
  lemma {:induction false} CompiledFile(f: seq<Byte>, es: seq<Entry>, ps: seq<Entry>, rowsOf: seq<seq<Row>>)
    requires AllHold(es, rowsOf) && ps == Placed(es) && f == Image(ps) && Writable(ps)
    ensures Sound(f) && Index(f) == HeadersOf(ps) && AllHold(ps, rowsOf)
    ensures forall k :: 0 <= k < |ps| ==> Recovers(f, HeaderOf(ps[k]), ps[k].dist)
  {
    PlacedHold(es, rowsOf);
    FileRecovers(f, es, ps);
    WrittenIsSound(f, ps, rowsOf);
  }

  lemma {:induction false} MemberFromFile(f: seq<Byte>, e: Entry, rows: seq<Row>, row: int, col: int, r: Member)
    requires Recovers(f, HeaderOf(e), e.dist) && Holds(e, rows) && MemberIs(f, HeaderOf(e), row, col, r)
    ensures 1 <= row <= |rows| ==> col <= |rows[row - 1].values| && r == Value(rows[row - 1].values[col - 1])
    ensures !(1 <= row <= |rows|) ==> r == OverRun
  {
    if 1 <= row <= |rows| {
      MemberRecovered(e, rows, row, col);
    }
  }

  lemma {:induction false} WeightFromFile(f: seq<Byte>, e: Entry, rows: seq<Row>, row: int, wset: int, r: int)
    requires Recovers(f, HeaderOf(e), e.dist) && Holds(e, rows)
    requires Int32Fits(e) && WeightIs(f, HeaderOf(e), row, wset, r)
    ensures row <= |rows| && wset <= |rows[row - 1].weights| && r == rows[row - 1].weights[wset - 1]
  {
    WeightRecovered(e, rows, row, wset);
  }

  /** The file the compiler writes for these distributions. */
  ghost predicate CompiledFrom(f: seq<Byte>, es: seq<Entry>, rowsOf: seq<seq<Row>>) {
    AllHold(es, rowsOf) && UniqueNames(es) && Writable(Placed(es)) && f == Image(Placed(es))
  }

  lemma {:induction false} NameLeadsToRows(f: seq<Byte>, es: seq<Entry>, rowsOf: seq<seq<Row>>, k: nat, name: seq<Byte>)
    returns (e: Entry, h: Header)
    requires CompiledFrom(f, es, rowsOf) && k < |es| && SameName(name, es[k].name)
    ensures h == HeaderOf(e) && LeadsTo(f, name, h) && Recovers(f, h, e.dist) && Holds(e, rowsOf[k]) && Int32Fits(e)
    ensures h.vWidth == es[k].vWidth && h.wWidth == es[k].wWidth && h.length == |rowsOf[k]|
  {
    var ps := Placed(es);
    CompiledFile(f, es, ps, rowsOf);
    PlacedName(es, k);
    e := ps[k];
    h := HeaderOf(e);
    forall g
      ensures IsNamed(f, h, name) && (IsNamed(f, g, name) ==> g == h)
    {
      OnlyOneNamed(f, es, k, name, g);
    }
  }

  /** The string added at a row and column. */
  predicate TextAt(r: Member, rows: seq<Row>, row: int, col: int) {
    && 1 <= row <= |rows| && 1 <= col <= |rows[row - 1].values|
    && r == Value(rows[row - 1].values[col - 1])
  }

  /** The weight added at a row, in a weight set. */
  predicate WeightAt(r: int, rows: seq<Row>, row: int, wset: int) {
    && 1 <= row <= |rows| && 1 <= wset <= |rows[row - 1].weights|
    && r == rows[row - 1].weights[wset - 1]
  }

  /** Every lookup in a compiled file, whatever was looked up before, answers with the string that was
      added at that place. */
  method LookUpMember(catalog: DistCatalog, name: seq<Byte>, row: int, col: int,
                      ghost e: Entry, ghost rows: seq<Row>)
    returns (r: Member)
    requires catalog.Valid() && |name| <= D_NAME_LEN
    requires LeadsTo(catalog.file, name, HeaderOf(e)) && Recovers(catalog.file, HeaderOf(e), e.dist) && Holds(e, rows)
    requires 1 <= col <= e.vWidth
    modifies catalog
    ensures catalog.Valid()
    ensures 1 <= row <= |rows| ==> TextAt(r, rows, row, col)
    ensures !(1 <= row <= |rows|) ==> r == OverRun
  {
    r := catalog.DistMember(name, row, col);
    MemberFromFile(catalog.file, e, rows, row, col, r);
  }

  /** And with the weight. */
  method LookUpWeight(catalog: DistCatalog, name: seq<Byte>, row: int, wset: int,
                      ghost e: Entry, ghost rows: seq<Row>)
    returns (found: bool, r: int)
    requires catalog.Valid() && |name| <= D_NAME_LEN
    requires LeadsTo(catalog.file, name, HeaderOf(e)) && Recovers(catalog.file, HeaderOf(e), e.dist)
    requires Holds(e, rows) && Int32Fits(e)
    requires 1 <= wset <= e.wWidth && 1 <= row <= |rows|
    modifies catalog
    ensures catalog.Valid()
    ensures found && WeightAt(r, rows, row, wset)
  {
    found, r := catalog.DistWeight(name, row, wset);
    WeightFromFile(catalog.file, e, rows, row, wset, r);
  }

  lemma {:induction false} TotalsOfLoaded(d: Dist, wset: int)
    requires 1 <= wset <= |d.weightSets|
    ensures TotalsOf(LoadedFrom(d), wset, d.weightSets[wset - 1])
  {
    RunningAllAt(d.weightSets, wset - 1);
    LastsAt(RunningAll(d.weightSets), wset - 1);
  }

  /** The loaded totals are those of the weights that were added. */
  lemma {:induction false} TotalsOfAdded(f: seq<Byte>, e: Entry, rows: seq<Row>, wset: int)
    requires Recovers(f, HeaderOf(e), e.dist) && Holds(e, rows) && 1 <= wset <= e.wWidth
    ensures TotalsOf(LoadedOf(f, HeaderOf(e)), wset, e.dist.weightSets[wset - 1])
  {
    TotalsOfLoaded(e.dist, wset);
  }

  lemma {:induction false} WeightsOfAdded(e: Entry, rows: seq<Row>, wset: int)
    requires Holds(e, rows) && 1 <= wset <= e.wWidth
    ensures |e.dist.weightSets[wset - 1]| == |rows|
    ensures forall j :: 0 <= j < |rows| ==>
      wset <= |rows[j].weights| && e.dist.weightSets[wset - 1][j] == rows[j].weights[wset - 1]
  {
    forall j | 0 <= j < |rows|
      ensures wset <= |rows[j].weights| && e.dist.weightSets[wset - 1][j] == rows[j].weights[wset - 1]
    {
      assert HoldsRow(e.dist, j, rows[j]);
      assert HoldsWeight(e.dist, j, wset - 1, rows[j]);
    }
  }

  /** A pick in a compiled file: the drawn level selects one of the rows that were added, by the
      weights that were added, and the answer is that row's string. */
  method PickCompiled(catalog: DistCatalog, name: seq<Byte>, vset: int, wset: int,
                      streams: array<Stream>, stream: nat, ghost e: Entry, ghost rows: seq<Row>)
    returns (r: Member, row: int, ghost ws: seq<int>)
    requires catalog.Valid() && |name| <= D_NAME_LEN
    requires LeadsTo(catalog.file, name, HeaderOf(e)) && Recovers(catalog.file, HeaderOf(e), e.dist) && Holds(e, rows)
    requires 1 <= vset <= e.vWidth && 1 <= wset <= e.wWidth && Drawable(e.dist.weightSets[wset - 1])
    requires stream < streams.Length && StreamOk(streams[stream])
    modifies catalog, streams
    ensures catalog.Valid() && Drawable(ws) && |ws| == |rows|
    ensures forall j :: 0 <= j < |rows| ==> wset <= |rows[j].weights| && ws[j] == rows[j].weights[wset - 1]
    ensures Selects(ws, Uniform(Next(old(streams[stream].nSeed)), 1, Upto(ws, |ws|)), row - 1)
    ensures vset <= |rows[row - 1].values| && r == Value(rows[row - 1].values[vset - 1])
    ensures streams[..] == old(streams[..])[stream := Drawn(old(streams[stream]))]
  {
    ws := e.dist.weightSets[wset - 1];
    TotalsOfAdded(catalog.file, e, rows, wset);
    WeightsOfAdded(e, rows, wset);
    ghost var level;
    r, row, level := PickDistribution(catalog, name, vset, wset, streams, stream, ws, HeaderOf(e));
    MemberFromFile(catalog.file, e, rows, row, vset, r);
  }

  // ---------------------------------------------------------------- a whole source file

  /** One `create`, its `set` statements, and its `add` statements. */
  datatype Definition = Definition(name: seq<Byte>, types: seq<int>, wWidth: nat, names: seq<Byte>, rows: seq<Row>)

  ghost predicate RowFits(d: Definition, row: Row) {
    |row.values| == |d.types| && |row.weights| == d.wWidth && forall i :: 0 <= i < |row.values| ==> IsText(row.values[i])
  }

  /** A definition the grammar accepts, with a name that fits. */
  ghost predicate DefinitionOk(d: Definition) {
    && IsText(d.name) && 0 < |d.name| <= D_NAME_LEN && |d.types| > 0 && d.wWidth > 0
    && forall j :: 0 <= j < |d.rows| ==> RowFits(d, d.rows[j])
  }

  /** The bytes the strings of some rows take. */
  function StringsSize(rows: seq<Row>): nat {
    if rows == [] then 0 else StringsSize(rows[..|rows| - 1]) + PoolSize(rows[|rows| - 1].values)
  }

  /** Entry number `index`, with the definition's first `n` rows. */
  ghost predicate IsBuilt(e: Entry, index: int, d: Definition, n: nat) {
    && n <= |d.rows| && Holds(e, d.rows[..n]) && e.name == d.name && e.index == index
    && e.vWidth == |d.types| && e.wWidth == d.wWidth && e.dist.typeVector == d.types && e.dist.names == d.names
    && e.strSpace == StringsSize(d.rows[..n])
  }

  ghost predicate AllBuilt(es: seq<Entry>, defs: seq<Definition>) {
    |es| <= |defs| && forall k :: 0 <= k < |es| ==> IsBuilt(es[k], k + 1, defs[k], |defs[k].rows|)
  }

  ghost predicate UniqueDefinitions(defs: seq<Definition>) {
    forall i, j :: 0 <= i < j < |defs| ==> !SameName(defs[i].name, defs[j].name)
  }

  /** The statements of one definition, run in order. */
  method CompileOne(index: DistIndex, d: Definition)
    requires DefinitionOk(d)
    requires forall i :: 0 <= i < |index.pEntries| ==> !SameName(d.name, index.pEntries[i].name)
    modifies index
    ensures |index.pEntries| == |old(index.pEntries)| + 1
    ensures index.pEntries[..|old(index.pEntries)|] == old(index.pEntries)
    ensures IsBuilt(index.pEntries[|old(index.pEntries)|], |index.pEntries|, d, |d.rows|)
  {
    ghost var before := index.pEntries;
    ghost var k := |before|;
    var ok := index.AddDistribution(d.name);
    index.SetShape(d.types, d.wWidth, d.names);
    assert d.rows[..0] == [];
    for j := 0 to |d.rows|
      invariant |index.pEntries| == k + 1 && index.pEntries[..k] == before
      invariant IsBuilt(index.pEntries[k], k + 1, d, j)
    {
      assert RowFits(d, d.rows[j]);
      var added := index.ProcessAdd(d.rows[j], d.rows[..j]);
      assert d.rows[..j + 1] == d.rows[..j] + [d.rows[j]];
      assert d.rows[..j + 1][..j] == d.rows[..j];
    }
  }

  lemma {:induction false} NotYetNamed(es: seq<Entry>, defs: seq<Definition>, k: nat)
    requires AllBuilt(es, defs) && |es| == k < |defs| && UniqueDefinitions(defs)
    ensures forall i :: 0 <= i < |es| ==> !SameName(defs[k].name, es[i].name)
  {
    forall i | 0 <= i < |es|
      ensures !SameName(defs[k].name, es[i].name)
    {
      assert IsBuilt(es[i], i + 1, defs[i], |defs[i].rows|);
    }
  }

  lemma {:induction false} OneMoreBuilt(before: seq<Entry>, es: seq<Entry>, defs: seq<Definition>)
    requires AllBuilt(before, defs) && |es| == |before| + 1 <= |defs| && es[..|before|] == before
    requires IsBuilt(es[|before|], |es|, defs[|before|], |defs[|before|].rows|)
    ensures AllBuilt(es, defs)
  {
    forall k | 0 <= k < |es|
      ensures IsBuilt(es[k], k + 1, defs[k], |defs[k].rows|)
    {
      if k < |before| {
        assert es[k] == es[..|before|][k];
      }
    }
  }

  /** Any list of uniquely named definitions compiles to entries that hold exactly their rows. */
  method CompileAll(index: DistIndex, defs: seq<Definition>)
    requires index.pEntries == [] && UniqueDefinitions(defs)
    requires forall k :: 0 <= k < |defs| ==> DefinitionOk(defs[k])
    modifies index
    ensures |index.pEntries| == |defs| && AllBuilt(index.pEntries, defs)
  {
    for k := 0 to |defs|
      invariant |index.pEntries| == k && AllBuilt(index.pEntries, defs)
    {
      NotYetNamed(index.pEntries, defs, k);
      ghost var before := index.pEntries;
      CompileOne(index, defs[k]);
      OneMoreBuilt(before, index.pEntries, defs);
    }
  }

  function RowsOf(defs: seq<Definition>): (r: seq<seq<Row>>)
    ensures |r| == |defs| && forall k :: 0 <= k < |defs| ==> r[k] == defs[k].rows
  {
    seq(|defs|, k requires 0 <= k < |defs| => defs[k].rows)
  }

  /** What the compiler leaves is what the round trip needs. */
  lemma {:induction false} BuiltIsReady(es: seq<Entry>, defs: seq<Definition>)
    requires |es| == |defs| && AllBuilt(es, defs) && UniqueDefinitions(defs)
    requires forall k :: 0 <= k < |defs| ==> DefinitionOk(defs[k])
    ensures AllHold(es, RowsOf(defs)) && UniqueNames(es) && NamesFit(es)
    ensures forall k :: 0 <= k < |es| ==>
      es[k].name == defs[k].name && es[k].vWidth == |defs[k].types| && es[k].wWidth == defs[k].wWidth
  {
    forall k | 0 <= k < |es|
      ensures Holds(es[k], RowsOf(defs)[k]) && es[k].name == defs[k].name
      ensures IsText(es[k].name) && |es[k].name| <= D_NAME_LEN
      ensures es[k].vWidth == |defs[k].types| && es[k].wWidth == defs[k].wWidth
    {
      assert IsBuilt(es[k], k + 1, defs[k], |defs[k].rows|);
      assert defs[k].rows[..|defs[k].rows|] == defs[k].rows;
      assert DefinitionOk(defs[k]);
    }
  }

  // ---------------------------------------------------------------- everything fits 32 bits

  /** The bytes of a definition's body. */
  function BodySize(d: Definition): nat {
    4 * |d.types| + TableSize(d.wWidth, |d.rows|) + TableSize(|d.types|, |d.rows|) + |d.names| + StringsSize(d.rows)
  }

  function BodiesSize(defs: seq<Definition>): nat {
    if defs == [] then 0 else BodiesSize(defs[..|defs| - 1]) + BodySize(defs[|defs| - 1])
  }

  /** The bytes of the file: the count, the bodies and the index. */
  function FileSize(defs: seq<Definition>): nat {
    4 + BodiesSize(defs) + IDX_SIZE * |defs|
  }

  ghost predicate NumbersFit(d: Definition) {
    AllInt32(d.types) && IsInt32(d.wWidth) && forall j :: 0 <= j < |d.rows| ==> AllInt32(d.rows[j].weights)
  }

  /** What a caller can check before compiling: unique names that fit, 32-bit numbers, and a file
      below 2 GB. */
  ghost predicate Compilable(defs: seq<Definition>) {
    && UniqueDefinitions(defs) && FileSize(defs) < 0x8000_0000
    && forall k :: 0 <= k < |defs| ==> DefinitionOk(defs[k]) && NumbersFit(defs[k])
  }

  lemma {:induction false} LengthWithin(n: nat, length: nat)
    requires n > 0
    ensures 4 * length <= TableSize(n, length)
  {
    assert TableSize(n, length) == TableSize(n - 1, length) + 4 * length;
  }

  lemma {:induction false} BodySizeWithin(defs: seq<Definition>, k: nat)
    requires k < |defs|
    ensures BodiesSize(defs[..k]) + BodySize(defs[k]) <= BodiesSize(defs)
  {
    var front := defs[..|defs| - 1];
    if k == |defs| - 1 {
    } else {
      BodySizeWithin(front, k);
      assert front[..k] == defs[..k];
    }
  }

  /** The two tables of a built entry hold 32-bit numbers. */
  lemma {:induction false} BuiltTables(e: Entry, index: int, d: Definition)
    requires IsBuilt(e, index, d, |d.rows|) && NumbersFit(d) && StringsSize(d.rows) < 0x8000_0000
    ensures IsTable(e.dist.weightSets, e.wWidth, e.length) && IsTable(e.dist.valueSets, e.vWidth, e.length)
  {
    assert d.rows[..|d.rows|] == d.rows;
    IsTableIff(e.dist.weightSets, e.wWidth, e.length);
    IsTableIff(e.dist.valueSets, e.vWidth, e.length);
    forall w, j | 0 <= w < e.wWidth && 0 <= j < e.length
      ensures IsInt32(e.dist.weightSets[w][j])
    {
      assert HoldsRow(e.dist, j, d.rows[j]);
      assert HoldsWeight(e.dist, j, w, d.rows[j]);
    }
    forall i, j | 0 <= i < e.vWidth && 0 <= j < e.length
      ensures IsInt32(e.dist.valueSets[i][j])
    {
      RowHeld(e, d.rows, j, i);
    }
  }

  lemma {:induction false} BuiltBodySize(e: Entry, index: int, d: Definition)
    requires IsBuilt(e, index, d, |d.rows|) && NumbersFit(d) && StringsSize(d.rows) < 0x8000_0000
    ensures |BodyBytes(e.dist)| == BodySize(d)
  {
    assert d.rows[..|d.rows|] == d.rows;
    BuiltTables(e, index, d);
    TableBytesSize(e.dist.weightSets, e.wWidth, e.length);
    TableBytesSize(e.dist.valueSets, e.vWidth, e.length);
  }

  lemma {:induction false} BuiltFront(es: seq<Entry>, defs: seq<Definition>, n: nat)
    requires |es| == |defs| && AllBuilt(es, defs) && n <= |es|
    ensures AllBuilt(es[..n], defs[..n])
  {
    forall k | 0 <= k < n
      ensures IsBuilt(es[..n][k], k + 1, defs[..n][k], |defs[..n][k].rows|)
    {
      assert IsBuilt(es[k], k + 1, defs[k], |defs[k].rows|);
    }
  }

  lemma {:induction false} BuiltBodiesSize(es: seq<Entry>, defs: seq<Definition>)
    requires |es| == |defs| && AllBuilt(es, defs)
    requires forall k :: 0 <= k < |defs| ==> NumbersFit(defs[k]) && StringsSize(defs[k].rows) < 0x8000_0000
    ensures |Bodies(es)| == BodiesSize(defs)
  {
    if es == [] {
    } else {
      var n := |es| - 1;
      BuiltFront(es, defs, n);
      BuiltBodiesSize(es[..n], defs[..n]);
      assert IsBuilt(es[n], n + 1, defs[n], |defs[n].rows|);
      BuiltBodySize(es[n], n + 1, defs[n]);
    }
  }

  lemma {:induction false} StringsWithin(defs: seq<Definition>)
    requires Compilable(defs)
    ensures forall k :: 0 <= k < |defs| ==> StringsSize(defs[k].rows) < 0x8000_0000
  {
    forall k | 0 <= k < |defs|
      ensures StringsSize(defs[k].rows) < 0x8000_0000
    {
      BodySizeWithin(defs, k);
    }
  }

  /** Where a body starts, from the definitions before it. */
  lemma {:induction false} PlacedOffset(es: seq<Entry>, defs: seq<Definition>, k: nat)
    requires |es| == |defs| && AllBuilt(es, defs) && Compilable(defs) && k < |es|
    ensures IsPlaced(es, k, Placed(es)[k]) && Placed(es)[k].offset == 4 + BodiesSize(defs[..k])
  {
    StringsWithin(defs);
    PlacedKeeps(es);
    BuiltFront(es, defs, k);
    BuiltBodiesSize(es[..k], defs[..k]);
  }

  lemma {:induction false} NumbersOfEntry(e: Entry, index: int, d: Definition)
    requires IsBuilt(e, index, d, |d.rows|) && NumbersFit(d) && |d.types| > 0
    requires 0 <= index < 0x8000_0000 && 0 <= e.offset && e.offset + BodySize(d) < 0x8000_0000
    ensures AllInt32(EntryNumbers(e))
  {
    assert d.rows[..|d.rows|] == d.rows;
    LengthWithin(|d.types|, |d.rows|);
  }

  lemma {:induction false} EntryIsWritable(e0: Entry, e: Entry, index: int, d: Definition, offset: int)
    requires IsBuilt(e0, index, d, |d.rows|) && e == e0.(offset := offset)
    requires DefinitionOk(d) && NumbersFit(d)
    requires 0 <= index < 0x8000_0000 && 0 <= offset && offset + BodySize(d) < 0x8000_0000
    ensures HeaderFits(e) && Shaped(e) && Int32Fits(e)
  {
    NumbersOfEntry(e, index, d);
    BuiltTables(e, index, d);
  }

  lemma {:induction false} PlacedIsWritable(es: seq<Entry>, defs: seq<Definition>, k: nat)
    requires |es| == |defs| && AllBuilt(es, defs) && Compilable(defs) && k < |es|
    ensures HeaderFits(Placed(es)[k]) && Shaped(Placed(es)[k]) && Int32Fits(Placed(es)[k])
  {
    PlacedOffset(es, defs, k);
    BodySizeWithin(defs, k);
    assert DefinitionOk(defs[k]) && NumbersFit(defs[k]);
    EntryIsWritable(es[k], Placed(es)[k], k + 1, defs[k], 4 + BodiesSize(defs[..k]));
  }

  /** What the compiler leaves can be written without losing a bit. */
  lemma {:induction false} BuiltIsWritable(es: seq<Entry>, defs: seq<Definition>)
    requires |es| == |defs| && AllBuilt(es, defs) && Compilable(defs)
    ensures Writable(Placed(es))
  {
    forall k | 0 <= k < |es|
      ensures HeaderFits(Placed(es)[k]) && Shaped(Placed(es)[k]) && Int32Fits(Placed(es)[k])
    {
      PlacedIsWritable(es, defs, k);
    }
  }

  // ---------------------------------------------------------------- from definitions to answers

  /** The file and the catalog answer for these definitions. */
  ghost predicate Serves(f: seq<Byte>, es: seq<Entry>, defs: seq<Definition>) {
    && CompiledFrom(f, es, RowsOf(defs)) && |es| == |defs|
    && forall k :: 0 <= k < |es| ==>
         es[k].name == defs[k].name && es[k].vWidth == |defs[k].types| && es[k].wWidth == defs[k].wWidth
  }

  /** Compile the definitions, write the file and open it. */
  method CompileAndOpen(defs: seq<Definition>) returns (catalog: DistCatalog, ghost es: seq<Entry>)
    requires Compilable(defs)
    ensures fresh(catalog) && catalog.Valid() && Serves(catalog.file, es, defs)
  {
    var index := new DistIndex();
    CompileAll(index, defs);
    es := index.pEntries;
    BuiltIsReady(es, defs);
    BuiltIsWritable(es, defs);
    var file := index.WriteIndex();
    CompiledFile(file, es, Placed(es), RowsOf(defs));
    catalog := new DistCatalog(file);
  }

  /** A question: the string and the weight at a row of the definition a name spells. */
  datatype Query = Query(name: seq<Byte>, row: int, col: int, wset: int)

  ghost predicate Asks(q: Query, defs: seq<Definition>, k: nat) {
    && k < |defs| && |q.name| <= D_NAME_LEN && SameName(q.name, defs[k].name)
    && 1 <= q.row <= |defs[k].rows| && 1 <= q.col <= |defs[k].types| && 1 <= q.wset <= defs[k].wWidth
  }

  datatype Answer = Answer(text: Member, weight: int)

  /** The answer is what the definition says at that place. */
  ghost predicate IsAdded(a: Answer, q: Query, d: Definition) {
    TextAt(a.text, d.rows, q.row, q.col) && WeightAt(a.weight, d.rows, q.row, q.wset)
  }

  /** The name leads to an entry of the file that holds the definition's rows. */
  ghost predicate EntryFor(f: seq<Byte>, q: Query, d: Definition, e: Entry) {
    && LeadsTo(f, q.name, HeaderOf(e)) && Recovers(f, HeaderOf(e), e.dist)
    && Holds(e, d.rows) && Int32Fits(e) && e.vWidth == |d.types| && e.wWidth == d.wWidth
  }

  ghost predicate Reaches(f: seq<Byte>, q: Query, defs: seq<Definition>, k: nat) {
    Asks(q, defs, k) && exists e :: EntryFor(f, q, defs[k], e)
  }

  lemma {:induction false} QuestionReaches(f: seq<Byte>, es: seq<Entry>, defs: seq<Definition>, q: Query, k: nat)
    requires Serves(f, es, defs) && Asks(q, defs, k)
    ensures Reaches(f, q, defs, k)
  {
    var e, h := NameLeadsToRows(f, es, RowsOf(defs), k, q.name);
    assert EntryFor(f, q, defs[k], e);
  }

  lemma {:induction false} QuestionsReach(f: seq<Byte>, es: seq<Entry>, defs: seq<Definition>, queries: seq<Query>, ks: seq<nat>)
    requires Serves(f, es, defs) && |ks| == |queries|
    requires forall i :: 0 <= i < |queries| ==> Asks(queries[i], defs, ks[i])
    ensures forall i :: 0 <= i < |queries| ==> Reaches(f, queries[i], defs, ks[i])
  {
    forall i | 0 <= i < |queries|
      ensures Reaches(f, queries[i], defs, ks[i])
    {
      QuestionReaches(f, es, defs, queries[i], ks[i]);
    }
  }

  /** Both lookups for one question. */
  method AnswerFrom(catalog: DistCatalog, q: Query, ghost d: Definition, ghost e: Entry) returns (a: Answer)
    requires catalog.Valid() && |q.name| <= D_NAME_LEN && EntryFor(catalog.file, q, d, e)
    requires 1 <= q.row <= |d.rows| && 1 <= q.col <= |d.types| && 1 <= q.wset <= d.wWidth
    modifies catalog
    ensures catalog.Valid() && IsAdded(a, q, d)
  {
    var text := LookUpMember(catalog, q.name, q.row, q.col, e, d.rows);
    var found, weight := LookUpWeight(catalog, q.name, q.row, q.wset, e, d.rows);
    a := Answer(text, weight);
  }

  method AnswerOne(catalog: DistCatalog, q: Query, ghost defs: seq<Definition>, ghost k: nat) returns (a: Answer)
    requires catalog.Valid() && Reaches(catalog.file, q, defs, k)
    modifies catalog
    ensures catalog.Valid() && IsAdded(a, q, defs[k])
  {
    ghost var e :| EntryFor(catalog.file, q, defs[k], e);
    a := AnswerFrom(catalog, q, defs[k], e);
  }

  /** Each of these answers is what was added where its question points. */
  ghost predicate AllAdded(answers: seq<Answer>, queries: seq<Query>, defs: seq<Definition>, ks: seq<nat>) {
    && |answers| <= |queries| == |ks|
    && forall i :: 0 <= i < |answers| ==> ks[i] < |defs| && IsAdded(answers[i], queries[i], defs[ks[i]])
  }

  lemma {:induction false} OneMoreAdded(answers: seq<Answer>, a: Answer, queries: seq<Query>, defs: seq<Definition>,
                                        ks: seq<nat>)
    requires AllAdded(answers, queries, defs, ks) && |answers| < |queries| && ks[|answers|] < |defs|
    requires IsAdded(a, queries[|answers|], defs[ks[|answers|]])
    ensures AllAdded(answers + [a], queries, defs, ks)
  {
    forall i | 0 <= i < |answers| + 1
      ensures ks[i] < |defs| && IsAdded((answers + [a])[i], queries[i], defs[ks[i]])
    {
      if i < |answers| {
        assert IsAdded(answers[i], queries[i], defs[ks[i]]);
      }
    }
  }

  /** The questions, one after the other. */
  method AnswerAll(catalog: DistCatalog, queries: seq<Query>, ghost defs: seq<Definition>, ghost ks: seq<nat>)
    returns (answers: seq<Answer>)
    requires catalog.Valid() && |ks| == |queries|
    requires forall i :: 0 <= i < |queries| ==> Reaches(catalog.file, queries[i], defs, ks[i])
    modifies catalog
    ensures catalog.Valid() && |answers| == |queries| && AllAdded(answers, queries, defs, ks)
  {
    answers := [];
    for i := 0 to |queries|
      invariant catalog.Valid() && |answers| == i && AllAdded(answers, queries, defs, ks)
    {
      assert Reaches(catalog.file, queries[i], defs, ks[i]);
      var a := AnswerOne(catalog, queries[i], defs, ks[i]);
      OneMoreAdded(answers, a, queries, defs, ks);
      answers := answers + [a];
    }
  }

  /** End to end: for any list of uniquely named definitions within the format's range, and any list
      of questions put to the compiled file one after the other, every answer is the string and the
      weight that were added. `ks` says which definition each question names. */
  method CompileAndAnswer(defs: seq<Definition>, queries: seq<Query>, ghost ks: seq<nat>) returns (answers: seq<Answer>)
    requires Compilable(defs) && |ks| == |queries|
    requires forall i :: 0 <= i < |queries| ==> Asks(queries[i], defs, ks[i])
    ensures |answers| == |queries| && AllAdded(answers, queries, defs, ks)
  {
    var catalog;
    ghost var es;
    catalog, es := CompileAndOpen(defs);
    QuestionsReach(catalog.file, es, defs, queries, ks);
    answers := AnswerAll(catalog, queries, defs, ks);
  }

  /** Compile, write, open and look up: the string and the weight are those that were added. */
  method RoundTrip(index: DistIndex, ghost rowsOf: seq<seq<Row>>, ghost k: nat,
                   name: seq<Byte>, row: int, col: int, wset: int)
    returns (text: Member, weight: int)
    requires AllHold(index.pEntries, rowsOf) && UniqueNames(index.pEntries) && NamesFit(index.pEntries)
    requires Writable(Placed(index.pEntries))
    requires k < |index.pEntries| && |name| <= D_NAME_LEN && SameName(name, index.pEntries[k].name)
    requires 1 <= row <= |rowsOf[k]| && 1 <= col <= index.pEntries[k].vWidth && 1 <= wset <= index.pEntries[k].wWidth
    modifies index
    ensures TextAt(text, rowsOf[k], row, col) && WeightAt(weight, rowsOf[k], row, wset)
  {
    ghost var es := index.pEntries;
    var file := index.WriteIndex();
    ghost var e, h := NameLeadsToRows(file, es, rowsOf, k, name);
    CompiledFile(file, es, Placed(es), rowsOf);
    var catalog := new DistCatalog(file);
    text := LookUpMember(catalog, name, row, col, e, rowsOf[k]);
    var found;
    found, weight := LookUpWeight(catalog, name, row, wset, e, rowsOf[k]);
  }
}
