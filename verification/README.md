# TPC-DS data generator: verified model

This project models the core of the TPC-DS tools (dsdgen, dsqgen, distcomp and the checksum utility)
and proves what they rely on. Paths below are relative to the repository root.

- **Random streams and parallel generation** (`Lehmer`, `Period`, `Streams`, `Rows`, `Parallel`). Every
  column draws from its own Lehmer stream, whose period is proved to be 2^31-2 exactly. `row_stop` pads
  each row to a fixed number of draws, `row_skip` jumps to a row by modular exponentiation, and
  `split_work` cuts a table among child processes. The main theorem is `Parallel.GenerateInParallel`:
  any number of independent children, each started from the static stream table by `init_rand`, put
  together write exactly what one serial process writes, although `row_skip` also moves the streams
  that tables still to come duplicate. A row builder is any program that draws from the table's
  streams, each choice depending on the values drawn before, within the columns' row budgets.
- **Query streams** (`Permute`, `QueryStreams`). The shuffle is reapplied to the array the previous
  stream left, with the seed reset, so stream k runs the (k+1)-th power of one permutation.
- **Calendar** (`Calendar`, `DayOfWeek`). The specification counts days by the Gregorian leap-year rule
  of section 3.2.1 of ISO 8601:2004; `dttoj`, `jtodt` and the cached doomsday rule are compared with it.
- **Slowly changing dimensions, inventory and orders** (`BusinessKey`, `Scd`, `Inventory`, `Orders`).
- **Money and checksums** (`Decimals`, `Pricing`, `Checksum`). Conservation under truncating
  arithmetic, and the polynomial division (section 2 of ITU-T V.41) behind the bit loop of the CRC.
- **Distributions** (`DistFormat`, `DistCompiler`, `DistLayout`, `DistLoader`, `DistLookup`, `DistPick`,
  `DistRoundTrip`). Rows go into a string pool, the file is written big-endian with its index at the
  end, and lookups by name in that file give back what was added. The main theorem is
  `DistRoundTrip.CompileAndAnswer`: from any list of definitions within the format's range, through
  compiling, writing and opening the file, to any list of questions, every answer is what was added.

`CInt` holds C's integer arithmetic: truncating division and the conversion to a 32-bit `int`.

## Where the code departs from its promise

Each of these is proved, with the exact condition.

- `init_rand` adds in 32-bit `int`, so initial seeds can be negative: with the default seed those of
  streams 792 to 798 are (`Streams.DefaultSeedsWrap`). `skip_random` then leaves the negative
  representative where stepping leaves the non-negative one; the draws that follow are the same
  (`Streams.SkipEqualsAdvanceIff`, `Streams.SkipIsAdvance`). Its loop stops one short, so the stream of
  the last column keeps the seed 0 of the static table (`Parallel.StartedIsFresh`).
- `main` converts the number k of rows to skip to `int`, which past 2^31 puts the streams behind row
  s = max(0, (int) k) instead (`Parallel.SkipReachesConverted`). A column is in place all the same iff
  its initial seed is a multiple of 2^31-1 or (k - s) * nUsedPerRow is a multiple of 2^31-2
  (`Parallel.SkipLandsIff`); wherever it is not, a row that prints one of its draws comes out wrong
  (`Parallel.MissedRowShows`). The parallel theorems ask for this condition and no other bound.
- CHILD may exceed PARALLEL: such a child of a large table builds rows past its end, iff the table has at
  least PARALLEL rows (`Parallel.PastTheEndIff`).
- `dttoj` truncates where it should round down, so dates before 1 March of year 0 come out one day
  late unless the March year divides like a leap year (`Calendar.DttojIsDayNumberIff`).
- `is_leap` makes every century year leap, so `set_dow` is a day early in January and February of
  century years that 400 does not divide, and only there (`DayOfWeek.DowCache.SetDow`).
- `doomsday[]` is indexed with C's remainder, which is negative for years 0 to 1499 except 300 to 399,
  700 to 799 and 1100 to 1199 (`DayOfWeek.InTableIff`).
- The limits of `set_pricing` are cached by position but compared by table number. An answer is right iff
  the number is not the position cached, or its own limits equal those cached (`Pricing.LimitCache.Select`).
  Numbers from 12 on are never positions, so over any calls with such numbers every answer is right
  (`Pricing.LimitCache.SelectEach`, `Pricing.PricingRow.SetPricing`). The numbers in use start at 74.
- A product written over one of its own operands loses its scale when that operand has fewer decimal
  places than the other, unless it has too few digits to matter (`Decimals.MultInPlaceIff`). The pricing
  code writes over its first operand six times, always at two places (`Pricing.InPlaceOnCents`).
- `itodec` forms `bound * 10` in an `int`: it stays in range iff the source has at most nine digits
  (`Decimals.WidthFitsIff`).
- The string buffer of a distribution grows by 1000 bytes at a time, so the copies stay inside it iff no
  row's strings, with their terminators, take more (`DistCompiler.NeverShortIff`).
- `AddDistribution` compares the whole name but stores 20 characters, so two long names can end up
  equal (`DistCompiler.DistIndex.AddDistribution`).

## Model

| member | source | states |
|---|---|---|
| `Lehmer.AdvanceIsPower` | B0CF2ADA-2F20-4296-A89C-81B8202DCD13-TPC-DS-Tool/DSGen-software-code-4.0.0/tools/genrand.c:76-94 | n draws multiply the seed by 16807^n modulo 2^31-1, and leave a reduced seed |
| `Lehmer.NextInjective` | B0CF2ADA-2F20-4296-A89C-81B8202DCD13-TPC-DS-Tool/DSGen-software-code-4.0.0/tools/genrand.c:76-94 | one step is a bijection on residues: two seeds collide after a step only if they did before |
| `Lehmer.ReachesZeroIff` | B0CF2ADA-2F20-4296-A89C-81B8202DCD13-TPC-DS-Tool/DSGen-software-code-4.0.0/tools/genrand.c:76-94 | on any run a stream reaches 0 exactly when it starts at a multiple of the modulus |
| `Streams.SchrageStep` | B0CF2ADA-2F20-4296-A89C-81B8202DCD13-TPC-DS-Tool/DSGen-software-code-4.0.0/tools/genrand.c:83-87 | Schrage's step stays inside 32 bits and equals 16807 s mod 2^31-1 after the correction, for reduced, unreduced and negative seeds |
| `Streams.NextRandom` | B0CF2ADA-2F20-4296-A89C-81B8202DCD13-TPC-DS-Tool/DSGen-software-code-4.0.0/tools/genrand.c:76-94 | a draw returns and stores the next residue, counts itself, and touches no other stream |
| `Streams.NeverZero` | B0CF2ADA-2F20-4296-A89C-81B8202DCD13-TPC-DS-Tool/DSGen-software-code-4.0.0/tools/genrand.c:76-94 | a stream started in 1 .. 2^31-2 stays there for ever |
| `Streams.ProductFits` | B0CF2ADA-2F20-4296-A89C-81B8202DCD13-TPC-DS-Tool/DSGen-software-code-4.0.0/tools/genrand.c:144-153 | no product of the square-and-multiply loop leaves 64 bits |
| `Streams.SquareMultiplyStep` | B0CF2ADA-2F20-4296-A89C-81B8202DCD13-TPC-DS-Tool/DSGen-software-code-4.0.0/tools/genrand.c:146-152 | a turn of the loop keeps M^N * Z modulo 2^31-1 |
| `Streams.SkipRandom` | B0CF2ADA-2F20-4296-A89C-81B8202DCD13-TPC-DS-Tool/DSGen-software-code-4.0.0/tools/genrand.c:134-156 | the loop stores C's remainder of 16807^N times the initial seed, for every N, negative ones included |
| `Streams.SkipIsAdvance` | B0CF2ADA-2F20-4296-A89C-81B8202DCD13-TPC-DS-Tool/DSGen-software-code-4.0.0/tools/genrand.c:134-156 | after skipping N the stream gives the same draws as after N single steps |
| `Streams.SkipEqualsAdvanceIff` | B0CF2ADA-2F20-4296-A89C-81B8202DCD13-TPC-DS-Tool/DSGen-software-code-4.0.0/tools/genrand.c:134-156 | the stored seeds themselves are equal iff nothing is skipped, the initial seed is not negative, or it is a multiple of the modulus |
| `Streams.GenrandInteger` | B0CF2ADA-2F20-4296-A89C-81B8202DCD13-TPC-DS-Tool/DSGen-software-code-4.0.0/tools/genrand.c:171-201 | the value lies from min to max and differs from the drawn residue, min taken off, by whole ranges; exactly one stream moves by one step |
| `Streams.UniformOnce` | B0CF2ADA-2F20-4296-A89C-81B8202DCD13-TPC-DS-Tool/DSGen-software-code-4.0.0/tools/genrand.c:182-183 | over any max - min + 1 consecutive draws every value of the range, both ends included, comes up exactly once |
| `Streams.GenrandKey` | B0CF2ADA-2F20-4296-A89C-81B8202DCD13-TPC-DS-Tool/DSGen-software-code-4.0.0/tools/genrand.c:217-248 | the same for 64-bit bounds that fit after the casts to int |
| `Streams.InitRand` | B0CF2ADA-2F20-4296-A89C-81B8202DCD13-TPC-DS-Tool/DSGen-software-code-4.0.0/tools/genrand.c:577-601 | stream 0 gets the given seed and each next one a seed greater by skip, modulo 2^32 as 32-bit int; seed and initial seed are equal and later streams untouched |
| `Streams.DefaultSeedsWrap` | B0CF2ADA-2F20-4296-A89C-81B8202DCD13-TPC-DS-Tool/DSGen-software-code-4.0.0/tools/genrand.c:587-597 | with the default seed the initial seeds that wrap to negative numbers are exactly those from stream 792 on |
| `Period.PowerIsOneIff` | B0CF2ADA-2F20-4296-A89C-81B8202DCD13-TPC-DS-Tool/DSGen-software-code-4.0.0/tools/genrand.c:76-94 | 16807 is a primitive root: n draws lead back to the start iff n is a multiple of 2^31-2 |
| `Period.EveryResidueIsPower` | B0CF2ADA-2F20-4296-A89C-81B8202DCD13-TPC-DS-Tool/DSGen-software-code-4.0.0/tools/genrand.c:76-94 | from any seed that is not a multiple of the modulus a stream runs through every residue but 0 |
| `Period.SameResidueIff` | B0CF2ADA-2F20-4296-A89C-81B8202DCD13-TPC-DS-Tool/DSGen-software-code-4.0.0/tools/genrand.c:76-94 | m and n draws from a seed leave the same residue iff the seed is 0 modulo 2^31-1 or m and n differ by whole periods |
| `Rows.RunBuilder` | B0CF2ADA-2F20-4296-A89C-81B8202DCD13-TPC-DS-Tool/DSGen-software-code-4.0.0/tools/driver.c:314-327 | the lines are those the builder ends with when fed, draw after draw, the next values of the columns' streams; these draws, within the budget of each column, and no others move the streams |
| `Rows.EndsOnce` | B0CF2ADA-2F20-4296-A89C-81B8202DCD13-TPC-DS-Tool/DSGen-software-code-4.0.0/tools/driver.c:314-327 | from given seeds a builder makes one sequence of draws and prints one sequence of lines |
| `Rows.LinesCongruent` | B0CF2ADA-2F20-4296-A89C-81B8202DCD13-TPC-DS-Tool/DSGen-software-code-4.0.0/tools/driver.c:314-327 | the lines depend on the seeds only modulo 2^31-1 |
| `Rows.CheckSeeds` | B0CF2ADA-2F20-4296-A89C-81B8202DCD13-TPC-DS-Tool/DSGen-software-code-4.0.0/tools/parallel.c:124-154 | each column is padded up to its row budget and its count cleared; the code is 1 iff CHKSEEDS is set and some column overran |
| `Rows.RowStop` | B0CF2ADA-2F20-4296-A89C-81B8202DCD13-TPC-DS-Tool/DSGen-software-code-4.0.0/tools/parallel.c:170-189 | table, child and grandchild columns are padded and no other |
| `Rows.RowSkip` | B0CF2ADA-2F20-4296-A89C-81B8202DCD13-TPC-DS-Tool/DSGen-software-code-4.0.0/tools/parallel.c:205-229 | the loop is the fold of one repositioning per stream, duplicates included |
| `Rows.SkipFromMeaning` | B0CF2ADA-2F20-4296-A89C-81B8202DCD13-TPC-DS-Tool/DSGen-software-code-4.0.0/tools/parallel.c:205-229 | exactly the table's streams and those another stream duplicates move, each to count times its own row budget of draws from its initial seed, whatever its state before |
| `Rows.RowBoundary` | B0CF2ADA-2F20-4296-A89C-81B8202DCD13-TPC-DS-Tool/DSGen-software-code-4.0.0/tools/parallel.c:124-189 | a row that drew within its budget and was padded has moved exactly one row on, whatever it drew |
| `Rows.RowSeedIsPower` | B0CF2ADA-2F20-4296-A89C-81B8202DCD13-TPC-DS-Tool/DSGen-software-code-4.0.0/tools/parallel.c:124-229 | the position before row k+1 is 16807^(k nUsedPerRow) times the initial seed modulo 2^31-1 |
| `Rows.SkipReachesRow` | B0CF2ADA-2F20-4296-A89C-81B8202DCD13-TPC-DS-Tool/DSGen-software-code-4.0.0/tools/parallel.c:205-229 | row_skip(k) reaches the position k complete rows reach, from any prior state |
| `Rows.CloseRow` | B0CF2ADA-2F20-4296-A89C-81B8202DCD13-TPC-DS-Tool/DSGen-software-code-4.0.0/tools/parallel.c:170-189 | invariant of every run: if all streams of the table stand after k rows, closing a row leaves them after k+1 rows and other tables untouched |
| `Rows.TableWritesRows` | B0CF2ADA-2F20-4296-A89C-81B8202DCD13-TPC-DS-Tool/DSGen-software-code-4.0.0/tools/driver.c:314-327 | the rows of a table stand one after the other in its output, each what its builder prints after the complete rows before it |
| `Rows.LineOfRow` | B0CF2ADA-2F20-4296-A89C-81B8202DCD13-TPC-DS-Tool/DSGen-software-code-4.0.0/tools/driver.c:314-327 | where every row prints one line there are as many lines as rows, and line i is that of row first + i |
| `Rows.GenTbl` | B0CF2ADA-2F20-4296-A89C-81B8202DCD13-TPC-DS-Tool/DSGen-software-code-4.0.0/tools/driver.c:314-327 | the output is what rows kFirstRow .. kFirstRow+kRowCount-1 print, one after the other, each a function of the initial seeds alone; if every row prints one line, line i is that of row kFirstRow+i; the streams end at a row boundary |
| `Rows.PositionTable` | B0CF2ADA-2F20-4296-A89C-81B8202DCD13-TPC-DS-Tool/DSGen-software-code-4.0.0/tools/driver.c:553-558 | the skips of table and child put every stream of the two tables at the requested row boundary; any other stream stays or goes to that boundary of its own |
| `Rows.ValidateGeneric` | B0CF2ADA-2F20-4296-A89C-81B8202DCD13-TPC-DS-Tool/DSGen-software-code-4.0.0/tools/validate.c:91-98 | jumping to row r from any state prints what the row's builder prints after r - 1 complete rows, as a serial run does |
| `Parallel.SplitWork` | B0CF2ADA-2F20-4296-A89C-81B8202DCD13-TPC-DS-Tool/DSGen-software-code-4.0.0/tools/parallel.c:58-108 | child c of p gets total / p rows, one more if c is at most total mod p, after (c-1) such shares; small tables go whole to the first child, and to every other with no rows |
| `Parallel.SharesCover` | B0CF2ADA-2F20-4296-A89C-81B8202DCD13-TPC-DS-Tool/DSGen-software-code-4.0.0/tools/parallel.c:94-105 | the shares of children 1 .. p use up the table exactly |
| `Parallel.ShareInTable` | B0CF2ADA-2F20-4296-A89C-81B8202DCD13-TPC-DS-Tool/DSGen-software-code-4.0.0/tools/parallel.c:58-108 | every share lies inside the table |
| `Parallel.SkipReachesConverted` | B0CF2ADA-2F20-4296-A89C-81B8202DCD13-TPC-DS-Tool/DSGen-software-code-4.0.0/tools/driver.c:553-558 | after the conversion to int a skip of k rows leaves every column behind row max(0, (int) k) |
| `Parallel.SkipLandsIff` | B0CF2ADA-2F20-4296-A89C-81B8202DCD13-TPC-DS-Tool/DSGen-software-code-4.0.0/tools/driver.c:553-558 | for every k a column is then where k rows leave it iff its initial seed is 0 modulo 2^31-1 or the rows not passed over draw whole periods |
| `Parallel.SmallSkipLands` | B0CF2ADA-2F20-4296-A89C-81B8202DCD13-TPC-DS-Tool/DSGen-software-code-4.0.0/tools/driver.c:553-558 | below 2^31 rows every column lands |
| `Parallel.OneDrawLandsIff` | B0CF2ADA-2F20-4296-A89C-81B8202DCD13-TPC-DS-Tool/DSGen-software-code-4.0.0/tools/driver.c:553-558 | a column with one draw per row lands on a single row between 2^31 and 2^32, row 4294967292 |
| `Parallel.MissedRowShows` | B0CF2ADA-2F20-4296-A89C-81B8202DCD13-TPC-DS-Tool/DSGen-software-code-4.0.0/tools/driver.c:553-558 | where a column does not land there is a row, within the budgets, whose printed lines come out wrong |
| `Parallel.GroupLandsIff` | B0CF2ADA-2F20-4296-A89C-81B8202DCD13-TPC-DS-Tool/DSGen-software-code-4.0.0/tools/driver.c:553-558 | the streams of a table and its child stand at the wanted row iff every column of them lands |
| `Parallel.GenerateTable` | B0CF2ADA-2F20-4296-A89C-81B8202DCD13-TPC-DS-Tool/DSGen-software-code-4.0.0/tools/driver.c:549-563 | split, skip and generate write exactly the child's share of the serial rows, from any state of the streams unless the share starts at row 1 |
| `Parallel.ShareStart` | B0CF2ADA-2F20-4296-A89C-81B8202DCD13-TPC-DS-Tool/DSGen-software-code-4.0.0/tools/parallel.c:58-108 | the first child and a serial process never skip; every other process skips to each table it builds rows of |
| `Parallel.TurnReady` | B0CF2ADA-2F20-4296-A89C-81B8202DCD13-TPC-DS-Tool/DSGen-software-code-4.0.0/tools/parallel.c:205-229 | at its turn every table's streams are where its share needs them, although skips for earlier tables move streams that are duplicated |
| `Parallel.Generate` | B0CF2ADA-2F20-4296-A89C-81B8202DCD13-TPC-DS-Tool/DSGen-software-code-4.0.0/tools/driver.c:544-565 | a process writes its share of every table, in order |
| `Parallel.ParallelEqualsSerial` | B0CF2ADA-2F20-4296-A89C-81B8202DCD13-TPC-DS-Tool/DSGen-software-code-4.0.0/tools/parallel.c:58-230 | for every p >= 2 the children's outputs of a table, concatenated, are the serial output |
| `Parallel.StartedIsFresh` | B0CF2ADA-2F20-4296-A89C-81B8202DCD13-TPC-DS-Tool/DSGen-software-code-4.0.0/tools/genrand.c:577-601 | after init_rand every stream can be drawn from and stands at its initial seed, the unseeded last one included |
| `Parallel.NewProcess` | B0CF2ADA-2F20-4296-A89C-81B8202DCD13-TPC-DS-Tool/DSGen-software-code-4.0.0/tools/genrand.c:577-601 | a process starts from the static table with the seeds of init_rand |
| `Parallel.RunChild` | B0CF2ADA-2F20-4296-A89C-81B8202DCD13-TPC-DS-Tool/DSGen-software-code-4.0.0/tools/driver.c:544-565 | a child process, from the static table on, writes its share of every table |
| `Parallel.SerialWritesTable` | B0CF2ADA-2F20-4296-A89C-81B8202DCD13-TPC-DS-Tool/DSGen-software-code-4.0.0/tools/driver.c:544-565 | what a serial process writes of a table is its rows 1 to n in order; with one line per row, n lines, line i that of row i + 1 |
| `Parallel.GenerateInParallel` | B0CF2ADA-2F20-4296-A89C-81B8202DCD13-TPC-DS-Tool/DSGen-software-code-4.0.0/tools/driver.c:544-565 | p independent processes, put together, produce for every table what one serial process produces: its rows 1 to n, one after the other, each as its builder prints it after the rows before |
| `Parallel.PastTheEndIff` | B0CF2ADA-2F20-4296-A89C-81B8202DCD13-TPC-DS-Tool/DSGen-software-code-4.0.0/tools/parallel.c:94-105 | a child builds rows past the end of a large table iff its number exceeds PARALLEL and the table has at least PARALLEL rows |
| `Permute.Exchange` | B0CF2ADA-2F20-4296-A89C-81B8202DCD13-TPC-DS-Tool/DSGen-software-code-4.0.0/tools/permute.c:81-83 | the two entries change places and every other stays |
| `Permute.ShuffleIsRun` | B0CF2ADA-2F20-4296-A89C-81B8202DCD13-TPC-DS-Tool/DSGen-software-code-4.0.0/tools/permute.c:78-84 | the shuffle is such a run of turns, each draw 16807 times the one before modulo 2^31-1 |
| `Permute.MakePermutation` | B0CF2ADA-2F20-4296-A89C-81B8202DCD13-TPC-DS-Tool/DSGen-software-code-4.0.0/tools/permute.c:58-87 | the array, new with 0 .. n-1 or passed in, ends as the run of n turns leaves it, turn i exchanging entry i with the entry at the next draw modulo n; the stream moves n draws; a size that is not positive gives no array |
| `Permute.ShuffleIsRearrangement` | B0CF2ADA-2F20-4296-A89C-81B8202DCD13-TPC-DS-Tool/DSGen-software-code-4.0.0/tools/permute.c:78-84 | the shuffle moves entries by position: it is one permutation, fixed by seed and size, composed with any array |
| `Permute.PermutationInjective` | B0CF2ADA-2F20-4296-A89C-81B8202DCD13-TPC-DS-Tool/DSGen-software-code-4.0.0/tools/permute.c:58-87 | a permutation has no repeated entry |
| `QueryStreams.ReshuffleIsNextPower` | B0CF2ADA-2F20-4296-A89C-81B8202DCD13-TPC-DS-Tool/DSGen-software-code-4.0.0/tools/QgenMain.c:262-264 | reshuffling the surviving array with the reset seed gives the next power of stream 0's permutation |
| `QueryStreams.NextPermutation` | B0CF2ADA-2F20-4296-A89C-81B8202DCD13-TPC-DS-Tool/DSGen-software-code-4.0.0/tools/QgenMain.c:262-264 | after stream k's reset and reshuffle the array holds the (k+1)-th power |
| `QueryStreams.RunStream` | B0CF2ADA-2F20-4296-A89C-81B8202DCD13-TPC-DS-Tool/DSGen-software-code-4.0.0/tools/QgenMain.c:288-301 | the file runs COUNT versions of the template at each entry of the permutation, in its order, or of 1, 2, .. under QUALIFY |
| `QueryStreams.EveryTemplateCountTimes` | B0CF2ADA-2F20-4296-A89C-81B8202DCD13-TPC-DS-Tool/DSGen-software-code-4.0.0/tools/QgenMain.c:256-301 | every stream runs every template exactly COUNT times and nothing else, for any number of streams and templates |
| `QueryStreams.VersionAt` | B0CF2ADA-2F20-4296-A89C-81B8202DCD13-TPC-DS-Tool/DSGen-software-code-4.0.0/tools/QgenMain.c:288-301 | position q * COUNT + v of a file that runs an order is version v of its entry q, plus one |
| `QueryStreams.OrdersAreReshuffled` | B0CF2ADA-2F20-4296-A89C-81B8202DCD13-TPC-DS-Tool/DSGen-software-code-4.0.0/tools/QgenMain.c:262-264 | the powers of the first permutation are its successive reshuffles with the reset seed |
| `QueryStreams.GenerateQueryStreams` | B0CF2ADA-2F20-4296-A89C-81B8202DCD13-TPC-DS-Tool/DSGen-software-code-4.0.0/tools/QgenMain.c:256-307 | file k runs the k-th order, COUNT versions of each entry plus one, or 1, 2, .. under QUALIFY; the first order is the shuffle of 0 .. n-1 and each next the shuffle, with the seed reset, of the one before |
| `Calendar.NextDayAdvances` | B0CF2ADA-2F20-4296-A89C-81B8202DCD13-TPC-DS-Tool/DSGen-software-code-4.0.0/tools/date.c:170-229 | the specification counts days: each Gregorian date's successor has the next number |
| `Calendar.DayNumberInjective` | B0CF2ADA-2F20-4296-A89C-81B8202DCD13-TPC-DS-Tool/DSGen-software-code-4.0.0/tools/date.c:170-229 | a day number belongs to one date |
| `Calendar.DttojIsDayNumberIff` | B0CF2ADA-2F20-4296-A89C-81B8202DCD13-TPC-DS-Tool/DSGen-software-code-4.0.0/tools/date.c:210-229 | dttoj is the day number iff the March year is not negative or divides like a leap year; otherwise it is one too large |
| `Calendar.JtoDate` | B0CF2ADA-2F20-4296-A89C-81B8202DCD13-TPC-DS-Tool/DSGen-software-code-4.0.0/tools/date.c:178-191 | for every source >= 0 the nested divisions give a valid Gregorian date with that day number |
| `Calendar.DateVar.JtoDt` | B0CF2ADA-2F20-4296-A89C-81B8202DCD13-TPC-DS-Tool/DSGen-software-code-4.0.0/tools/date.c:170-194 | the struct is filled with that date; a negative source is refused and changes nothing |
| `Calendar.JulianRoundTrip` | B0CF2ADA-2F20-4296-A89C-81B8202DCD13-TPC-DS-Tool/DSGen-software-code-4.0.0/tools/date.c:170-229 | dttoj(jtodt(j)) = j iff the date's March year is not negative or divides like a leap year |
| `Calendar.JulianRoundTripFromYearZero` | B0CF2ADA-2F20-4296-A89C-81B8202DCD13-TPC-DS-Tool/DSGen-software-code-4.0.0/tools/date.c:170-229 | dttoj(jtodt(j)) = j from 1 March of year 0 on |
| `Calendar.DateRoundTrip` | B0CF2ADA-2F20-4296-A89C-81B8202DCD13-TPC-DS-Tool/DSGen-software-code-4.0.0/tools/date.c:170-229 | jtodt(dttoj(d)) = d under exactly the same condition |
| `Calendar.JtoDateEnumerates` | B0CF2ADA-2F20-4296-A89C-81B8202DCD13-TPC-DS-Tool/DSGen-software-code-4.0.0/tools/date.c:170-194 | consecutive day numbers give consecutive dates |
| `Calendar.DttojAdvances` | B0CF2ADA-2F20-4296-A89C-81B8202DCD13-TPC-DS-Tool/DSGen-software-code-4.0.0/tools/date.c:210-229 | dttoj grows by exactly 1 from each date to the next from 1 March of year 0 on |
| `DayOfWeek.LeapRules` | B0CF2ADA-2F20-4296-A89C-81B8202DCD13-TPC-DS-Tool/DSGen-software-code-4.0.0/tools/date.c:523-528 | is_leap differs from the Gregorian rule in century years that 400 does not divide, and only there |
| `DayOfWeek.DoomsdayRule` | B0CF2ADA-2F20-4296-A89C-81B8202DCD13-TPC-DS-Tool/DSGen-software-code-4.0.0/tools/date.c:479-503 | the doomsday computation agrees with the day number modulo 7, up to the misplaced days |
| `DayOfWeek.InTableIff` | B0CF2ADA-2F20-4296-A89C-81B8202DCD13-TPC-DS-Tool/DSGen-software-code-4.0.0/tools/date.c:479-483 | C's remainder gives doomsday[] a valid index iff the year is from 1500 on or in 300 .. 399, 700 .. 799 or 1100 .. 1199 |
| `DayOfWeek.DowCache.ChangeYear` | B0CF2ADA-2F20-4296-A89C-81B8202DCD13-TPC-DS-Tool/DSGen-software-code-4.0.0/tools/date.c:465-493 | a change of year makes the cached doomsday and known days those of the new year |
| `DayOfWeek.DowCache.SetDow` | B0CF2ADA-2F20-4296-A89C-81B8202DCD13-TPC-DS-Tool/DSGen-software-code-4.0.0/tools/date.c:455-507 | over any sequence of calls the cache stays consistent and the result is the weekday iff the date is not in January or February of a century year that 400 does not divide |
| `BusinessKey.Ltoc` | B0CF2ADA-2F20-4296-A89C-81B8202DCD13-TPC-DS-Tool/DSGen-software-code-4.0.0/tools/build_support.c:322-334 | letter i of the eight is szXlate at the i-th hexadecimal digit from below, then the terminator, nothing else written |
| `BusinessKey.MkBKey` | B0CF2ADA-2F20-4296-A89C-81B8202DCD13-TPC-DS-Tool/DSGen-software-code-4.0.0/tools/build_support.c:336-348 | sixteen such letters: of the high word and then of the low word of the 64 bits, for negative keys too |
| `BusinessKey.BKeyRoundTrip` | B0CF2ADA-2F20-4296-A89C-81B8202DCD13-TPC-DS-Tool/DSGen-software-code-4.0.0/tools/build_support.c:321-348 | the key can be read back, so different numbers have different keys |
| `Scd.FirstSKNext` | B0CF2ADA-2F20-4296-A89C-81B8202DCD13-TPC-DS-Tool/DSGen-software-code-4.0.0/tools/scd.c:319-345 | the keys of consecutive IDs follow without a gap, 1, 2, 3 revisions in turn |
| `Scd.FirstSKIncreasing` | B0CF2ADA-2F20-4296-A89C-81B8202DCD13-TPC-DS-Tool/DSGen-software-code-4.0.0/tools/scd.c:319-345 | getFirstSK enumerates in increasing order |
| `Scd.SkOfId` | B0CF2ADA-2F20-4296-A89C-81B8202DCD13-TPC-DS-Tool/DSGen-software-code-4.0.0/tools/scd.c:98-144 | each surrogate key is a revision of its ID |
| `Scd.IdOfSk` | B0CF2ADA-2F20-4296-A89C-81B8202DCD13-TPC-DS-Tool/DSGen-software-code-4.0.0/tools/scd.c:98-144 | each revision of each ID is one surrogate key |
| `Scd.IDCountCountsNewKeys` | B0CF2ADA-2F20-4296-A89C-81B8202DCD13-TPC-DS-Tool/DSGen-software-code-4.0.0/tools/scaling.c:214-236 | getIDCount(n) is the number of keys in 1 .. n that open a new ID |
| `Scd.IDCountIff` | B0CF2ADA-2F20-4296-A89C-81B8202DCD13-TPC-DS-Tool/DSGen-software-code-4.0.0/tools/scaling.c:214-236 | an ID is counted iff its first key is among the rows, and the count is the last row's ID |
| `Scd.DataDates` | B0CF2ADA-2F20-4296-A89C-81B8202DCD13-TPC-DS-Tool/DSGen-software-code-4.0.0/tools/scd.c:85-96 | the dates the windows use are those the one-time initialisation computes |
| `Scd.WindowsPartition` | B0CF2ADA-2F20-4296-A89C-81B8202DCD13-TPC-DS-Tool/DSGen-software-code-4.0.0/tools/scd.c:100-139 | an ID's windows partition the days from the start of the data: exactly one holds each day |
| `Scd.WindowsAreEven` | B0CF2ADA-2F20-4296-A89C-81B8202DCD13-TPC-DS-Tool/DSGen-software-code-4.0.0/tools/scd.c:85-139 | the revisions of an ID divide the days of the data evenly, each beginning the day after the one before ends |
| `Scd.ScdKeys.SetSCDKeys` | B0CF2ADA-2F20-4296-A89C-81B8202DCD13-TPC-DS-Tool/DSGen-software-code-4.0.0/tools/scd.c:71-144 | the row gets its ID's key whatever arBKeys held, is new iff it is the ID's first row, and its window runs from the end of the revision before to its even share of the data's range, open at the last |
| `Scd.SameBusinessKeyIff` | B0CF2ADA-2F20-4296-A89C-81B8202DCD13-TPC-DS-Tool/DSGen-software-code-4.0.0/tools/scd.c:98-144 | two rows get the same business key iff they share an ID |
| `Scd.MatchIsRevisionInWindow` | B0CF2ADA-2F20-4296-A89C-81B8202DCD13-TPC-DS-Tool/DSGen-software-code-4.0.0/tools/scd.c:235-255 | before its clamp, matchSCDSK picks the revision of the ID whose window holds jDate - 6 * table |
| `Scd.ClampKeepsId` | B0CF2ADA-2F20-4296-A89C-81B8202DCD13-TPC-DS-Tool/DSGen-software-code-4.0.0/tools/scd.c:257-260 | the clamp to the row count never changes the ID |
| `Scd.ScdJoin` | B0CF2ADA-2F20-4296-A89C-81B8202DCD13-TPC-DS-Tool/DSGen-software-code-4.0.0/tools/scd.c:185-193 | the join is -1 iff the date is past the data, and otherwise the match of the drawn ID, a row of the table; with revisions, a row of that ID |
| `Scd.GetSKFromID` | B0CF2ADA-2F20-4296-A89C-81B8202DCD13-TPC-DS-Tool/DSGen-software-code-4.0.0/tools/scd.c:277-303 | a drawn revision of the ID, always on that ID |
| `Inventory.RowCounts.SetUpdateScaling` | B0CF2ADA-2F20-4296-A89C-81B8202DCD13-TPC-DS-Tool/DSGen-software-code-4.0.0/tools/scaling.c:785-794 | each day's count is the one before plus the day's rows, the last becomes the row count, and update u inserts after the base rows and the u - 1 updates before it |
| `Inventory.DaySlot` | B0CF2ADA-2F20-4296-A89C-81B8202DCD13-TPC-DS-Tool/DSGen-software-code-4.0.0/tools/scaling.c:515-516 | the search finds the one day whose range holds the row: above the count of the day before, at most its own; past the end it stays on the last |
| `Inventory.TripleOfRow` | B0CF2ADA-2F20-4296-A89C-81B8202DCD13-TPC-DS-Tool/DSGen-software-code-4.0.0/tools/s_inventory.c:89-101 | the row number of a (day, warehouse, item) decomposes into that triple |
| `Inventory.RowOfTriple` | B0CF2ADA-2F20-4296-A89C-81B8202DCD13-TPC-DS-Tool/DSGen-software-code-4.0.0/tools/s_inventory.c:89-101 | every row in 1 .. 6 * items * warehouses is the row of its triple: the correspondence is one to one |
| `Inventory.SlotHoldsRow` | B0CF2ADA-2F20-4296-A89C-81B8202DCD13-TPC-DS-Tool/DSGen-software-code-4.0.0/tools/scaling.c:515-524 | the mixed-radix day and the prefix-sum day are the same |
| `Inventory.MkSInventory` | B0CF2ADA-2F20-4296-A89C-81B8202DCD13-TPC-DS-Tool/DSGen-software-code-4.0.0/tools/s_inventory.c:89-104 | the row number is slot * warehouses * items + (warehouse - 1) * items + item; the built row holds the warehouse, the item's first surrogate key, the slot's date, and one uniform draw from 0 to 250 |
| `Inventory.RowsDiffer` | B0CF2ADA-2F20-4296-A89C-81B8202DCD13-TPC-DS-Tool/DSGen-software-code-4.0.0/tools/s_inventory.c:89-101 | two rows never print the same day, warehouse and item key |
| `Orders.ItemCursor.constructor` | B0CF2ADA-2F20-4296-A89C-81B8202DCD13-TPC-DS-Tool/DSGen-software-code-4.0.0/tools/s_pline.c:85-98 | the item list is the shuffle of 0 .. n-1, a permutation of all item IDs |
| `Orders.ItemCursor.MkLine` | B0CF2ADA-2F20-4296-A89C-81B8202DCD13-TPC-DS-Tool/DSGen-software-code-4.0.0/tools/s_pline.c:102-111 | a line moves the cursor one on, wrapping past the end, and takes the first key of the ID there, which is one of 1 .. n |
| `Orders.ItemCursor.MkOrder` | B0CF2ADA-2F20-4296-A89C-81B8202DCD13-TPC-DS-Tool/DSGen-software-code-4.0.0/tools/s_purchase.c:167-172 | line i takes the first key of the ID at the entry i places, in a circle, from the one after the drawn start, whose draw it states; the permutation is kept |
| `Orders.ItemsDistinctIff` | B0CF2ADA-2F20-4296-A89C-81B8202DCD13-TPC-DS-Tool/DSGen-software-code-4.0.0/tools/s_catalog_order_lineitem.c:100-108 | from every start and permutation, the items of an order are pairwise different iff there are at least as many items as lines |
| `Orders.OrdersHaveDistinctItems` | B0CF2ADA-2F20-4296-A89C-81B8202DCD13-TPC-DS-Tool/DSGen-software-code-4.0.0/tools/s_catalog_order.c:136-140 | 12 purchase lines and 9 catalog lines are distinct iff there are 12 and 9 items |
| `Decimals.OperationLaw` | B0CF2ADA-2F20-4296-A89C-81B8202DCD13-TPC-DS-Tool/DSGen-software-code-4.0.0/tools/decimal.c:296-362 | each operation is the exact result truncated toward zero, by inequalities |
| `Decimals.DecimalOp` | B0CF2ADA-2F20-4296-A89C-81B8202DCD13-TPC-DS-Tool/DSGen-software-code-4.0.0/tools/decimal.c:296-362 | sums and differences of the numbers, products truncated at the larger precision, quotients scaled by it and truncated; with the destination among the operands, these are read with the result's precision |
| `Decimals.DropDigitsIsQuot` | B0CF2ADA-2F20-4296-A89C-81B8202DCD13-TPC-DS-Tool/DSGen-software-code-4.0.0/tools/decimal.c:325-330 | dividing by ten n times truncates once by 10^n |
| `Decimals.MultInPlaceIff` | B0CF2ADA-2F20-4296-A89C-81B8202DCD13-TPC-DS-Tool/DSGen-software-code-4.0.0/tools/decimal.c:307-330 | a product stored over its first operand, its second or both is right iff each operand written over has the result's precision or the product has too few digits to matter |
| `Decimals.DecimalVar.FromInt` | B0CF2ADA-2F20-4296-A89C-81B8202DCD13-TPC-DS-Tool/DSGen-software-code-4.0.0/tools/decimal.c:122-139 | the value is the integer with no decimal places and the width its number of digits |
| `Decimals.WidthFitsIff` | B0CF2ADA-2F20-4296-A89C-81B8202DCD13-TPC-DS-Tool/DSGen-software-code-4.0.0/tools/decimal.c:127-132 | the loop's products stay inside an int iff the integer is below 10^9 |
| `Pricing.LimitCache.Select` | B0CF2ADA-2F20-4296-A89C-81B8202DCD13-TPC-DS-Tool/DSGen-software-code-4.0.0/tools/pricing.c:115-130 | the answer is the limits of the last row with the id, or a refusal if there is none, iff the id is not the position of the row cached before or that row's limits are the same |
| `Pricing.LimitCache.SelectEach` | B0CF2ADA-2F20-4296-A89C-81B8202DCD13-TPC-DS-Tool/DSGen-software-code-4.0.0/tools/pricing.c:115-130 | over any sequence of calls with ids past the rows, every answer is that of its own id |
| `Pricing.GenrandDecimal` | B0CF2ADA-2F20-4296-A89C-81B8202DCD13-TPC-DS-Tool/DSGen-software-code-4.0.0/tools/genrand.c:265-312 | a decimal from min to max that differs from the drawn residue by whole ranges, with the smaller precision, for one draw; the width w is the least for which the number is below 11 * 10^w |
| `Pricing.InPlaceOnCents` | B0CF2ADA-2F20-4296-A89C-81B8202DCD13-TPC-DS-Tool/DSGen-software-code-4.0.0/tools/pricing.c:149-265 | an operation over its own first operand on amounts in cents is the operation itself |
| `Pricing.SaleLaw` | B0CF2ADA-2F20-4296-A89C-81B8202DCD13-TPC-DS-Tool/DSGen-software-code-4.0.0/tools/pricing.c:140-199 | the amounts of a sale satisfy these laws for every draw |
| `Pricing.DrawSaleLaw` | B0CF2ADA-2F20-4296-A89C-81B8202DCD13-TPC-DS-Tool/DSGen-software-code-4.0.0/tools/pricing.c:140-189 | the eight numbers come one from each draw, in order, each uniform in its range |
| `Pricing.PricingRow.PriceSale` | B0CF2ADA-2F20-4296-A89C-81B8202DCD13-TPC-DS-Tool/DSGen-software-code-4.0.0/tools/pricing.c:140-200 | every money field of a sale: hundredths truncated toward zero for list, sales, coupon, shipping and tax, unit price times quantity for the extended ones, and exact sums and differences for the rest, from eight numbers each drawn in its range in order |
| `Pricing.ReturnLaw` | B0CF2ADA-2F20-4296-A89C-81B8202DCD13-TPC-DS-Tool/DSGen-software-code-4.0.0/tools/pricing.c:204-265 | the amounts of a return satisfy these laws for every draw |
| `Pricing.DrawReturnLaw` | B0CF2ADA-2F20-4296-A89C-81B8202DCD13-TPC-DS-Tool/DSGen-software-code-4.0.0/tools/pricing.c:219-259 | the four numbers come one from each draw, in order |
| `Pricing.PricingRow.PriceReturn` | B0CF2ADA-2F20-4296-A89C-81B8202DCD13-TPC-DS-Tool/DSGen-software-code-4.0.0/tools/pricing.c:204-266 | every money field of a return in the same way: shipping, tax, refunded cash and reversed charge as truncated hundredths, the rest exact, from four draws; the sale's prices stay |
| `Pricing.PricingRow.SetPricing` | B0CF2ADA-2F20-4296-A89C-81B8202DCD13-TPC-DS-Tool/DSGen-software-code-4.0.0/tools/pricing.c:115-267 | after any calls before it, a sale is priced within its own table's limits from its own stream, a return from its sale's prices, and a staged return changes nothing |
| `Pricing.SaleChain` | B0CF2ADA-2F20-4296-A89C-81B8202DCD13-TPC-DS-Tool/DSGen-software-code-4.0.0/tools/pricing.c:132-200 | wholesale <= list, 0 <= sales <= list, discount + sales = list extended, net paid + coupon = extended sales, tax at most 9 %, and the totals add up, for all limits with discount at most 1.00 |
| `Pricing.NegativePriceIff` | B0CF2ADA-2F20-4296-A89C-81B8202DCD13-TPC-DS-Tool/DSGen-software-code-4.0.0/tools/pricing.c:152-156 | a price is negative iff the discount passes 1.00 by enough to cost a whole cent |
| `Pricing.ReturnConserves` | B0CF2ADA-2F20-4296-A89C-81B8202DCD13-TPC-DS-Tool/DSGen-software-code-4.0.0/tools/pricing.c:201-266 | refund, reversed charge and store credit always sum to the net paid, are all non-negative iff it is, and the loss is shipping + tax + fee |
| `Pricing.ReturnOfSale` | B0CF2ADA-2F20-4296-A89C-81B8202DCD13-TPC-DS-Tool/DSGen-software-code-4.0.0/tools/pricing.c:201-266 | returning any part of a sale pays back no more than was charged and loses at least the fee |
| `Checksum.GetCCITT` | B0CF2ADA-2F20-4296-A89C-81B8202DCD13-TPC-DS-Tool/DSGen-software-code-4.0.0/tools/checksum.c:41-54 | eight division turns on crc xor the low byte shifted up; the sign extension of the character never matters |
| `Checksum.TurnDivides` | B0CF2ADA-2F20-4296-A89C-81B8202DCD13-TPC-DS-Tool/DSGen-software-code-4.0.0/tools/checksum.c:46-52 | a turn multiplies by x and takes off the generator iff a term of degree 16 appears |
| `Checksum.CrcIsRemainder` | B0CF2ADA-2F20-4296-A89C-81B8202DCD13-TPC-DS-Tool/DSGen-software-code-4.0.0/tools/checksum.c:41-54 | folding GetCCITT from 0 gives the remainder of m(x) x^16 by x^16 + x^12 + x^5 + 1, for every message |
| `Checksum.RemainderUnique` | B0CF2ADA-2F20-4296-A89C-81B8202DCD13-TPC-DS-Tool/DSGen-software-code-4.0.0/tools/checksum.c:41-54 | division by the generator leaves one remainder of degree below 16 |
| `Checksum.CrcIsLinear` | B0CF2ADA-2F20-4296-A89C-81B8202DCD13-TPC-DS-Tool/DSGen-software-code-4.0.0/tools/checksum.c:41-54 | on messages of one length the checksum is linear under exclusive or |
| `Checksum.TrailerFoldsToZeroIff` | B0CF2ADA-2F20-4296-A89C-81B8202DCD13-TPC-DS-Tool/DSGen-software-code-4.0.0/tools/checksum.c:41-54 | a message with two more characters folds to 0 iff they spell its checksum, high byte first |
| `Checksum.BurstChangesCrc` | B0CF2ADA-2F20-4296-A89C-81B8202DCD13-TPC-DS-Tool/DSGen-software-code-4.0.0/tools/checksum.c:41-54 | messages of one length that differ within 16 neighbouring bits have different checksums |
| `Checksum.WithoutLineEndsParts` | B0CF2ADA-2F20-4296-A89C-81B8202DCD13-TPC-DS-Tool/DSGen-software-code-4.0.0/tools/checksum.c:80-94 | every character but line feed and return is kept, in order |
| `Checksum.JoinedParts` | B0CF2ADA-2F20-4296-A89C-81B8202DCD13-TPC-DS-Tool/DSGen-software-code-4.0.0/tools/checksum.c:77-97 | the buffers are taken one after the other |
| `Checksum.Summarise` | B0CF2ADA-2F20-4296-A89C-81B8202DCD13-TPC-DS-Tool/DSGen-software-code-4.0.0/tools/checksum.c:77-97 | checksum without line ends and exact counts of line feeds, returns, delimiters and characters, however the file is cut into buffers |
| `DistCompiler.DistIndex.AddDistribution` | B0CF2ADA-2F20-4296-A89C-81B8202DCD13-TPC-DS-Tool/DSGen-software-code-4.0.0/tools/dcgram.c:116-170 | a name is added iff it is not empty and no stored name equals it; stored names stay unique iff the truncated name is new too |
| `DistCompiler.DistIndex.SetShape` | B0CF2ADA-2F20-4296-A89C-81B8202DCD13-TPC-DS-Tool/DSGen-software-code-4.0.0/tools/dcgram.c:190-268 | types, number of weights and aliases are set and the entry holds no rows |
| `DistCompiler.AppendValues` | B0CF2ADA-2F20-4296-A89C-81B8202DCD13-TPC-DS-Tool/DSGen-software-code-4.0.0/tools/dcgram.c:624-631 | the strings go to the end of the pool, each set gets the position of its own, and what was stored stays |
| `DistCompiler.DistIndex.ProcessAdd` | B0CF2ADA-2F20-4296-A89C-81B8202DCD13-TPC-DS-Tool/DSGen-software-code-4.0.0/tools/dcgram.c:469-473 | the entry holds one row more, older rows read as before, or the missing dimension is reported and nothing changes |
| `DistCompiler.NeverShortIff` | B0CF2ADA-2F20-4296-A89C-81B8202DCD13-TPC-DS-Tool/DSGen-software-code-4.0.0/tools/dcgram.c:602-633 | through the whole of a distribution, every copy stays inside the string buffer iff no row's strings take more than 1000 bytes |
| `DistCompiler.HoldsOneMore` | B0CF2ADA-2F20-4296-A89C-81B8202DCD13-TPC-DS-Tool/DSGen-software-code-4.0.0/tools/dcgram.c:620-633 | growing the pool never moves or changes an older row |
| `DistCompiler.PlacedKeeps` | B0CF2ADA-2F20-4296-A89C-81B8202DCD13-TPC-DS-Tool/DSGen-software-code-4.0.0/tools/dcomp.c:121-203 | writing changes only the offsets, each the place where the body starts |
| `DistCompiler.DistIndex.WriteIndex` | B0CF2ADA-2F20-4296-A89C-81B8202DCD13-TPC-DS-Tool/DSGen-software-code-4.0.0/tools/dcomp.c:113-232 | the file is the count, the bodies and the index, and each entry remembers where its body lies |
| `DistFormat.BigEndian` | B0CF2ADA-2F20-4296-A89C-81B8202DCD13-TPC-DS-Tool/DSGen-software-code-4.0.0/tools/dcomp.c:140-141 | an integer is written most significant byte first |
| `DistLayout.EntryLayout` | B0CF2ADA-2F20-4296-A89C-81B8202DCD13-TPC-DS-Tool/DSGen-software-code-4.0.0/tools/dcomp.c:207-231 | an index entry is 48 bytes: the name padded to 20, then index, offset, string space, length, weights, values and alias space |
| `DistLayout.BodyLayout` | B0CF2ADA-2F20-4296-A89C-81B8202DCD13-TPC-DS-Tool/DSGen-software-code-4.0.0/tools/dcomp.c:123-201 | a body is the types, the weight sets, the position sets, the aliases and the strings, each where the sizes before it end |
| `DistLayout.WeightLayout` | B0CF2ADA-2F20-4296-A89C-81B8202DCD13-TPC-DS-Tool/DSGen-software-code-4.0.0/tools/dcomp.c:147-159 | weight w of row j lies 4 (w length + j) bytes into the weight sets |
| `DistLayout.ValueLayout` | B0CF2ADA-2F20-4296-A89C-81B8202DCD13-TPC-DS-Tool/DSGen-software-code-4.0.0/tools/dcomp.c:161-173 | the position of string v of row j lies 4 (v length + j) bytes into the position sets |
| `DistLoader.CmpZeroIff` | B0CF2ADA-2F20-4296-A89C-81B8202DCD13-TPC-DS-Tool/DSGen-software-code-4.0.0/tools/dist.c:97-104 | di_compare finds equal exactly the names that agree up to case |
| `DistLoader.ImageIndex` | B0CF2ADA-2F20-4296-A89C-81B8202DCD13-TPC-DS-Tool/DSGen-software-code-4.0.0/tools/dist.c:153-224 | reading count and trailing index from a written file gives back every entry's header |
| `DistLoader.LoadRecovers` | B0CF2ADA-2F20-4296-A89C-81B8202DCD13-TPC-DS-Tool/DSGen-software-code-4.0.0/tools/dist.c:279-373 | loading a written body by its offset gives back types, value positions, aliases and strings, and the running totals of the weights |
| `DistLoader.FileRecovers` | B0CF2ADA-2F20-4296-A89C-81B8202DCD13-TPC-DS-Tool/DSGen-software-code-4.0.0/tools/dcomp.c:113-232 | in a written file the index and every body are recovered |
| `DistLookup.Qsort` | B0CF2ADA-2F20-4296-A89C-81B8202DCD13-TPC-DS-Tool/DSGen-software-code-4.0.0/tools/dist.c:225 | the index is rearranged into case-insensitive name order |
| `DistLookup.Bsearch` | B0CF2ADA-2F20-4296-A89C-81B8202DCD13-TPC-DS-Tool/DSGen-software-code-4.0.0/tools/dist.c:234-236 | a name is found iff the index has it |
| `DistLookup.LoadDist` | B0CF2ADA-2F20-4296-A89C-81B8202DCD13-TPC-DS-Tool/DSGen-software-code-4.0.0/tools/dist.c:279-373 | the reading loops compute what the file says at the header's offset, totals accumulated as they go |
| `DistLookup.WeightIsRecovered` | B0CF2ADA-2F20-4296-A89C-81B8202DCD13-TPC-DS-Tool/DSGen-software-code-4.0.0/tools/dist.c:510-515 | the difference of neighbouring totals is the weight, even when the totals wrap around |
| `DistLookup.DistCatalog.FindDist` | B0CF2ADA-2F20-4296-A89C-81B8202DCD13-TPC-DS-Tool/DSGen-software-code-4.0.0/tools/dist.c:120-244 | over any sequence of lookups the index stays the file's and sorted, and a found distribution is loaded and equals the file's; not found iff no entry has the name |
| `DistLookup.DistCatalog.DistMember` | B0CF2ADA-2F20-4296-A89C-81B8202DCD13-TPC-DS-Tool/DSGen-software-code-4.0.0/tools/dist.c:430-443 | the string at the named distribution's row and column, an overrun for a row outside, or an unknown name |
| `DistLookup.DistCatalog.DistWeight` | B0CF2ADA-2F20-4296-A89C-81B8202DCD13-TPC-DS-Tool/DSGen-software-code-4.0.0/tools/dist.c:496-523 | the weight at the named distribution's row |
| `DistRoundTrip.OnlyOneNamed` | B0CF2ADA-2F20-4296-A89C-81B8202DCD13-TPC-DS-Tool/DSGen-software-code-4.0.0/tools/dist.c:234-236 | with unique names a name leads to its own distribution and no other |
| `DistRoundTrip.MemberRecovered` | B0CF2ADA-2F20-4296-A89C-81B8202DCD13-TPC-DS-Tool/DSGen-software-code-4.0.0/tools/dcgram.c:620-633 | a loaded distribution gives back the strings that were added |
| `DistRoundTrip.WeightRecovered` | B0CF2ADA-2F20-4296-A89C-81B8202DCD13-TPC-DS-Tool/DSGen-software-code-4.0.0/tools/dist.c:322-325 | and the weights, although only their running totals are kept |
| `DistRoundTrip.LookUpMember` | B0CF2ADA-2F20-4296-A89C-81B8202DCD13-TPC-DS-Tool/DSGen-software-code-4.0.0/tools/dist.c:430-443 | in a compiled file every lookup, whatever came before, answers with the string added there |
| `DistRoundTrip.LookUpWeight` | B0CF2ADA-2F20-4296-A89C-81B8202DCD13-TPC-DS-Tool/DSGen-software-code-4.0.0/tools/dist.c:496-523 | and with the weight added there |
| `DistRoundTrip.PickCompiled` | B0CF2ADA-2F20-4296-A89C-81B8202DCD13-TPC-DS-Tool/DSGen-software-code-4.0.0/tools/dist.c:418-443 | a pick in a compiled file selects a row by exactly the weights that were added and answers with that row's string |
| `DistRoundTrip.CompileAll` | B0CF2ADA-2F20-4296-A89C-81B8202DCD13-TPC-DS-Tool/DSGen-software-code-4.0.0/tools/dcgram.c:285-301 | any list of uniquely named definitions compiles to entries that hold exactly their rows |
| `DistRoundTrip.BuiltIsReady` | B0CF2ADA-2F20-4296-A89C-81B8202DCD13-TPC-DS-Tool/DSGen-software-code-4.0.0/tools/dcgram.c:116-170 | the compiled entries have unique names that fit and hold the definitions' rows |
| `DistRoundTrip.PlacedOffset` | B0CF2ADA-2F20-4296-A89C-81B8202DCD13-TPC-DS-Tool/DSGen-software-code-4.0.0/tools/dcomp.c:121-203 | each body starts after the count and the bodies of the definitions before it |
| `DistRoundTrip.BuiltIsWritable` | B0CF2ADA-2F20-4296-A89C-81B8202DCD13-TPC-DS-Tool/DSGen-software-code-4.0.0/tools/dcomp.c:113-232 | if the definitions' numbers fit 32 bits and the file stays below 2 GB, nothing written loses a bit |
| `DistRoundTrip.CompileAndOpen` | B0CF2ADA-2F20-4296-A89C-81B8202DCD13-TPC-DS-Tool/DSGen-software-code-4.0.0/tools/dcomp.c:113-232 | definitions in, an opened file out that serves exactly them |
| `DistRoundTrip.AnswerAll` | B0CF2ADA-2F20-4296-A89C-81B8202DCD13-TPC-DS-Tool/DSGen-software-code-4.0.0/tools/dist.c:430-523 | any questions put one after the other to the opened file are all answered with what was added |
| `DistRoundTrip.CompileAndAnswer` | B0CF2ADA-2F20-4296-A89C-81B8202DCD13-TPC-DS-Tool/DSGen-software-code-4.0.0/tools/dcomp.c:113-232 | end to end: compile any definitions within the format's range, write, open, and look up any members and weights in any order: every answer is the string and the weight that were added |
| `DistRoundTrip.RoundTrip` | B0CF2ADA-2F20-4296-A89C-81B8202DCD13-TPC-DS-Tool/DSGen-software-code-4.0.0/tools/dcomp.c:113-232 | the same for any writable index, however it was built |
| `DistPick.RunningIsUpto` | B0CF2ADA-2F20-4296-A89C-81B8202DCD13-TPC-DS-Tool/DSGen-software-code-4.0.0/tools/dist.c:322-326 | without overflow the running totals are the partial sums |
| `DistPick.SelectsOne` | B0CF2ADA-2F20-4296-A89C-81B8202DCD13-TPC-DS-Tool/DSGen-software-code-4.0.0/tools/dist.c:420-424 | no level selects two entries, and none an entry of weight zero |
| `DistPick.WeightManyLevels` | B0CF2ADA-2F20-4296-A89C-81B8202DCD13-TPC-DS-Tool/DSGen-software-code-4.0.0/tools/dist.c:418-424 | of the levels 1 .. maximum exactly weight(i) select entry i |
| `DistPick.Search` | B0CF2ADA-2F20-4296-A89C-81B8202DCD13-TPC-DS-Tool/DSGen-software-code-4.0.0/tools/dist.c:422-424 | the search stops on the entry whose step the level lies on, inside the distribution |
| `DistPick.PickIndex` | B0CF2ADA-2F20-4296-A89C-81B8202DCD13-TPC-DS-Tool/DSGen-software-code-4.0.0/tools/dist.c:418-424 | the level lies from 1 to the total and differs from the draw by whole totals, and the row picked is the one it selects |
| `DistPick.PickDistribution` | B0CF2ADA-2F20-4296-A89C-81B8202DCD13-TPC-DS-Tool/DSGen-software-code-4.0.0/tools/dist.c:418-429 | a pick is one uniform draw, and returns the row it selects and that row's string |

## Left out

- Exponential draws, `next_random_float` and the float conversions of decimals: floating point.
- Decimals.DecimalOp: does not model `flags` and the float rounding of OP_DIV, which is exact for the percentages the pricing code divides.
- Pricing.PricingRow.PriceSale: does not model the display width of the amounts, which nothing printed depends on.
- Pricing.PricingRow.SetPricing: does not model the strings the limits are parsed from (they are `x.xx` constants); a table without limits, fatal in the code, is a returned refusal.
- Builders that call `row_stop` themselves, and tables with a grandchild in the parallel theorem: `main` skips only parent and child.
- Rows.RunBuilder: does not model static variables that builders keep between rows, nor draws from streams of other tables.
- Rows.GenTbl: does not model `resetCountCount`, progress output, or tables with a grandchild.
- Rows.ValidateGeneric: does not model the UPDATE and pass-through branches.
- Parallel.Generate: does not model the tests of FL_NOP, FL_CHILD and the source tables; the list of jobs is a parameter.
- Row counts, table definitions, limits, stream tables and distribution contents: generated headers, taken as parameters. `streams.h`, `tables.h` and `columns.h` are not part of this model.
- Calendar.DateVar.JtoDt: does not model 32-bit overflow of `4000 * (l + 1)` and `4 * l`, which `long` holds for every `int` source on 64-bit platforms.
- `makeKeyPermutation`: the same loop as `makePermutation` over 64-bit keys.
- DayOfWeek.DowCache.SetDow: does not model negative years, nor the years for which the source reads `doomsday[]` out of bounds.
- DayOfWeek.DowCache.ChangeYear: the same years.
- Inventory.RowCounts.SetUpdateScaling: does not model `dateScaling`, whose values are a parameter.
- The static cache of `getUpdateDate` (its index is reset on every call) and `getUpdateBase`.
- Parsing of distribution sources and `#include`: rows arrive as values and weights.
- DistCompiler.DistIndex.ProcessAdd: does not model failed allocations or what a copy past the buffer overwrites; the pool itself is unbounded, and `DistCompiler.NeverShortIff` says when the buffer holds it.
- DistCompiler.DistIndex.WriteIndex: does not model the generated header file or write errors.
- DistLookup.LoadDist: does not model short reads; the file holds the whole body, as every written file does.
- DistLookup.DistCatalog.DistMember: does not model the conversion of INT, DATE and DECIMAL values; the result is the string they are read from.
- DistLookup.Qsort: stands for the C library's sort, and `DistLookup.Bsearch` for its search.
- DistPick.PickDistribution: does not model the conversion of the picked value by its type.
- DistRoundTrip.RoundTrip: asks that every number written fits 32 bits, because the format has no more; `DistRoundTrip.CompileAndAnswer` derives it from the definitions.
- Checksum.Summarise: does not model read errors, on which the loop of `main` never ends.
- The remaining table builders, addresses, text generation, command-line options and printing: they add no further structure.
