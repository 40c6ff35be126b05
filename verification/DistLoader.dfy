/** dist.c: finding a distribution in the file by name, loading it, and reading it. */
module DistLoader {
  import opened CInt
  import opened DistFormat
  import opened DistCompiler

  // ---------------------------------------------------------------- strcasecmp

  /** `strcasecmp`: negative, zero or positive. */
  function StrCaseCmp(a: seq<Byte>, b: seq<Byte>): int {
    if a == [] then (if b == [] then 0 else -1)
    else if b == [] then 1
    else if Lower(a[0]) != Lower(b[0]) then Lower(a[0]) - Lower(b[0])
    else StrCaseCmp(a[1..], b[1..])
  }

  lemma {:induction false} CmpZeroIff(a: seq<Byte>, b: seq<Byte>)
    ensures StrCaseCmp(a, b) == 0 <==> SameName(a, b)
  {
    if a != [] && b != [] {
      CmpZeroIff(a[1..], b[1..]);
      assert Fold(a)[1..] == Fold(a[1..]) && Fold(b)[1..] == Fold(b[1..]);
      assert Fold(a) == [Lower(a[0])] + Fold(a[1..]) && Fold(b) == [Lower(b[0])] + Fold(b[1..]);
      if Lower(a[0]) != Lower(b[0]) {
        assert Fold(a)[0] != Fold(b)[0];
      }
    } else {
      assert |Fold(a)| == |a| && |Fold(b)| == |b|;
    }
  }

  lemma {:induction false} CmpMirror(a: seq<Byte>, b: seq<Byte>)
    ensures StrCaseCmp(a, b) < 0 <==> StrCaseCmp(b, a) > 0
    ensures StrCaseCmp(a, b) == 0 <==> StrCaseCmp(b, a) == 0
  {
    if a == [] || b == [] {
    } else {
      CmpMirror(a[1..], b[1..]);
    }
  }

  lemma {:induction false} CmpTransitive(a: seq<Byte>, b: seq<Byte>, c: seq<Byte>)
    requires StrCaseCmp(a, b) <= 0 && StrCaseCmp(b, c) <= 0
    ensures StrCaseCmp(a, c) <= 0
    ensures StrCaseCmp(a, b) < 0 || StrCaseCmp(b, c) < 0 ==> StrCaseCmp(a, c) < 0
  {
    if a == [] || b == [] || c == [] {
    } else if Lower(a[0]) == Lower(b[0]) == Lower(c[0]) {
      CmpTransitive(a[1..], b[1..], c[1..]);
    }
  }

  // ---------------------------------------------------------------- the index

  /** The part of `d_idx_t` kept in the file. */
  datatype Header = Header(name: seq<Byte>, index: int, offset: int, strSpace: int, length: int,
                           wWidth: int, vWidth: int, nameSpace: int)

  function HeaderOf(e: Entry): Header {
    Header(e.name, e.index, e.offset, e.strSpace, e.length, e.wWidth, e.vWidth, e.nameSpace)
  }

  function ReadEntry(f: seq<Byte>, pos: nat): Header
    requires pos + IDX_SIZE <= |f|
  {
    Header(Text(f[pos..pos + D_NAME_LEN]), IntAt(f, pos + 20), IntAt(f, pos + 24), IntAt(f, pos + 28),
           IntAt(f, pos + 32), IntAt(f, pos + 36), IntAt(f, pos + 40), IntAt(f, pos + 44))
  }

  function ReadEntries(f: seq<Byte>, pos: nat, n: nat): (hs: seq<Header>)
    requires pos + IDX_SIZE * n <= |f|
    ensures |hs| == n
    decreases f, pos, n
  {
    if n == 0 then [] else ReadEntries(f, pos, n - 1) + [ReadEntry(f, pos + IDX_SIZE * (n - 1))]
  }

  predicate HasIndex(f: seq<Byte>) {
    |f| >= 4 && 0 <= IDX_SIZE * IntAt(f, 0) <= |f|
  }

  /** The index: as many entries as the count at the start says, at the end of the file. */
  function Index(f: seq<Byte>): seq<Header>
    requires HasIndex(f)
  {
    ReadEntries(f, |f| - IDX_SIZE * IntAt(f, 0), IntAt(f, 0))
  }

  // ---------------------------------------------------------------- a loaded distribution

  /** `dist_t` in memory: weights are running totals. */
  datatype Loaded = Loaded(typeVector: seq<int>, weightSets: seq<seq<int>>, maximums: seq<int>,
                           valueSets: seq<seq<int>>, names: seq<Byte>, strings: seq<Byte>)

  function LastOf(xs: seq<int>): int {
    if xs == [] then 0 else xs[|xs| - 1]
  }

  /** Running totals in 32-bit `int`. */
  function Running(ws: seq<int>): (r: seq<int>)
    ensures |r| == |ws|
  {
    if ws == [] then []
    else
      var front := Running(ws[..|ws| - 1]);
      front + [Int32(LastOf(front) + ws[|ws| - 1])]
  }

  function RunningAll(t: seq<seq<int>>): (r: seq<seq<int>>)
    ensures |r| == |t|
  {
    if t == [] then [] else RunningAll(t[..|t| - 1]) + [Running(t[|t| - 1])]
  }

  lemma {:induction false} RunningAllAt(t: seq<seq<int>>, k: nat)
    requires k < |t|
    ensures RunningAll(t)[k] == Running(t[k])
  {
    if k == |t| - 1 {
    } else {
      RunningAllAt(t[..|t| - 1], k);
    }
  }

  function Lasts(t: seq<seq<int>>): (r: seq<int>)
    ensures |r| == |t|
  {
    if t == [] then [] else Lasts(t[..|t| - 1]) + [LastOf(t[|t| - 1])]
  }

  lemma {:induction false} LastsAt(t: seq<seq<int>>, k: nat)
    requires k < |t|
    ensures Lasts(t)[k] == LastOf(t[k])
  {
    if k == |t| - 1 {
    } else {
      LastsAt(t[..|t| - 1], k);
    }
  }

  predicate SizesOk(h: Header) {
    0 <= h.offset && 0 <= h.vWidth && 0 <= h.wWidth && 0 <= h.length && 0 <= h.nameSpace && 0 <= h.strSpace
  }

  // Where the parts of a body start.

  function WeightsAt(h: Header): (pos: nat)
    requires SizesOk(h)
  {
    h.offset + 4 * h.vWidth
  }

  function ValuesAt(h: Header): (pos: nat)
    requires SizesOk(h)
  {
    WeightsAt(h) + TableSize(h.wWidth, h.length)
  }

  function NamesAt(h: Header): (pos: nat)
    requires SizesOk(h)
  {
    ValuesAt(h) + TableSize(h.vWidth, h.length)
  }

  predicate BodyFits(f: seq<Byte>, h: Header) {
    SizesOk(h) && NamesAt(h) + h.nameSpace + h.strSpace <= |f|
  }

  function Assembled(typeVector: seq<int>, weights: seq<seq<int>>, valueSets: seq<seq<int>>,
                     names: seq<Byte>, strings: seq<Byte>): Loaded {
    Loaded(typeVector, RunningAll(weights), Lasts(RunningAll(weights)), valueSets, names, strings)
  }

  function LoadedOf(f: seq<Byte>, h: Header): Loaded
    requires BodyFits(f, h)
  {
    var strings := NamesAt(h) + h.nameSpace;
    Assembled(Ints(f, h.offset, h.vWidth), Table(f, WeightsAt(h), h.wWidth, h.length),
              Table(f, ValuesAt(h), h.vWidth, h.length), f[NamesAt(h)..strings], f[strings..strings + h.strSpace])
  }

  ghost predicate Readable(f: seq<Byte>) {
    HasIndex(f) && forall k :: 0 <= k < |Index(f)| ==> BodyFits(f, Index(f)[k])
  }

  // ---------------------------------------------------------------- the file written is the file read

  lemma {:induction false} SplitLast(f: seq<Byte>, pos: nat, s: seq<Byte>, a: seq<Byte>, b: seq<Byte>)
    requires s == a + b && At(f, pos, s)
    ensures At(f, pos, a) && At(f, pos + |a|, b)
  {
    AtSplit(f, pos, a, b);
  }

  lemma {:induction false} BodyWithin(f: seq<Byte>, pos: nat, es: seq<Entry>, k: nat)
    requires At(f, pos, Bodies(es)) && k < |es|
    ensures At(f, pos + |Bodies(es[..k])|, BodyBytes(es[k].dist))
  {
    var front, body := es[..|es| - 1], BodyBytes(es[|es| - 1].dist);
    SplitLast(f, pos, Bodies(es), Bodies(front), body);
    if k == |es| - 1 {
    } else {
      BodyWithin(f, pos, front, k);
      assert front[..k] == es[..k];
    }
  }

  predicate Int32Fits(e: Entry) {
    && AllInt32(EntryNumbers(e)) && AllInt32(e.dist.typeVector)
    && IsTable(e.dist.weightSets, e.wWidth, e.length) && IsTable(e.dist.valueSets, e.vWidth, e.length)
  }

  /** What loading makes of a compiled distribution. */
  function LoadedFrom(d: Dist): Loaded {
    Assembled(d.typeVector, d.weightSets, d.valueSets, d.names, d.strings)
  }

  lemma {:induction false} AtFive(f: seq<Byte>, pos: nat, a: seq<Byte>, b: seq<Byte>, c: seq<Byte>,
                                  d: seq<Byte>, e: seq<Byte>)
    requires At(f, pos, a + (b + (c + (d + e))))
    ensures At(f, pos, a) && At(f, pos + |a|, b) && At(f, pos + |a| + |b|, c)
    ensures At(f, pos + |a| + |b| + |c|, d) && At(f, pos + |a| + |b| + |c| + |d|, e)
  {
    AtSplit(f, pos, a, b + (c + (d + e)));
    AtSplit(f, pos + |a|, b, c + (d + e));
    AtSplit(f, pos + |a| + |b|, c, d + e);
    AtSplit(f, pos + |a| + |b| + |c|, d, e);
  }

  lemma {:induction false} TableBytesSize(t: seq<seq<int>>, n: nat, length: nat)
    requires IsTable(t, n, length)
    ensures |TableBytes(t)| == TableSize(n, length)
    decreases n
  {
    if n == 0 {
    } else {
      TableBytesSize(t[..n - 1], n - 1, length);
    }
  }

  /** The file holds the five parts of `d` where `h` says. */
  predicate PartsAt(f: seq<Byte>, h: Header, d: Dist) {
    && SizesOk(h) && At(f, h.offset, IntsBytes(d.typeVector))
    && At(f, WeightsAt(h), TableBytes(d.weightSets)) && At(f, ValuesAt(h), TableBytes(d.valueSets))
    && At(f, NamesAt(h), d.names) && At(f, NamesAt(h) + h.nameSpace, d.strings)
  }

  predicate BodyAt(f: seq<Byte>, e: Entry) {
    e.offset >= 0 && At(f, e.offset, BodyBytes(e.dist))
  }

  /** The five parts of a body lie where the loader looks for them. */
  lemma {:induction false} BodyParts(f: seq<Byte>, e: Entry, d: Dist, h: Header)
    requires d == e.dist && h == HeaderOf(e)
    requires Shaped(e) && Int32Fits(e) && BodyAt(f, e)
    ensures PartsAt(f, h, d)
  {
    TableBytesSize(d.weightSets, e.wWidth, e.length);
    TableBytesSize(d.valueSets, e.vWidth, e.length);
    AtFive(f, e.offset, IntsBytes(d.typeVector), TableBytes(d.weightSets), TableBytes(d.valueSets), d.names, d.strings);
  }

  /** The body loads as the distribution that was compiled. */
  ghost predicate Recovers(f: seq<Byte>, h: Header, d: Dist) {
    BodyFits(f, h) && LoadedOf(f, h) == LoadedFrom(d)
  }

  lemma {:induction false} NumbersRead(f: seq<Byte>, h: Header, d: Dist)
    requires PartsAt(f, h, d) && AllInt32(d.typeVector) && |d.typeVector| == h.vWidth
    requires IsTable(d.weightSets, h.wWidth, h.length) && IsTable(d.valueSets, h.vWidth, h.length)
    ensures WeightsAt(h) <= |f| && Ints(f, h.offset, h.vWidth) == d.typeVector
    ensures ValuesAt(h) <= |f| && Table(f, WeightsAt(h), h.wWidth, h.length) == d.weightSets
    ensures NamesAt(h) <= |f| && Table(f, ValuesAt(h), h.vWidth, h.length) == d.valueSets
  {
    IntsRead(f, h.offset, d.typeVector);
    TableRead(f, WeightsAt(h), d.weightSets, h.wWidth, h.length);
    TableRead(f, ValuesAt(h), d.valueSets, h.vWidth, h.length);
  }

  lemma {:induction false} TextsRead(f: seq<Byte>, h: Header, d: Dist, names: nat)
    requires SizesOk(h) && h.nameSpace == |d.names| && h.strSpace == |d.strings|
    requires At(f, names, d.names) && At(f, names + h.nameSpace, d.strings)
    ensures names + h.nameSpace + h.strSpace <= |f| && f[names..names + h.nameSpace] == d.names
    ensures f[names + h.nameSpace..names + h.nameSpace + h.strSpace] == d.strings
  {
    AtSlice(f, names, d.names, h.nameSpace);
    AtSlice(f, names + h.nameSpace, d.strings, h.strSpace);
  }

  lemma {:induction false} AssembleParts(f: seq<Byte>, h: Header, d: Dist)
    requires BodyFits(f, h)
    requires Ints(f, h.offset, h.vWidth) == d.typeVector
    requires Table(f, WeightsAt(h), h.wWidth, h.length) == d.weightSets
    requires Table(f, ValuesAt(h), h.vWidth, h.length) == d.valueSets
    requires f[NamesAt(h)..NamesAt(h) + h.nameSpace] == d.names
    requires f[NamesAt(h) + h.nameSpace..NamesAt(h) + h.nameSpace + h.strSpace] == d.strings
    ensures LoadedOf(f, h) == LoadedFrom(d)
  {
  }

  lemma {:induction false} PartsRecover(f: seq<Byte>, h: Header, d: Dist)
    requires PartsAt(f, h, d) && AllInt32(d.typeVector) && |d.typeVector| == h.vWidth
    requires IsTable(d.weightSets, h.wWidth, h.length) && IsTable(d.valueSets, h.vWidth, h.length)
    requires h.nameSpace == |d.names| && h.strSpace == |d.strings|
    ensures Recovers(f, h, d)
  {
    NumbersRead(f, h, d);
    TextsRead(f, h, d, NamesAt(h));
    AssembleParts(f, h, d);
  }

  /** A body in the file loads as the distribution that was written. */
  lemma {:induction false} LoadRecovers(f: seq<Byte>, e: Entry, d: Dist, h: Header)
    requires d == e.dist && h == HeaderOf(e)
    requires Shaped(e) && Int32Fits(e) && BodyAt(f, e)
    ensures Recovers(f, h, d)
  {
    BodyParts(f, e, d, h);
    PartsRecover(f, h, d);
  }

  lemma {:induction false} EntrySize(e: Entry)
    requires |e.name| <= D_NAME_LEN
    ensures |EntryBytes(e)| == IDX_SIZE
  {
  }

  lemma {:induction false} TextOfText(t: seq<Byte>)
    requires IsText(t)
    ensures Text(t) == t
  {
    if t == [] {
    } else {
      TextOfText(t[1..]);
    }
  }

  lemma {:induction false} PaddedRead(name: seq<Byte>)
    requires IsText(name) && |name| <= D_NAME_LEN
    ensures Text(Padded(name)) == name
  {
    if |name| == D_NAME_LEN {
      assert Padded(name) == name;
      TextOfText(name);
    } else {
      var z := Zeros(D_NAME_LEN - |name|);
      assert name + z == name + [0] + z[1..];
      TextOfTerminated(name, z[1..]);
    }
  }

  lemma {:induction false} IntsElement(f: seq<Byte>, pos: nat, n: nat, k: nat)
    requires pos + 4 * n <= |f| && k < n
    ensures Ints(f, pos, n)[k] == IntAt(f, pos + 4 * k)
  {
    if k == n - 1 {
    } else {
      IntsElement(f, pos, n - 1, k);
    }
  }

  lemma {:induction false} SevenRead(f: seq<Byte>, pos: nat, xs: seq<int>)
    requires pos + 28 <= |f| && |xs| == 7 && Ints(f, pos, 7) == xs
    ensures IntAt(f, pos) == xs[0] && IntAt(f, pos + 4) == xs[1]
    ensures IntAt(f, pos + 8) == xs[2] && IntAt(f, pos + 12) == xs[3]
    ensures IntAt(f, pos + 16) == xs[4] && IntAt(f, pos + 20) == xs[5] && IntAt(f, pos + 24) == xs[6]
  {
    IntsElement(f, pos, 7, 0);
    IntsElement(f, pos, 7, 1);
    IntsElement(f, pos, 7, 2);
    IntsElement(f, pos, 7, 3);
    IntsElement(f, pos, 7, 4);
    IntsElement(f, pos, 7, 5);
    IntsElement(f, pos, 7, 6);
  }

  lemma {:induction false} EntryRead(f: seq<Byte>, pos: nat, e: Entry)
    requires At(f, pos, EntryBytes(e)) && IsText(e.name) && |e.name| <= D_NAME_LEN && AllInt32(EntryNumbers(e))
    ensures pos + IDX_SIZE <= |f| && ReadEntry(f, pos) == HeaderOf(e)
  {
    AtSplit(f, pos, Padded(e.name), IntsBytes(EntryNumbers(e)));
    AtSlice(f, pos, Padded(e.name), D_NAME_LEN);
    PaddedRead(e.name);
    IntsRead(f, pos + D_NAME_LEN, EntryNumbers(e));
    SevenRead(f, pos + D_NAME_LEN, EntryNumbers(e));
  }

  function HeadersOf(es: seq<Entry>): (hs: seq<Header>)
    ensures |hs| == |es| && forall k :: 0 <= k < |es| ==> hs[k] == HeaderOf(es[k])
  {
    if es == [] then [] else HeadersOf(es[..|es| - 1]) + [HeaderOf(es[|es| - 1])]
  }

  predicate HeaderFits(e: Entry) {
    IsText(e.name) && |e.name| <= D_NAME_LEN && AllInt32(EntryNumbers(e))
  }

  ghost predicate AllHeadersFit(es: seq<Entry>) {
    forall k :: 0 <= k < |es| ==> HeaderFits(es[k])
  }

  lemma {:induction false} EntriesStep(f: seq<Byte>, pos: nat, n: nat, hs: seq<Header>, h: Header)
    requires pos + IDX_SIZE * (n + 1) <= |f|
    requires ReadEntries(f, pos, n) == hs && ReadEntry(f, pos + IDX_SIZE * n) == h
    ensures ReadEntries(f, pos, n + 1) == hs + [h]
  {
  }

  lemma {:induction false} EntryAtEnd(f: seq<Byte>, pos: nat, e: Entry, entry: seq<Byte>)
    requires entry == EntryBytes(e) && At(f, pos, entry) && HeaderFits(e)
    ensures |entry| == IDX_SIZE && pos + IDX_SIZE <= |f| && ReadEntry(f, pos) == HeaderOf(e)
  {
    EntrySize(e);
    EntryRead(f, pos, e);
  }

  lemma {:induction false} EntriesRead(f: seq<Byte>, pos: nat, es: seq<Entry>, index: seq<Byte>)
    requires index == IndexBytes(es) && At(f, pos, index) && AllHeadersFit(es)
    ensures |index| == IDX_SIZE * |es| && ReadEntries(f, pos, |es|) == HeadersOf(es)
    decreases |es|
  {
    if es == [] {
    } else {
      var front, e := es[..|es| - 1], es[|es| - 1];
      var index', entry := IndexBytes(front), EntryBytes(e);
      SplitLast(f, pos, index, index', entry);
      EntriesRead(f, pos, front, index');
      EntryAtEnd(f, pos + IDX_SIZE * |front|, e, entry);
      EntriesStep(f, pos, |front|, HeadersOf(front), HeaderOf(e));
    }
  }

  lemma {:induction false} IndexIs(f: seq<Byte>, n: nat, pos: nat, hs: seq<Header>)
    requires |f| >= 4 && IntAt(f, 0) == n && pos + IDX_SIZE * n == |f| && ReadEntries(f, pos, n) == hs
    ensures HasIndex(f) && Index(f) == hs
  {
  }

  lemma {:induction false} ThreeParts(f: seq<Byte>, a: seq<Byte>, b: seq<Byte>, c: seq<Byte>)
    requires f == a + b + c
    ensures At(f, 0, a) && At(f, |a|, b) && At(f, |a| + |b|, c)
  {
  }

  lemma {:induction false} IndexOfParts(f: seq<Byte>, es: seq<Entry>, count: seq<Byte>, bodies: seq<Byte>,
                                        index: seq<Byte>)
    requires f == count + bodies + index && AllHeadersFit(es) && IsInt32(|es|)
    requires count == IntBytes(|es|) && index == IndexBytes(es)
    ensures HasIndex(f) && Index(f) == HeadersOf(es)
  {
    ThreeParts(f, count, bodies, index);
    IntRead(f, 0, |es|);
    EntriesRead(f, 4 + |bodies|, es, index);
    IndexIs(f, |es|, 4 + |bodies|, HeadersOf(es));
  }

  /** The index at the end of a written file is the entries' headers. */
  lemma {:induction false} ImageIndex(f: seq<Byte>, es: seq<Entry>)
    requires f == Image(es) && AllHeadersFit(es) && IsInt32(|es|)
    ensures HasIndex(f) && Index(f) == HeadersOf(es)
  {
    IndexOfParts(f, es, IntBytes(|es|), Bodies(es), IndexBytes(es));
  }

  ghost predicate Writable(es: seq<Entry>) {
    && AllHeadersFit(es) && IsInt32(|es|)
    && forall k :: 0 <= k < |es| ==> Shaped(es[k]) && Int32Fits(es[k])
  }

  lemma {:induction false} PlacedBodyAt(f: seq<Byte>, es: seq<Entry>, k: nat, e: Entry)
    requires At(f, 4, Bodies(es)) && IsPlaced(es, k, e)
    ensures BodyAt(f, e)
  {
    BodyWithin(f, 4, es, k);
  }

  lemma {:induction false} PlacedBodiesAt(f: seq<Byte>, es: seq<Entry>, ps: seq<Entry>, bodies: seq<Byte>)
    requires bodies == Bodies(es) && At(f, 4, bodies) && |ps| == |es|
    requires forall k :: 0 <= k < |es| ==> IsPlaced(es, k, ps[k])
    ensures forall k :: 0 <= k < |ps| ==> BodyAt(f, ps[k])
  {
    forall k | 0 <= k < |ps|
      ensures BodyAt(f, ps[k])
    {
      PlacedBodyAt(f, es, k, ps[k]);
    }
  }

  /** Each body is where its entry says. */
  lemma {:induction false} ImageBodies(f: seq<Byte>, es: seq<Entry>, ps: seq<Entry>)
    requires ps == Placed(es) && f == Image(ps)
    ensures forall k :: 0 <= k < |ps| ==> BodyAt(f, ps[k])
  {
    PlacedKeeps(es);
    ThreeParts(f, IntBytes(|ps|), Bodies(ps), IndexBytes(ps));
    PlacedBodiesAt(f, es, ps, Bodies(ps));
  }

  lemma {:induction false} BodiesRecover(f: seq<Byte>, ps: seq<Entry>)
    requires forall k :: 0 <= k < |ps| ==> BodyAt(f, ps[k])
    requires forall k :: 0 <= k < |ps| ==> Shaped(ps[k]) && Int32Fits(ps[k])
    ensures forall k :: 0 <= k < |ps| ==> Recovers(f, HeaderOf(ps[k]), ps[k].dist)
  {
    forall k | 0 <= k < |ps|
      ensures Recovers(f, HeaderOf(ps[k]), ps[k].dist)
    {
      LoadRecovers(f, ps[k], ps[k].dist, HeaderOf(ps[k]));
    }
  }

  /** A written file can be read, and every distribution in it loads as it was compiled. */
  lemma {:induction false} FileRecovers(f: seq<Byte>, es: seq<Entry>, ps: seq<Entry>)
    requires ps == Placed(es) && f == Image(ps) && Writable(ps)
    ensures HasIndex(f) && Index(f) == HeadersOf(ps)
    ensures forall k :: 0 <= k < |ps| ==> Recovers(f, HeaderOf(ps[k]), ps[k].dist)
  {
    ImageIndex(f, ps);
    ImageBodies(f, es, ps);
    BodiesRecover(f, ps);
  }

  lemma {:induction false} RecoveredIsReadable(f: seq<Byte>, ps: seq<Entry>)
    requires HasIndex(f) && Index(f) == HeadersOf(ps)
    requires forall k :: 0 <= k < |ps| ==> Recovers(f, HeaderOf(ps[k]), ps[k].dist)
    ensures Readable(f)
  {
    forall k | 0 <= k < |Index(f)|
      ensures BodyFits(f, Index(f)[k])
    {
      assert Recovers(f, HeaderOf(ps[k]), ps[k].dist);
    }
  }
}
