/** The chunk skewness tool: how many distinct chunks occur exactly N
    times in the traced files whose name ends in "dmtcp", and how often the
    trace's all-zero and all-one chunks occur. */
module RefcountSkewness {
  import opened Common
  import opened Text
  import opened ChunkKeys

  // ---------------------------------------------------------------------
  // The chunk index
  // ---------------------------------------------------------------------

  /** How often a key has been seen; 0 for a key not in the index. */
  function Get(m: map<Key, nat>, k: Key): nat
  {
    if k in m then m[k] else 0
  }

  /** The chunk index after the keys `ks` are counted on top of `m`: an
      old key's count goes up by one, a new key starts at one. */
  function Tally(m: map<Key, nat>, ks: seq<Key>): map<Key, nat>
  {
    if ks == [] then m
    else
      var t := Tally(m, ks[..|ks| - 1]);
      var k := ks[|ks| - 1];
      t[k := if k in t then t[k] + 1 else 1]
  }

  /** Counting keys one after the other: the keys of the index are the old
      ones and the counted ones, and every key's count goes up by the
      number of times it was counted. */
  lemma {:induction false} TallyCounts(m: map<Key, nat>, ks: seq<Key>)
    ensures forall k :: k in Tally(m, ks) <==> k in m || k in ks
    ensures forall k :: Get(Tally(m, ks), k) == Get(m, k) + multiset(ks)[k]
  {
    if ks != [] {
      var ks' := ks[..|ks| - 1];
      TallyCounts(m, ks');
      assert ks == ks' + [ks[|ks| - 1]];
    }
  }

  /** Counting two runs of keys is counting the first, then the second. */
  lemma {:induction false} TallyAppend(m: map<Key, nat>, a: seq<Key>, b: seq<Key>)
    ensures Tally(m, a + b) == Tally(Tally(m, a), b)
    decreases |b|
  {
    if b == [] {
      assert a + b == a;
    } else {
      assert (a + b)[..|a + b| - 1] == a + b[..|b| - 1];
      TallyAppend(m, a, b[..|b| - 1]);
    }
  }

  /** Counting keys leaves every count at least one if it was. */
  lemma {:induction false} TallyPositive(m: map<Key, nat>, ks: seq<Key>)
    requires forall k :: k in m ==> m[k] >= 1
    ensures forall k :: k in Tally(m, ks) ==> Tally(m, ks)[k] >= 1
  {
    if ks != [] {
      TallyPositive(m, ks[..|ks| - 1]);
    }
  }

  /** The sum of the counts of an index. */
  ghost function Total(m: map<Key, nat>): nat
    decreases |m|
  {
    if m == map[] then 0
    else
      var k :| k in m;
      m[k] + Total(m - {k})
  }

  /** The sum of the counts is any count plus the sum of the others. */
  lemma {:induction false} TotalRemove(m: map<Key, nat>, k: Key)
    requires k in m
    ensures Total(m) == m[k] + Total(m - {k})
    decreases |m|
  {
    var j :| j in m && Total(m) == m[j] + Total(m - {j});
    if j != k {
      assert |m - {j}| < |m| by {
        assert (m - {j}).Keys < m.Keys;
      }
      TotalRemove(m - {j}, k);
      TotalRemove(m - {k}, j);
      assert m - {j} - {k} == m - {k} - {j};
    }
  }

  /** Counting keys raises the sum of the counts by the number of keys. */
  lemma {:induction false} TallyTotal(m: map<Key, nat>, ks: seq<Key>)
    ensures Total(Tally(m, ks)) == Total(m) + |ks|
  {
    if ks != [] {
      var t := Tally(m, ks[..|ks| - 1]);
      var k := ks[|ks| - 1];
      TallyTotal(m, ks[..|ks| - 1]);
      var next := t[k := if k in t then t[k] + 1 else 1];
      TotalRemove(next, k);
      assert next - {k} == t - {k};
      if k in t {
        TotalRemove(t, k);
      } else {
        assert t - {k} == t;
      }
    }
  }

  // ---------------------------------------------------------------------
  // Results
  // ---------------------------------------------------------------------

  /** The counts of the all-zero and all-one chunks, and which of them, if
      either, is the most used chunk. The counters are `uint64` in Go. */
  class Results {
    var numChunksZero: nat
    var numChunksOne: nat
    var mostUsedChunk: string

    constructor ()
      ensures numChunksZero == 0 && numChunksOne == 0 && mostUsedChunk == ""
    {
      numChunksZero := 0;
      numChunksOne := 0;
      mostUsedChunk := "";
    }

    /** `Results.Add`: the other results' counters are added to these;
        the most used chunk is left alone. */
    method Add(that: Results)
      modifies this
      ensures numChunksZero == old(numChunksZero) + old(that.numChunksZero)
      ensures numChunksOne == old(numChunksOne) + old(that.numChunksOne)
      ensures mostUsedChunk == old(mostUsedChunk)
    {
      numChunksZero := numChunksZero + that.numChunksZero;
      numChunksOne := numChunksOne + that.numChunksOne;
    }
  }

  // ---------------------------------------------------------------------
  // processFile
  // ---------------------------------------------------------------------

  /** How many of the keys `ks` are the all-zero chunk `zero`. */
  function ZeroCount(ks: seq<Key>, zero: Bytes): nat
  {
    multiset(ks)[zero]
  }

  /** How many of the keys `ks` are the all-one chunk `one` and not also
      the all-zero chunk: the zero check comes first. */
  function OneCount(ks: seq<Key>, zero: Bytes, one: Bytes): nat
  {
    if one == zero then 0 else multiset(ks)[one]
  }

  /** `processFile`, with the entries the trace reader yields for the file
      and the decoded all-zero and all-one chunks of the file's chunking:
      every chunk of a "dmtcp" entry is counted under the key the buffer
      then holds, and the special chunks among them are counted. */
  method ProcessFile(entries: seq<FileEntry>, chunkIndex: map<Key, nat>, zeroChunk: Bytes, oneChunk: Bytes)
    returns (index: map<Key, nat>, res: Results)
    ensures index == Tally(chunkIndex, FileKeys(entries))
    ensures fresh(res)
    ensures res.numChunksZero == ZeroCount(FileKeys(entries), zeroChunk)
    ensures res.numChunksOne == OneCount(FileKeys(entries), zeroChunk, oneChunk)
    ensures res.mostUsedChunk == ""
  {
    var chunkHashBuf := ZeroKey();
    var numZero, numOne := 0, 0;
    index := chunkIndex;
    for i := 0 to |entries|
      invariant Scanned(CountedChunks(entries[..i]), chunkIndex, zeroChunk, oneChunk, chunkHashBuf, index, numZero, numOne)
    {
      var e := entries[i];
      CountedStep(entries, i);
      if IsCounted(e) {
        chunkHashBuf, index, numZero, numOne :=
          ScanEntry(e, CountedChunks(entries[..i]), chunkIndex, zeroChunk, oneChunk, chunkHashBuf, index, numZero, numOne);
      } else {
        assert CountedChunks(entries[..i]) + [] == CountedChunks(entries[..i]);
      }
    }
    assert entries[..|entries|] == entries;
    res := new Results();
    res.numChunksZero, res.numChunksOne := numZero, numOne;
  }

  /** The inner loop of `processFile`: the chunks of one counted entry,
      after the chunks `done` of the entries before it. */
  method ScanEntry(e: FileEntry, ghost done: seq<Tagged>, ghost chunkIndex: map<Key, nat>, zeroChunk: Bytes, oneChunk: Bytes,
                   buf: Key, index: map<Key, nat>, numZero: nat, numOne: nat)
    returns (buf': Key, index': map<Key, nat>, numZero': nat, numOne': nat)
    requires Scanned(done, chunkIndex, zeroChunk, oneChunk, buf, index, numZero, numOne)
    ensures Scanned(done + Tag(e.filename, e.chunks), chunkIndex, zeroChunk, oneChunk, buf', index', numZero', numOne')
  {
    buf', index', numZero', numOne' := buf, index, numZero, numOne;
    assert done + Tag(e.filename, e.chunks[..0]) == done;
    for j := 0 to |e.chunks|
      invariant Scanned(done + Tag(e.filename, e.chunks[..j]), chunkIndex, zeroChunk, oneChunk, buf', index', numZero', numOne')
    {
      ghost var cur := done + Tag(e.filename, e.chunks[..j]);
      ghost var buf0, index0, numZero0, numOne0 := buf', index', numZero', numOne';
      buf' := CopyKey(buf', e.chunks[j].digest);
      if buf' in index' {
        index' := index'[buf' := index'[buf'] + 1];
      } else {
        index' := index'[buf' := 1];
      }
      if buf' == zeroChunk {
        numZero' := numZero' + 1;
      } else if buf' == oneChunk {
        numOne' := numOne' + 1;
      }
      ScanStep(cur, Tagged(e.filename, e.chunks[j]), chunkIndex, zeroChunk, oneChunk,
               buf0, index0, numZero0, numOne0, buf', index', numZero', numOne');
      TagStep(e.filename, e.chunks, j, done);
    }
    assert e.chunks[..|e.chunks|] == e.chunks;
  }

  /** The state of `processFile` after the chunks `done`: the key buffer,
      the index and the two special-chunk counters. */
  ghost predicate Scanned(done: seq<Tagged>, chunkIndex: map<Key, nat>, zero: Bytes, one: Bytes,
                          buf: Key, index: map<Key, nat>, numZero: nat, numOne: nat)
  {
    var ks := Keys(ZeroKey(), done);
    && buf == LastKey(ZeroKey(), ks)
    && index == Tally(chunkIndex, ks) && numZero == ZeroCount(ks, zero) && numOne == OneCount(ks, zero, one)
  }

  /** One more chunk: its digest is copied into the buffer, and the key
      then in the buffer is counted, and counted as a special chunk. */
  lemma ScanStep(done: seq<Tagged>, t: Tagged, chunkIndex: map<Key, nat>, zero: Bytes, one: Bytes,
                 buf: Key, index: map<Key, nat>, numZero: nat, numOne: nat,
                 buf': Key, index': map<Key, nat>, numZero': nat, numOne': nat)
    requires Scanned(done, chunkIndex, zero, one, buf, index, numZero, numOne)
    requires buf' == CopyKey(buf, t.chunk.digest)
    requires index' == if buf' in index then index[buf' := index[buf'] + 1] else index[buf' := 1]
    requires numZero' == if buf' == zero then numZero + 1 else numZero
    requires numOne' == if buf' != zero && buf' == one then numOne + 1 else numOne
    ensures Scanned(done + [t], chunkIndex, zero, one, buf', index', numZero', numOne')
  {
    KeysStep(ZeroKey(), done, t);
    CountStep(chunkIndex, zero, one, Keys(ZeroKey(), done), buf', index, numZero, numOne, index', numZero', numOne');
  }

  /** One more key is counted in the index and, if special, by its
      counter. */
  lemma CountStep(chunkIndex: map<Key, nat>, zero: Bytes, one: Bytes, ks: seq<Key>, k: Key,
                  index: map<Key, nat>, numZero: nat, numOne: nat,
                  index': map<Key, nat>, numZero': nat, numOne': nat)
    requires index == Tally(chunkIndex, ks) && numZero == ZeroCount(ks, zero) && numOne == OneCount(ks, zero, one)
    requires index' == if k in index then index[k := index[k] + 1] else index[k := 1]
    requires numZero' == if k == zero then numZero + 1 else numZero
    requires numOne' == if k != zero && k == one then numOne + 1 else numOne
    ensures index' == Tally(chunkIndex, ks + [k])
    ensures numZero' == ZeroCount(ks + [k], zero) && numOne' == OneCount(ks + [k], zero, one)
  {
    assert (ks + [k])[..|ks|] == ks;
    assert multiset(ks + [k]) == multiset(ks) + multiset{k};
  }

  /** One more chunk of an entry, after the chunks `pre`. */
  lemma TagStep(filename: string, cs: seq<Chunk>, j: nat, pre: seq<Tagged>)
    requires j < |cs|
    ensures pre + Tag(filename, cs[..j + 1]) == pre + Tag(filename, cs[..j]) + [Tagged(filename, cs[j])]
  {
    assert Tag(filename, cs[..j + 1]) == Tag(filename, cs[..j]) + [Tagged(filename, cs[j])];
  }

  /** One more entry: its chunks if it is counted, none otherwise. */
  lemma CountedStep(entries: seq<FileEntry>, i: nat)
    requires i < |entries|
    ensures CountedChunks(entries[..i + 1]) == CountedChunks(entries[..i]) +
      (if IsCounted(entries[i]) then Tag(entries[i].filename, entries[i].chunks) else [])
  {
    assert entries[..i + 1][..i] == entries[..i];
  }

  // ---------------------------------------------------------------------
  // computeSkewness
  // ---------------------------------------------------------------------

  /** The decoded all-zero and all-one chunks of one way of chunking. */
  datatype Special = Special(zero: Bytes, one: Bytes)

  /** The special chunks of every chunking the tool knows, by the name
      that selects them; the hex digests of the source, decoded. */
  function SpecialChunks(): (table: map<string, Special>)
    ensures "cdc8" in table
  {
    map[
      "cdc4" := Special([0x89, 0x72, 0x56, 0xb6, 0x70, 0x9e, 0x1a, 0x4d, 0xa9, 0xda, 0xba, 0x92],
        [0x95, 0xe0, 0x0e, 0x7b, 0xbe, 0xf9, 0xa7, 0x47, 0x88, 0x30, 0x46, 0x29]),
      "cdc8" := Special([0x51, 0x88, 0x43, 0x18, 0x49, 0xb4, 0x61, 0x31, 0x52, 0xfd, 0x7b, 0xdb],
        [0x04, 0xf9, 0x0e, 0x27, 0x9f, 0x91, 0x0e, 0x48, 0x23, 0xb2, 0x90, 0x54]),
      "cdc16" := Special([0x1a, 0xdc, 0x95, 0xbe, 0xbe, 0x9e, 0xea, 0x8c, 0x11, 0x2d, 0x40, 0xcd],
        [0x17, 0x4d, 0x9c, 0x9e, 0x92, 0xd4, 0xe0, 0x30, 0x45, 0xdf, 0x6b, 0xad]),
      "fixed2" := Special([0x60, 0x5d, 0xb3, 0xfd, 0xba, 0xff, 0x4b, 0xa1, 0x37, 0x29, 0x37, 0x1a],
        [0xe6, 0x33, 0x3e, 0x53, 0x57, 0x0f, 0xb0, 0x5a, 0x84, 0x1a, 0x7f, 0x14]),
      "fixed4" := Special([0x1c, 0xea, 0xf7, 0x3d, 0xf4, 0x0e, 0x53, 0x1d, 0xf3, 0xbf, 0xb2, 0x6b],
        [0xe0, 0xc6, 0x66, 0x49, 0xd1, 0x43, 0x4e, 0xca, 0x34, 0x35, 0x03, 0x3a]),
      "fixed8" := Special([0x06, 0x31, 0x45, 0x72, 0x64, 0xff, 0x7f, 0x8d, 0x5f, 0xb1, 0xed, 0xc2],
        [0x5e, 0x2b, 0x96, 0xc1, 0x9c, 0x4f, 0x5c, 0x63, 0xa5, 0xaf, 0xa2, 0xde]),
      "fixed16" := Special([0x89, 0x72, 0x56, 0xb6, 0x70, 0x9e, 0x1a, 0x4d, 0xa9, 0xda, 0xba, 0x92],
        [0x54, 0x73, 0x72, 0xf1, 0x04, 0x4a, 0x34, 0x42, 0xaa, 0x52, 0xfc, 0xd2]),
      "fixed32" := Special([0x51, 0x88, 0x43, 0x18, 0x49, 0xb4, 0x61, 0x31, 0x52, 0xfd, 0x7b, 0xdb],
        [0xca, 0x71, 0x1c, 0x69, 0x16, 0x5e, 0x1f, 0xa5, 0xbe, 0x72, 0x99, 0x3b])]
  }

  /** `sp` may serve the file `inFile`: the special chunks of a chunking
      of `table` whose name the file name contains, or those of "cdc8" when
      it contains none. */
  predicate SpecialFor(table: map<string, Special>, inFile: string, sp: Special)
    requires "cdc8" in table
  {
    || (exists k :: k in table && Contains(inFile, k) && sp == table[k])
    || ((forall k :: k in table ==> !Contains(inFile, k)) && sp == table["cdc8"])
  }

  /** The choice of the special chunks for a file: the first chunking, in
      map order, whose name the file name contains, "cdc8" by default. */
  method ChooseSpecial(table: map<string, Special>, inFile: string) returns (sp: Special)
    requires "cdc8" in table
    ensures SpecialFor(table, inFile, sp)
  {
    sp := table["cdc8"];
    var rest := table.Keys;
    while rest != {}
      invariant rest <= table.Keys
      invariant forall k :: k in table && k !in rest ==> !Contains(inFile, k)
      invariant sp == table["cdc8"]
      decreases rest
    {
      var k :| k in rest;
      if Contains(inFile, k) {
        sp := table[k];
        return;
      }
      rest := rest - {k};
    }
  }

  /** A trace file: its name, which selects its special chunks, and the
      entries the trace reader yields for it. */
  datatype TraceFile = TraceFile(name: string, entries: seq<FileEntry>)

  /** The keys of all files, file after file. */
  function AllKeys(files: seq<TraceFile>): seq<Key>
  {
    if files == [] then [] else AllKeys(files[..|files| - 1]) + FileKeys(files[|files| - 1].entries)
  }

  /** The number of chunks counted in all files. */
  function CountedIn(files: seq<TraceFile>): nat
  {
    if files == [] then 0 else CountedIn(files[..|files| - 1]) + |CountedChunks(files[|files| - 1].entries)|
  }

  /** There is one key per counted chunk. */
  lemma {:induction false} AllKeysLength(files: seq<TraceFile>)
    ensures |AllKeys(files)| == CountedIn(files)
  {
    if files != [] {
      AllKeysLength(files[..|files| - 1]);
    }
  }

  /** The all-zero chunks of one file. */
  function FileZero(f: TraceFile, sp: Special): nat
  {
    ZeroCount(FileKeys(f.entries), sp.zero)
  }

  /** The all-one chunks of one file. */
  function FileOne(f: TraceFile, sp: Special): nat
  {
    OneCount(FileKeys(f.entries), sp.zero, sp.one)
  }

  /** The all-zero chunks of all files, each file with its special chunks. */
  function ZeroTotal(files: seq<TraceFile>, specials: seq<Special>): nat
    requires |specials| == |files|
  {
    if files == [] then 0
    else ZeroTotal(files[..|files| - 1], specials[..|files| - 1])
         + FileZero(files[|files| - 1], specials[|files| - 1])
  }

  /** The all-one chunks of all files, each file with its special chunks. */
  function OneTotal(files: seq<TraceFile>, specials: seq<Special>): nat
    requires |specials| == |files|
  {
    if files == [] then 0
    else OneTotal(files[..|files| - 1], specials[..|files| - 1])
         + FileOne(files[|files| - 1], specials[|files| - 1])
  }

  /** One more file: its keys are counted after those of the files
      before it. */
  lemma FilesStep(files: seq<TraceFile>, i: nat)
    requires i < |files|
    ensures Tally(map[], AllKeys(files[..i + 1])) == Tally(Tally(map[], AllKeys(files[..i])), FileKeys(files[i].entries))
  {
    assert files[..i + 1][..i] == files[..i];
    TallyAppend(map[], AllKeys(files[..i]), FileKeys(files[i].entries));
  }

  /** One more file: its all-zero chunks are added. */
  lemma ZeroTotalStep(files: seq<TraceFile>, i: nat, specials: seq<Special>, sp: Special)
    requires i < |files| && |specials| == i
    ensures ZeroTotal(files[..i + 1], specials + [sp]) == ZeroTotal(files[..i], specials) + FileZero(files[i], sp)
  {
    assert files[..i + 1][..i] == files[..i];
    assert (specials + [sp])[..i] == specials;
    assert files[..i + 1][i] == files[i] && (specials + [sp])[i] == sp;
  }

  /** One more file: its all-one chunks are added. */
  lemma OneTotalStep(files: seq<TraceFile>, i: nat, specials: seq<Special>, sp: Special)
    requires i < |files| && |specials| == i
    ensures OneTotal(files[..i + 1], specials + [sp]) == OneTotal(files[..i], specials) + FileOne(files[i], sp)
  {
    assert files[..i + 1][..i] == files[..i];
    assert (specials + [sp])[..i] == specials;
    assert files[..i + 1][i] == files[i] && (specials + [sp])[i] == sp;
  }

  /** The keys counted exactly `c` times. */
  function WithCount(m: map<Key, nat>, c: nat): set<Key>
  {
    set k | k in m && m[k] == c
  }

  /** Among the keys `done`, those counted exactly `c` times. */
  function WithCountIn(m: map<Key, nat>, done: set<Key>, c: nat): set<Key>
  {
    set k | k in done && k in m && m[k] == c
  }

  /** One more key joins the class of its count. */
  lemma WithCountStep(m: map<Key, nat>, done: set<Key>, k: Key, c: nat)
    requires k in m && k !in done
    ensures |WithCountIn(m, done + {k}, c)| == |WithCountIn(m, done, c)| + (if m[k] == c then 1 else 0)
  {
    if m[k] == c {
      assert WithCountIn(m, done + {k}, c) == WithCountIn(m, done, c) + {k};
    } else {
      assert WithCountIn(m, done + {k}, c) == WithCountIn(m, done, c);
    }
  }

  /** The first loop of the histogram: the largest count, 0 for an empty
      index. */
  method LargestCount(chunkIndex: map<Key, nat>) returns (max: nat)
    ensures forall k :: k in chunkIndex ==> chunkIndex[k] <= max
    ensures max == 0 || exists k :: k in chunkIndex && chunkIndex[k] == max
  {
    max := 0;
    var rest := chunkIndex.Keys;
    while rest != {}
      invariant rest <= chunkIndex.Keys
      invariant forall k :: k in chunkIndex && k !in rest ==> chunkIndex[k] <= max
      invariant max == 0 || exists k :: k in chunkIndex && chunkIndex[k] == max
      decreases rest
    {
      var k :| k in rest;
      if chunkIndex[k] > max {
        max := chunkIndex[k];
      }
      rest := rest - {k};
    }
  }

  /** `h` counts, for every count below its length, the keys of `done`
      with that count. */
  ghost predicate Histogrammed(m: map<Key, nat>, done: set<Key>, h: seq<nat>)
  {
    forall c :: 0 <= c < |h| ==> h[c] == |WithCountIn(m, done, c)|
  }

  /** One more key raises the entry of its count by one. */
  lemma HistogramStep(m: map<Key, nat>, done: set<Key>, k: Key, h: seq<nat>)
    requires k in m && k !in done && m[k] < |h| && Histogrammed(m, done, h)
    ensures Histogrammed(m, done + {k}, h[m[k] := h[m[k]] + 1])
    ensures Sum(h[m[k] := h[m[k]] + 1]) == Sum(h) + 1
  {
    SumAdd(h, m[k], 1);
    forall c | 0 <= c < |h|
      ensures h[m[k] := h[m[k]] + 1][c] == |WithCountIn(m, done + {k}, c)|
    {
      WithCountStep(m, done, k, c);
    }
  }

  /** The histogram of `computeSkewness`: the largest count, then for
      every count from 0 to it the number of keys with that count. The
      histogram has one entry more than the largest count, and its entries
      add up to the number of distinct keys. */
  method Histogram(chunkIndex: map<Key, nat>) returns (refs: array<nat>)
    ensures refs.Length >= 1
    ensures forall k :: k in chunkIndex ==> chunkIndex[k] < refs.Length
    ensures refs.Length == 1 || exists k :: k in chunkIndex && chunkIndex[k] == refs.Length - 1
    ensures forall c :: 0 <= c < refs.Length ==> refs[c] == |WithCount(chunkIndex, c)|
    ensures Sum(refs[..]) == |chunkIndex|
  {
    var max := LargestCount(chunkIndex);
    refs := new nat[max + 1](_ => 0);
    CountKeys(chunkIndex, refs);
  }

  /** The second loop of the histogram: every key raises the entry of its
      count by one. */
  method CountKeys(chunkIndex: map<Key, nat>, refs: array<nat>)
    requires forall k :: k in chunkIndex ==> chunkIndex[k] < refs.Length
    requires forall c :: 0 <= c < refs.Length ==> refs[c] == 0
    modifies refs
    ensures forall c :: 0 <= c < refs.Length ==> refs[c] == |WithCount(chunkIndex, c)|
    ensures Sum(refs[..]) == |chunkIndex|
  {
    ghost var hs := refs[..];
    HistogramStart(chunkIndex, hs);
    var rest := chunkIndex.Keys;
    while rest != {}
      invariant hs == refs[..] && Counting(chunkIndex, rest, hs)
      decreases rest
    {
      var k :| k in rest;
      var c := chunkIndex[k];
      CountingStep(chunkIndex, rest, k, hs);
      refs[c] := refs[c] + 1;
      hs := hs[c := hs[c] + 1];
      rest := rest - {k};
    }
    CountingDone(chunkIndex, hs);
  }

  /** The histogram `h` while the keys `rest` are still to be counted: it
      counts the others by count, and they add up to their number. */
  ghost predicate Counting(m: map<Key, nat>, rest: set<Key>, h: seq<nat>)
  {
    && rest <= m.Keys
    && (forall k :: k in m ==> m[k] < |h|)
    && Histogrammed(m, m.Keys - rest, h) && Sum(h) == |m.Keys - rest|
  }

  /** Counting one more key keeps the histogram right. */
  lemma CountingStep(m: map<Key, nat>, rest: set<Key>, k: Key, h: seq<nat>)
    requires Counting(m, rest, h) && k in rest
    ensures Counting(m, rest - {k}, h[m[k] := h[m[k]] + 1])
  {
    var done := m.Keys - rest;
    assert m.Keys - (rest - {k}) == done + {k};
    HistogramStep(m, done, k, h);
  }

  /** Before any key is counted, the histogram is all zero. */
  lemma HistogramStart(m: map<Key, nat>, h: seq<nat>)
    requires forall c :: 0 <= c < |h| ==> h[c] == 0
    requires forall k :: k in m ==> m[k] < |h|
    ensures Counting(m, m.Keys, h)
  {
    assert m.Keys - m.Keys == {};
    assert h == seq(|h|, _ => 0);
    SumZeros(|h|);
  }

  /** Once every key is counted, the histogram counts all keys. */
  lemma CountingDone(m: map<Key, nat>, h: seq<nat>)
    requires Counting(m, {}, h)
    ensures forall c :: 0 <= c < |h| ==> h[c] == |WithCount(m, c)|
    ensures Sum(h) == |m|
  {
    assert m.Keys - {} == m.Keys;
    forall c | 0 <= c < |h| ensures h[c] == |WithCount(m, c)| {
      assert WithCountIn(m, m.Keys, c) == WithCount(m, c);
    }
  }

  /** Which special chunk the most used chunk is, if any: the count of the
      most used chunk is compared with the all-zero chunk's count first. */
  function MostUsedChunk(max: nat, numZero: nat, numOne: nat): (r: string)
    ensures r == "zero" <==> max == numZero
    ensures r == "one" <==> max != numZero && max == numOne
    ensures r == "unkown" <==> max != numZero && max != numOne
  {
    if max == numZero then "zero" else if max == numOne then "one" else "unkown"
  }

  /** `computeSkewness`: every file counted into one chunk index with the
      special chunks its name selects, then the histogram of the counts and
      the most used chunk. `specials` are the special chunks chosen for each
      file, and `chunkIndex` the index at the end. No key has count 0, and
      the counts add up to the number of chunks counted. */
  method ComputeSkewness(inFiles: seq<TraceFile>)
    returns (refs: array<nat>, res: Results, ghost chunkIndex: map<Key, nat>, ghost specials: seq<Special>)
    ensures fresh(res)
    ensures |specials| == |inFiles| && forall i :: 0 <= i < |inFiles| ==> SpecialFor(SpecialChunks(), inFiles[i].name, specials[i])
    ensures chunkIndex == Tally(map[], AllKeys(inFiles))
    ensures Total(chunkIndex) == CountedIn(inFiles)
    ensures refs.Length >= 1 && refs[0] == 0
    ensures forall k :: k in chunkIndex ==> chunkIndex[k] < refs.Length
    ensures refs.Length == 1 || exists k :: k in chunkIndex && chunkIndex[k] == refs.Length - 1
    ensures forall c :: 0 <= c < refs.Length ==> refs[c] == |WithCount(chunkIndex, c)|
    ensures Sum(refs[..]) == |chunkIndex|
    ensures res.numChunksZero == ZeroTotal(inFiles, specials)
    ensures res.numChunksOne == OneTotal(inFiles, specials)
    ensures res.mostUsedChunk == MostUsedChunk(refs.Length - 1, res.numChunksZero, res.numChunksOne)
  {
    var index;
    index, res, specials := CountFiles(inFiles, SpecialChunks());
    chunkIndex := index;
    TallyTotal(map[], AllKeys(inFiles));
    AllKeysLength(inFiles);
    TallyPositive(map[], AllKeys(inFiles));
    refs := Histogram(index);
    assert WithCount(index, 0) == {};
    res.mostUsedChunk := MostUsedChunk(refs.Length - 1, res.numChunksZero, res.numChunksOne);
  }

  /** The loop over the files of `computeSkewness`: the special chunks are
      chosen for each file, and the file is counted into the shared index
      and its results added to the total. */
  method CountFiles(inFiles: seq<TraceFile>, table: map<string, Special>)
    returns (index: map<Key, nat>, res: Results, ghost specials: seq<Special>)
    requires "cdc8" in table
    ensures fresh(res)
    ensures |specials| == |inFiles| && forall i :: 0 <= i < |inFiles| ==> SpecialFor(table, inFiles[i].name, specials[i])
    ensures index == Tally(map[], AllKeys(inFiles))
    ensures res.numChunksZero == ZeroTotal(inFiles, specials)
    ensures res.numChunksOne == OneTotal(inFiles, specials)
  {
    res := new Results();
    index := map[];
    specials := [];
    for i := 0 to |inFiles|
      invariant |specials| == i && forall j :: 0 <= j < i ==> SpecialFor(table, inFiles[j].name, specials[j])
      invariant index == Tally(map[], AllKeys(inFiles[..i]))
      invariant res.numChunksZero == ZeroTotal(inFiles[..i], specials)
      invariant res.numChunksOne == OneTotal(inFiles[..i], specials)
    {
      FilesStep(inFiles, i);
      ghost var sp;
      index, sp := CountFile(inFiles[i], table, index, res);
      ZeroTotalStep(inFiles, i, specials, sp);
      OneTotalStep(inFiles, i, specials, sp);
      forall j | 0 <= j < i + 1
        ensures SpecialFor(table, inFiles[j].name, (specials + [sp])[j])
      {
        if j < i {
          assert (specials + [sp])[j] == specials[j];
        }
      }
      specials := specials + [sp];
    }
    assert inFiles[..|inFiles|] == inFiles;
  }

  /** The body of the loop over the files of `computeSkewness`: the
      special chunks `sp` are chosen for the file, the file is counted into
      the shared index, and its results are added to `res`. */
  method CountFile(f: TraceFile, table: map<string, Special>, index: map<Key, nat>, res: Results)
    returns (index': map<Key, nat>, ghost sp: Special)
    requires "cdc8" in table
    modifies res
    ensures SpecialFor(table, f.name, sp)
    ensures index' == Tally(index, FileKeys(f.entries))
    ensures res.numChunksZero == old(res.numChunksZero) + FileZero(f, sp)
    ensures res.numChunksOne == old(res.numChunksOne) + FileOne(f, sp)
  {
    var special := ChooseSpecial(table, f.name);
    sp := special;
    var tmpResult;
    index', tmpResult := ProcessFile(f.entries, index, special.zero, special.one);
    res.Add(tmpResult);
  }

  // ---------------------------------------------------------------------
  // writeResults
  // ---------------------------------------------------------------------

  /** The positions of the non-zero entries, from `from` on, in ascending
      order. */
  function NonZeroFrom(refs: seq<nat>, from: nat): (r: seq<nat>)
    requires from <= |refs|
    ensures forall j :: 0 <= j < |r| ==> from <= r[j] < |refs| && refs[r[j]] != 0
    decreases |refs| - from
  {
    if from == |refs| then []
    else if refs[from] != 0 then [from] + NonZeroFrom(refs, from + 1)
    else NonZeroFrom(refs, from + 1)
  }

  /** The positions listed are the non-zero entries from `from` on, each
      once, in ascending order. */
  lemma {:induction false} NonZeroFromIs(refs: seq<nat>, from: nat)
    requires from <= |refs|
    ensures forall i :: i in NonZeroFrom(refs, from) <==> from <= i < |refs| && refs[i] != 0
    ensures forall a, b :: 0 <= a < b < |NonZeroFrom(refs, from)| ==> NonZeroFrom(refs, from)[a] < NonZeroFrom(refs, from)[b]
    decreases |refs| - from
  {
    if from < |refs| {
      NonZeroFromIs(refs, from + 1);
      var t := NonZeroFrom(refs, from + 1);
      if refs[from] != 0 {
        assert NonZeroFrom(refs, from) == [from] + t;
        assert forall a :: 0 <= a < |t| ==> from < t[a];
      }
    }
  }

  /** The line written for count `i` held by `cnt` keys. */
  function Line(i: nat, cnt: nat): string
  {
    NatToString(i) + "," + NatToString(cnt) + "\n"
  }

  /** `writeResults`, with the file as the sequence of lines written: a
      line "i,cnt" for every non-zero entry, in ascending order of i. */
  method WriteResults(refCounter: seq<nat>) returns (lines: seq<string>)
    ensures |lines| == |NonZeroFrom(refCounter, 0)|
    ensures forall j :: 0 <= j < |lines| ==>
      lines[j] == Line(NonZeroFrom(refCounter, 0)[j], refCounter[NonZeroFrom(refCounter, 0)[j]])
  {
    lines := [];
    ghost var idx: seq<nat> := [];
    for i := 0 to |refCounter|
      invariant idx + NonZeroFrom(refCounter, i) == NonZeroFrom(refCounter, 0)
      invariant |lines| == |idx| && forall j :: 0 <= j < |idx| ==> idx[j] < |refCounter| && lines[j] == Line(idx[j], refCounter[idx[j]])
    {
      if refCounter[i] != 0 {
        assert NonZeroFrom(refCounter, i) == [i] + NonZeroFrom(refCounter, i + 1);
        assert idx + NonZeroFrom(refCounter, i) == (idx + [i]) + NonZeroFrom(refCounter, i + 1);
        lines := lines + [Line(i, refCounter[i])];
        idx := idx + [i];
      }
    }
    assert idx == NonZeroFrom(refCounter, 0) by {
      assert idx + [] == idx;
    }
  }
}
