/** The stream skewness tool: for every chunk key it records in which
    streams the key occurs (a stream is named by the last path element of a
    traced file's name), how often and with what volume; then, for every
    number N of streams, how many keys occur in exactly N streams, and how
    many occurrences and how much volume these keys have. */
module StreamSkewness {
  import opened Common
  import opened Text
  import opened ChunkKeys
  import R = RefcountSkewness

  // ---------------------------------------------------------------------
  // path.Base
  // ---------------------------------------------------------------------

  /** The path without its trailing slashes. */
  function TrimSlashes(p: string): (r: string)
    ensures |r| <= |p| && r == p[..|r|]
    ensures r == [] || r[|r| - 1] != '/'
    ensures forall i :: |r| <= i < |p| ==> p[i] == '/'
  {
    if p != [] && p[|p| - 1] == '/' then TrimSlashes(p[..|p| - 1]) else p
  }

  /** The text after the last slash. */
  function AfterLastSlash(p: string): (r: string)
    ensures '/' !in r
    ensures |r| <= |p| && r == p[|p| - |r|..]
    ensures |r| < |p| ==> p[|p| - |r| - 1] == '/'
  {
    if p == [] || p[|p| - 1] == '/' then [] else AfterLastSlash(p[..|p| - 1]) + [p[|p| - 1]]
  }

  /** Go's `path.Base`: the last element of a slash-separated path, after
      trailing slashes are removed; "." for the empty path and "/" for a
      path of slashes only. */
  function PathBase(p: string): (r: string)
    ensures r != []
    ensures '/' in r ==> r == "/"
    ensures p == [] ==> r == "."
  {
    if p == [] then "."
    else
      var e := AfterLastSlash(TrimSlashes(p));
      if e == [] then "/" else e
  }

  /** A name without slashes is its own last element. */
  lemma {:induction false} AfterLastSlashOfName(dir: string, name: string)
    requires '/' !in name
    ensures AfterLastSlash(dir + ['/'] + name) == name
    decreases |name|
  {
    if name == [] {
      assert dir + ['/'] + name == dir + ['/'];
    } else {
      var n' := name[..|name| - 1];
      assert (dir + ['/'] + name)[..|dir + ['/'] + name| - 1] == dir + ['/'] + n';
      AfterLastSlashOfName(dir, n');
      assert n' + [name[|name| - 1]] == name;
    }
  }

  /** The stream of "dir/name" is "name", and that of a bare name is the
      name itself. */
  lemma PathBaseOfName(dir: string, name: string)
    requires name != [] && '/' !in name
    ensures PathBase(dir + "/" + name) == name
    ensures PathBase(name) == name
  {
    var p := dir + "/" + name;
    assert PathBase(p) == name by {
      assert p[|p| - 1] == name[|name| - 1];
      assert TrimSlashes(p) == p;
      AfterLastSlashOfName(dir, name);
    }
    assert PathBase(name) == name by {
      assert name[|name| - 1] in name;
      assert TrimSlashes(name) == name;
      AfterLastSlashSuffix(name);
    }
  }

  /** A path without slashes is all after the last slash. */
  lemma {:induction false} AfterLastSlashSuffix(name: string)
    requires '/' !in name
    ensures AfterLastSlash(name) == name
    decreases |name|
  {
    if name != [] {
      var n' := name[..|name| - 1];
      assert name[|name| - 1] in name;
      assert forall c :: c in n' ==> c in name;
      AfterLastSlashSuffix(n');
      assert n' + [name[|name| - 1]] == name;
    }
  }

  /** Trailing slashes do not change the last element. */
  lemma PathBaseTrailingSlash(p: string)
    requires p != []
    ensures PathBase(p + "/") == PathBase(p)
  {
    var q := p + "/";
    assert q[..|q| - 1] == p;
    assert TrimSlashes(q) == TrimSlashes(p);
  }

  // ---------------------------------------------------------------------
  // The index
  // ---------------------------------------------------------------------

  /** `StreamStats`: the volume and the number of occurrences of one key in
      one stream. */
  datatype Stats = Stats(volume: nat, occurrences: nat)

  /** `chunkIndex`: for every key, the streams it occurs in with their
      statistics. */
  type Index = map<Key, map<string, Stats>>

  /** One occurrence of a key in a stream, with the size of its chunk. */
  datatype Occ = Occ(key: Key, stream: string, size: nat)

  /** The occurrences the keys `ks` of the chunks `ts` make: each chunk
      occurs under its key in the stream of its file, with its size. */
  function Occs(ks: seq<Key>, ts: seq<Tagged>): (os: seq<Occ>)
    requires |ks| == |ts|
    ensures |os| == |ts|
  {
    if ts == [] then []
    else
      var t := ts[|ts| - 1];
      Occs(ks[..|ks| - 1], ts[..|ts| - 1]) + [Occ(ks[|ks| - 1], PathBase(t.filename), t.chunk.size)]
  }

  /** The occurrences of one trace file, in order. */
  function FileOccs(entries: seq<FileEntry>): seq<Occ>
  {
    Occs(FileKeys(entries), CountedChunks(entries))
  }

  /** An entry whose file name does not end in "dmtcp" adds no
      occurrence. */
  lemma SkippedEntry(entries: seq<FileEntry>, e: FileEntry)
    requires !IsCounted(e)
    ensures FileOccs(entries + [e]) == FileOccs(entries)
  {
    assert (entries + [e])[..|entries|] == entries;
    assert CountedChunks(entries + [e]) == CountedChunks(entries) + [] == CountedChunks(entries);
    assert FileKeys(entries + [e]) == FileKeys(entries);
  }

  /** The occurrences of one trace file. */
  function TraceOccs(f: R.TraceFile): seq<Occ>
  {
    FileOccs(f.entries)
  }

  /** The occurrences of the trace files, file after file. */
  function AllOccs(files: seq<R.TraceFile>): seq<Occ>
  {
    Concat(files, TraceOccs)
  }

  /** There is one occurrence per counted chunk. */
  lemma {:induction false} AllOccsLength(files: seq<R.TraceFile>)
    ensures |AllOccs(files)| == R.CountedIn(files)
  {
    if files != [] {
      var f := files[|files| - 1];
      AllOccsLength(files[..|files| - 1]);
      assert |TraceOccs(f)| == |CountedChunks(f.entries)|;
    }
  }

  /** The statistics of a key in a stream; none when it does not occur
      there. */
  function At(m: Index, k: Key, s: string): Stats
  {
    if k in m && s in m[k] then m[k][s] else Stats(0, 0)
  }

  /** One more occurrence, of a chunk of the given size. */
  function Bump(st: Stats, size: nat): Stats
  {
    Stats(st.volume + size, st.occurrences + 1)
  }

  /** The inner loop body of `processFile`: one occurrence adds 1 to the
      occurrences of its key in its stream and its size to the volume; a
      key or stream not seen before starts at one occurrence and the
      chunk's size. Nothing else changes. */
  function Record(m: Index, o: Occ): (r: Index)
    ensures r.Keys == m.Keys + {o.key}
    ensures forall k :: k in m && k != o.key ==> r[k] == m[k]
    ensures forall k, s :: (k in r && s in r[k]) <==> ((k in m && s in m[k]) || (k == o.key && s == o.stream))
    ensures forall k, s :: At(r, k, s) == if k == o.key && s == o.stream then Bump(At(m, k, s), o.size) else At(m, k, s)
  {
    if o.key in m then
      var ciEntry := m[o.key];
      if o.stream in ciEntry then
        var sstats := ciEntry[o.stream];
        m[o.key := ciEntry[o.stream := Stats(sstats.volume + o.size, sstats.occurrences + 1)]]
      else
        m[o.key := ciEntry[o.stream := Stats(o.size, 1)]]
    else
      m[o.key := map[o.stream := Stats(o.size, 1)]]
  }

  /** The index after the occurrences `os`, in order. */
  function Apply(m: Index, os: seq<Occ>): Index
  {
    if os == [] then m else Record(Apply(m, os[..|os| - 1]), os[|os| - 1])
  }

  lemma {:induction false} ApplyAppend(m: Index, a: seq<Occ>, b: seq<Occ>)
    ensures Apply(m, a + b) == Apply(Apply(m, a), b)
    decreases |b|
  {
    if b == [] {
      assert a + b == a;
    } else {
      var b' := b[..|b| - 1];
      assert (a + b)[..|a + b| - 1] == a + b';
      ApplyAppend(m, a, b');
    }
  }

  /** How often the key `k` occurs in the stream `s`. */
  function CountOf(os: seq<Occ>, k: Key, s: string): nat
  {
    if os == [] then 0
    else CountOf(os[..|os| - 1], k, s) + (if os[|os| - 1].key == k && os[|os| - 1].stream == s then 1 else 0)
  }

  /** The total size of the occurrences of the key `k` in the stream
      `s`. */
  function VolumeOf(os: seq<Occ>, k: Key, s: string): nat
  {
    if os == [] then 0
    else VolumeOf(os[..|os| - 1], k, s) + (if os[|os| - 1].key == k && os[|os| - 1].stream == s then os[|os| - 1].size else 0)
  }

  /** The keys that occur. */
  function KeysOf(os: seq<Occ>): set<Key>
  {
    if os == [] then {} else KeysOf(os[..|os| - 1]) + {os[|os| - 1].key}
  }

  /** The total size of the occurrences. */
  function TotalSize(os: seq<Occ>): nat
  {
    if os == [] then 0 else TotalSize(os[..|os| - 1]) + os[|os| - 1].size
  }

  /** The index holds the keys it held and the keys that occur. */
  lemma {:induction false} ApplyKeys(m: Index, os: seq<Occ>)
    ensures Apply(m, os).Keys == m.Keys + KeysOf(os)
  {
    if os != [] {
      ApplyKeys(m, os[..|os| - 1]);
    }
  }

  /** A key is held with a stream exactly when it was held with it before
      or occurs in it. */
  lemma {:induction false} ApplyStreams(m: Index, os: seq<Occ>)
    ensures forall k, s :: (k in Apply(m, os) && s in Apply(m, os)[k]) <==> ((k in m && s in m[k]) || CountOf(os, k, s) > 0)
  {
    if os != [] {
      ApplyStreams(m, os[..|os| - 1]);
    }
  }

  /** The statistics of a key in a stream are what they were plus the
      number and the total size of its occurrences there. */
  lemma {:induction false} ApplyStats(m: Index, os: seq<Occ>)
    ensures forall k, s ::
      At(Apply(m, os), k, s) == Stats(At(m, k, s).volume + VolumeOf(os, k, s), At(m, k, s).occurrences + CountOf(os, k, s))
  {
    if os != [] {
      ApplyStats(m, os[..|os| - 1]);
    }
  }

  /** Every key of the index occurs in at least one stream. */
  predicate NonEmpty(m: Index)
  {
    forall k :: k in m ==> |m[k]| >= 1
  }

  lemma {:induction false} ApplyNonEmpty(m: Index, os: seq<Occ>)
    requires NonEmpty(m)
    ensures NonEmpty(Apply(m, os))
  {
    if os != [] {
      var o := os[|os| - 1];
      var r' := Apply(m, os[..|os| - 1]);
      ApplyNonEmpty(m, os[..|os| - 1]);
      var r := Record(r', o);
      assert o.stream in r[o.key].Keys;
      assert |r[o.key].Keys| >= 1;
    }
  }

  // ---------------------------------------------------------------------
  // The sums the histograms are made of
  // ---------------------------------------------------------------------

  function Occurrences(st: Stats): nat { st.occurrences }

  function Volume(st: Stats): nat { st.volume }

  /** The occurrences of one key in all its streams. */
  ghost function KeyOccurrences(streams: map<string, Stats>): nat
  {
    SumMap(streams, Occurrences)
  }

  /** The volume of one key in all its streams. */
  ghost function KeyVolume(streams: map<string, Stats>): nat
  {
    SumMap(streams, Volume)
  }

  /** The number of streams of one key. */
  function StreamCount(streams: map<string, Stats>): nat { |streams| }

  /** The number of streams of every key. */
  function Streams(m: Index): (r: map<Key, nat>)
    ensures r.Keys == m.Keys && forall k :: k in m ==> r[k] == |m[k]|
  {
    map k | k in m :: |m[k]|
  }

  /** The occurrences of the keys that occur in exactly `c` streams. */
  ghost function ClassOccurrences(m: Index, c: nat): nat
  {
    SumMap(Where(m, StreamCount, c), KeyOccurrences)
  }

  /** The volume of the keys that occur in exactly `c` streams. */
  ghost function ClassVolume(m: Index, c: nat): nat
  {
    SumMap(Where(m, StreamCount, c), KeyVolume)
  }

  /** One occurrence adds 1 to the total occurrences of the index and its
      size to the total volume. */
  lemma RecordTotals(m: Index, o: Occ)
    ensures SumMap(Record(m, o), KeyOccurrences) == SumMap(m, KeyOccurrences) + 1
    ensures SumMap(Record(m, o), KeyVolume) == SumMap(m, KeyVolume) + o.size
  {
    var ci: map<string, Stats> := if o.key in m then m[o.key] else map[];
    var st := At(m, o.key, o.stream);
    var ci' := ci[o.stream := Stats(st.volume + o.size, st.occurrences + 1)];
    assert Record(m, o) == m[o.key := ci'];
    SumMapUpdate(m, KeyOccurrences, o.key, ci');
    SumMapUpdate(m, KeyVolume, o.key, ci');
    SumMapUpdate(ci, Occurrences, o.stream, ci'[o.stream]);
    SumMapUpdate(ci, Volume, o.stream, ci'[o.stream]);
    if o.key !in m {
      assert SumMap(ci, Occurrences) == 0 && SumMap(ci, Volume) == 0;
    }
  }

  /** Total occurrences grow by one per occurrence; total volume by its
      size. */
  lemma {:induction false} ApplyTotals(m: Index, os: seq<Occ>)
    ensures SumMap(Apply(m, os), KeyOccurrences) == SumMap(m, KeyOccurrences) + |os|
    ensures SumMap(Apply(m, os), KeyVolume) == SumMap(m, KeyVolume) + TotalSize(os)
  {
    if os != [] {
      ApplyTotals(m, os[..|os| - 1]);
      RecordTotals(Apply(m, os[..|os| - 1]), os[|os| - 1]);
    }
  }

  /** The same occurrences twice: the same keys in the same streams, with
      twice the occurrences and twice the volume. */
  lemma ApplyTwice(os: seq<Occ>)
    ensures Apply(map[], os + os).Keys == Apply(map[], os).Keys
    ensures forall k :: k in Apply(map[], os) ==> Apply(map[], os + os)[k].Keys == Apply(map[], os)[k].Keys
    ensures forall k, s :: k in Apply(map[], os) && s in Apply(map[], os)[k] ==>
      Apply(map[], os + os)[k][s] == Stats(2 * Apply(map[], os)[k][s].volume, 2 * Apply(map[], os)[k][s].occurrences)
  {
    var a, b := Apply(map[], os), Apply(map[], os + os);
    assert b == Apply(a, os) by {
      ApplyAppend(map[], os, os);
    }
    assert b.Keys == a.Keys by {
      ApplyKeys(map[], os);
      ApplyKeys(a, os);
    }
    forall k | k in a ensures b[k].Keys == a[k].Keys {
      forall s ensures s in b[k] <==> s in a[k] {
        ApplyStreams(map[], os);
        ApplyStreams(a, os);
      }
    }
    forall k, s | k in a && s in a[k]
      ensures b[k][s] == Stats(2 * a[k][s].volume, 2 * a[k][s].occurrences)
    {
      assert s in b[k];
      assert At(a, k, s) == a[k][s] && At(b, k, s) == b[k][s];
      ApplyStats(map[], os);
      ApplyStats(a, os);
    }
  }

  /** Processing the same occurrences twice leaves every key in as many
      streams and doubles its occurrences and its volume. */
  lemma KeysTwice(os: seq<Occ>)
    ensures var a, b := Apply(map[], os), Apply(map[], os + os);
      && a.Keys == b.Keys
      && Streams(b) == Streams(a)
      && forall k :: k in a ==> KeyOccurrences(b[k]) == 2 * KeyOccurrences(a[k]) && KeyVolume(b[k]) == 2 * KeyVolume(a[k])
  {
    ApplyTwice(os);
    var a, b := Apply(map[], os), Apply(map[], os + os);
    forall k | k in a
      ensures |b[k]| == |a[k]|
    {
      assert |b[k]| == |b[k].Keys| && |a[k]| == |a[k].Keys|;
    }
    assert Streams(b) == Streams(a);
    forall k | k in a
      ensures KeyOccurrences(b[k]) == 2 * KeyOccurrences(a[k]) && KeyVolume(b[k]) == 2 * KeyVolume(a[k])
    {
      SumMapDouble(a[k], b[k], Occurrences);
      SumMapDouble(a[k], b[k], Volume);
    }
  }

  /** Processing the same trace files twice leaves the number of keys per
      stream count unchanged and doubles the occurrences and the volume of
      every class. */
  lemma FilesTwice(files: seq<R.TraceFile>)
    ensures Streams(Apply(map[], AllOccs(files + files))) == Streams(Apply(map[], AllOccs(files)))
    ensures forall c: nat :: ClassOccurrences(Apply(map[], AllOccs(files + files)), c) == 2 * ClassOccurrences(Apply(map[], AllOccs(files)), c)
    ensures forall c: nat :: ClassVolume(Apply(map[], AllOccs(files + files)), c) == 2 * ClassVolume(Apply(map[], AllOccs(files)), c)
  {
    var os := AllOccs(files);
    ConcatAppend(files, files, TraceOccs);
    assert AllOccs(files + files) == os + os;
    var a, b := Apply(map[], os), Apply(map[], os + os);
    KeysTwice(os);
    forall c: nat
      ensures ClassOccurrences(b, c) == 2 * ClassOccurrences(a, c) && ClassVolume(b, c) == 2 * ClassVolume(a, c)
    {
      SumMapDouble(Where(a, StreamCount, c), Where(b, StreamCount, c), KeyOccurrences);
      SumMapDouble(Where(a, StreamCount, c), Where(b, StreamCount, c), KeyVolume);
    }
  }

  // ---------------------------------------------------------------------
  // processFile
  // ---------------------------------------------------------------------

  /** The state of `processFile` after the chunks `done`: the key buffer
      and the index. */
  ghost predicate Indexed(done: seq<Tagged>, chunkIndex: Index, buf: Key, index: Index)
  {
    var ks := Keys(ZeroKey(), done);
    buf == LastKey(ZeroKey(), ks) && index == Apply(chunkIndex, Occs(ks, done))
  }

  /** One more chunk: its digest is copied into the buffer and the key then
      in the buffer is recorded in the chunk's stream. */
  lemma IndexStep(done: seq<Tagged>, t: Tagged, chunkIndex: Index, buf: Key, index: Index)
    requires Indexed(done, chunkIndex, buf, index)
    ensures |buf| == KeyLen
    ensures Indexed(done + [t], chunkIndex, CopyKey(buf, t.chunk.digest),
                    Record(index, Occ(CopyKey(buf, t.chunk.digest), PathBase(t.filename), t.chunk.size)))
  {
    KeysStep(ZeroKey(), done, t);
    var ks := Keys(ZeroKey(), done);
    var o := Occ(CopyKey(buf, t.chunk.digest), PathBase(t.filename), t.chunk.size);
    var os := Occs(ks, done);
    assert (ks + [o.key])[..|ks|] == ks && (done + [t])[..|done|] == done;
    assert Occs(ks + [o.key], done + [t]) == os + [o];
    assert (os + [o])[..|os|] == os;
  }

  /** `processFile`, with the entries the trace reader yields for the file:
      every chunk of a "dmtcp" entry is recorded under the key the buffer
      then holds, in the stream its file name names. */
  method ProcessFile(entries: seq<FileEntry>, chunkIndex: Index) returns (index: Index)
    ensures index == Apply(chunkIndex, FileOccs(entries))
  {
    var chunkHashBuf := ZeroKey();
    index := chunkIndex;
    for i := 0 to |entries|
      invariant Indexed(CountedChunks(entries[..i]), chunkIndex, chunkHashBuf, index)
    {
      var e := entries[i];
      R.CountedStep(entries, i);
      if IsCounted(e) {
        chunkHashBuf, index := ScanEntry(e, CountedChunks(entries[..i]), chunkIndex, chunkHashBuf, index);
      } else {
        assert CountedChunks(entries[..i]) + [] == CountedChunks(entries[..i]);
      }
    }
    assert entries[..|entries|] == entries;
  }

  /** The inner loop of `processFile`: the chunks of one counted entry,
      after the chunks `done` of the entries before it. */
  method ScanEntry(e: FileEntry, ghost done: seq<Tagged>, ghost chunkIndex: Index, buf: Key, index: Index)
    returns (buf': Key, index': Index)
    requires Indexed(done, chunkIndex, buf, index)
    ensures Indexed(done + Tag(e.filename, e.chunks), chunkIndex, buf', index')
  {
    var streamID := PathBase(e.filename);
    buf', index' := buf, index;
    assert done + Tag(e.filename, e.chunks[..0]) == done;
    for j := 0 to |e.chunks|
      invariant Indexed(done + Tag(e.filename, e.chunks[..j]), chunkIndex, buf', index')
    {
      ghost var cur := done + Tag(e.filename, e.chunks[..j]);
      ghost var buf0, index0 := buf', index';
      IndexStep(cur, Tagged(e.filename, e.chunks[j]), chunkIndex, buf0, index0);
      buf' := CopyKey(buf', e.chunks[j].digest);
      index' := CountChunk(index', buf', streamID, e.chunks[j].size);
      TagStep(e.filename, e.chunks, j, done);
    }
    assert e.chunks[..|e.chunks|] == e.chunks;
  }

  /** The body of the inner loop of `processFile`: the chunk's key gains
      one occurrence and the chunk's size in the stream, starting from one
      occurrence when the key or the stream is new. */
  method CountChunk(index: Index, buf: Key, streamID: string, size: nat) returns (index': Index)
    ensures index' == Record(index, Occ(buf, streamID, size))
  {
    if buf in index {
      var ciEntry := index[buf];
      if streamID in ciEntry {
        var sstats := ciEntry[streamID];
        index' := index[buf := ciEntry[streamID := Stats(sstats.volume + size, sstats.occurrences + 1)]];
      } else {
        index' := index[buf := ciEntry[streamID := Stats(size, 1)]];
      }
    } else {
      index' := index[buf := map[streamID := Stats(size, 1)]];
    }
  }

  lemma TagStep(filename: string, cs: seq<Chunk>, j: nat, pre: seq<Tagged>)
    requires j < |cs|
    ensures pre + Tag(filename, cs[..j + 1]) == pre + Tag(filename, cs[..j]) + [Tagged(filename, cs[j])]
  {
    R.TagStep(filename, cs, j, pre);
  }

  // ---------------------------------------------------------------------
  // computeSkewness
  // ---------------------------------------------------------------------

  /** `computeSkewness`, with the trace files as the entries their readers
      yield: the index over all files, then the three histograms over the
      number of streams of every key. */
  method ComputeSkewness(inFiles: seq<R.TraceFile>)
    returns (streamCounters: seq<nat>, streamOccurrences: seq<nat>, streamVolumes: seq<nat>, ghost chunkIndex: Index)
    ensures chunkIndex == Apply(map[], AllOccs(inFiles))
    ensures |streamCounters| == |streamOccurrences| == |streamVolumes| >= 1
    ensures forall k :: k in chunkIndex ==> 1 <= |chunkIndex[k]| < |streamCounters|
    ensures |streamCounters| == 1 || exists k :: k in chunkIndex && |chunkIndex[k]| == |streamCounters| - 1
    ensures forall c :: 0 <= c < |streamCounters| ==>
      && streamCounters[c] == |Where(chunkIndex, StreamCount, c)|
      && streamOccurrences[c] == ClassOccurrences(chunkIndex, c)
      && streamVolumes[c] == ClassVolume(chunkIndex, c)
    ensures streamCounters[0] == 0 && streamOccurrences[0] == 0 && streamVolumes[0] == 0
    ensures Sum(streamCounters) == |chunkIndex|
    ensures Sum(streamOccurrences) == R.CountedIn(inFiles)
    ensures Sum(streamVolumes) == TotalSize(AllOccs(inFiles))
  {
    var index := IndexFiles(inFiles);
    chunkIndex := index;

    var max := R.LargestCount(Streams(index));
    LargestStreams(index, max);
    streamCounters, streamOccurrences, streamVolumes := CountStreams(index, max + 1);
    NoKeyInNoStream(index);
  }

  /** The largest number of streams of the keys, read off their counts. */
  lemma LargestStreams(index: Index, max: nat)
    requires forall k :: k in Streams(index) ==> Streams(index)[k] <= max
    requires max == 0 || exists k :: k in Streams(index) && Streams(index)[k] == max
    ensures forall k :: k in index ==> |index[k]| < max + 1
    ensures max == 0 || exists k :: k in index && |index[k]| == max
  {
    forall k | k in index ensures |index[k]| < max + 1 {
      assert k in Streams(index) && Streams(index)[k] == |index[k]|;
    }
    if max != 0 {
      var k :| k in Streams(index) && Streams(index)[k] == max;
      assert k in index && |index[k]| == max;
    }
  }

  /** Every key of an index occurs in some stream, so class 0 is empty. */
  lemma NoKeyInNoStream(index: Index)
    requires NonEmpty(index)
    ensures Where(index, StreamCount, 0) == map[]
    ensures ClassOccurrences(index, 0) == 0 && ClassVolume(index, 0) == 0
  {
    var empty := Where(index, StreamCount, 0);
    assert empty == map[];
    assert SumMap(empty, KeyOccurrences) == 0 && SumMap(empty, KeyVolume) == 0;
  }

  /** The loop over the files of `computeSkewness`: each file is read
      into the shared index in turn. */
  method IndexFiles(inFiles: seq<R.TraceFile>) returns (index: Index)
    ensures index == Apply(map[], AllOccs(inFiles))
    ensures NonEmpty(index)
    ensures SumMap(index, KeyOccurrences) == R.CountedIn(inFiles)
    ensures SumMap(index, KeyVolume) == TotalSize(AllOccs(inFiles))
  {
    index := map[];
    for i := 0 to |inFiles|
      invariant index == Apply(map[], AllOccs(inFiles[..i]))
    {
      ConcatStep(inFiles, i, TraceOccs);
      ApplyAppend(map[], AllOccs(inFiles[..i]), TraceOccs(inFiles[i]));
      index := ProcessFile(inFiles[i].entries, index);
    }
    assert inFiles[..|inFiles|] == inFiles;
    ApplyNonEmpty(map[], AllOccs(inFiles));
    ApplyTotals(map[], AllOccs(inFiles));
    AllOccsLength(inFiles);
  }

  /** Every key counts once in the class of its number of streams. */
  function Once(streams: map<string, Stats>): nat { 1 }

  /** The slices of `computeSkewness`, `len` long and zero to begin with,
      after its loop over the index: every key counts once in the class
      of its number of streams, and adds its occurrences and its volume in
      all its streams to that class. */
  method CountStreams(chunkIndex: Index, len: nat) returns (counters: seq<nat>, occs: seq<nat>, vols: seq<nat>)
    requires forall k :: k in chunkIndex ==> |chunkIndex[k]| < len
    ensures |counters| == |occs| == |vols| == len
    ensures forall c :: 0 <= c < len ==>
      && counters[c] == |Where(chunkIndex, StreamCount, c)|
      && occs[c] == ClassOccurrences(chunkIndex, c)
      && vols[c] == ClassVolume(chunkIndex, c)
    ensures Sum(counters) == |chunkIndex|
    ensures Sum(occs) == SumMap(chunkIndex, KeyOccurrences)
    ensures Sum(vols) == SumMap(chunkIndex, KeyVolume)
  {
    counters, occs, vols := seq(len, _ => 0), seq(len, _ => 0), seq(len, _ => 0);
    var rest := chunkIndex.Keys;
    ghost var visited: seq<Key> := [];
    while rest != {}
      invariant rest <= chunkIndex.Keys && Enumerates(visited, chunkIndex.Keys - rest)
      invariant counters == Histogram(chunkIndex, visited, StreamCount, Once, len)
      invariant occs == Histogram(chunkIndex, visited, StreamCount, KeyOccurrences, len)
      invariant vols == Histogram(chunkIndex, visited, StreamCount, KeyVolume, len)
      decreases rest
    {
      var k :| k in rest;
      counters, occs, vols := CountKey(chunkIndex, visited, k, len, counters, occs, vols);
      EnumeratesStep(visited, chunkIndex.Keys - rest, k);
      assert chunkIndex.Keys - (rest - {k}) == chunkIndex.Keys - rest + {k};
      visited := visited + [k];
      rest := rest - {k};
    }
    assert chunkIndex.Keys - rest == chunkIndex.Keys;
    IndexHistograms(chunkIndex, visited, len);
  }

  /** The body of the loop of `computeSkewness` over the index: the key
      `k` counts once in the class of its number of streams, and adds its
      occurrences and its volume there; so the slices become the
      histograms of the keys visited so far and `k`. */
  method CountKey(chunkIndex: Index, ghost visited: seq<Key>, k: Key, len: nat,
                  counters: seq<nat>, occs: seq<nat>, vols: seq<nat>)
    returns (counters': seq<nat>, occs': seq<nat>, vols': seq<nat>)
    requires k in chunkIndex && |chunkIndex[k]| < len
    requires counters == Histogram(chunkIndex, visited, StreamCount, Once, len)
    requires occs == Histogram(chunkIndex, visited, StreamCount, KeyOccurrences, len)
    requires vols == Histogram(chunkIndex, visited, StreamCount, KeyVolume, len)
    ensures counters' == Histogram(chunkIndex, visited + [k], StreamCount, Once, len)
    ensures occs' == Histogram(chunkIndex, visited + [k], StreamCount, KeyOccurrences, len)
    ensures vols' == Histogram(chunkIndex, visited + [k], StreamCount, KeyVolume, len)
  {
    var ciEntry := chunkIndex[k];
    var n := |ciEntry|;
    counters' := counters[n := counters[n] + 1];
    occs', vols' := AddStreams(ciEntry, n, occs, vols);
    HistogramStep(chunkIndex, visited, StreamCount, Once, len, k, n, 1, counters, counters');
    HistogramStep(chunkIndex, visited, StreamCount, KeyOccurrences, len, k, n, KeyOccurrences(ciEntry), occs, occs');
    HistogramStep(chunkIndex, visited, StreamCount, KeyVolume, len, k, n, KeyVolume(ciEntry), vols, vols');
  }

  /** Whatever order the keys of the index are visited in, the three
      histograms hold, class by class, the number of keys with that many
      streams, their occurrences and their volume; and in all classes
      together every key, all occurrences and the whole volume. */
  lemma IndexHistograms(chunkIndex: Index, visited: seq<Key>, len: nat)
    requires Enumerates(visited, chunkIndex.Keys)
    requires forall k :: k in chunkIndex ==> |chunkIndex[k]| < len
    ensures var counters := Histogram(chunkIndex, visited, StreamCount, Once, len);
      && (forall c :: 0 <= c < len ==> counters[c] == |Where(chunkIndex, StreamCount, c)|)
      && Sum(counters) == |chunkIndex|
    ensures var occs := Histogram(chunkIndex, visited, StreamCount, KeyOccurrences, len);
      && (forall c :: 0 <= c < len ==> occs[c] == ClassOccurrences(chunkIndex, c))
      && Sum(occs) == SumMap(chunkIndex, KeyOccurrences)
    ensures var vols := Histogram(chunkIndex, visited, StreamCount, KeyVolume, len);
      && (forall c :: 0 <= c < len ==> vols[c] == ClassVolume(chunkIndex, c))
      && Sum(vols) == SumMap(chunkIndex, KeyVolume)
  {
    assert chunkIndex.Keys - {} == chunkIndex.Keys && chunkIndex - {} == chunkIndex;
    var counters := Histogram(chunkIndex, visited, StreamCount, Once, len);
    HistogramClassed(chunkIndex, visited, {}, StreamCount, Once, len);
    HistogramClassed(chunkIndex, visited, {}, StreamCount, KeyOccurrences, len);
    HistogramClassed(chunkIndex, visited, {}, StreamCount, KeyVolume, len);
    ClassedDone(chunkIndex, StreamCount, Once, counters);
    ClassedDone(chunkIndex, StreamCount, KeyOccurrences, Histogram(chunkIndex, visited, StreamCount, KeyOccurrences, len));
    ClassedDone(chunkIndex, StreamCount, KeyVolume, Histogram(chunkIndex, visited, StreamCount, KeyVolume, len));
    forall c | 0 <= c < len
      ensures counters[c] == |Where(chunkIndex, StreamCount, c)|
    {
      SumMapOnes(Where(chunkIndex, StreamCount, c), Once);
    }
    SumMapOnes(chunkIndex, Once);
  }

  /** The innermost loop of `computeSkewness`: the occurrences and the
      volume of one key in each of its streams are added to the class
      `n`, and nothing else changes. */
  method AddStreams(ciEntry: map<string, Stats>, n: nat, occs0: seq<nat>, vols0: seq<nat>)
    returns (occs: seq<nat>, vols: seq<nat>)
    requires n < |occs0| && n < |vols0|
    ensures occs == occs0[n := occs0[n] + KeyOccurrences(ciEntry)]
    ensures vols == vols0[n := vols0[n] + KeyVolume(ciEntry)]
  {
    occs, vols := occs0, vols0;
    var rest := ciEntry.Keys;
    assert ciEntry - rest == map[];
    while rest != {}
      invariant rest <= ciEntry.Keys
      invariant occs == occs0[n := occs0[n] + SumMap(ciEntry - rest, Occurrences)]
      invariant vols == vols0[n := vols0[n] + SumMap(ciEntry - rest, Volume)]
      decreases rest
    {
      var s :| s in rest;
      var sstat := ciEntry[s];
      SumMapStep(ciEntry, rest, s, Occurrences);
      SumMapStep(ciEntry, rest, s, Volume);
      vols := vols[n := vols[n] + sstat.volume];
      occs := occs[n := occs[n] + sstat.occurrences];
      rest := rest - {s};
    }
    assert ciEntry - {} == ciEntry;
  }

  // ---------------------------------------------------------------------
  // writeResults
  // ---------------------------------------------------------------------

  /** One line of the results file. */
  function Line(i: nat, cnt: nat, occ: nat, vol: nat): string
  {
    NatToString(i) + "," + NatToString(cnt) + "," + NatToString(occ) + "," + NatToString(vol) + "\n"
  }

  /** `writeResults`, with the lines of the results file as its output:
      one line per non-zero counter, in ascending order of the number of
      streams. */
  method WriteResults(refCounter: seq<nat>, refOccurrences: seq<nat>, refVolumes: seq<nat>) returns (lines: seq<string>)
    requires |refOccurrences| == |refCounter| && |refVolumes| == |refCounter|
    ensures |lines| == |R.NonZeroFrom(refCounter, 0)|
    ensures forall j :: 0 <= j < |lines| ==>
      var i := R.NonZeroFrom(refCounter, 0)[j];
      lines[j] == Line(i, refCounter[i], refOccurrences[i], refVolumes[i])
  {
    lines := [];
    ghost var idx: seq<nat> := [];
    for i := 0 to |refCounter|
      invariant idx + R.NonZeroFrom(refCounter, i) == R.NonZeroFrom(refCounter, 0)
      invariant |lines| == |idx| && forall j :: 0 <= j < |idx| ==>
        idx[j] < |refCounter| && lines[j] == Line(idx[j], refCounter[idx[j]], refOccurrences[idx[j]], refVolumes[idx[j]])
    {
      if refCounter[i] != 0 {
        assert R.NonZeroFrom(refCounter, i) == [i] + R.NonZeroFrom(refCounter, i + 1);
        assert idx + R.NonZeroFrom(refCounter, i) == (idx + [i]) + R.NonZeroFrom(refCounter, i + 1);
        lines := lines + [Line(i, refCounter[i], refOccurrences[i], refVolumes[i])];
        idx := idx + [i];
      }
    }
    assert idx == R.NonZeroFrom(refCounter, 0) by {
      assert idx + [] == idx;
    }
  }
}
