/** What the two skewness tools read from a trace, and the 12-byte map
    keys they make of chunk digests. Both tools keep one 12-byte array per
    trace file, start it at zero, and copy every chunk's digest into it
    before using it as a map key. */
module ChunkKeys {
  import opened Common
  import opened Text

  /** A chunk as the trace reader delivers it: its digest and its size
      (an unsigned 32-bit field of the trace). */
  datatype Chunk = Chunk(digest: Bytes, size: nat)

  /** A traced file with its chunks. */
  datatype FileEntry = FileEntry(filename: string, chunks: seq<Chunk>)

  /** The length of the key buffer. */
  const KeyLen: nat := 12

  type Key = seq<byte>

  /** The key buffer as declared: all zero. */
  function ZeroKey(): (z: Key)
    ensures |z| == KeyLen && forall i :: 0 <= i < KeyLen ==> z[i] == 0
  {
    seq(KeyLen, i => 0)
  }

  /** `copy(chunkHashBuf[:], digest)`: the buffer's first bytes are
      overwritten by the digest's, as many as both have; the buffer's other
      bytes keep their value. */
  function CopyKey(buf: Key, digest: Bytes): (r: Key)
    requires |buf| == KeyLen
    ensures |r| == KeyLen
    ensures forall i :: 0 <= i < KeyLen ==> r[i] == if i < |digest| then digest[i] else buf[i]
  {
    if |digest| >= KeyLen then digest[..KeyLen] else digest + buf[|digest|..]
  }

  /** A digest of 12 bytes or more gives its first 12 bytes as key,
      whatever the buffer held. */
  lemma CopyKeyLong(buf: Key, buf': Key, digest: Bytes)
    requires |buf| == KeyLen && |buf'| == KeyLen && |digest| >= KeyLen
    ensures CopyKey(buf, digest) == CopyKey(buf', digest) == digest[..KeyLen]
  {
  }

  /** A shorter digest keeps bytes of the previous chunk's key: the same
      one-byte digest makes a different key after a 12-byte digest than
      on a fresh buffer. */
  lemma CopyKeyStale()
    ensures CopyKey(CopyKey(ZeroKey(), seq(KeyLen, _ => 7)), [1]) != CopyKey(ZeroKey(), [1])
  {
    assert CopyKey(CopyKey(ZeroKey(), seq(KeyLen, _ => 7)), [1])[1] == 7;
  }

  /** The tools look only at the entries whose file name ends in "dmtcp". */
  predicate IsCounted(e: FileEntry)
  {
    HasSuffix(e.filename, "dmtcp")
  }

  /** A chunk of a counted entry, with the name of its file. */
  datatype Tagged = Tagged(filename: string, chunk: Chunk)

  function Tag(filename: string, cs: seq<Chunk>): (r: seq<Tagged>)
    ensures |r| == |cs| && forall i :: 0 <= i < |cs| ==> r[i] == Tagged(filename, cs[i])
  {
    seq(|cs|, i requires 0 <= i < |cs| => Tagged(filename, cs[i]))
  }

  /** The chunks the tools count, in the order they see them: those of the
      entries whose name ends in "dmtcp". */
  function CountedChunks(entries: seq<FileEntry>): seq<Tagged>
  {
    if entries == [] then []
    else
      var e := entries[|entries| - 1];
      CountedChunks(entries[..|entries| - 1]) + (if IsCounted(e) then Tag(e.filename, e.chunks) else [])
  }

  /** The chunks of a sequence of entries are those of its parts. */
  lemma {:induction false} CountedChunksAppend(a: seq<FileEntry>, b: seq<FileEntry>)
    ensures CountedChunks(a + b) == CountedChunks(a) + CountedChunks(b)
    decreases |b|
  {
    if b == [] {
      assert a + b == a;
    } else {
      var b' := b[..|b| - 1];
      assert (a + b)[..|a + b| - 1] == a + b';
      CountedChunksAppend(a, b');
    }
  }

  /** Exactly the chunks of the entries whose name ends in "dmtcp" are
      counted: an entry is skipped as a whole or counted as a whole. */
  lemma {:induction false} CountedChunksOf(entries: seq<FileEntry>)
    ensures forall t :: t in CountedChunks(entries) <==>
      exists e :: e in entries && IsCounted(e) && t.filename == e.filename && t.chunk in e.chunks
  {
    if entries != [] {
      var es := entries[..|entries| - 1];
      var e := entries[|entries| - 1];
      CountedChunksOf(es);
      assert entries == es + [e];
      forall t | t in CountedChunks(entries)
        ensures exists e' :: e' in entries && IsCounted(e') && t.filename == e'.filename && t.chunk in e'.chunks
      {
        if t !in CountedChunks(es) {
          var i :| 0 <= i < |e.chunks| && Tag(e.filename, e.chunks)[i] == t;
          assert e.chunks[i] == t.chunk;
        }
      }
      forall t: Tagged | exists e' :: e' in entries && IsCounted(e') && t.filename == e'.filename && t.chunk in e'.chunks
        ensures t in CountedChunks(entries)
      {
        var e' :| e' in entries && IsCounted(e') && t.filename == e'.filename && t.chunk in e'.chunks;
        if e' !in es {
          var i :| 0 <= i < |e.chunks| && e.chunks[i] == t.chunk;
          assert Tag(e.filename, e.chunks)[i] == t;
        }
      }
    }
  }

  /** The key the buffer holds after the keys `ks`. */
  function LastKey(buf: Key, ks: seq<Key>): Key
  {
    if ks == [] then buf else ks[|ks| - 1]
  }

  /** The keys the buffer holds for the chunks `cs` in turn, starting from
      `buf`. */
  function Keys(buf: Key, cs: seq<Tagged>): (ks: seq<Key>)
    requires |buf| == KeyLen
    ensures |ks| == |cs| && forall i :: 0 <= i < |ks| ==> |ks[i]| == KeyLen
  {
    if cs == [] then []
    else
      var ks := Keys(buf, cs[..|cs| - 1]);
      ks + [CopyKey(LastKey(buf, ks), cs[|cs| - 1].chunk.digest)]
  }

  /** One more chunk: its key is its digest copied into the last key. */
  lemma KeysStep(buf: Key, cs: seq<Tagged>, t: Tagged)
    requires |buf| == KeyLen
    ensures Keys(buf, cs + [t]) == Keys(buf, cs) + [CopyKey(LastKey(buf, Keys(buf, cs)), t.chunk.digest)]
  {
    assert (cs + [t])[..|cs|] == cs;
  }

  /** When every digest has at least 12 bytes, every key is the first 12
      bytes of its chunk's digest. */
  lemma {:induction false} KeysOfLongDigests(buf: Key, cs: seq<Tagged>)
    requires |buf| == KeyLen
    requires forall i :: 0 <= i < |cs| ==> |cs[i].chunk.digest| >= KeyLen
    ensures forall i :: 0 <= i < |cs| ==> Keys(buf, cs)[i] == cs[i].chunk.digest[..KeyLen]
  {
    if cs != [] {
      KeysOfLongDigests(buf, cs[..|cs| - 1]);
    }
  }

  /** The keys of one trace file: the buffer starts at zero for every
      file. */
  function FileKeys(entries: seq<FileEntry>): (ks: seq<Key>)
    ensures |ks| == |CountedChunks(entries)|
  {
    Keys(ZeroKey(), CountedChunks(entries))
  }
}
