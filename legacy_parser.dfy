/** The decoder of the legacy binary trace format. A file entry is a
    tab-separated header line `filename<TAB>size[<TAB>type]` followed by
    24-byte chunk records: the record size 24, the chunk size as four
    little-endian bytes, and a 20-byte fingerprint. The chunk records of an
    entry end at a zero byte (the rest of that line is skipped), at the end
    of the stream, at a record size other than 24, or at a chunk size of
    64 KiB or more. */
module LegacyDecoder {
  import opened Common
  import opened Text
  import opened TraceProto
  import opened ByteStream

  // ---------------------------------------------------------------------
  // helperChunkSize
  // ---------------------------------------------------------------------

  /** `helperChunkSize`: the four bytes at `offset` as a little-endian
      number, accumulated from the most significant byte down. */
  function HelperChunkSize(buffer: Bytes, offset: nat): (r: nat)
    requires offset + 4 <= |buffer|
    ensures r < TwoTo32
    ensures r % 256 == buffer[offset] as int
    ensures r / 0x100_0000 == buffer[offset + 3] as int
  {
    var result := 0;
    var result := 256 * result + buffer[offset + 3] as int;
    var result := 256 * result + buffer[offset + 2] as int;
    var result := 256 * result + buffer[offset + 1] as int;
    256 * result + buffer[offset] as int
  }

  /** The four little-endian bytes of a `uint32`. */
  function LittleEndian32(x: nat): (b: Bytes)
    requires x < TwoTo32
    ensures |b| == 4
  {
    [(x % 256) as byte, (x / 256 % 256) as byte, (x / 256 / 256 % 256) as byte, (x / 256 / 256 / 256) as byte]
  }

  /** One step of base-256 positional notation. */
  lemma Base256(b: int, y: int)
    requires 0 <= b < 256
    ensures (b + 256 * y) % 256 == b && (b + 256 * y) / 256 == y
  {
  }

  /** Decoding the little-endian bytes of a `uint32` gives it back. */
  lemma HelperChunkSizeOfLittleEndian(x: nat)
    requires x < TwoTo32
    ensures HelperChunkSize(LittleEndian32(x), 0) == x
  {
    var b := LittleEndian32(x);
    var y := x / 256;
    var z := y / 256;
    assert x == x % 256 + 256 * y;
    assert y == y % 256 + 256 * z;
    assert z == z % 256 + 256 * (z / 256);
    assert z / 256 < 256;
  }

  /** Encoding the decoded value gives back the four bytes. */
  lemma LittleEndianOfHelperChunkSize(b: Bytes)
    requires |b| == 4
    ensures LittleEndian32(HelperChunkSize(b, 0)) == b
  {
    var z := b[2] as int + 256 * b[3] as int;
    var y := b[1] as int + 256 * z;
    var x := b[0] as int + 256 * y;
    assert HelperChunkSize(b, 0) == x;
    Base256(b[0] as int, y);
    Base256(b[1] as int, z);
    Base256(b[2] as int, b[3] as int);
    var e := LittleEndian32(x);
    assert e[0] == b[0] && e[1] == b[1] && e[2] == b[2] && e[3] == b[3];
  }

  // ---------------------------------------------------------------------
  // ReadRune
  // ---------------------------------------------------------------------

  /** A rune and the number of bytes it took. */
  datatype Rune = Rune(value: int, size: nat)

  const RuneError: int := 0xFFFD

  predicate IsContinuation(b: byte)
  {
    0x80 <= b < 0xC0
  }

  /** `utf8.DecodeRune` on a text starting with a byte of 0x80 or more: a
      valid two-, three- or four-byte sequence (shortest form, no
      surrogates, at most U+10FFFF) gives its code point, anything else the
      replacement rune after one byte. */
  function DecodeMultiByte(s: Bytes): (r: Rune)
    requires s != [] && s[0] >= 0x80
    ensures 1 <= r.size <= |s| && r.size <= 4
    ensures r.value >= 0x80
  {
    var b0 := s[0] as int;
    if 0xC2 <= b0 <= 0xDF then
      if |s| >= 2 && IsContinuation(s[1]) then Rune((b0 - 0xC0) * 64 + (s[1] as int - 0x80), 2)
      else Rune(RuneError, 1)
    else if 0xE0 <= b0 <= 0xEF then
      var lo := if b0 == 0xE0 then 0xA0 else 0x80;
      var hi := if b0 == 0xED then 0x9F else 0xBF;
      if |s| >= 3 && lo <= s[1] as int <= hi && IsContinuation(s[2]) then
        Rune((b0 - 0xE0) * 0x1000 + (s[1] as int - 0x80) * 64 + (s[2] as int - 0x80), 3)
      else Rune(RuneError, 1)
    else if 0xF0 <= b0 <= 0xF4 then
      var lo := if b0 == 0xF0 then 0x90 else 0x80;
      var hi := if b0 == 0xF4 then 0x8F else 0xBF;
      if |s| >= 4 && lo <= s[1] as int <= hi && IsContinuation(s[2]) && IsContinuation(s[3]) then
        Rune((b0 - 0xF0) * 0x4_0000 + (s[1] as int - 0x80) * 0x1000 + (s[2] as int - 0x80) * 64 + (s[3] as int - 0x80), 4)
      else Rune(RuneError, 1)
    else Rune(RuneError, 1)
  }

  /** `ReadRune` on the reader: rune 0 and nothing read at the end of the
      stream, a byte below 0x80 as itself, anything else decoded as UTF-8. */
  function ReadRune(s: Bytes): (r: Rune)
    ensures r.size <= |s| && (s != [] ==> r.size >= 1)
    ensures r.value == 0 <==> s == [] || s[0] == 0
    ensures r.value == 24 <==> s != [] && s[0] == 24
  {
    if s == [] then Rune(0, 0)
    else if s[0] < 0x80 then Rune(s[0] as int, 1)
    else DecodeMultiByte(s)
  }

  // ---------------------------------------------------------------------
  // parseChunks
  // ---------------------------------------------------------------------

  /** The record size of a chunk record. */
  const RecordSize: int := 24

  /** Chunks of 64 KiB or more end the records of an entry. */
  const MaxChunkSize: nat := 64 * 1024

  /** What one call of `parseChunks` does: add a chunk, finish the entry's
      records (`sizeMismatch` is its second result), or spin for ever in a
      read-retry loop at the end of the stream. */
  datatype Step = Added(chunk: Chunk, rest: Bytes) | Finished(rest: Bytes, sizeMismatch: bool) | Stuck

  /** `parseChunks` on the unread bytes `s`. */
  function ChunkStep(s: Bytes): (r: Step)
    ensures r.Added? ==> |r.rest| < |s| && IsSuffix(r.rest, s)
    ensures r.Finished? ==> IsSuffix(r.rest, s)
    ensures r.Added? ==> r.chunk.fp.Some? && |r.chunk.fp.value| == 20
    ensures r.Added? ==> r.chunk.csize.Some? && r.chunk.csize.value < MaxChunkSize
    ensures s == [] ==> r == Finished([], false)
  {
    var rune := ReadRune(s);
    var t := s[rune.size..];
    if rune.value == 0 then Finished(ReadLine(t).rest, false)
    else if rune.value != RecordSize then Finished(t, true)
    else if |t| < 4 then Stuck
    else
      var size := HelperChunkSize(t[..4], 0);
      if size >= MaxChunkSize then Finished(t[4..], false)
      else if |t| < 24 then Stuck
      else Added(Chunk(Some(t[4..24]), Some(size)), t[24..])
  }

  /** The chunks of one entry, read until a step does not add one. */
  datatype Run = Ran(chunks: seq<Chunk>, rest: Bytes) | RunStuck

  function ChunkRun(s: Bytes, acc: seq<Chunk>): (r: Run)
    ensures r.Ran? ==> |r.rest| <= |s|
    decreases |s|
  {
    match ChunkStep(s)
    case Stuck => RunStuck
    case Finished(rest, _) => Ran(acc, rest)
    case Added(c, rest) => ChunkRun(rest, acc + [c])
  }

  // ---------------------------------------------------------------------
  // parseFileEntry
  // ---------------------------------------------------------------------

  /** A Go string holds bytes: byte `b` is the character with code `b`. */
  function AsText(bs: Bytes): (s: string)
    ensures |s| == |bs|
  {
    seq(|bs|, i requires 0 <= i < |bs| => (bs[i] as int) as char)
  }

  /** `strings.Trim(line, "\n")`: every leading and trailing line feed
      removed. */
  function TrimNewlines(s: string): (r: string)
    decreases |s|
  {
    if s != [] && s[0] == '\n' then TrimNewlines(s[1..])
    else if s != [] && s[|s| - 1] == '\n' then TrimNewlines(s[..|s| - 1])
    else s
  }

  /** The fields of a header line. */
  datatype Header = Header(filename: string, fsize: nat, ftype: string)

  /** `uint64(x)` for an `int64` value. */
  function Uint64(x: int): (r: nat)
    requires -(TwoTo63 as int) <= x < TwoTo63
    ensures r < TwoTo64
    ensures x >= 0 ==> r == x
    ensures x < 0 ==> r == x + TwoTo64
  {
    if x < 0 then x + TwoTo64 else x
  }

  /** The header of an entry: two or three tab-separated fields; the size
      parse error is ignored and its value reinterpreted as unsigned; the
      type is empty when the third field is missing. */
  function HeaderOf(line: string): (r: Option<Header>)
    ensures r.Some? <==> |Split(line, '\t')| in {2, 3}
    ensures r.Some? ==> r.value.filename == Split(line, '\t')[0]
    ensures r.Some? ==> r.value.ftype == (if |Split(line, '\t')| == 3 then Split(line, '\t')[2] else [])
  {
    var elements := Split(line, '\t');
    if |elements| != 2 && |elements| != 3 then None
    else
      var filesize := ParseInt64(elements[1]);
      var filetype := if |elements| >= 3 then elements[2] else [];
      Some(Header(elements[0], Uint64(filesize), filetype))
  }

  /** The `File` message of an entry with `n` chunks. */
  function FileOf(h: Header, n: nat): (f: File)
    ensures f.chunkCount == Some(ChunkCount32(n)) && f.fileLabel.None?
  {
    File(Some(h.filename), Some(h.fsize), None, Some(h.ftype), Some(ChunkCount32(n)))
  }

  /** The outcome of `parseFileEntry`: false (with the unread rest), a
      decoding that never returns, or a decoded entry. */
  datatype Outcome = NoEntry(rest: Bytes) | EntryStuck | Decoded(entry: Entry, rest: Bytes)

  function EntryOf(s: Bytes): (r: Outcome)
    ensures r.Decoded? ==> |r.rest| < |s|
    ensures r.Decoded? ==> r.entry.file.chunkCount == Some(ChunkCount32(|r.entry.chunks|))
  {
    var l := ReadLine(s);
    if !l.ok then NoEntry(l.rest)
    else
      match HeaderOf(TrimNewlines(AsText(l.data)))
      case None => NoEntry(l.rest)
      case Some(h) =>
        match ChunkRun(l.rest, [])
        case RunStuck => EntryStuck
        case Ran(cs, rest) => Decoded(Entry(FileOf(h, |cs|), cs), rest)
  }

  /** What `ParseFile` decodes: the entries up to the first false, and
      whether decoding then spins for ever. */
  datatype Trace = Trace(entries: seq<Entry>, stuck: bool)

  function EntriesFrom(s: Bytes, acc: seq<Entry>): (r: Trace)
    decreases |s|
  {
    match EntryOf(s)
    case NoEntry(_) => Trace(acc, false)
    case EntryStuck => Trace(acc, true)
    case Decoded(e, rest) => EntriesFrom(rest, acc + [e])
  }

  /** The payloads sent after one more entry, when no chunks were pending
      before it. */
  lemma SentAfterEntry(marshal: Msg -> Bytes, base: seq<Bytes>, entries: seq<Entry>, e: Entry)
    ensures base + MarshalAll(marshal, Msgs(entries)) + MarshalAll(marshal, [FileMsg(e.file)] + ChunkMsgs([] + e.chunks))
      == base + MarshalAll(marshal, Msgs(entries + [e]))
  {
    AppendEmpty(e.chunks);
    MsgsAppend(entries, e);
    MarshalAllAppend(marshal, Msgs(entries), EntryMsgs(e));
    AppendAssoc(base, MarshalAll(marshal, Msgs(entries)), MarshalAll(marshal, EntryMsgs(e)));
  }

  // ---------------------------------------------------------------------
  // The decoder object
  // ---------------------------------------------------------------------

  /** `LegacyParser`: the unread bytes of its reader, the chunks of the
      entry being decoded, and the payloads sent on its output channel. */
  class LegacyParser {
    var input: Bytes
    var chunks: seq<Chunk>
    var output: seq<Bytes>
    const marshal: Msg -> Bytes

    constructor(input: Bytes, marshal: Msg -> Bytes)
      ensures this.input == input && chunks == [] && output == [] && this.marshal == marshal
    {
      this.input := input;
      this.chunks := [];
      this.output := [];
      this.marshal := marshal;
    }

    /** `parseChunks`: `ok` when a chunk was appended to `chunks`. */
    method ParseChunks() returns (ok: bool, sizeMismatch: bool, stuck: bool)
      modifies this
      ensures output == old(output)
      ensures match ChunkStep(old(input))
        case Added(c, rest) => ok && !stuck && input == rest && chunks == old(chunks) + [c]
        case Finished(rest, m) => !ok && !stuck && sizeMismatch == m && input == rest && chunks == old(chunks)
        case Stuck => !ok && stuck && chunks == old(chunks)
    {
      var r := ReadRune(input);
      input := input[r.size..];
      var recordSize := r.value;
      if recordSize == 0 {
        input := ReadLine(input).rest;
        return false, false, false;
      }
      if recordSize != RecordSize {
        return false, true, false;
      }
      if |input| < 4 {
        return false, false, true;
      }
      var buffer := input[..4];
      input := input[4..];
      var chunksize := HelperChunkSize(buffer, 0);
      if chunksize >= MaxChunkSize {
        return false, false, false;
      }
      if |input| < 20 {
        return false, false, true;
      }
      assert old(input)[r.size..][4..24] == input[..20];
      var fp := input[..20];
      input := input[20..];
      chunks := chunks + [Chunk(Some(fp), Some(chunksize))];
      return true, false, false;
    }

    /** The chunk loop of `parseFileEntry`: `parseChunks` until it does not
        add a chunk; `chunkcount` counts the chunks added. */
    method ReadChunks() returns (chunkcount: nat, stuck: bool)
      modifies this
      ensures output == old(output)
      ensures match ChunkRun(old(input), [])
        case RunStuck => stuck
        case Ran(cs, rest) => !stuck && input == rest && chunks == old(chunks) + cs && chunkcount == |cs|
    {
      ghost var start := input;
      ghost var base := chunks;
      ghost var acc: seq<Chunk> := [];
      ghost var before := input;
      var ok, rsf;
      ok, rsf, stuck := ParseChunks();
      if ok {
        acc := acc + [chunks[|chunks| - 1]];
      }
      chunkcount := 0;
      while ok
        invariant output == old(output)
        invariant ok ==> (chunks == base + acc && |acc| == chunkcount + 1
          && ChunkRun(start, []) == ChunkRun(input, acc))
        invariant !ok && !stuck ==> (chunks == base + acc && |acc| == chunkcount
          && ChunkRun(start, []) == Ran(acc, input))
        invariant stuck ==> ChunkRun(start, []) == RunStuck
        decreases if ok then |input| + 1 else 0
      {
        chunkcount := chunkcount + 1;
        before := input;
        ok, rsf, stuck := ParseChunks();
        if ok {
          acc := acc + [chunks[|chunks| - 1]];
        }
      }
    }

    /** Sends the `File` message and then every pending chunk. */
    method SendEntry(f: File)
      modifies this`output
      ensures output == old(output) + MarshalAll(marshal, [FileMsg(f)] + ChunkMsgs(chunks))
    {
      output := output + [marshal(FileMsg(f))];
      for i := 0 to |chunks|
        invariant output == old(output) + MarshalAll(marshal, [FileMsg(f)] + ChunkMsgs(chunks[..i]))
      {
        output := output + [marshal(ChunkMsg(chunks[i]))];
      }
    }

    /** `parseFileEntry`: true after an entry was sent; the pending chunks
        are cleared. */
    method ParseFileEntry() returns (ok: bool, stuck: bool)
      modifies this
      ensures ok <==> EntryOf(old(input)).Decoded?
      ensures stuck <==> EntryOf(old(input)).EntryStuck?
      ensures !ok ==> output == old(output)
      ensures EntryOf(old(input)).NoEntry? ==> input == EntryOf(old(input)).rest && chunks == old(chunks)
      ensures ok ==> input == EntryOf(old(input)).rest && chunks == []
      ensures ok ==> output == old(output) + MarshalAll(marshal,
        [FileMsg(EntryOf(old(input)).entry.file)] + ChunkMsgs(old(chunks) + EntryOf(old(input)).entry.chunks))
    {
      var l := ReadLine(input);
      input := l.rest;
      if !l.ok {
        return false, false;
      }
      var h := HeaderOf(TrimNewlines(AsText(l.data)));
      if h.None? {
        return false, false;
      }
      var chunkcount;
      chunkcount, stuck := ReadChunks();
      if stuck {
        return false, true;
      }
      SendEntry(FileOf(h.value, chunkcount));
      chunks := [];
      return true, false;
    }

    /** `ParseFile`: entries until `parseFileEntry` returns false, or for
        ever when a chunk record is cut off by the end of the stream;
        `filecount` counts the entries. The pending chunks are empty between
        entries, as the constructor leaves them. */
    method ParseFile() returns (filecount: nat, stuck: bool)
      modifies this
      requires chunks == []
      ensures output == old(output) + MarshalAll(marshal, Msgs(EntriesFrom(old(input), []).entries))
      ensures stuck == EntriesFrom(old(input), []).stuck
      ensures filecount == |EntriesFrom(old(input), []).entries|
    {
      ghost var entries: seq<Entry> := [];
      filecount := 0;
      while true
        invariant chunks == [] && |entries| == filecount
        invariant output == old(output) + MarshalAll(marshal, Msgs(entries))
        invariant EntriesFrom(old(input), []) == EntriesFrom(input, entries)
        decreases |input|
      {
        ghost var e := EntryOf(input);
        ghost var sent := output;
        var ok;
        ok, stuck := ParseFileEntry();
        if !ok {
          return;
        }
        SentAfterEntry(marshal, old(output), entries, e.entry);
        entries := entries + [e.entry];
        filecount := filecount + 1;
      }
    }
  }
}
