/** What the legacy decoder makes of well-formed input: chunk records,
    the ways the records of an entry end, header lines, and whole entries. */
module LegacyProperties {
  import opened Common
  import opened Text
  import opened TraceProto
  import opened ByteStream
  import opened LegacyDecoder

  // ---------------------------------------------------------------------
  // Chunk records
  // ---------------------------------------------------------------------

  /** A chunk record by its fields. */
  datatype Record = Record(size: nat, fp: Bytes)

  predicate WellFormed(r: Record)
  {
    r.size < MaxChunkSize && |r.fp| == 20
  }

  /** The 25 bytes of a chunk record. */
  function RecordBytes(r: Record): (b: Bytes)
    requires WellFormed(r)
    ensures |b| == 25 && b[0] == 24
  {
    [24] + LittleEndian32(r.size) + r.fp
  }

  function RecordChunk(r: Record): Chunk
  {
    Chunk(Some(r.fp), Some(r.size))
  }

  /** A chunk record adds its chunk and leaves the bytes after it. */
  lemma ChunkStepOfRecord(r: Record, rest: Bytes)
    requires WellFormed(r)
    ensures ChunkStep(RecordBytes(r) + rest) == Added(RecordChunk(r), rest)
  {
    var s := RecordBytes(r) + rest;
    var t := s[1..];
    assert t[..4] == LittleEndian32(r.size) && t[4..24] == r.fp && t[24..] == rest;
    HelperChunkSizeOfLittleEndian(r.size);
  }

  /** A zero byte ends the records of an entry; the rest of its line is
      skipped. */
  lemma ChunkStepAtZero(l: Bytes, rest: Bytes)
    requires 10 !in l
    ensures ChunkStep([0] + l + [10] + rest) == Finished(rest, false)
  {
    var s := [0] + l + [10] + rest;
    assert s[1..] == l + [10] + rest;
    ReadLineOfLine(l, rest);
  }

  /** Any other ASCII byte than 0 and 24 ends the records of an entry with
      the size mismatch reported; only that byte is consumed. */
  lemma ChunkStepOtherSize(s: Bytes)
    requires s != [] && s[0] != 0 && s[0] != 24 && s[0] < 0x80
    ensures ChunkStep(s) == Finished(s[1..], true)
  {
  }

  /** A byte of 0x80 or more is decoded as UTF-8 and also ends the records
      with the size mismatch reported, after the whole rune. */
  lemma ChunkStepNonAscii(s: Bytes)
    requires s != [] && s[0] >= 0x80
    ensures ChunkStep(s) == Finished(s[DecodeMultiByte(s).size..], true)
  {
  }

  /** A chunk size of 64 KiB or more ends the records of an entry, leaving
      the fingerprint bytes unread. */
  lemma ChunkStepOversize(size: nat, rest: Bytes)
    requires MaxChunkSize <= size < TwoTo32
    ensures ChunkStep([24] + LittleEndian32(size) + rest) == Finished(rest, false)
  {
    var s := [24] + LittleEndian32(size) + rest;
    assert s[1..][..4] == LittleEndian32(size) && s[1..][4..] == rest;
    HelperChunkSizeOfLittleEndian(size);
  }

  /** A chunk record cut off by the end of the stream: the read-retry loop
      never ends. */
  lemma ChunkStepTruncated(r: Record, n: nat)
    requires WellFormed(r) && 0 < n < 25
    ensures ChunkStep(RecordBytes(r)[..n]) == Stuck
  {
    var s := RecordBytes(r)[..n];
    if n >= 5 {
      assert s[1..][..4] == LittleEndian32(r.size);
      HelperChunkSizeOfLittleEndian(r.size);
    }
  }

  function RecordsBytes(rs: seq<Record>): Bytes
    requires forall i :: 0 <= i < |rs| ==> WellFormed(rs[i])
  {
    if rs == [] then [] else RecordBytes(rs[0]) + RecordsBytes(rs[1..])
  }

  function RecordChunks(rs: seq<Record>): (cs: seq<Chunk>)
    ensures |cs| == |rs|
  {
    if rs == [] then [] else [RecordChunk(rs[0])] + RecordChunks(rs[1..])
  }

  /** The chunk loop of an entry reads every chunk record, in order, and
      stops where the records end. */
  lemma {:induction false} ChunkRunOfRecords(rs: seq<Record>, end: Bytes, acc: seq<Chunk>)
    requires forall i :: 0 <= i < |rs| ==> WellFormed(rs[i])
    requires ChunkStep(end).Finished?
    ensures ChunkRun(RecordsBytes(rs) + end, acc) == Ran(acc + RecordChunks(rs), ChunkStep(end).rest)
    decreases |rs|
  {
    if rs == [] {
      AppendEmpty(end);
      AppendEmpty(acc);
    } else {
      assert RecordsBytes(rs) + end == RecordBytes(rs[0]) + (RecordsBytes(rs[1..]) + end) by {
        AppendAssoc(RecordBytes(rs[0]), RecordsBytes(rs[1..]), end);
      }
      ChunkStepOfRecord(rs[0], RecordsBytes(rs[1..]) + end);
      ChunkRunOfRecords(rs[1..], end, acc + [RecordChunk(rs[0])]);
      AppendAssoc(acc, [RecordChunk(rs[0])], RecordChunks(rs[1..]));
    }
  }

  // ---------------------------------------------------------------------
  // Header lines
  // ---------------------------------------------------------------------

  /** The text of a line with its line feed is trimmed back to the line. */
  lemma TrimmedLine(l: Bytes)
    requires 10 !in l
    ensures TrimNewlines(AsText(l + [10])) == AsText(l)
  {
    var t := AsText(l);
    assert AsText(l + [10]) == t + "\n";
    assert '\n' !in t by {
      forall k | 0 <= k < |t| ensures t[k] != '\n' {
        assert l[k] in l;
      }
    }
    if t != [] {
      assert (t + "\n")[0] == t[0];
      assert (t + "\n")[..|t|] == t;
      assert t[|t| - 1] in t;
    }
  }

  /** A header of two fields: the type is empty. */
  lemma HeaderOfTwoFields(name: string, size: string)
    requires '\t' !in name && '\t' !in size
    ensures HeaderOf(name + "\t" + size) == Some(Header(name, Uint64(ParseInt64(size)), []))
  {
    SplitTwo(name, size, '\t');
  }

  /** A header of three fields: the third is the type. */
  lemma HeaderOfThreeFields(name: string, size: string, ftype: string)
    requires '\t' !in name && '\t' !in size && '\t' !in ftype
    ensures HeaderOf(name + "\t" + size + "\t" + ftype) == Some(Header(name, Uint64(ParseInt64(size)), ftype))
  {
    var s := name + "\t" + size + "\t" + ftype;
    assert s == name + ['\t'] + (size + ['\t'] + ftype);
    SplitCons(name, size + ['\t'] + ftype, '\t');
    SplitTwo(size, ftype, '\t');
  }

  /** A header line without a tab, or with more than two, is not an entry:
      `ParseFile` stops there. */
  lemma EntryOfBadHeader(l: Bytes, rest: Bytes, acc: seq<Entry>)
    requires 10 !in l
    requires |Split(AsText(l), '\t')| !in {2, 3}
    ensures EntryOf(l + [10] + rest) == NoEntry(rest)
    ensures EntriesFrom(l + [10] + rest, acc) == Trace(acc, false)
  {
    ReadLineOfLine(l, rest);
    TrimmedLine(l);
  }

  /** A negative size field is reinterpreted as a `uint64` value. */
  lemma NegativeSizeWraps(name: string, digits: string)
    requires '\t' !in name && digits != [] && AllDigits(digits) && 0 < DigitsValue(digits) < TwoTo63
    ensures HeaderOf(name + "\t" + ("-" + digits)) == Some(Header(name, TwoTo64 - DigitsValue(digits), []))
  {
    assert '\t' !in "-" + digits by {
      forall k | 0 <= k < |"-" + digits| ensures ("-" + digits)[k] != '\t' {
        if k > 0 {
          assert ("-" + digits)[k] == digits[k - 1] && IsDigit(digits[k - 1]);
        }
      }
    }
    HeaderOfTwoFields(name, "-" + digits);
    assert ("-" + digits)[1..] == digits;
  }

  // ---------------------------------------------------------------------
  // Whole entries
  // ---------------------------------------------------------------------

  /** A header line followed by a run of chunk lines is one entry. */
  lemma EntryOfParts(l: Bytes, h: Header, body: Bytes, cs: seq<Chunk>, rest: Bytes)
    requires 10 !in l && HeaderOf(AsText(l)) == Some(h)
    requires ChunkRun(body, []) == Ran(cs, rest)
    ensures EntryOf(l + [10] + body) == Decoded(Entry(FileOf(h, |cs|), cs), rest)
  {
    ReadLineOfLine(l, body);
    TrimmedLine(l);
  }

  /** An entry as a header line, its chunk records and a terminating zero
      line: decoded into its `File` message, which announces its chunk
      count, and its chunks. */
  lemma EntryOfRecords(l: Bytes, h: Header, rs: seq<Record>, z: Bytes, rest: Bytes)
    requires 10 !in l && HeaderOf(AsText(l)) == Some(h)
    requires forall i :: 0 <= i < |rs| ==> WellFormed(rs[i])
    requires 10 !in z
    ensures EntryOf(l + [10] + (RecordsBytes(rs) + ([0] + z + [10] + rest)))
      == Decoded(Entry(FileOf(h, |rs|), RecordChunks(rs)), rest)
  {
    var end := [0] + z + [10] + rest;
    assert ChunkRun(RecordsBytes(rs) + end, []) == Ran(RecordChunks(rs), rest) by {
      ChunkStepAtZero(z, rest);
      ChunkRunOfRecords(rs, end, []);
      AppendEmpty(RecordChunks(rs));
    }
    EntryOfParts(l, h, RecordsBytes(rs) + end, RecordChunks(rs), rest);
  }

  /** An entry whose records run to the end of the stream. */
  lemma EntryOfRecordsAtEnd(l: Bytes, h: Header, rs: seq<Record>)
    requires 10 !in l && HeaderOf(AsText(l)) == Some(h)
    requires forall i :: 0 <= i < |rs| ==> WellFormed(rs[i])
    ensures EntryOf(l + [10] + RecordsBytes(rs)) == Decoded(Entry(FileOf(h, |rs|), RecordChunks(rs)), [])
  {
    assert ChunkRun(RecordsBytes(rs), []) == Ran(RecordChunks(rs), []) by {
      AppendEmpty(RecordsBytes(rs));
      ChunkRunOfRecords(rs, [], []);
      AppendEmpty(RecordChunks(rs));
    }
    EntryOfParts(l, h, RecordsBytes(rs), RecordChunks(rs), []);
  }

  /** Every decoded entry announces its own number of chunks, modulo 2^32. */
  lemma {:induction false} EntriesFromCounts(s: Bytes, acc: seq<Entry>)
    requires CountsHold(acc)
    ensures CountsHold(EntriesFrom(s, acc).entries)
    decreases |s|
  {
    var o := EntryOf(s);
    if o.Decoded? {
      CountsAppend(acc, o.entry);
      EntriesFromCounts(o.rest, acc + [o.entry]);
    }
  }
}
