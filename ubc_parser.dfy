/** The decoder of the text traces of the UBC file-system study
    (`UBCParser`). A trace is a header ended by a blank line, then one record
    per file:

      dirhash:n / namehash:n / exthash:n   three `token:number` lines
      one line that is skipped
      the file size
      seven metadata lines
      fragment lines starting with `SV:`, `V:` or `A:`
      chunk lines `fingerprint:size`
      a blank line

    and possibly a line containing `LOGCOMPLETE`. The decoder's reader is
    modelled by the unread text, and what it sends on its output channel by
    the sequence of messages: for each record a `File` message, then one
    `Chunk` message per chunk line. A Go panic is an explicit outcome. */
module UbcDecoder {
  import opened Common
  import opened Text
  import opened TraceProto

  // ---------------------------------------------------------------------
  // skipHeader
  // ---------------------------------------------------------------------

  datatype Header = HeaderEnd(rest: string) | HeaderPanic

  /** The header lines after the first: read until a line that trims to
      nothing; the end of the text first is a panic. */
  function HeaderLines(s: string): (r: Header)
    ensures r.HeaderEnd? ==> |r.rest| < |s|
    decreases |s|
  {
    var l := ReadString(s);
    if !l.ok then HeaderPanic
    else if TrimSpace(l.line) == [] then HeaderEnd(l.rest)
    else HeaderLines(l.rest)
  }

  /** The text after the header: the first line is dropped whatever it
      holds, then every line up to and including the first blank one. */
  function AfterHeader(s: string): (r: Header)
    ensures r.HeaderEnd? ==> |r.rest| < |s|
  {
    var first := ReadString(s);
    if first.ok then HeaderLines(first.rest) else HeaderPanic
  }

  method SkipHeader(s: string) returns (r: Header)
    ensures r == AfterHeader(s)
  {
    var first := ReadString(s);
    if !first.ok {
      return HeaderPanic;
    }
    var line, ok, rest := first.line, true, first.rest;
    while ok && |line| > 0
      invariant ok && |line| > 0 ==> HeaderLines(rest) == AfterHeader(s)
      invariant ok && |line| == 0 ==> HeaderEnd(rest) == AfterHeader(s)
      invariant !ok ==> HeaderPanic == AfterHeader(s)
      decreases |rest| + (if ok then 1 else 0)
    {
      var l := ReadString(rest);
      line, ok, rest := TrimSpace(l.line), l.ok, l.rest;
    }
    if !ok {
      return HeaderPanic;
    }
    return HeaderEnd(rest);
  }

  // ---------------------------------------------------------------------
  // parseChunks
  // ---------------------------------------------------------------------

  /** The chunk part of a record: the chunks and the text after the blank
      line that ends them; or a failed read, after which the chunks read so
      far are dropped; or a panic on a chunk line whose size does not parse
      or whose fingerprint is left unset. */
  datatype Section = ChunkList(chunks: seq<Chunk>, rest: string) | ReadFailed | ChunkPanic

  /** The first field of a chunk line that stands for an all-zero
      fingerprint. */
  const ZeroToken: string := "zzzzzzzzzzzz"

  /** The fingerprint of a chunk line: six zero bytes for the zero token,
      otherwise the hex-decoded field, left unset (None) when it is not
      hex. */
  function Fingerprint(field: string): Option<Bytes>
  {
    if field == ZeroToken then Some([0, 0, 0, 0, 0, 0]) else HexDecode(field)
  }

  /** The chunk of one trimmed chunk line, or None when the source panics:
      no second field, a second field that is not a `uint32`, or a first
      field that leaves the fingerprint unset, so that marshalling the chunk
      fails on its missing required field. A third field is only logged. */
  function ChunkOfLine(line: string): (r: Option<Chunk>)
    ensures r.Some? <==> |Split(line, ':')| >= 2 && ParseUint(Split(line, ':')[1], TwoTo32).Some?
                         && Fingerprint(Split(line, ':')[0]).Some?
    ensures r.Some? ==> r.value.fp == Fingerprint(Split(line, ':')[0])
    ensures r.Some? ==> r.value.csize.Some? && r.value.csize.value < TwoTo32
  {
    var parts := Split(line, ':');
    if |parts| < 2 then None
    else
      match ParseUint(parts[1], TwoTo32)
      case None => None
      case Some(size) =>
        var fp := Fingerprint(parts[0]);
        if fp.None? then None else Some(Chunk(fp, Some(size)))
  }

  /** The text after `n` lines, or None when fewer lines are left. */
  function SkipLines(s: string, n: nat): (r: Option<string>)
    ensures r.Some? ==> |r.value| <= |s|
    decreases n
  {
    if n == 0 then Some(s)
    else
      var l := ReadString(s);
      if l.ok then SkipLines(l.rest, n - 1) else None
  }

  /** A trimmed line that describes a file fragment. */
  predicate IsFragLine(t: string)
  {
    HasPrefix(t, "SV:") || HasPrefix(t, "V:") || HasPrefix(t, "A:")
  }

  /** A line read and trimmed, with the text after it. */
  datatype Pending = Pending(line: string, rest: string)

  /** Skips the fragment lines: the first trimmed line that is not one, or
      None when the text ends first. */
  function AfterFrags(s: string): (r: Option<Pending>)
    ensures r.Some? ==> |r.value.rest| < |s|
    decreases |s|
  {
    var l := ReadString(s);
    if !l.ok then None
    else
      var t := TrimSpace(l.line);
      if IsFragLine(t) then AfterFrags(l.rest) else Some(Pending(t, l.rest))
  }

  /** The chunk loop from the trimmed line `line` on, with the chunks `acc`
      collected so far: an empty line ends it. */
  function ChunkLines(line: string, s: string, acc: seq<Chunk>): (r: Section)
    ensures r.ChunkList? ==> |r.rest| <= |s|
    decreases |s|
  {
    if line == [] then ChunkList(acc, s)
    else
      match ChunkOfLine(line)
      case None => ChunkPanic
      case Some(c) =>
        var l := ReadString(s);
        if l.ok then ChunkLines(TrimSpace(l.line), l.rest, acc + [c]) else ReadFailed
  }

  /** The chunk part of a record that starts at `s`. */
  function ChunkSection(s: string): (r: Section)
    ensures r.ChunkList? ==> |r.rest| <= |s|
  {
    match SkipLines(s, 7)
    case None => ReadFailed
    case Some(t) =>
      match AfterFrags(t)
      case None => ReadFailed
      case Some(p) => ChunkLines(p.line, p.rest, [])
  }

  /** The first loop of `parseChunks`: skips the seven metadata lines. */
  method SkipMeta(s: string) returns (r: Option<string>)
    ensures r == SkipLines(s, 7)
  {
    var rest := s;
    for i := 0 to 7
      invariant SkipLines(rest, 7 - i) == SkipLines(s, 7)
    {
      var l := ReadString(rest);
      if !l.ok {
        return None;
      }
      rest := l.rest;
    }
    return Some(rest);
  }

  /** The second loop of `parseChunks`: skips the fragment lines. */
  method SkipFrags(s: string) returns (r: Option<Pending>)
    ensures r == AfterFrags(s)
  {
    var rest := s;
    while true
      invariant AfterFrags(rest) == AfterFrags(s)
      decreases |rest|
    {
      var l := ReadString(rest);
      if !l.ok {
        return None;
      }
      var line := TrimSpace(l.line);
      if !IsFragLine(line) {
        return Some(Pending(line, l.rest));
      }
      rest := l.rest;
    }
  }

  /** The chunk loop of `parseChunks`. */
  method ReadChunkLines(line0: string, s: string) returns (r: Section)
    ensures r == ChunkLines(line0, s, [])
  {
    var line, rest := line0, s;
    var chunks: seq<Chunk> := [];
    while |line| > 0
      invariant ChunkLines(line, rest, chunks) == ChunkLines(line0, s, [])
      decreases |rest|
    {
      var c := ChunkOfLine(line);
      if c.None? {
        return ChunkPanic;
      }
      chunks := chunks + [c.value];
      var l := ReadString(rest);
      if !l.ok {
        return ReadFailed;
      }
      line, rest := TrimSpace(l.line), l.rest;
    }
    return ChunkList(chunks, rest);
  }

  method ParseChunks(s: string) returns (r: Section)
    ensures r == ChunkSection(s)
  {
    var meta := SkipMeta(s);
    if meta.None? {
      return ReadFailed;
    }
    var first := SkipFrags(meta.value);
    if first.None? {
      return ReadFailed;
    }
    r := ReadChunkLines(first.value.line, first.value.rest);
  }

  // ---------------------------------------------------------------------
  // parseFileEntry
  // ---------------------------------------------------------------------

  /** One call of the record decoder: the end of the trace (the text is
      exhausted, or the next line contains `LOGCOMPLETE`), a panic, or a
      decoded entry and the text after it. */
  datatype Outcome = NoEntry | EntryPanic | Decoded(entry: Entry, rest: string)

  /** The `File` message of a record with the given name parts and size,
      announcing `n` chunks in its `uint32` counter: the label is the
      extension part, which ends the name. */
  function FileOf(dir: string, name: string, ext: string, size: nat, n: nat): (f: File)
    ensures f.filename.Some? && f.fileLabel == Some(ext) && HasSuffix(f.filename.value, ext)
    ensures f.ftype.None? && f.chunkCount == Some(ChunkCount32(n))
  {
    var prefix := dir + name;
    assert (prefix + ext)[|prefix|..] == ext;
    File(Some(prefix + ext), Some(size), Some(ext), None, Some(ChunkCount32(n)))
  }

  /** The three name parts of a record. */
  datatype NameParts = NameParts(dir: string, name: string, ext: string, rest: string)

  /** The name parts from the record's first line and the two lines that
      follow it; None when the source panics (a line is missing or has no
      `token:number` pair). */
  function NamesOf(first: string, s: string): (r: Option<NameParts>)
    ensures r.Some? ==> |r.value.rest| <= |s|
  {
    var l2 := ReadString(s);
    if !l2.ok then None
    else
      var l3 := ReadString(l2.rest);
      if !l3.ok then None
      else
        var dir := ColonToken(TrimSpace(first));
        var name := ColonToken(TrimSpace(l2.line));
        var ext := ColonToken(TrimSpace(l3.line));
        if dir.None? || name.None? || ext.None? then None
        else Some(NameParts(dir.value, name.value, ext.value, l3.rest))
  }

  /** A size read, and the text after it. */
  datatype Sized = Sized(size: nat, rest: string)

  /** Skips one line, whatever it holds, and reads the file size from the
      next; None when the source panics. */
  function SizeOf(s: string): (r: Option<Sized>)
    ensures r.Some? ==> |r.value.rest| <= |s| && r.value.size < TwoTo64
  {
    var l4 := ReadString(s);
    var l5 := ReadString(l4.rest);
    if !l5.ok then None
    else
      match ParseUint(TrimSpace(l5.line), TwoTo64)
      case None => None
      case Some(size) => Some(Sized(size, l5.rest))
  }

  /** The outcome of a record whose name parts and size are read, by its
      chunk part. A failed read in the chunk part keeps the `File` message,
      with no chunks and a chunk count of 0. */
  function EntryOfSection(n: NameParts, z: Sized, sec: Section): (r: Outcome)
    ensures r.Decoded? ==> sec.ChunkList? ==> r.rest == sec.rest
    ensures r.Decoded? ==> sec.ReadFailed? ==> r.rest == []
    ensures r.Decoded? ==> r.entry.file.chunkCount == Some(ChunkCount32(|r.entry.chunks|))
    ensures r.EntryPanic? <==> sec.ChunkPanic?
  {
    match sec
    case ChunkPanic => EntryPanic
    case ReadFailed => Decoded(Entry(FileOf(n.dir, n.name, n.ext, z.size, 0), []), [])
    case ChunkList(cs, rest) => Decoded(Entry(FileOf(n.dir, n.name, n.ext, z.size, |cs|), cs), rest)
  }

  /** `parseFileEntry`: one record decoded. */
  function EntryOf(s: string): (r: Outcome)
    ensures r.Decoded? ==> |r.rest| < |s|
    ensures r.Decoded? ==> r.entry.file.chunkCount == Some(ChunkCount32(|r.entry.chunks|))
    ensures !ReadString(s).ok ==> r == NoEntry
  {
    var l1 := ReadString(s);
    if !l1.ok || Contains(l1.line, "LOGCOMPLETE") then NoEntry
    else
      assert |l1.rest| < |s| by {
        assert |l1.line| + |l1.rest| == |s|;
      }
      match NamesOf(l1.line, l1.rest)
      case None => EntryPanic
      case Some(n) =>
        match SizeOf(n.rest)
        case None => EntryPanic
        case Some(z) =>
          var sec := ChunkSection(z.rest);
          assert sec.ChunkList? ==> |sec.rest| <= |z.rest| <= |n.rest| <= |l1.rest|;
          EntryOfSection(n, z, sec)
  }

  method ParseFileEntry(s: string) returns (r: Outcome)
    ensures r == EntryOf(s)
  {
    var l1 := ReadString(s);
    if !l1.ok || Contains(l1.line, "LOGCOMPLETE") {
      return NoEntry;
    }
    var names := NamesOf(l1.line, l1.rest);
    if names.None? {
      return EntryPanic;
    }
    var n := names.value;
    var sized := SizeOf(n.rest);
    if sized.None? {
      return EntryPanic;
    }
    var z := sized.value;
    var section := ParseChunks(z.rest);
    match section
    case ChunkPanic =>
      return EntryPanic;
    case ReadFailed =>
      return Decoded(Entry(FileOf(n.dir, n.name, n.ext, z.size, 0), []), []);
    case ChunkList(cs, rest) =>
      return Decoded(Entry(FileOf(n.dir, n.name, n.ext, z.size, |cs|), cs), rest);
  }

  // ---------------------------------------------------------------------
  // ParseFile
  // ---------------------------------------------------------------------

  /** The entries decoded, in order, and whether decoding ended in a panic
      (the messages of the entries before it have been sent). */
  datatype Trace = Trace(entries: seq<Entry>, panicked: bool)

  function EntriesFrom(s: string, acc: seq<Entry>): (r: Trace)
    decreases |s|
  {
    match EntryOf(s)
    case NoEntry => Trace(acc, false)
    case EntryPanic => Trace(acc, true)
    case Decoded(e, rest) => EntriesFrom(rest, acc + [e])
  }

  /** What decoding a whole UBC trace yields. */
  function TraceOf(s: string): Trace
  {
    match AfterHeader(s)
    case HeaderPanic => Trace([], true)
    case HeaderEnd(rest) => EntriesFrom(rest, [])
  }

  /** `ParseFile`: the marshalled messages sent for a whole trace, and
      whether decoding panicked. */
  method ParseFile(s: string, marshal: Msg -> Bytes) returns (sent: seq<Bytes>, panicked: bool)
    ensures sent == MarshalAll(marshal, Msgs(TraceOf(s).entries))
    ensures panicked == TraceOf(s).panicked
  {
    var header := SkipHeader(s);
    if header.HeaderPanic? {
      return [], true;
    }
    var rest := header.rest;
    ghost var entries: seq<Entry> := [];
    sent := [];
    while true
      invariant EntriesFrom(rest, entries) == TraceOf(s)
      invariant sent == MarshalAll(marshal, Msgs(entries))
      decreases |rest|
    {
      var r := ParseFileEntry(rest);
      match r
      case NoEntry =>
        return sent, false;
      case EntryPanic =>
        return sent, true;
      case Decoded(e, rest') =>
        MsgsAppend(entries, e);
        MarshalAllAppend(marshal, Msgs(entries), EntryMsgs(e));
        sent := sent + MarshalAll(marshal, EntryMsgs(e));
        entries := entries + [e];
        rest := rest';
    }
  }
}
