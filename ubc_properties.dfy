/** What the UBC decoder makes of well-formed traces: the header is skipped,
    every record becomes one `File` message announcing its chunk count and
    one `Chunk` message per chunk line, a trace ends at the end of the text
    or at a `LOGCOMPLETE` line, and a record cut off inside its chunk part
    keeps its `File` message but loses its chunks. */
module UbcProperties {
  import opened Common
  import opened Text
  import opened TraceProto
  import opened UbcDecoder

  // ---------------------------------------------------------------------
  // Well-formed traces
  // ---------------------------------------------------------------------

  predicate IsToken(t: string)
  {
    t != [] && forall k :: 0 <= k < |t| ==> IsTokenChar(t[k])
  }

  predicate IsNumber(n: string)
  {
    n != [] && AllDigits(n)
  }

  /** A `token:number` line. */
  function Pair(t: string, n: string): string
  {
    t + ":" + n
  }

  /** A chunk line by its two fields. */
  datatype ChunkText = ChunkText(fp: string, size: string)

  /** A chunk line the decoder accepts: a first field without colon, line
      break or leading space that is hex or the all-`z` token, and a
      `uint32` size. */
  predicate WellFormedChunk(c: ChunkText)
  {
    ':' !in c.fp && '\n' !in c.fp
    && (c.fp == [] || !IsSpace(c.fp[0]))
    && Fingerprint(c.fp).Some?
    && IsNumber(c.size) && DigitsValue(c.size) < TwoTo32
  }

  /** The first chunk line of a record is also the line that stops the
      fragment loop, so its first field is none of the fragment tags. The
      chunk loop itself looks at no prefix. */
  predicate OpensChunkPart(c: ChunkText)
  {
    c.fp != "SV" && c.fp != "V" && c.fp != "A"
  }

  function ChunkLine(c: ChunkText): string
  {
    c.fp + ":" + c.size
  }

  function ChunkLineTexts(cs: seq<ChunkText>): (ls: seq<string>)
    ensures |ls| == |cs| && forall i :: 0 <= i < |cs| ==> ls[i] == ChunkLine(cs[i])
  {
    if cs == [] then [] else [ChunkLine(cs[0])] + ChunkLineTexts(cs[1..])
  }

  /** The chunk a well-formed chunk line stands for. */
  function ChunkValue(c: ChunkText): Chunk
    requires WellFormedChunk(c)
  {
    Chunk(Fingerprint(c.fp), Some(DigitsValue(c.size)))
  }

  function ChunkValues(cs: seq<ChunkText>): (r: seq<Chunk>)
    requires forall i :: 0 <= i < |cs| ==> WellFormedChunk(cs[i])
    ensures |r| == |cs|
  {
    if cs == [] then [] else [ChunkValue(cs[0])] + ChunkValues(cs[1..])
  }

  /** A fragment line as the decoder sees it after trimming. */
  predicate IsFrag(f: string)
  {
    IsLine(f) && IsFragLine(f) && !IsSpace(f[0]) && !IsSpace(f[|f| - 1])
  }

  /** One file record, by its fields. */
  datatype Record = Record(
    dir: string, dirCount: string,
    name: string, nameCount: string,
    ext: string, extCount: string,
    skipped: string, size: string,
    meta: seq<string>, frags: seq<string>,
    chunks: seq<ChunkText>, blank: string)

  predicate WellFormed(r: Record)
  {
    IsToken(r.dir) && IsNumber(r.dirCount)
    && IsToken(r.name) && IsNumber(r.nameCount)
    && IsToken(r.ext) && IsNumber(r.extCount)
    && IsLine(r.skipped) && IsNumber(r.size) && DigitsValue(r.size) < TwoTo64
    && |r.meta| == 7 && (forall i :: 0 <= i < 7 ==> IsLine(r.meta[i]))
    && (forall i :: 0 <= i < |r.frags| ==> IsFrag(r.frags[i]))
    && (forall i :: 0 <= i < |r.chunks| ==> WellFormedChunk(r.chunks[i]))
    && (r.chunks != [] ==> OpensChunkPart(r.chunks[0]))
    && IsLine(r.blank) && AllSpace(r.blank)
  }

  /** The five lines that open a record. */
  function HeadLines(r: Record): seq<string>
  {
    [Pair(r.dir, r.dirCount)] + ([Pair(r.name, r.nameCount)] + ([Pair(r.ext, r.extCount)] + ([r.skipped] + [r.size])))
  }

  /** The lines of a record after its head, up to the blank line. */
  function BodyLines(r: Record): seq<string>
  {
    r.meta + r.frags + ChunkLineTexts(r.chunks)
  }

  function RecordText(r: Record): string
  {
    Lines(HeadLines(r) + BodyLines(r) + [r.blank])
  }

  /** The entry the decoder should produce for a record: the name is the
      three hashes joined, the label the extension hash, the size the size
      line, and the chunk count the number of chunk lines. */
  function RecordEntry(r: Record): Entry
    requires WellFormed(r)
  {
    Entry(FileOf(r.dir, r.name, r.ext, DigitsValue(r.size), |r.chunks|), ChunkValues(r.chunks))
  }

  // ---------------------------------------------------------------------
  // skipHeader
  // ---------------------------------------------------------------------

  /** The header is its first line, whatever it holds, then lines with some
      non-space character, then a blank line; the decoder resumes right
      after the blank line. */
  lemma AfterHeaderOf(h0: string, hs: seq<string>, b: string, rest: string)
    requires IsLine(h0)
    requires forall i :: 0 <= i < |hs| ==> IsLine(hs[i]) && !AllSpace(hs[i])
    requires IsLine(b) && AllSpace(b)
    ensures AfterHeader(Lines([h0] + hs + [b]) + rest) == HeaderEnd(rest)
  {
    var ls := [h0] + hs + [b];
    assert ReadString(Lines(ls) + rest) == Read(h0 + "\n", Lines(hs + [b]) + rest, true) by {
      ReadFirstLine(ls, rest);
      TailOfAppend([h0] + hs, [b]);
      TailOfCons(h0, hs);
    }
    assert HeaderLines(Lines(hs + [b]) + rest) == HeaderEnd(rest) by {
      HeaderLinesOf(hs, b, rest);
    }
  }

  lemma {:induction false} HeaderLinesOf(hs: seq<string>, b: string, rest: string)
    requires forall i :: 0 <= i < |hs| ==> IsLine(hs[i]) && !AllSpace(hs[i])
    requires IsLine(b) && AllSpace(b)
    ensures HeaderLines(Lines(hs + [b]) + rest) == HeaderEnd(rest)
    decreases |hs|
  {
    var ls := hs + [b];
    ReadFirstLine(ls, rest);
    AllSpaceNewline(ls[0]);
    TrimSpaceEmpty(ls[0] + "\n");
    if hs == [] {
      AppendEmpty(rest);
    } else {
      TailOfAppend(hs, [b]);
      HeaderLinesOf(hs[1..], b, rest);
    }
  }

  // ---------------------------------------------------------------------
  // parseChunks
  // ---------------------------------------------------------------------

  /** A well-formed chunk line yields its chunk; the all-`z` first field
      gives six zero bytes and any other field its hex decoding. */
  lemma ChunkOfLineOf(c: ChunkText)
    requires WellFormedChunk(c)
    ensures ChunkOfLine(ChunkLine(c)) == Some(ChunkValue(c))
    ensures c.fp == ZeroToken ==> ChunkValue(c).fp == Some([0, 0, 0, 0, 0, 0])
    ensures c.fp != ZeroToken ==> ChunkValue(c).fp == HexDecode(c.fp)
  {
    assert forall k :: 0 <= k < |c.size| ==> c.size[k] != ':' by {
      forall k | 0 <= k < |c.size| ensures c.size[k] != ':' {
        assert IsDigit(c.size[k]);
      }
    }
    SplitTwo(c.fp, c.size, ':');
  }

  /** A chunk line starts with the tag `t` and a colon exactly when its
      first field is `t`, since neither holds a colon. */
  lemma ChunkLineTagged(c: ChunkText, t: string)
    requires ':' !in c.fp && ':' !in t
    ensures HasPrefix(ChunkLine(c), t + ":") <==> c.fp == t
  {
    var l := ChunkLine(c);
    var p := t + ":";
    if HasPrefix(l, p) {
      assert forall k :: 0 <= k < |c.fp| ==> l[k] == c.fp[k];
      assert forall k :: 0 <= k < |p| ==> l[..|p|][k] == l[k] == p[k];
      assert l[|c.fp|] == ':' && p[|t|] == ':';
      assert |c.fp| == |t|;
      assert c.fp == l[..|t|] == t;
    }
    if c.fp == t {
      assert l[..|p|] == p;
    }
  }

  /** A chunk line is a fragment line exactly when its first field is one
      of the fragment tags. */
  lemma NotFragLine(c: ChunkText)
    requires ':' !in c.fp
    ensures IsFragLine(ChunkLine(c)) <==> !OpensChunkPart(c)
  {
    ChunkLineTagged(c, "SV");
    ChunkLineTagged(c, "V");
    ChunkLineTagged(c, "A");
  }

  /** A chunk line is a line and is its own trimmed form. */
  lemma ChunkLineTrimmed(c: ChunkText)
    requires WellFormedChunk(c)
    ensures IsLine(ChunkLine(c))
    ensures TrimSpace(ChunkLine(c) + "\n") == ChunkLine(c)
  {
    var l := ChunkLine(c);
    forall k | 0 <= k < |l| ensures l[k] != '\n' {
      if k < |c.fp| {
        assert l[k] == c.fp[k];
      } else if k > |c.fp| {
        assert l[k] == c.size[k - |c.fp| - 1];
        assert IsDigit(c.size[k - |c.fp| - 1]);
      }
    }
    assert l[|l| - 1] == c.size[|c.size| - 1];
    assert IsDigit(l[|l| - 1]);
    TrimSpaceDropsNewline(l);
  }

  /** Reading `|ls|` lines skips exactly the lines `ls`. */
  lemma {:induction false} SkipLinesOf(ls: seq<string>, rest: string)
    requires forall i :: 0 <= i < |ls| ==> IsLine(ls[i])
    ensures SkipLines(Lines(ls) + rest, |ls|) == Some(rest)
    decreases |ls|
  {
    if ls == [] {
      AppendEmpty(rest);
    } else {
      ReadFirstLine(ls, rest);
      SkipLinesOf(ls[1..], rest);
    }
  }

  /** The fragment loop stops at the first line after the fragment lines,
      trimmed. */
  lemma {:induction false} AfterFragsOf(frags: seq<string>, ys: seq<string>, rest: string)
    requires forall i :: 0 <= i < |frags| ==> IsFrag(frags[i])
    requires ys != [] && IsLine(ys[0]) && !IsFragLine(TrimSpace(ys[0] + "\n"))
    ensures AfterFrags(Lines(frags + ys) + rest) == Some(Pending(TrimSpace(ys[0] + "\n"), Lines(ys[1..]) + rest))
    decreases |frags|
  {
    if frags == [] {
      AppendEmpty(ys);
      ReadFirstLine(ys, rest);
    } else {
      var ls := frags + ys;
      TailOfAppend(frags, ys);
      assert ls[0] == frags[0];
      ReadFirstLine(ls, rest);
      TrimSpaceDropsNewline(frags[0]);
      AfterFragsOf(frags[1..], ys, rest);
    }
  }

  /** The texts and values of chunk lines, one line at a time. */
  lemma ChunkListsCons(cs: seq<ChunkText>)
    requires cs != [] && forall i :: 0 <= i < |cs| ==> WellFormedChunk(cs[i])
    ensures ChunkLineTexts(cs) == [ChunkLine(cs[0])] + ChunkLineTexts(cs[1..])
    ensures ChunkValues(cs) == [ChunkValue(cs[0])] + ChunkValues(cs[1..])
  {
  }

  /** The chunk loop reads every chunk line up to the blank line. */
  lemma {:induction false} ChunkLinesOf(cs: seq<ChunkText>, b: string, rest: string, acc: seq<Chunk>)
    requires cs != [] && forall i :: 0 <= i < |cs| ==> WellFormedChunk(cs[i])
    requires IsLine(b) && AllSpace(b)
    ensures ChunkLines(ChunkLine(cs[0]), Lines(ChunkLineTexts(cs[1..]) + [b]) + rest, acc)
      == ChunkList(acc + ChunkValues(cs), rest)
    decreases |cs|
  {
    var c := ChunkValue(cs[0]);
    ChunkOfLineOf(cs[0]);
    ChunkListsCons(cs);
    var ys := ChunkLineTexts(cs[1..]) + [b];
    ReadFirstLine(ys, rest);
    if |cs| == 1 {
      assert ys[0] == b;
      AllSpaceNewline(b);
      TrimSpaceEmpty(b + "\n");
      AppendEmpty(rest);
      AppendEmpty([c]);
    } else {
      ChunkListsCons(cs[1..]);
      TailOfAppend(ChunkLineTexts(cs[1..]), [b]);
      TailOfCons(ChunkLine(cs[1]), ChunkLineTexts(cs[1..][1..]));
      TailOfTail(cs);
      ChunkLineTrimmed(cs[1]);
      ChunkLinesOf(cs[1..], b, rest, acc + [c]);
      AppendAssoc(acc, [c], ChunkValues(cs[1..]));
    }
  }

  /** The lines of a record's body followed by `ys`, split after the
      metadata lines. */
  lemma BodySplit(r: Record, ys: seq<string>, rest: string)
    ensures Lines(r.meta + r.frags + ys) + rest == Lines(r.meta) + (Lines(r.frags + ys) + rest)
  {
    AppendAssoc(r.meta, r.frags, ys);
    LinesConcat(r.meta, r.frags + ys);
    AppendAssoc(Lines(r.meta), Lines(r.frags + ys), rest);
  }

  /** The metadata lines of a record are skipped by the first loop. */
  lemma MetaSkipped(r: Record, ys: seq<string>, rest: string)
    requires WellFormed(r)
    ensures SkipLines(Lines(r.meta + r.frags + ys) + rest, 7) == Some(Lines(r.frags + ys) + rest)
  {
    BodySplit(r, ys, rest);
    SkipLinesOf(r.meta, Lines(r.frags + ys) + rest);
  }

  /** The fragment loop stops at the first chunk line after the fragment
      lines. */
  lemma FirstChunkAfterFrags(frags: seq<string>, cs: seq<ChunkText>, ys: seq<string>, rest: string)
    requires forall i :: 0 <= i < |frags| ==> IsFrag(frags[i])
    requires cs != [] && forall i :: 0 <= i < |cs| ==> WellFormedChunk(cs[i])
    requires OpensChunkPart(cs[0])
    ensures AfterFrags(Lines(frags + (ChunkLineTexts(cs) + ys)) + rest)
      == Some(Pending(ChunkLine(cs[0]), Lines(ChunkLineTexts(cs[1..]) + ys) + rest))
  {
    var zs := ChunkLineTexts(cs) + ys;
    assert zs != [] && zs[0] == ChunkLine(cs[0]) && zs[1..] == ChunkLineTexts(cs[1..]) + ys by {
      ChunkListsCons(cs);
      TailOfAppend(ChunkLineTexts(cs), ys);
      TailOfCons(ChunkLine(cs[0]), ChunkLineTexts(cs[1..]));
    }
    ChunkLineTrimmed(cs[0]);
    NotFragLine(cs[0]);
    AfterFragsOf(frags, zs, rest);
  }

  /** The fragment loop stops at a blank line after the fragment lines. */
  lemma BlankAfterFrags(frags: seq<string>, b: string, rest: string)
    requires forall i :: 0 <= i < |frags| ==> IsFrag(frags[i])
    requires IsLine(b) && AllSpace(b)
    ensures AfterFrags(Lines(frags + [b]) + rest) == Some(Pending([], rest))
  {
    AllSpaceNewline(b);
    TrimSpaceEmpty(b + "\n");
    AfterFragsOf(frags, [b], rest);
    AppendEmpty(rest);
  }


  /** The chunk part, once the metadata and fragment loops are done. */
  lemma ChunkSectionSteps(s: string, after: string, p: Option<Pending>)
    requires SkipLines(s, 7) == Some(after) && AfterFrags(after) == p
    ensures ChunkSection(s) == if p.None? then ReadFailed else ChunkLines(p.value.line, p.value.rest, [])
  {
  }

  /** The chunk part of a well-formed record: exactly its chunks, and the
      decoder resumes after the blank line. */
  lemma ChunkSectionOf(r: Record, rest: string)
    requires WellFormed(r)
    ensures ChunkSection(Lines(BodyLines(r) + [r.blank]) + rest) == ChunkList(ChunkValues(r.chunks), rest)
  {
    var s := Lines(BodyLines(r) + [r.blank]) + rest;
    var ys := ChunkLineTexts(r.chunks) + [r.blank];
    var after := Lines(r.frags + ys) + rest;
    assert SkipLines(s, 7) == Some(after) by {
      AppendAssoc(r.meta + r.frags, ChunkLineTexts(r.chunks), [r.blank]);
      MetaSkipped(r, ys, rest);
    }
    var p := AfterFrags(after);
    assert p.Some? && ChunkLines(p.value.line, p.value.rest, []) == ChunkList(ChunkValues(r.chunks), rest) by {
      if r.chunks == [] {
        AppendEmpty([r.blank]);
        BlankAfterFrags(r.frags, r.blank, rest);
      } else {
        FirstChunkAfterFrags(r.frags, r.chunks, [r.blank], rest);
        ChunkLinesOf(r.chunks, r.blank, rest, []);
        AppendEmpty(ChunkValues(r.chunks));
      }
    }
    ChunkSectionSteps(s, after, p);
  }

  /** The chunk loop hits the end of the text before the blank line: the
      chunks read so far are dropped. */
  lemma {:induction false} ChunkLinesTruncated(cs: seq<ChunkText>, partial: string, acc: seq<Chunk>)
    requires cs != [] && forall i :: 0 <= i < |cs| ==> WellFormedChunk(cs[i])
    requires '\n' !in partial
    ensures ChunkLines(ChunkLine(cs[0]), Lines(ChunkLineTexts(cs[1..])) + partial, acc) == ReadFailed
    decreases |cs|
  {
    ChunkOfLineOf(cs[0]);
    var ys := ChunkLineTexts(cs[1..]);
    if |cs| == 1 {
      AppendEmpty(partial);
      ReadStringNoNewline(partial);
    } else {
      ChunkListsCons(cs[1..]);
      ReadFirstLine(ys, partial);
      TailOfCons(ChunkLine(cs[1]), ChunkLineTexts(cs[1..][1..]));
      TailOfTail(cs);
      ChunkLineTrimmed(cs[1]);
      ChunkLinesTruncated(cs[1..], partial, acc + [ChunkValue(cs[0])]);
    }
  }

  /** The fragment loop hits the end of the text. */
  lemma {:induction false} AfterFragsTruncated(frags: seq<string>, partial: string)
    requires forall i :: 0 <= i < |frags| ==> IsFrag(frags[i])
    requires '\n' !in partial
    ensures AfterFrags(Lines(frags) + partial) == None
    decreases |frags|
  {
    if frags == [] {
      AppendEmpty(partial);
      ReadStringNoNewline(partial);
    } else {
      ReadFirstLine(frags, partial);
      TrimSpaceDropsNewline(frags[0]);
      AfterFragsTruncated(frags[1..], partial);
    }
  }

  /** A record whose text ends, without a newline, before the blank line
      that closes its chunk part: the chunk part is a failed read. */
  lemma ChunkSectionTruncated(r: Record, partial: string)
    requires WellFormed(r) && '\n' !in partial
    ensures ChunkSection(Lines(BodyLines(r)) + partial) == ReadFailed
  {
    var s := Lines(BodyLines(r)) + partial;
    var cl := ChunkLineTexts(r.chunks);
    var after := Lines(r.frags + cl) + partial;
    assert SkipLines(s, 7) == Some(after) by {
      MetaSkipped(r, cl, partial);
    }
    var p := AfterFrags(after);
    assert p.None? || ChunkLines(p.value.line, p.value.rest, []) == ReadFailed by {
      if r.chunks == [] {
        AppendEmpty(r.frags);
        AfterFragsTruncated(r.frags, partial);
      } else {
        AppendEmpty(cl);
        AppendEmpty(ChunkLineTexts(r.chunks[1..]));
        FirstChunkAfterFrags(r.frags, r.chunks, [], partial);
        ChunkLinesTruncated(r.chunks, partial, []);
      }
    }
    ChunkSectionSteps(s, after, p);
  }


  // ---------------------------------------------------------------------
  // parseFileEntry
  // ---------------------------------------------------------------------

  /** A `token:number` line holds no line break and no `L`. */
  lemma PairChars(t: string, n: string)
    requires IsToken(t) && IsNumber(n)
    ensures IsLine(Pair(t, n)) && 'L' !in Pair(t, n) + "\n"
  {
    var l := Pair(t, n) + "\n";
    forall k | 0 <= k < |l| ensures l[k] != 'L' && (k < |l| - 1 ==> l[k] != '\n') {
      if k < |t| {
        assert l[k] == t[k] && IsTokenChar(t[k]);
      } else if |t| < k < |l| - 1 {
        assert l[k] == n[k - |t| - 1] && IsDigit(n[k - |t| - 1]);
      }
    }
    assert Pair(t, n) == l[..|l| - 1];
  }

  /** A `token:number` line is read back as its token, and holds no `L`
      (so no `LOGCOMPLETE`). */
  lemma PairTrimmed(t: string, n: string)
    requires IsToken(t) && IsNumber(n)
    ensures TrimSpace(Pair(t, n) + "\n") == Pair(t, n)
    ensures ColonToken(TrimSpace(Pair(t, n) + "\n")) == Some(t)
    ensures IsLine(Pair(t, n)) && 'L' !in Pair(t, n) + "\n"
  {
    var l := Pair(t, n);
    assert l[0] == t[0] && l[|l| - 1] == n[|n| - 1];
    assert IsDigit(n[|n| - 1]);
    TrimSpaceDropsNewline(l);
    ColonTokenOfPair(t, n);
    PairChars(t, n);
  }

  /** The three name lines of a record give its name parts. */
  lemma NamesOfHead(r: Record, t: string)
    requires WellFormed(r)
    ensures NamesOf(Pair(r.dir, r.dirCount) + "\n", Lines(HeadLines(r)[1..]) + t)
      == Some(NameParts(r.dir, r.name, r.ext, Lines([r.skipped] + [r.size]) + t))
  {
    var tail := [r.skipped] + [r.size];
    var ls := [Pair(r.name, r.nameCount)] + ([Pair(r.ext, r.extCount)] + tail);
    TailOfCons(Pair(r.dir, r.dirCount), ls);
    PairTrimmed(r.dir, r.dirCount);
    PairTrimmed(r.name, r.nameCount);
    PairTrimmed(r.ext, r.extCount);
    ReadConsLine(Pair(r.name, r.nameCount), [Pair(r.ext, r.extCount)] + tail, t);
    ReadConsLine(Pair(r.ext, r.extCount), tail, t);
  }

  /** The skipped line and the size line of a record give its size. */
  lemma SizeOfHead(skipped: string, size: string, t: string)
    requires IsLine(skipped) && IsNumber(size) && DigitsValue(size) < TwoTo64
    ensures SizeOf(Lines([skipped] + [size]) + t) == Some(Sized(DigitsValue(size), t))
  {
    ReadConsLine(skipped, [size], t);
    assert ReadString(Lines([size]) + t) == Read(size + "\n", t, true) by {
      ReadConsLine(size, [], t);
      AppendEmpty([size]);
      AppendEmpty(t);
    }
    DigitsTrimmed(size);
  }

  /** A record's outcome once its head has been read. */
  lemma EntryOfSteps(s: string, n: NameParts, z: Sized)
    requires ReadString(s).ok && !Contains(ReadString(s).line, "LOGCOMPLETE")
    requires NamesOf(ReadString(s).line, ReadString(s).rest) == Some(n)
    requires SizeOf(n.rest) == Some(z)
    ensures EntryOf(s) ==
      match ChunkSection(z.rest)
      case ChunkPanic => EntryPanic
      case ReadFailed => Decoded(Entry(FileOf(n.dir, n.name, n.ext, z.size, 0), []), [])
      case ChunkList(cs, rest) => Decoded(Entry(FileOf(n.dir, n.name, n.ext, z.size, |cs|), cs), rest)
  {
  }

  /** After the five head lines of a record the decoder has the name, the
      label and the size, and the outcome depends on the chunk part alone. */
  lemma EntryOfHead(r: Record, t: string)
    requires WellFormed(r)
    ensures EntryOf(Lines(HeadLines(r)) + t) ==
      match ChunkSection(t)
      case ChunkPanic => EntryPanic
      case ReadFailed => Decoded(Entry(FileOf(r.dir, r.name, r.ext, DigitsValue(r.size), 0), []), [])
      case ChunkList(cs, rest) => Decoded(Entry(FileOf(r.dir, r.name, r.ext, DigitsValue(r.size), |cs|), cs), rest)
  {
    var ls := HeadLines(r);
    var s := Lines(ls) + t;
    assert ReadString(s) == Read(Pair(r.dir, r.dirCount) + "\n", Lines(ls[1..]) + t, true) by {
      ReadFirstLine(ls, t);
    }
    assert !Contains(Pair(r.dir, r.dirCount) + "\n", "LOGCOMPLETE") by {
      PairTrimmed(r.dir, r.dirCount);
      NotContains(Pair(r.dir, r.dirCount) + "\n", "LOGCOMPLETE");
    }
    var n := NameParts(r.dir, r.name, r.ext, Lines([r.skipped] + [r.size]) + t);
    assert NamesOf(Pair(r.dir, r.dirCount) + "\n", Lines(ls[1..]) + t) == Some(n) by {
      NamesOfHead(r, t);
    }
    assert SizeOf(n.rest) == Some(Sized(DigitsValue(r.size), t)) by {
      SizeOfHead(r.skipped, r.size, t);
    }
    EntryOfSteps(s, n, Sized(DigitsValue(r.size), t));
  }

  /** A well-formed record decodes to its entry, and the decoder resumes
      right after it. */
  lemma EntryOfRecord(r: Record, rest: string)
    requires WellFormed(r)
    ensures EntryOf(RecordText(r) + rest) == Decoded(RecordEntry(r), rest)
  {
    var body := Lines(BodyLines(r) + [r.blank]) + rest;
    assert RecordText(r) + rest == Lines(HeadLines(r)) + body by {
      AppendAssoc(HeadLines(r), BodyLines(r), [r.blank]);
      LinesConcat(HeadLines(r), BodyLines(r) + [r.blank]);
      AppendAssoc(Lines(HeadLines(r)), Lines(BodyLines(r) + [r.blank]), rest);
    }
    ChunkSectionOf(r, rest);
    EntryOfHead(r, body);
  }

  /** A record cut off inside its chunk part still yields its `File`
      message, now announcing no chunks, and no `Chunk` message; the text
      is used up. */
  lemma EntryOfTruncatedRecord(r: Record, partial: string)
    requires WellFormed(r) && '\n' !in partial
    ensures EntryOf(Lines(HeadLines(r) + BodyLines(r)) + partial)
      == Decoded(Entry(FileOf(r.dir, r.name, r.ext, DigitsValue(r.size), 0), []), [])
  {
    var body := Lines(BodyLines(r)) + partial;
    assert Lines(HeadLines(r) + BodyLines(r)) + partial == Lines(HeadLines(r)) + body by {
      LinesConcat(HeadLines(r), BodyLines(r));
      AppendAssoc(Lines(HeadLines(r)), Lines(BodyLines(r)), partial);
    }
    ChunkSectionTruncated(r, partial);
    EntryOfHead(r, body);
  }

  /** A line containing `LOGCOMPLETE` ends the trace. */
  lemma EntryOfEndMarker(line: string, rest: string)
    requires IsLine(line) && Contains(line, "LOGCOMPLETE")
    ensures EntryOf(line + "\n" + rest) == NoEntry
  {
    ReadStringOfLine(line, rest);
    ContainsExtend(line, "\n", "LOGCOMPLETE");
  }

  // ---------------------------------------------------------------------
  // ParseFile
  // ---------------------------------------------------------------------

  function RecordsText(rs: seq<Record>): string
  {
    if rs == [] then [] else RecordText(rs[0]) + RecordsText(rs[1..])
  }

  function RecordEntries(rs: seq<Record>): (es: seq<Entry>)
    requires forall i :: 0 <= i < |rs| ==> WellFormed(rs[i])
    ensures |es| == |rs|
  {
    if rs == [] then [] else [RecordEntry(rs[0])] + RecordEntries(rs[1..])
  }

  lemma {:induction false} EntriesFromRecords(rs: seq<Record>, end: string, acc: seq<Entry>)
    requires forall i :: 0 <= i < |rs| ==> WellFormed(rs[i])
    requires EntryOf(end) == NoEntry
    ensures EntriesFrom(RecordsText(rs) + end, acc) == Trace(acc + RecordEntries(rs), false)
    decreases |rs|
  {
    if rs == [] {
      AppendEmpty(end);
      AppendEmpty(acc);
    } else {
      var e := RecordEntry(rs[0]);
      AppendAssoc(RecordText(rs[0]), RecordsText(rs[1..]), end);
      EntryOfRecord(rs[0], RecordsText(rs[1..]) + end);
      EntriesFromRecords(rs[1..], end, acc + [e]);
      AppendAssoc(acc, [e], RecordEntries(rs[1..]));
    }
  }

  /** A header and well-formed records, followed by the end of the text or
      by a `LOGCOMPLETE` line: the decoder yields one entry per record, in
      order, and does not panic. */
  lemma TraceOfRecords(h0: string, hs: seq<string>, b: string, rs: seq<Record>, end: string)
    requires IsLine(h0)
    requires forall i :: 0 <= i < |hs| ==> IsLine(hs[i]) && !AllSpace(hs[i])
    requires IsLine(b) && AllSpace(b)
    requires forall i :: 0 <= i < |rs| ==> WellFormed(rs[i])
    requires end == [] || (exists l, rest :: IsLine(l) && Contains(l, "LOGCOMPLETE") && end == l + "\n" + rest)
    ensures TraceOf(Lines([h0] + hs + [b]) + RecordsText(rs) + end) == Trace(RecordEntries(rs), false)
  {
    assert EntryOf(end) == NoEntry by {
      if end == [] {
        ReadStringNoNewline(end);
      } else {
        var l, rest :| IsLine(l) && Contains(l, "LOGCOMPLETE") && end == l + "\n" + rest;
        EntryOfEndMarker(l, rest);
      }
    }
    var header := Lines([h0] + hs + [b]);
    AppendAssoc(header, RecordsText(rs), end);
    AfterHeaderOf(h0, hs, b, RecordsText(rs) + end);
    EntriesFromRecords(rs, end, []);
    AppendEmpty(RecordEntries(rs));
  }

  lemma {:induction false} EntriesFromCounts(s: string, acc: seq<Entry>)
    requires CountsHold(acc)
    ensures CountsHold(EntriesFrom(s, acc).entries)
    decreases |s|
  {
    var o := EntryOf(s);
    if o.Decoded? {
      CountsAppend(acc, o.entry);
      EntriesFromCounts(o.rest, acc + [o.entry]);
    }
  }

  /** Every entry the decoder yields announces its own number of chunks in
      its `uint32` counter; below 2^32 chunks the count is exact. */
  lemma TraceCounts(s: string)
    ensures CountsHold(TraceOf(s).entries)
    ensures forall i :: 0 <= i < |TraceOf(s).entries| && |TraceOf(s).entries[i].chunks| < TwoTo32 ==>
      Consistent(TraceOf(s).entries[i])
  {
    var h := AfterHeader(s);
    if h.HeaderEnd? {
      EntriesFromCounts(h.rest, []);
    }
  }
}
