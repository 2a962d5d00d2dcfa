/** The reader of the canonical binary trace format: a stream of
    length-prefixed messages in which every `File` message is followed by
    as many `Chunk` messages as it announces. The reader forwards every
    payload unchanged; only `File` payloads are decoded, to learn how many
    chunk payloads follow. */
module ProtoDecoder {
  import opened Common
  import opened TraceProto
  import opened Varint
  import opened ByteStream

  /** The payloads a decoding step forwarded, the unread rest of the
      stream, and the step's result. */
  datatype Parsed = Parsed(frames: seq<Bytes>, rest: Bytes, ok: bool)

  /** `parseNChunks(n)`: up to `n` length-prefixed payloads, each
      forwarded as soon as it is read; a stream that ends inside a length
      or a payload stops the loop with false. */
  function NChunks(s: Bytes, n: nat): (r: Parsed)
    ensures r.ok ==> |r.frames| == n
    ensures !r.ok ==> |r.frames| < n && r.rest == []
    ensures |r.rest| <= |s|
    decreases n
  {
    if n == 0 then Parsed([], s, true)
    else
      var v := ReadVarint(s);
      if !v.ok then Parsed([], v.rest, false)
      else
        var t := ReadFull(v.rest, v.value);
        if !t.ok then Parsed([], t.rest, false)
        else
          var r := NChunks(t.rest, n - 1);
          Parsed([t.data] + r.frames, r.rest, r.ok)
  }

  /** `parseFileEntry`: one `File` payload, forwarded before it is decoded,
      then the chunk payloads it announces. */
  function FileEntry(s: Bytes, unmarshal: Bytes -> Option<File>): (r: Parsed)
    ensures !ReadVarint(s).ok ==> r == Parsed([], [], false)
    ensures r.frames != [] ==> |r.frames[0]| == ReadVarint(s).value
    ensures r.ok ==> r.frames != [] && unmarshal(r.frames[0]).Some?
                     && |r.frames| == 1 + GetChunkCount(unmarshal(r.frames[0]).value)
    ensures r.ok ==> |r.rest| < |s|
    ensures |r.rest| <= |s|
  {
    var v := ReadVarint(s);
    if !v.ok then Parsed([], v.rest, false)
    else
      var t := ReadFull(v.rest, v.value);
      if !t.ok then Parsed([], t.rest, false)
      else
        match unmarshal(t.data)
        case None => Parsed([t.data], t.rest, false)
        case Some(f) =>
          var r := NChunks(t.rest, GetChunkCount(f));
          Parsed([t.data] + r.frames, r.rest, r.ok)
  }

  /** What `ParseFile` forwarded and the unread rest of the stream. */
  datatype Forwarded = Forwarded(frames: seq<Bytes>, rest: Bytes)

  /** `ParseFile`: file entries until one fails. */
  function ParseAll(s: Bytes, unmarshal: Bytes -> Option<File>): (r: Forwarded)
    ensures |r.rest| <= |s|
    decreases |s|
  {
    var e := FileEntry(s, unmarshal);
    if !e.ok then Forwarded(e.frames, e.rest)
    else
      var r := ParseAll(e.rest, unmarshal);
      Forwarded(e.frames + r.frames, r.rest)
  }

  // The decoder object holds only its reader and its output channel: the
  // methods below take the reader's unread bytes and return the payloads
  // sent on the channel together with what is left unread.

  method ParseNChunks(s: Bytes, n: nat) returns (sent: seq<Bytes>, rest: Bytes, ok: bool)
    ensures NChunks(s, n) == Parsed(sent, rest, ok)
  {
    sent, rest := [], s;
    var i := 0;
    while i < n
      invariant i <= n
      invariant NChunks(s, n).frames == sent + NChunks(rest, n - i).frames
      invariant NChunks(s, n).rest == NChunks(rest, n - i).rest
      invariant NChunks(s, n).ok == NChunks(rest, n - i).ok
    {
      ghost var step := NChunks(rest, n - i);
      var size, vok;
      size, vok, rest := ReadNextVarint(rest);
      if !vok {
        assert step == Parsed([], [], false);
        return sent, [], false;
      }
      var t := ReadFull(rest, size);
      rest := t.rest;
      if !t.ok {
        assert step == Parsed([], [], false);
        return sent, [], false;
      }
      assert step.frames == [t.data] + NChunks(rest, n - i - 1).frames;
      AppendAssoc(sent, [t.data], NChunks(rest, n - i - 1).frames);
      sent := sent + [t.data];
      i := i + 1;
    }
    AppendEmpty(sent);
    return sent, rest, true;
  }

  method ParseFileEntry(s: Bytes, unmarshal: Bytes -> Option<File>) returns (sent: seq<Bytes>, rest: Bytes, ok: bool)
    ensures FileEntry(s, unmarshal) == Parsed(sent, rest, ok)
  {
    var size, vok;
    size, vok, rest := ReadNextVarint(s);
    if !vok {
      return [], rest, false;
    }
    var t := ReadFull(rest, size);
    rest := t.rest;
    if !t.ok {
      return [], rest, false;
    }
    sent := [t.data];
    var f := unmarshal(t.data);
    if f.None? {
      return sent, rest, false;
    }
    var chunks;
    chunks, rest, ok := ParseNChunks(rest, GetChunkCount(f.value));
    sent := sent + chunks;
  }

  method ParseFile(s: Bytes, unmarshal: Bytes -> Option<File>) returns (sent: seq<Bytes>, rest: Bytes)
    ensures ParseAll(s, unmarshal) == Forwarded(sent, rest)
  {
    sent, rest := [], s;
    var more := true;
    while more
      invariant more ==> ParseAll(s, unmarshal).frames == sent + ParseAll(rest, unmarshal).frames
      invariant more ==> ParseAll(s, unmarshal).rest == ParseAll(rest, unmarshal).rest
      invariant !more ==> ParseAll(s, unmarshal) == Forwarded(sent, rest)
      decreases more, |rest|
    {
      ghost var before := rest;
      var entry;
      entry, rest, more := ParseFileEntry(rest, unmarshal);
      if more {
        assert ParseAll(before, unmarshal).frames == entry + ParseAll(rest, unmarshal).frames;
        AppendAssoc(sent, entry, ParseAll(rest, unmarshal).frames);
      } else {
        assert ParseAll(before, unmarshal) == Forwarded(entry, rest);
      }
      sent := sent + entry;
    }
  }

  // -----------------------------------------------------------------------
  // Properties
  // -----------------------------------------------------------------------

  /** Every payload fits the `uint64` length prefix. */
  predicate Framable(ms: seq<Bytes>)
  {
    forall i :: 0 <= i < |ms| ==> |ms[i]| < TwoTo64
  }

  lemma FrameCons(m: Bytes, ms: seq<Bytes>, rest: Bytes)
    ensures Frame([m] + ms) + rest == EncodeVarint(|m|) + (m + (Frame(ms) + rest))
  {
    FrameConcat([m], ms);
    assert Frame([m]) == Frame([]) + EncodeVarint(|m|) + m;
  }

  /** One framed payload is read back exactly, whatever follows it. */
  lemma ReadFrame(s: Bytes, m: Bytes, rest: Bytes)
    requires |m| < TwoTo64 && s == EncodeVarint(|m|) + (m + rest)
    ensures ReadVarint(s) == VarintRead(|m|, m + rest, true)
    ensures ReadFull(m + rest, |m|) == Taken(m, rest, true)
  {
    ReadVarintOfEncoding(|m|, m + rest);
    assert (m + rest)[..|m|] == m && (m + rest)[|m|..] == rest;
  }

  /** `parseNChunks(n)` on `n` framed payloads forwards exactly those
      payloads and stops right after them. */
  lemma {:induction false} NChunksOfFrame(ms: seq<Bytes>, rest: Bytes)
    requires Framable(ms)
    ensures NChunks(Frame(ms) + rest, |ms|) == Parsed(ms, rest, true)
    decreases |ms|
  {
    if ms != [] {
      var m := ms[0];
      var after := Frame(ms[1..]) + rest;
      FrameCons(m, ms[1..], rest);
      assert [m] + ms[1..] == ms;
      assert |m| < TwoTo64;
      ReadFrame(Frame(ms) + rest, m, after);
      NChunksOfFrame(ms[1..], rest);
    }
  }

  /** A framed `File` payload that decodes to a file announcing `|cs|`
      chunks, followed by `|cs|` framed chunk payloads, is one entry. */
  lemma FileEntryOfFrame(m: Bytes, cs: seq<Bytes>, rest: Bytes, unmarshal: Bytes -> Option<File>)
    requires |m| < TwoTo64 && Framable(cs)
    requires unmarshal(m).Some? && GetChunkCount(unmarshal(m).value) == |cs|
    ensures FileEntry(Frame([m] + cs) + rest, unmarshal) == Parsed([m] + cs, rest, true)
  {
    var after := Frame(cs) + rest;
    FrameCons(m, cs, rest);
    ReadFrame(Frame([m] + cs) + rest, m, after);
    NChunksOfFrame(cs, rest);
  }

  /** The payload of a `File` message is forwarded before it is decoded:
      a framed payload that does not decode is still sent, and the entry
      fails. */
  lemma FileEntryForwardsUndecodable(m: Bytes, rest: Bytes, unmarshal: Bytes -> Option<File>)
    requires |m| < TwoTo64 && unmarshal(m).None?
    ensures FileEntry(Frame([m]) + rest, unmarshal) == Parsed([m], rest, false)
  {
    FrameCons(m, [], rest);
    assert [m] + [] == [m] && Frame([]) + rest == rest;
    ReadFrame(Frame([m]) + rest, m, rest);
  }

  /** The assumptions about the external message codec under which the
      framing round trip holds: decoding a marshalled `File` gives it back,
      entries announce their own chunk count, and every payload fits a
      `uint64` length. */
  predicate CodecRoundTrips(marshal: Msg -> Bytes, unmarshal: Bytes -> Option<File>, es: seq<Entry>)
  {
    forall i :: 0 <= i < |es| ==>
      Consistent(es[i]) && unmarshal(marshal(FileMsg(es[i].file))) == Some(es[i].file)
  }

  /** Reading a framed stream of entries forwards every message payload, in
      order, and consumes the whole stream. */
  lemma {:induction false} ParseAllOfFrame(marshal: Msg -> Bytes, unmarshal: Bytes -> Option<File>, es: seq<Entry>)
    requires CodecRoundTrips(marshal, unmarshal, es)
    requires Framable(MarshalAll(marshal, Msgs(es)))
    ensures var bs := MarshalAll(marshal, Msgs(es)); ParseAll(Frame(bs), unmarshal) == Forwarded(bs, [])
    decreases |es|
  {
    if es == [] {
      assert ReadVarint([]) == VarintRead(0, [], false);
    } else {
      var head := MarshalAll(marshal, EntryMsgs(es[0]));
      var tail := MarshalAll(marshal, Msgs(es[1..]));
      MarshalAllAppend(marshal, EntryMsgs(es[0]), Msgs(es[1..]));
      FramableSplit(head, tail);
      assert CodecRoundTrips(marshal, unmarshal, es[1..]) by {
        forall i | 0 <= i < |es[1..]|
          ensures Consistent(es[1..][i]) && unmarshal(marshal(FileMsg(es[1..][i].file))) == Some(es[1..][i].file)
        {
          assert es[1..][i] == es[i + 1];
        }
      }
      ParseAllOfFrame(marshal, unmarshal, es[1..]);
      FileEntryOfEntry(marshal, unmarshal, es[0], Frame(tail));
      ParseAllCons(head, tail, unmarshal);
    }
  }

  /** The frames of one entry are read back as one successful entry. */
  lemma FileEntryOfEntry(marshal: Msg -> Bytes, unmarshal: Bytes -> Option<File>, e: Entry, rest: Bytes)
    requires Consistent(e) && unmarshal(marshal(FileMsg(e.file))) == Some(e.file)
    requires Framable(MarshalAll(marshal, EntryMsgs(e)))
    ensures var head := MarshalAll(marshal, EntryMsgs(e));
      FileEntry(Frame(head) + rest, unmarshal) == Parsed(head, rest, true)
  {
    var head := MarshalAll(marshal, EntryMsgs(e));
    var m := marshal(FileMsg(e.file));
    var cs := MarshalAll(marshal, ChunkMsgs(e.chunks));
    MarshalAllAppend(marshal, [FileMsg(e.file)], ChunkMsgs(e.chunks));
    assert head == [m] + cs;
    FramableSplit([m], cs);
    assert |m| < TwoTo64 by {
      assert ([m] + cs)[0] == m;
    }
    FileEntryOfFrame(m, cs, rest, unmarshal);
  }

  /** A successful entry followed by a stream that is read to its end. */
  lemma ParseAllCons(head: seq<Bytes>, tail: seq<Bytes>, unmarshal: Bytes -> Option<File>)
    requires FileEntry(Frame(head) + Frame(tail), unmarshal) == Parsed(head, Frame(tail), true)
    requires ParseAll(Frame(tail), unmarshal) == Forwarded(tail, [])
    ensures ParseAll(Frame(head + tail), unmarshal) == Forwarded(head + tail, [])
  {
    FrameConcat(head, tail);
  }

  lemma FramableSplit(a: seq<Bytes>, b: seq<Bytes>)
    requires Framable(a + b)
    ensures Framable(a) && Framable(b)
  {
    forall i | 0 <= i < |a| ensures |a[i]| < TwoTo64 {
      assert a[i] == (a + b)[i];
    }
    forall i | 0 <= i < |b| ensures |b[i]| < TwoTo64 {
      assert b[i] == (a + b)[|a| + i];
    }
  }

  /** A stream made of two copies of a framed trace reads back as the
      message sequence twice, in order. */
  lemma ParseAllOfDoubledFrame(marshal: Msg -> Bytes, unmarshal: Bytes -> Option<File>, es: seq<Entry>)
    requires CodecRoundTrips(marshal, unmarshal, es)
    requires Framable(MarshalAll(marshal, Msgs(es)))
    ensures var bs := MarshalAll(marshal, Msgs(es));
      ParseAll(Frame(bs) + Frame(bs), unmarshal) == Forwarded(bs + bs, [])
  {
    var bs := MarshalAll(marshal, Msgs(es));
    MsgsConcat(es, es);
    MarshalAllAppend(marshal, Msgs(es), Msgs(es));
    FrameConcat(bs, bs);
    assert CodecRoundTrips(marshal, unmarshal, es + es) by {
      forall i | 0 <= i < |es + es|
        ensures Consistent((es + es)[i]) && unmarshal(marshal(FileMsg((es + es)[i].file))) == Some((es + es)[i].file)
      {
        assert (es + es)[i] == es[if i < |es| then i else i - |es|];
      }
    }
    ParseAllOfFrame(marshal, unmarshal, es + es);
  }

  /** A single record announcing no chunks is one forwarded payload, and the
      next entry finds the end of the stream. */
  lemma SingleEmptyRecord(m: Bytes, unmarshal: Bytes -> Option<File>)
    requires |m| < TwoTo64 && unmarshal(m).Some? && GetChunkCount(unmarshal(m).value) == 0
    ensures FileEntry(Frame([m]), unmarshal) == Parsed([m], [], true)
    ensures ParseAll(Frame([m]), unmarshal) == Forwarded([m], [])
  {
    FileEntryOfFrame(m, [], [], unmarshal);
    assert [m] + [] == [m] && Frame([m]) + [] == Frame([m]);
    assert ReadVarint([]) == VarintRead(0, [], false);
  }
}
