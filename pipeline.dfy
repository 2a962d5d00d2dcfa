/** Trace generation end to end: a UBC trace is decoded into messages,
    the messages are framed into the target file, and reading that file
    back with the canonical decoder forwards the same messages. */
module Pipeline {
  import opened Common
  import opened Varint
  import opened TraceProto
  import opened ProtoDecoder
  import opened TraceBuilder
  import UbcDecoder
  import UbcProperties

  /** What `WriteMessage` wrote through a healthy writer reads back, frame
      by frame, as the messages it was given, to the end of the file. */
  lemma WrittenTraceReadsBack(marshal: Msg -> Bytes, unmarshal: Bytes -> Option<File>, es: seq<Entry>, script: seq<Reply>)
    requires CodecRoundTrips(marshal, unmarshal, es)
    requires Framable(MarshalAll(marshal, Msgs(es)))
    requires AllWhole(script) && |script| >= 2 * |MarshalAll(marshal, Msgs(es))|
    ensures var bs := MarshalAll(marshal, Msgs(es));
      ParseAll(SendAll(bs, script).file, unmarshal) == Forwarded(bs, [])
  {
    var bs := MarshalAll(marshal, Msgs(es));
    SendAllWhole(bs, script);
    SendAllFrames(bs, script);
    ParseAllOfFrame(marshal, unmarshal, es);
  }

  /** Every message the UBC decoder sends for a trace, written by
      `WriteMessage` and read back by the canonical decoder, comes back in
      order: the decoded files announce their own chunk counts, so the
      reader takes every entry whole. */
  lemma UbcTraceRoundTrip(s: string, marshal: Msg -> Bytes, unmarshal: Bytes -> Option<File>, script: seq<Reply>)
    requires var es := UbcDecoder.TraceOf(s).entries;
      forall i :: 0 <= i < |es| ==>
        |es[i].chunks| < TwoTo32 && unmarshal(marshal(FileMsg(es[i].file))) == Some(es[i].file)
    requires Framable(MarshalAll(marshal, Msgs(UbcDecoder.TraceOf(s).entries)))
    requires AllWhole(script) && |script| >= 2 * |MarshalAll(marshal, Msgs(UbcDecoder.TraceOf(s).entries))|
    ensures var bs := MarshalAll(marshal, Msgs(UbcDecoder.TraceOf(s).entries));
      ParseAll(SendAll(bs, script).file, unmarshal) == Forwarded(bs, [])
  {
    var es := UbcDecoder.TraceOf(s).entries;
    assert CountsHold(es) by {
      UbcProperties.TraceCounts(s);
    }
    CodecOfCounts(marshal, unmarshal, es);
    WrittenTraceReadsBack(marshal, unmarshal, es, script);
  }

  /** Entries that announce their chunk count modulo 2^32, with fewer than
      2^32 chunks each and files the codec gives back, meet the codec
      assumptions of the round trip. */
  lemma CodecOfCounts(marshal: Msg -> Bytes, unmarshal: Bytes -> Option<File>, es: seq<Entry>)
    requires CountsHold(es)
    requires forall i :: 0 <= i < |es| ==>
      |es[i].chunks| < TwoTo32 && unmarshal(marshal(FileMsg(es[i].file))) == Some(es[i].file)
    ensures CodecRoundTrips(marshal, unmarshal, es)
  {
  }
}
