/** The trace messages exchanged between the decoders, the trace writer
    and the trace reader: one `File` message followed by the `Chunk`
    messages of that file. Optional protobuf fields that a decoder may leave
    unset are `Option`s. */
module TraceProto {
  import opened Common

  datatype File = File(
    filename: Option<string>,
    fsize: Option<nat>,
    fileLabel: Option<string>,
    ftype: Option<string>,
    chunkCount: Option<nat>)

  datatype Chunk = Chunk(fp: Option<Bytes>, csize: Option<nat>)

  datatype Msg = FileMsg(file: File) | ChunkMsg(chunk: Chunk)

  /** One file of a trace: its `File` message and the chunks that follow. */
  datatype Entry = Entry(file: File, chunks: seq<Chunk>)

  /** The `uint32` chunk counter a decoder stores for `n` chunks. */
  function ChunkCount32(n: nat): (c: nat)
    ensures c < TwoTo32
    ensures n < TwoTo32 ==> c == n
  {
    n % TwoTo32
  }

  /** `GetChunkCount`: the announced chunk count, 0 when unset. */
  function GetChunkCount(f: File): nat
  {
    match f.chunkCount
    case Some(c) => c
    case None => 0
  }

  /** An entry whose announced chunk count is the number of its chunks. */
  predicate Consistent(e: Entry)
  {
    e.file.chunkCount == Some(|e.chunks|)
  }

  function ChunkMsgs(cs: seq<Chunk>): (ms: seq<Msg>)
    ensures |ms| == |cs|
    ensures forall i :: 0 <= i < |cs| ==> ms[i] == ChunkMsg(cs[i])
  {
    if cs == [] then [] else ChunkMsgs(cs[..|cs| - 1]) + [ChunkMsg(cs[|cs| - 1])]
  }

  /** The messages of one entry: its `File`, then its chunks. */
  function EntryMsgs(e: Entry): (ms: seq<Msg>)
    ensures |ms| == 1 + |e.chunks| && ms[0] == FileMsg(e.file) && ms[1..] == ChunkMsgs(e.chunks)
  {
    [FileMsg(e.file)] + ChunkMsgs(e.chunks)
  }

  /** The message stream of a sequence of entries. */
  function Msgs(es: seq<Entry>): seq<Msg>
  {
    if es == [] then [] else EntryMsgs(es[0]) + Msgs(es[1..])
  }

  /** The marshalled form of every message, in order. */
  function MarshalAll(marshal: Msg -> Bytes, ms: seq<Msg>): (bs: seq<Bytes>)
    ensures |bs| == |ms|
    ensures forall i :: 0 <= i < |ms| ==> bs[i] == marshal(ms[i])
  {
    if ms == [] then [] else MarshalAll(marshal, ms[..|ms| - 1]) + [marshal(ms[|ms| - 1])]
  }

  lemma {:induction false} MarshalAllAppend(marshal: Msg -> Bytes, a: seq<Msg>, b: seq<Msg>)
    ensures MarshalAll(marshal, a + b) == MarshalAll(marshal, a) + MarshalAll(marshal, b)
  {
    var l := MarshalAll(marshal, a + b);
    var r := MarshalAll(marshal, a) + MarshalAll(marshal, b);
    assert |l| == |r|;
    forall i | 0 <= i < |l| ensures l[i] == r[i] {
      if i < |a| {
        assert (a + b)[i] == a[i];
      } else {
        assert (a + b)[i] == b[i - |a|];
      }
    }
  }

  lemma {:induction false} MsgsAppend(es: seq<Entry>, e: Entry)
    ensures Msgs(es + [e]) == Msgs(es) + EntryMsgs(e)
  {
    if es == [] {
      assert [e][1..] == [];
    } else {
      assert (es + [e])[1..] == es[1..] + [e];
      MsgsAppend(es[1..], e);
    }
  }

  lemma {:induction false} MsgsConcat(a: seq<Entry>, b: seq<Entry>)
    ensures Msgs(a + b) == Msgs(a) + Msgs(b)
  {
    if a == [] {
      assert a + b == b;
    } else {
      assert (a + b)[1..] == a[1..] + b;
      MsgsConcat(a[1..], b);
    }
  }

  /** Every entry announces its own number of chunks in its `uint32`
      counter. */
  predicate CountsHold(es: seq<Entry>)
  {
    forall i :: 0 <= i < |es| ==> es[i].file.chunkCount == Some(ChunkCount32(|es[i].chunks|))
  }

  lemma CountsAppend(acc: seq<Entry>, e: Entry)
    requires CountsHold(acc) && e.file.chunkCount == Some(ChunkCount32(|e.chunks|))
    ensures CountsHold(acc + [e])
  {
    assert forall i :: 0 <= i < |acc| ==> (acc + [e])[i] == acc[i];
  }
}
