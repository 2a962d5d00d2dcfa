/** The writing side of trace generation: `writeFull`, the framing loop of
    `WriteMessage`, and the admission counter of `buildTraces`. */
module TraceBuilder {
  import opened Common
  import opened Varint

  // ---------------------------------------------------------------------
  // Writers
  // ---------------------------------------------------------------------

  /** What a writer answers to one `Write` call: `Partial(n)` accepts the
      first `n` bytes of the buffer, `Whole` accepts all of it (what a
      buffered writer over a healthy file does), `Failed(n)` accepts the
      first `n` bytes and reports an error. A count beyond the buffer is
      cut to its length: a writer never reports more than it was given. */
  datatype Reply = Partial(n: nat) | Whole | Failed(n: nat)

  /** How many bytes of a buffer of `len` bytes a reply accepts. */
  function AcceptedCount(rep: Reply, len: nat): (k: nat)
    ensures k <= len
    ensures rep.Whole? ==> k == len
  {
    match rep
    case Whole => len
    case Partial(n) => if n < len then n else len
    case Failed(n) => if n < len then n else len
  }

  /** The reply to the next call: a writer whose scripted replies have run
      out fails. */
  function NextReply(script: seq<Reply>): Reply
  {
    if script == [] then Failed(0) else script[0]
  }

  /** The replies left after `k` calls. */
  function Drop(script: seq<Reply>, k: nat): (r: seq<Reply>)
    ensures |r| <= |script|
  {
    if k <= |script| then script[k..] else []
  }

  /** A writer whose every reply accepts the whole buffer. */
  predicate AllWhole(script: seq<Reply>)
  {
    forall i :: 0 <= i < |script| ==> script[i].Whole?
  }

  /** The writer an `io.Writer` argument stands for: its scripted replies,
      the bytes it has accepted so far, in order, and the buffers it has
      been passed, in order. */
  class Writer {
    var script: seq<Reply>
    var data: Bytes
    var calls: seq<Bytes>

    constructor (script: seq<Reply>, data: Bytes)
      ensures this.script == script && this.data == data && calls == []
    {
      this.script := script;
      this.data := data;
      calls := [];
    }

    /** `Write(p)`: the count accepted and whether an error is reported. */
    method Write(p: Bytes) returns (n: nat, err: bool)
      modifies this
      ensures n == AcceptedCount(NextReply(old(script)), |p|)
      ensures err == NextReply(old(script)).Failed?
      ensures script == Drop(old(script), 1)
      ensures data == old(data) + p[..n] && calls == old(calls) + [p]
    {
      var rep := NextReply(script);
      n := AcceptedCount(rep, |p|);
      err := rep.Failed?;
      script := Drop(script, 1);
      data := data + p[..n];
      calls := calls + [p];
    }
  }

  // ---------------------------------------------------------------------
  // writeFull
  // ---------------------------------------------------------------------

  /** One run of `writeFull`: the bytes the writer accepted, the buffers
      passed to it, the count accepted by each call, and whether an error
      ended the run. */
  datatype Run = Run(accepted: Bytes, args: seq<Bytes>, counts: seq<nat>, err: bool)

  /** What `writeFull(w, d)` does with a writer answering `script`. */
  function WriteFullOf(d: Bytes, script: seq<Reply>): (r: Run)
    decreases |script|
  {
    if d == [] then Run([], [], [], false)
    else
      var rep := NextReply(script);
      var k := AcceptedCount(rep, |d|);
      if rep.Failed? then Run(d[..k], [d], [k], true)
      else Prepend(d[..k], d, k, WriteFullOf(d[k..], script[1..]))
  }

  /** A run preceded by one call passed `arg` that accepted `front`. */
  function Prepend(front: Bytes, arg: Bytes, k: nat, t: Run): Run
  {
    Run(front + t.accepted, [arg] + t.args, [k] + t.counts, t.err)
  }

  /** A run preceded by the calls `made`, with counts `counts`, that
      accepted `prefix`. */
  function Glue(prefix: Bytes, made: seq<Bytes>, counts: seq<nat>, t: Run): Run
  {
    Run(prefix + t.accepted, made + t.args, counts + t.counts, t.err)
  }

  lemma GlueEmpty(t: Run)
    ensures Glue([], [], [], t) == t
  {
    AppendEmpty(t.accepted);
    AppendEmpty(t.args);
    AppendEmpty(t.counts);
  }

  lemma GlueStep(prefix: Bytes, made: seq<Bytes>, counts: seq<nat>, front: Bytes, arg: Bytes, k: nat, t: Run)
    ensures Glue(prefix, made, counts, Prepend(front, arg, k, t)) == Glue(prefix + front, made + [arg], counts + [k], t)
  {
    AppendAssoc(prefix, front, t.accepted);
    AppendAssoc(made, [arg], t.args);
    AppendAssoc(counts, [k], t.counts);
  }

  /** The first call is passed the whole buffer and each retry the part
      of it not yet accepted; no call for an empty buffer. */
  lemma {:induction false} WriteFullRetries(d: Bytes, script: seq<Reply>)
    ensures var r := WriteFullOf(d, script);
      && |r.args| == |r.counts|
      && (d == [] <==> r.args == [])
      && (r.args != [] ==> r.args[0] == d)
      && (forall i :: 0 <= i < |r.args| ==> r.counts[i] <= |r.args[i]|)
      && (forall i :: 0 <= i < |r.args| - 1 ==> r.args[i + 1] == r.args[i][r.counts[i]..])
    decreases |script|
  {
    var r := WriteFullOf(d, script);
    if d != [] {
      var rep := NextReply(script);
      var k := AcceptedCount(rep, |d|);
      if !rep.Failed? {
        var t := WriteFullOf(d[k..], script[1..]);
        WriteFullRetries(d[k..], script[1..]);
        assert r.args == [d] + t.args && r.counts == [k] + t.counts;
        forall i | 0 <= i < |r.args|
          ensures r.counts[i] <= |r.args[i]|
        {
          if i > 0 {
            assert r.args[i] == t.args[i - 1] && r.counts[i] == t.counts[i - 1];
          }
        }
        forall i | 0 <= i < |r.args| - 1
          ensures r.args[i + 1] == r.args[i][r.counts[i]..]
        {
          if i > 0 {
            assert r.args[i + 1] == t.args[i] && r.args[i] == t.args[i - 1] && r.counts[i] == t.counts[i - 1];
          }
        }
      }
    }
  }

  /** `writeFull` returns no error only once the whole buffer is accepted;
      what is accepted is always a prefix of the buffer. */
  lemma {:induction false} WriteFullAccepts(d: Bytes, script: seq<Reply>)
    ensures var r := WriteFullOf(d, script);
      && |r.accepted| <= |d| && r.accepted == d[..|r.accepted|]
      && (!r.err ==> r.accepted == d)
    decreases |script|
  {
    var r := WriteFullOf(d, script);
    if d != [] {
      var rep := NextReply(script);
      var k := AcceptedCount(rep, |d|);
      if !rep.Failed? {
        var t := WriteFullOf(d[k..], script[1..]);
        WriteFullAccepts(d[k..], script[1..]);
        assert r.accepted == d[..k] + t.accepted;
        assert d[k..][..|t.accepted|] == d[k..k + |t.accepted|];
      }
    }
  }

  /** The first error is returned at once: every call but the last got a
      reply without an error, and the run reports an error exactly when the
      reply to its last call was one. */
  lemma {:induction false} WriteFullStopsAtError(d: Bytes, script: seq<Reply>)
    ensures var r := WriteFullOf(d, script);
      && |r.args| - 1 <= |script|
      && (forall i :: 0 <= i < |r.args| - 1 ==> !script[i].Failed?)
      && (r.err <==> r.args != [] && NextReply(Drop(script, |r.args| - 1)).Failed?)
    decreases |script|
  {
    var r := WriteFullOf(d, script);
    if d != [] {
      var rep := NextReply(script);
      var k := AcceptedCount(rep, |d|);
      if !rep.Failed? {
        var t := WriteFullOf(d[k..], script[1..]);
        WriteFullStopsAtError(d[k..], script[1..]);
        assert r.args == [d] + t.args;
        forall i | 0 <= i < |r.args| - 1
          ensures !script[i].Failed?
        {
          if i > 0 {
            assert script[i] == script[1..][i - 1];
          }
        }
        if t.args != [] {
          assert Drop(script, |r.args| - 1) == Drop(script[1..], |t.args| - 1);
        }
      }
    }
  }

  /** A writer that accepts whole buffers: one call for a non-empty buffer,
      none for an empty one, and no error. */
  lemma WriteFullWhole(d: Bytes, script: seq<Reply>)
    requires AllWhole(script) && |script| >= 1
    ensures var r := WriteFullOf(d, script);
      && r.accepted == d && !r.err
      && |r.args| == (if d == [] then 0 else 1)
  {
    if d != [] {
      assert d[|d|..] == [] && d[..|d|] == d;
    }
  }

  /** One retry of `writeFull` that got no error: the call's buffer and
      count join the run so far, and the rest of the run is that of the
      part not yet accepted. */
  lemma WriteFullStep(whole: Run, prefix: Bytes, made: seq<Bytes>, counts: seq<nat>,
                      rest: Bytes, before: seq<Reply>, n: nat, tail': Run)
    requires rest != [] && !NextReply(before).Failed? && n == AcceptedCount(NextReply(before), |rest|)
    requires whole == Glue(prefix, made, counts, WriteFullOf(rest, before))
    requires tail' == WriteFullOf(rest[n..], Drop(before, 1))
    ensures before != [] && |Drop(before, 1)| < |before|
    ensures whole == Glue(prefix + rest[..n], made + [rest], counts + [n], tail')
  {
    WriteFullUnfold(rest, before, n);
    GlueStep(prefix, made, counts, rest[..n], rest, n, tail');
  }

  /** A call that got an error ends the run: its buffer is the last one
      passed and the part it accepted the last one written. */
  lemma WriteFullFailed(whole: Run, prefix: Bytes, made: seq<Bytes>, counts: seq<nat>,
                        rest: Bytes, before: seq<Reply>, n: nat)
    requires rest != [] && NextReply(before).Failed? && n == AcceptedCount(NextReply(before), |rest|)
    requires whole == Glue(prefix, made, counts, WriteFullOf(rest, before))
    ensures whole.err && whole.accepted == prefix + rest[..n] && whole.args == made + [rest]
  {
  }

  /** Once nothing is left to write, the run so far is the whole run. */
  lemma WriteFullDone(whole: Run, prefix: Bytes, made: seq<Bytes>, counts: seq<nat>, script: seq<Reply>)
    requires whole == Glue(prefix, made, counts, WriteFullOf([], script))
    ensures !whole.err && whole.accepted == prefix && whole.args == made
  {
    AppendEmpty(prefix);
    AppendEmpty(made);
  }

  /** Dropping replies in two steps drops them all. */
  lemma DropTwice(script: seq<Reply>, a: nat, b: nat)
    ensures Drop(Drop(script, a), b) == Drop(script, a + b)
  {
  }

  /** A call that got no error on a non-empty buffer starts the run. */
  lemma WriteFullUnfold(rest: Bytes, before: seq<Reply>, n: nat)
    requires rest != [] && !NextReply(before).Failed? && n == AcceptedCount(NextReply(before), |rest|)
    ensures before != [] && Drop(before, 1) == before[1..]
    ensures WriteFullOf(rest, before) == Prepend(rest[..n], rest, n, WriteFullOf(rest[n..], Drop(before, 1)))
  {
  }

  /** `writeFull`: write the whole buffer, retrying with the part not yet
      accepted, and return the first error. */
  method WriteFull(w: Writer, d: Bytes) returns (err: bool)
    modifies w
    ensures var r := WriteFullOf(d, old(w.script));
      && err == r.err
      && w.data == old(w.data) + r.accepted
      && w.calls == old(w.calls) + r.args
      && w.script == Drop(old(w.script), |r.args|)
  {
    ghost var s0 := w.script;
    ghost var whole := WriteFullOf(d, s0);
    ghost var prefix: Bytes := [];
    ghost var made: seq<Bytes> := [];
    ghost var counts: seq<nat> := [];
    var tw := |d|;
    var written := 0;
    GlueEmpty(whole);
    AppendEmpty(w.data);
    AppendEmpty(w.calls);
    while written < tw
      invariant written <= tw == |d|
      invariant w.data == old(w.data) + prefix && w.calls == old(w.calls) + made
      invariant w.script == Drop(s0, |made|)
      invariant whole == Glue(prefix, made, counts, WriteFullOf(d[written..], w.script))
      decreases |w.script|
    {
      ghost var before := w.script;
      var n, e := w.Write(d[written..]);
      DropTwice(s0, |made|, 1);
      AppendAssoc(old(w.data), prefix, d[written..][..n]);
      if e {
        WriteFullFailed(whole, prefix, made, counts, d[written..], before, n);
        return e;
      }
      assert d[written..][n..] == d[written + n..];
      WriteFullStep(whole, prefix, made, counts, d[written..], before, n, WriteFullOf(d[written + n..], w.script));
      prefix := prefix + d[written..][..n];
      made := made + [d[written..]];
      counts := counts + [n];
      written := written + n;
    }
    WriteFullDone(whole, prefix, made, counts, w.script);
    return false;
  }

  // ---------------------------------------------------------------------
  // WriteMessage
  // ---------------------------------------------------------------------

  /** What the framing loop of `WriteMessage` leaves behind: the bytes the
      buffered writer accepted, whether a failed write panicked, and the
      replies left. */
  datatype Sent = Sent(file: Bytes, panicked: bool, left: seq<Reply>)

  /** Each message is written as the varint of its length, then the message
      itself; the first failed `writeFull` panics. */
  function SendAll(ms: seq<Bytes>, script: seq<Reply>): (r: Sent)
    decreases |ms|
  {
    if ms == [] then Sent([], false, script)
    else
      var a := WriteFullOf(EncodeVarint(|ms[0]|), script);
      var s1 := Drop(script, |a.args|);
      if a.err then Sent(a.accepted, true, s1)
      else
        var b := WriteFullOf(ms[0], s1);
        var s2 := Drop(s1, |b.args|);
        if b.err then Sent(a.accepted + b.accepted, true, s2)
        else SendAfter(a.accepted + b.accepted, SendAll(ms[1..], s2))
  }

  /** The rest of a send preceded by the bytes `prefix`. */
  function SendAfter(prefix: Bytes, c: Sent): Sent
  {
    Sent(prefix + c.file, c.panicked, c.left)
  }

  lemma SendAfterAssoc(p: Bytes, q: Bytes, c: Sent)
    ensures SendAfter(p, SendAfter(q, c)) == SendAfter(p + q, c)
  {
    AppendAssoc(p, q, c.file);
  }

  lemma FrameFront(m: Bytes, ms: seq<Bytes>)
    ensures Frame([m] + ms) == EncodeVarint(|m|) + m + Frame(ms)
  {
    FrameConcat([m], ms);
    assert Frame([m]) == Frame([]) + EncodeVarint(|m|) + m;
  }

  predicate Prefix(x: Bytes, y: Bytes)
  {
    |x| <= |y| && x == y[..|x|]
  }

  lemma PrefixOfAppend(x: Bytes, p: Bytes, q: Bytes)
    requires Prefix(x, p)
    ensures Prefix(x, p + q)
  {
    assert (p + q)[..|x|] == p[..|x|];
  }

  lemma PrefixAppend(p: Bytes, y: Bytes, q: Bytes)
    requires Prefix(y, q)
    ensures Prefix(p + y, p + q)
  {
    assert (p + q)[..|p| + |y|] == p + q[..|y|];
  }

  /** Whatever the writer does, what it accepted is a prefix of the
      framing of the messages, and all of it when nothing panicked. */
  lemma {:induction false} SendAllFrames(ms: seq<Bytes>, script: seq<Reply>)
    ensures var r := SendAll(ms, script);
      && Prefix(r.file, Frame(ms))
      && (!r.panicked ==> r.file == Frame(ms))
    decreases |ms|
  {
    if ms != [] {
      var m := ms[0];
      var v := EncodeVarint(|m|);
      var tail := Frame(ms[1..]);
      assert Frame(ms) == v + (m + tail) by {
        FrameFront(m, ms[1..]);
        assert [m] + ms[1..] == ms;
        AppendAssoc(v, m, tail);
      }
      var a := WriteFullOf(v, script);
      var s1 := Drop(script, |a.args|);
      WriteFullAccepts(v, script);
      if a.err {
        PrefixOfAppend(a.accepted, v, m + tail);
      } else {
        var b := WriteFullOf(m, s1);
        var s2 := Drop(s1, |b.args|);
        WriteFullAccepts(m, s1);
        if b.err {
          PrefixOfAppend(b.accepted, m, tail);
          PrefixAppend(v, b.accepted, m + tail);
        } else {
          var c := SendAll(ms[1..], s2);
          SendAllFrames(ms[1..], s2);
          PrefixAppend(v + m, c.file, tail);
          AppendAssoc(v, m, tail);
        }
      }
    }
  }

  /** A writer that accepts every buffer whole, with a reply for each of
      the two writes per message, never panics. */
  lemma {:induction false} SendAllWhole(ms: seq<Bytes>, script: seq<Reply>)
    requires AllWhole(script) && |script| >= 2 * |ms|
    ensures !SendAll(ms, script).panicked
    decreases |ms|
  {
    if ms != [] {
      var v := EncodeVarint(|ms[0]|);
      WriteFullWhole(v, script);
      var s1 := Drop(script, |WriteFullOf(v, script).args|);
      assert |s1| >= 2 * |ms| - 1 && AllWhole(s1);
      WriteFullWhole(ms[0], s1);
      var s2 := Drop(s1, |WriteFullOf(ms[0], s1).args|);
      assert |s2| >= 2 * |ms[1..]| && AllWhole(s2);
      SendAllWhole(ms[1..], s2);
    }
  }

  /** `WriteMessage`: open the target, truncating it, then frame every
      message received on `toWrite`, in order, through the buffered
      writer `w`. The completion signal is `false` when the target cannot
      be opened and `true` after the flush; a failed write panics and
      signals nothing (`None`). */
  method WriteMessage(toWrite: seq<Bytes>, canOpen: bool, w: Writer) returns (signal: Option<bool>)
    modifies w
    ensures !canOpen ==> signal == Some(false) && w.data == old(w.data) && w.script == old(w.script)
    ensures canOpen ==> var r := SendAll(toWrite, old(w.script));
      && w.data == r.file && w.script == r.left
      && signal == (if r.panicked then None else Some(true))
  {
    if !canOpen {
      return Some(false);
    }
    // O_TRUNC: nothing written before survives the open.
    w.data := [];
    ghost var s0 := w.script;
    var i := 0;
    while i < |toWrite|
      invariant 0 <= i <= |toWrite|
      invariant SendAll(toWrite, s0) == SendAfter(w.data, SendAll(toWrite[i..], w.script))
    {
      var m := toWrite[i];
      ghost var data0 := w.data;
      ghost var script0 := w.script;
      assert toWrite[i..][0] == m && toWrite[i..][1..] == toWrite[i + 1..];
      var varintBuf := EncodeVarint(|m|);
      var err := WriteFull(w, varintBuf);
      ghost var a := WriteFullOf(varintBuf, script0);
      if err {
        return None;
      }
      ghost var script1 := w.script;
      err := WriteFull(w, m);
      ghost var b := WriteFullOf(m, script1);
      if err {
        AppendAssoc(data0, a.accepted, b.accepted);
        return None;
      }
      SendAfterAssoc(data0, a.accepted + b.accepted, SendAll(toWrite[i + 1..], w.script));
      AppendAssoc(data0, a.accepted, b.accepted);
      i := i + 1;
    }
    AppendEmpty(w.data);
    // The flush's own error is ignored.
    return Some(true);
  }

  // ---------------------------------------------------------------------
  // buildTraces
  // ---------------------------------------------------------------------

  /** What the admission counter of `buildTraces` sees: a task started for
      the job with the given index, or one completion received. */
  datatype Event = Start(job: nat) | Join

  function Starts(es: seq<Event>): nat
  {
    if es == [] then 0 else Starts(es[..|es| - 1]) + (if es[|es| - 1].Start? then 1 else 0)
  }

  function Joins(es: seq<Event>): nat
  {
    if es == [] then 0 else Joins(es[..|es| - 1]) + (if es[|es| - 1].Join? then 1 else 0)
  }

  /** Tasks started and not yet joined. */
  function Running(es: seq<Event>): int
  {
    Starts(es) - Joins(es)
  }

  /** After every event, between none and `maxTasks` tasks are running. */
  predicate Bounded(es: seq<Event>, maxTasks: int)
  {
    forall k :: 0 < k <= |es| ==> 0 <= Running(es[..k]) <= maxTasks
  }

  /** Jobs start in order: the k-th start is job k. */
  predicate InOrder(es: seq<Event>)
  {
    forall k :: 0 <= k < |es| && es[k].Start? ==> es[k].job == Starts(es[..k])
  }

  /** A job waits for one completion before it starts exactly when it is
      not among the first `maxTasks` jobs. */
  predicate WaitsAtCap(es: seq<Event>, maxTasks: int)
  {
    forall k :: 0 <= k < |es| && es[k].Start? ==> (es[k].job >= maxTasks <==> k > 0 && es[k - 1].Join?)
  }

  lemma EventsAppend(es: seq<Event>, e: Event)
    ensures Starts(es + [e]) == Starts(es) + (if e.Start? then 1 else 0)
    ensures Joins(es + [e]) == Joins(es) + (if e.Join? then 1 else 0)
    ensures (es + [e])[..|es|] == es
  {
    assert (es + [e])[..|es|] == es;
  }

  lemma BoundedAppend(es: seq<Event>, e: Event, maxTasks: int)
    requires Bounded(es, maxTasks) && 0 <= Running(es + [e]) <= maxTasks
    ensures Bounded(es + [e], maxTasks)
  {
    forall k | 0 < k <= |es| + 1
      ensures 0 <= Running((es + [e])[..k]) <= maxTasks
    {
      if k <= |es| {
        assert (es + [e])[..k] == es[..k];
      } else {
        assert (es + [e])[..k] == es + [e];
      }
    }
  }

  /** A well-formed event log: bounded, starts in order, and waits only
      at the cap. */
  predicate Schedule(es: seq<Event>, maxTasks: int)
  {
    Bounded(es, maxTasks) && InOrder(es) && WaitsAtCap(es, maxTasks)
  }

  lemma JoinKeepsOrder(es: seq<Event>)
    requires InOrder(es)
    ensures InOrder(es + [Join])
  {
    var es' := es + [Join];
    forall k | 0 <= k < |es'| && es'[k].Start?
      ensures es'[k].job == Starts(es'[..k])
    {
      if k < |es| {
        assert es'[k] == es[k] && es'[..k] == es[..k];
      }
    }
  }

  lemma JoinKeepsWaits(es: seq<Event>, maxTasks: int)
    requires WaitsAtCap(es, maxTasks)
    ensures WaitsAtCap(es + [Join], maxTasks)
  {
    var es' := es + [Join];
    forall k | 0 <= k < |es'| && es'[k].Start?
      ensures es'[k].job >= maxTasks <==> k > 0 && es'[k - 1].Join?
    {
      if k < |es| {
        assert es'[k] == es[k] && es[k].Start?;
        assert es[k].job >= maxTasks <==> k > 0 && es[k - 1].Join?;
        if k > 0 {
          assert es'[k - 1] == es[k - 1];
        }
      }
    }
  }

  /** Receiving one completion while a task runs keeps the log
      well-formed. */
  lemma JoinStep(es: seq<Event>, maxTasks: int)
    requires Schedule(es, maxTasks) && 0 < Running(es) <= maxTasks
    ensures Schedule(es + [Join], maxTasks)
    ensures Starts(es + [Join]) == Starts(es) && Joins(es + [Join]) == Joins(es) + 1
  {
    EventsAppend(es, Join);
    BoundedAppend(es, Join, maxTasks);
    JoinKeepsOrder(es);
    JoinKeepsWaits(es, maxTasks);
  }

  lemma StartKeepsOrder(es: seq<Event>)
    requires InOrder(es)
    ensures InOrder(es + [Start(Starts(es))])
  {
    var es' := es + [Start(Starts(es))];
    forall k | 0 <= k < |es'| && es'[k].Start?
      ensures es'[k].job == Starts(es'[..k])
    {
      if k < |es| {
        assert es'[k] == es[k] && es'[..k] == es[..k];
      } else {
        assert es'[..k] == es;
      }
    }
  }

  lemma StartKeepsWaits(es: seq<Event>, maxTasks: int)
    requires WaitsAtCap(es, maxTasks)
    requires Starts(es) >= maxTasks <==> es != [] && es[|es| - 1].Join?
    ensures WaitsAtCap(es + [Start(Starts(es))], maxTasks)
  {
    var es' := es + [Start(Starts(es))];
    forall k | 0 <= k < |es'| && es'[k].Start?
      ensures es'[k].job >= maxTasks <==> k > 0 && es'[k - 1].Join?
    {
      if k < |es| {
        assert es'[k] == es[k] && es[k].Start?;
        assert es[k].job >= maxTasks <==> k > 0 && es[k - 1].Join?;
        if k > 0 {
          assert es'[k - 1] == es[k - 1];
        }
      } else if k > 0 {
        assert es'[k - 1] == es[|es| - 1];
      }
    }
  }

  /** Starting the next job, right after a completion exactly when it is
      beyond the first `maxTasks`, keeps the log well-formed. */
  lemma StartStep(es: seq<Event>, maxTasks: int)
    requires Schedule(es, maxTasks) && 0 <= Running(es) < maxTasks
    requires Starts(es) >= maxTasks <==> es != [] && es[|es| - 1].Join?
    ensures Schedule(es + [Start(Starts(es))], maxTasks)
    ensures Starts(es + [Start(Starts(es))]) == Starts(es) + 1 && Joins(es + [Start(Starts(es))]) == Joins(es)
  {
    EventsAppend(es, Start(Starts(es)));
    BoundedAppend(es, Start(Starts(es)), maxTasks);
    StartKeepsOrder(es);
    StartKeepsWaits(es, maxTasks);
  }

  function Flatten<P>(plan: seq<seq<P>>): (r: seq<P>)
  {
    if plan == [] then [] else Flatten(plan[..|plan| - 1]) + plan[|plan| - 1]
  }

  /** The counter during the admission loop, after `n` jobs: it counts
      the running tasks, which stay within `maxTasks` and equal `n` until
      the cap is reached, and the last event is a start. */
  predicate Admitting(es: seq<Event>, n: nat, running: int, maxTasks: int)
  {
    && running == Running(es) && Starts(es) == n
    && 0 <= running && (n > 0 ==> running <= maxTasks)
    && (running < maxTasks ==> running == n)
    && (es == [] || es[|es| - 1].Start?)
    && Schedule(es, maxTasks)
  }

  /** Below the cap, the next job starts at once. */
  lemma AdmitStep(es: seq<Event>, n: nat, running: int, maxTasks: int)
    requires Admitting(es, n, running, maxTasks) && running < maxTasks
    ensures Admitting(es + [Start(n)], n + 1, running + 1, maxTasks)
  {
    StartStep(es, maxTasks);
  }

  /** At the cap, the next job first takes one completion, then starts;
      the count of running tasks is unchanged. */
  lemma WaitStep(es: seq<Event>, n: nat, running: int, maxTasks: int)
    requires Admitting(es, n, running, maxTasks) && 0 < running && maxTasks <= running
    ensures Admitting(es + [Join] + [Start(n)], n + 1, running, maxTasks)
  {
    JoinStep(es, maxTasks);
    StartStep(es + [Join], maxTasks);
  }

  lemma FlattenStep<P>(plan: seq<seq<P>>, d: nat, i: nat)
    requires d < |plan| && i < |plan[d]|
    ensures Flatten(plan[..d]) + plan[d][..i + 1] == Flatten(plan[..d]) + plan[d][..i] + [plan[d][i]]
  {
    assert plan[d][..i + 1] == plan[d][..i] + [plan[d][i]];
  }

  lemma FlattenNext<P>(plan: seq<seq<P>>, d: nat)
    requires d < |plan|
    ensures Flatten(plan[..d + 1]) == Flatten(plan[..d]) + plan[d][..|plan[d]|]
  {
    assert plan[d][..|plan[d]|] == plan[d];
    assert plan[..d + 1][..d] == plan[..d];
  }

  /** `buildTraces`, as its admission counter sees it: the jobs of every
      day are started in order; while fewer than `maxTasks` run, a job is
      started at once, otherwise it first waits for one completion; the
      final drain waits for every task still running. With no room at all
      (`maxTasks <= 0`) the first job waits for a completion that never
      comes (`blocked`). */
  method BuildTraces<P>(plan: seq<seq<P>>, maxTasks: int) returns (started: seq<P>, events: seq<Event>, blocked: bool)
    ensures blocked <==> maxTasks <= 0 && Flatten(plan) != []
    ensures !blocked ==> started == Flatten(plan)
    ensures !blocked ==> Starts(events) == |started| == Joins(events) && Running(events) == 0
    ensures Schedule(events, maxTasks)
  {
    var runningTasks := 0;
    started := [];
    events := [];
    var d := 0;
    while d < |plan|
      invariant 0 <= d <= |plan|
      invariant started == Flatten(plan[..d])
      invariant Admitting(events, |started|, runningTasks, maxTasks)
    {
      var i := 0;
      while i < |plan[d]|
        invariant 0 <= i <= |plan[d]|
        invariant started == Flatten(plan[..d]) + plan[d][..i]
        invariant Admitting(events, |started|, runningTasks, maxTasks)
      {
        if runningTasks < maxTasks {
          AdmitStep(events, |started|, runningTasks, maxTasks);
          events := events + [Start(|started|)];
          runningTasks := runningTasks + 1;
        } else {
          if runningTasks == 0 {
            // Nothing runs, so no completion will ever arrive.
            FlattenNonEmpty(plan, d, i);
            return [], [], true;
          }
          WaitStep(events, |started|, runningTasks, maxTasks);
          events := events + [Join] + [Start(|started|)];
        }
        FlattenStep(plan, d, i);
        started := started + [plan[d][i]];
        i := i + 1;
      }
      FlattenNext(plan, d);
      d := d + 1;
    }
    assert plan[..d] == plan;
    while runningTasks != 0
      invariant runningTasks == Running(events) && Starts(events) == |started|
      invariant 0 <= runningTasks && (started != [] ==> runningTasks <= maxTasks)
      invariant Schedule(events, maxTasks)
      decreases runningTasks
    {
      JoinStep(events, maxTasks);
      events := events + [Join];
      runningTasks := runningTasks - 1;
    }
    blocked := false;
  }

  lemma FlattenNonEmpty<P>(plan: seq<seq<P>>, d: nat, i: nat)
    requires d < |plan| && i < |plan[d]|
    ensures Flatten(plan) != []
  {
    FlattenLength(plan, d);
  }

  lemma {:induction false} FlattenLength<P>(plan: seq<seq<P>>, d: nat)
    requires d < |plan|
    ensures |Flatten(plan)| >= |plan[d]|
  {
    if d < |plan| - 1 {
      FlattenLength(plan[..|plan| - 1], d);
    }
  }
}
