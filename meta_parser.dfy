/** The metadata of the Microsoft traces: selecting the traces of one
    trace run and giving every trace its time relative to the earliest. */
module MetaParser {

  /** One trace file's metadata. `time` and `diffToMin` are filled in by
      `AddRelativeTime`; times are whole seconds since the Unix epoch. */
  datatype MSTraceFile = MSTraceFile(
    currentTime: int,
    hostname: string,
    username: string,
    traceFile: string,
    traceRun: string,
    time: int,
    diffToMin: int)

  // ---------------------------------------------------------------------
  // loadMetadata
  // ---------------------------------------------------------------------

  /** The traces of the run `traceRun`, in their order. */
  function Filter(fs: seq<MSTraceFile>, traceRun: string): (r: seq<MSTraceFile>)
    ensures |r| <= |fs|
  {
    if fs == [] then []
    else Filter(fs[..|fs| - 1], traceRun) + (if fs[|fs| - 1].traceRun == traceRun then [fs[|fs| - 1]] else [])
  }

  /** Filtering keeps the order: the traces kept from a concatenation are
      those kept from its first part, then those kept from its second. */
  lemma {:induction false} FilterAppend(a: seq<MSTraceFile>, b: seq<MSTraceFile>, traceRun: string)
    ensures Filter(a + b, traceRun) == Filter(a, traceRun) + Filter(b, traceRun)
    decreases |b|
  {
    if b == [] {
      assert a + b == a;
    } else {
      var b' := b[..|b| - 1];
      assert (a + b)[..|a + b| - 1] == a + b';
      FilterAppend(a, b', traceRun);
    }
  }

  /** A trace is kept exactly when it belongs to the run. */
  lemma {:induction false} FilterMembers(fs: seq<MSTraceFile>, traceRun: string)
    ensures forall f :: f in Filter(fs, traceRun) <==> f in fs && f.traceRun == traceRun
  {
    if fs != [] {
      var fs' := fs[..|fs| - 1];
      FilterMembers(fs', traceRun);
      assert fs == fs' + [fs[|fs| - 1]];
    }
  }

  /** `loadMetadata`, after the metadata file has been read and decoded
      into `allFiles`: the traces of the run `traceRun`, in order. */
  method LoadMetadata(allFiles: seq<MSTraceFile>, traceRun: string) returns (wished: seq<MSTraceFile>)
    ensures wished == Filter(allFiles, traceRun)
  {
    wished := [];
    for i := 0 to |allFiles|
      invariant wished == Filter(allFiles[..i], traceRun)
    {
      assert allFiles[..i + 1][..i] == allFiles[..i];
      if allFiles[i].traceRun == traceRun {
        wished := wished + [allFiles[i]];
      }
    }
    assert allFiles[..|allFiles|] == allFiles;
  }

  // ---------------------------------------------------------------------
  // addRelativeTime
  // ---------------------------------------------------------------------

  /** The earliest `currentTime`. */
  function MinTime(ts: seq<MSTraceFile>): int
    requires ts != []
  {
    if |ts| == 1 then ts[0].currentTime
    else
      var m := MinTime(ts[..|ts| - 1]);
      if ts[|ts| - 1].currentTime < m then ts[|ts| - 1].currentTime else m
  }

  /** `MinTime` is the minimum: no trace is earlier, and some trace is
      exactly that early. */
  lemma {:induction false} MinTimeIsMinimum(ts: seq<MSTraceFile>)
    requires ts != []
    ensures forall i :: 0 <= i < |ts| ==> MinTime(ts) <= ts[i].currentTime
    ensures exists i :: 0 <= i < |ts| && MinTime(ts) == ts[i].currentTime
  {
    if |ts| == 1 {
      assert MinTime(ts) == ts[0].currentTime;
    } else {
      var ts' := ts[..|ts| - 1];
      MinTimeIsMinimum(ts');
      var j :| 0 <= j < |ts'| && MinTime(ts') == ts'[j].currentTime;
      assert ts'[j] == ts[j];
      if ts[|ts| - 1].currentTime < MinTime(ts') {
        assert MinTime(ts) == ts[|ts| - 1].currentTime;
      } else {
        assert MinTime(ts) == ts[j].currentTime;
      }
      forall i | 0 <= i < |ts| - 1 ensures MinTime(ts) <= ts[i].currentTime {
        assert ts'[i] == ts[i];
      }
    }
  }

  /** `MinTime` depends on the current times only. */
  lemma {:induction false} MinTimeOfTimes(ts: seq<MSTraceFile>, us: seq<MSTraceFile>)
    requires ts != [] && |ts| == |us|
    requires forall i :: 0 <= i < |ts| ==> ts[i].currentTime == us[i].currentTime
    ensures MinTime(ts) == MinTime(us)
  {
    if |ts| > 1 {
      MinTimeOfTimes(ts[..|ts| - 1], us[..|us| - 1]);
    }
  }

  /** A trace with its times filled in, given the earliest time. */
  function WithRelativeTime(t: MSTraceFile, minTime: int): MSTraceFile
  {
    t.(time := t.currentTime, diffToMin := t.currentTime - minTime)
  }

  /** With the earliest time as the origin, every trace is at or after it
      and at least one trace is at it. */
  lemma RelativeTimes(ts: seq<MSTraceFile>)
    requires ts != []
    ensures forall i :: 0 <= i < |ts| ==> WithRelativeTime(ts[i], MinTime(ts)).diffToMin >= 0
    ensures exists i :: 0 <= i < |ts| && WithRelativeTime(ts[i], MinTime(ts)).diffToMin == 0
  {
    MinTimeIsMinimum(ts);
    var j :| 0 <= j < |ts| && MinTime(ts) == ts[j].currentTime;
    assert WithRelativeTime(ts[j], MinTime(ts)).diffToMin == 0;
  }

  /** `addRelativeTime`: find the earliest current time while setting each
      trace's `time`, then set each trace's distance to the earliest. The
      current times are not touched. */
  method AddRelativeTime(traces: array<MSTraceFile>)
    requires traces.Length > 0
    modifies traces
    ensures forall i :: 0 <= i < traces.Length ==>
      traces[i] == WithRelativeTime(old(traces[i]), MinTime(old(traces[..])))
  {
    ghost var orig := traces[..];
    var minTime := traces[0].currentTime;
    for i := 0 to traces.Length
      invariant forall k :: 0 <= k < i ==> traces[k] == orig[k].(time := orig[k].currentTime)
      invariant forall k :: i <= k < traces.Length ==> traces[k] == orig[k]
      invariant minTime == MinTime(orig[..if i == 0 then 1 else i])
    {
      if i > 0 {
        assert orig[..i + 1][..i] == orig[..i];
      }
      if traces[i].currentTime < minTime {
        minTime := traces[i].currentTime;
      }
      traces[i] := traces[i].(time := traces[i].currentTime);
    }
    assert orig[..traces.Length] == orig;
    for i := 0 to traces.Length
      invariant forall k :: 0 <= k < i ==> traces[k] == WithRelativeTime(orig[k], minTime)
      invariant forall k :: i <= k < traces.Length ==> traces[k] == orig[k].(time := orig[k].currentTime)
    {
      traces[i] := traces[i].(diffToMin := traces[i].time - minTime);
    }
  }
}
