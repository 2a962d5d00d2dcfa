/** The build plan of the fs-c trace generator: the chosen Microsoft traces
    are grouped by day and host, every host is given one stream, and every
    day gets one plan per stream in use that day, naming the trace files to
    merge into that stream's file for that day. */
module PlanGenerator {
  import opened Text
  import opened MetaParser
  import opened Sorting

  /** The build instruction for one stream on one day. */
  datatype PlanForDay = PlanForDay(targetFile: string, sourceFiles: seq<string>)

  /** The directories, the file-name suffix, and the path operations the
      generator takes from the Go library (`path.Join`, `filepath.Abs`),
      which are not part of this model. */
  datatype Layout = Layout(
    msSourceDir: string,
    targetDir: string,
    suffix: string,
    join: (string, string) -> string,
    abs: string -> string)

  // ---------------------------------------------------------------------
  // Days, file names
  // ---------------------------------------------------------------------

  /** Go's integer division, which truncates toward zero. */
  function GoQuo(a: int, b: int): int
    requires b > 0
  {
    if a >= 0 then a / b else -((-a) / b)
  }

  /** `int(diffToMin.Hours()) / 24`, with the distance in whole seconds. */
  function DayOf(t: MSTraceFile): int
  {
    GoQuo(GoQuo(t.diffToMin, 3600), 24)
  }

  /** A trace at or after the earliest one falls in day `d` exactly when it
      is between `d` and `d + 1` whole days after the earliest. */
  lemma DayOfRelative(t: MSTraceFile)
    requires t.diffToMin >= 0
    ensures 0 <= DayOf(t)
    ensures 86400 * DayOf(t) <= t.diffToMin < 86400 * (DayOf(t) + 1)
  {
    var a := t.diffToMin;
    var h := a / 3600;
    var d := h / 24;
    assert a == 3600 * h + a % 3600 && 0 <= a % 3600 < 3600;
    assert h == 24 * d + h % 24 && 0 <= h % 24 < 24;
    assert 0 <= h;
    assert a == 86400 * d + 3600 * (h % 24) + a % 3600;
  }

  /** `strconv.Itoa` and `%v` on an `int`. */
  function Itoa(i: int): (r: string)
    ensures r != []
    ensures i >= 0 ==> AllDigits(r) && DigitsValue(r) == i
    ensures i < 0 ==> r[0] == '-' && AllDigits(r[1..]) && DigitsValue(r[1..]) == -i
  {
    if i < 0 then
      var r := "-" + NatToString(-i);
      assert r[1..] == NatToString(-i);
      r
    else NatToString(i)
  }

  /** Different numbers have different renderings, so no two days share a
      key of the plan. */
  lemma ItoaInjective(a: int, b: int)
    requires Itoa(a) == Itoa(b)
    ensures a == b
  {
  }

  /** The file a stream's merged trace for a day is written to. */
  function Target(L: Layout, day: int, stream: int): string
  {
    L.abs(L.join(L.targetDir, "gen_" + Itoa(day) + "_stream" + Itoa(stream) + L.suffix))
  }

  /** The path of a trace's file. */
  function Source(L: Layout, t: MSTraceFile): string
  {
    L.join(L.msSourceDir, t.traceFile)
  }

  // ---------------------------------------------------------------------
  // Days, hosts and trace selections of a list of traces
  // ---------------------------------------------------------------------

  /** The days on which some trace was taken. */
  function Days(ts: seq<MSTraceFile>): set<int>
  {
    if ts == [] then {} else Days(ts[..|ts| - 1]) + {DayOf(ts[|ts| - 1])}
  }

  /** The hosts of the traces. */
  function HostSet(ts: seq<MSTraceFile>): set<string>
  {
    if ts == [] then {} else HostSet(ts[..|ts| - 1]) + {ts[|ts| - 1].hostname}
  }

  /** The hosts of the traces taken on day `d`. */
  function HostsOn(ts: seq<MSTraceFile>, d: int): set<string>
  {
    if ts == [] then {}
    else HostsOn(ts[..|ts| - 1], d) + (if DayOf(ts[|ts| - 1]) == d then {ts[|ts| - 1].hostname} else {})
  }

  /** The source paths of the traces taken on a day in `days` by a host in
      `hosts`, in the order of the traces. */
  function Select(ts: seq<MSTraceFile>, days: set<int>, hosts: set<string>, L: Layout): (r: seq<string>)
    ensures |r| <= |ts|
  {
    if ts == [] then []
    else
      var t := ts[|ts| - 1];
      Select(ts[..|ts| - 1], days, hosts, L) + (if DayOf(t) in days && t.hostname in hosts then [Source(L, t)] else [])
  }

  /** Every trace's day, host, and host on its day are recorded. */
  lemma {:induction false} Covers(ts: seq<MSTraceFile>)
    ensures forall i :: 0 <= i < |ts| ==> DayOf(ts[i]) in Days(ts)
    ensures forall i :: 0 <= i < |ts| ==> ts[i].hostname in HostSet(ts)
    ensures forall i :: 0 <= i < |ts| ==> ts[i].hostname in HostsOn(ts, DayOf(ts[i]))
  {
    if ts != [] {
      var ts' := ts[..|ts| - 1];
      Covers(ts');
      forall i | 0 <= i < |ts| - 1
        ensures DayOf(ts[i]) in Days(ts) && ts[i].hostname in HostSet(ts)
        ensures ts[i].hostname in HostsOn(ts, DayOf(ts[i]))
      {
        assert ts[i] == ts'[i];
      }
    }
  }

  /** A day without traces has no hosts. */
  lemma {:induction false} HostsOnOtherDay(ts: seq<MSTraceFile>, d: int)
    requires d !in Days(ts)
    ensures HostsOn(ts, d) == {}
  {
    if ts != [] {
      HostsOnOtherDay(ts[..|ts| - 1], d);
    }
  }

  /** A host without traces on a day contributes nothing to that day. */
  lemma {:induction false} SelectAbsent(ts: seq<MSTraceFile>, d: int, h: string, L: Layout)
    requires h !in HostsOn(ts, d)
    ensures Select(ts, {d}, {h}, L) == []
  {
    if ts != [] {
      SelectAbsent(ts[..|ts| - 1], d, h, L);
    }
  }

  /** Selections that agree on every trace of the chosen days are equal. */
  lemma {:induction false} SelectCongruent(ts: seq<MSTraceFile>, days: set<int>, h1: set<string>, h2: set<string>, L: Layout)
    requires forall i :: 0 <= i < |ts| && DayOf(ts[i]) in days ==> (ts[i].hostname in h1 <==> ts[i].hostname in h2)
    ensures Select(ts, days, h1, L) == Select(ts, days, h2, L)
  {
    if ts != [] {
      var ts' := ts[..|ts| - 1];
      forall i | 0 <= i < |ts'| && DayOf(ts'[i]) in days
        ensures ts'[i].hostname in h1 <==> ts'[i].hostname in h2
      {
        assert ts'[i] == ts[i];
      }
      SelectCongruent(ts', days, h1, h2, L);
    }
  }

  /** Selecting two disjoint sets of hosts selects each trace once. */
  lemma {:induction false} SelectSplitHosts(ts: seq<MSTraceFile>, days: set<int>, h1: set<string>, h2: set<string>, L: Layout)
    requires h1 !! h2
    ensures multiset(Select(ts, days, h1 + h2, L)) == multiset(Select(ts, days, h1, L)) + multiset(Select(ts, days, h2, L))
  {
    if ts != [] {
      SelectSplitHosts(ts[..|ts| - 1], days, h1, h2, L);
    }
  }

  /** Selecting two disjoint sets of days selects each trace once. */
  lemma {:induction false} SelectSplitDays(ts: seq<MSTraceFile>, d1: set<int>, d2: set<int>, hosts: set<string>, L: Layout)
    requires d1 !! d2
    ensures |Select(ts, d1 + d2, hosts, L)| == |Select(ts, d1, hosts, L)| + |Select(ts, d2, hosts, L)|
  {
    if ts != [] {
      SelectSplitDays(ts[..|ts| - 1], d1, d2, hosts, L);
    }
  }

  /** Selecting every day and every host selects every trace. */
  lemma {:induction false} SelectEverything(ts: seq<MSTraceFile>, days: set<int>, hosts: set<string>, L: Layout)
    requires forall i :: 0 <= i < |ts| ==> DayOf(ts[i]) in days && ts[i].hostname in hosts
    ensures |Select(ts, days, hosts, L)| == |ts|
  {
    if ts != [] {
      var ts' := ts[..|ts| - 1];
      forall i | 0 <= i < |ts'| ensures DayOf(ts'[i]) in days && ts'[i].hostname in hosts {
        assert ts'[i] == ts[i];
      }
      SelectEverything(ts', days, hosts, L);
    }
  }

  /** A trace of a chosen day and host has its source path selected. */
  lemma {:induction false} SelectMember(ts: seq<MSTraceFile>, days: set<int>, hosts: set<string>, L: Layout, i: int)
    requires 0 <= i < |ts| && DayOf(ts[i]) in days && ts[i].hostname in hosts
    ensures Source(L, ts[i]) in Select(ts, days, hosts, L)
  {
    var ts' := ts[..|ts| - 1];
    if i < |ts| - 1 {
      assert ts'[i] == ts[i];
      SelectMember(ts', days, hosts, L, i);
    }
  }

  // ---------------------------------------------------------------------
  // generatePlanPerDay, first phase: the source lists per day and host
  // ---------------------------------------------------------------------

  /** The traces grouped by day and host: for every day a map from its
      hosts to the source paths of their traces of that day, in order. */
  predicate Grouped(ts: seq<MSTraceFile>, L: Layout, perDay: map<int, map<string, seq<string>>>)
  {
    && perDay.Keys == Days(ts)
    && (forall d :: d in perDay ==> perDay[d].Keys == HostsOn(ts, d))
    && (forall d, h :: d in perDay && h in perDay[d] ==> perDay[d][h] == Select(ts, {d}, {h}, L))
  }

  /** The grouping loop of `generatePlanPerDay`: collects the hosts and
      the per-day, per-host source lists. */
  method GroupTraces(ts: seq<MSTraceFile>, L: Layout) returns (hostSet: set<string>, perDay: map<int, map<string, seq<string>>>)
    ensures hostSet == HostSet(ts)
    ensures Grouped(ts, L, perDay)
  {
    hostSet := {};
    perDay := map[];
    for i := 0 to |ts|
      invariant hostSet == HostSet(ts[..i])
      invariant Grouped(ts[..i], L, perDay)
    {
      var t := ts[i];
      var day := GoQuo(GoQuo(t.diffToMin, 3600), 24);
      ghost var before := perDay;
      hostSet := hostSet + {t.hostname};
      if day !in perDay {
        perDay := perDay[day := map[t.hostname := [Source(L, t)]]];
        assert [Source(L, t)] == [] + [Source(L, t)];
        assert map[t.hostname := [Source(L, t)]] == map[][t.hostname := [Source(L, t)]];
      } else if t.hostname !in perDay[day] {
        perDay := perDay[day := perDay[day][t.hostname := [Source(L, t)]]];
        assert [Source(L, t)] == [] + [Source(L, t)];
      } else {
        perDay := perDay[day := perDay[day][t.hostname := perDay[day][t.hostname] + [Source(L, t)]]];
      }
      GroupStep(ts, i, L, before, perDay);
    }
    assert ts[..|ts|] == ts;
  }

  /** One more trace: its source path is appended to the list of its day
      and host, a new day or host starting an empty list. */
  lemma GroupStep(ts: seq<MSTraceFile>, i: int, L: Layout, perDay: map<int, map<string, seq<string>>>, next: map<int, map<string, seq<string>>>)
    requires 0 <= i < |ts| && Grouped(ts[..i], L, perDay)
    requires var t := ts[i]; var day := DayOf(t);
      var hosts := if day in perDay then perDay[day] else map[];
      next == perDay[day := hosts[t.hostname := (if t.hostname in hosts then hosts[t.hostname] else []) + [Source(L, t)]]]
    ensures HostSet(ts[..i + 1]) == HostSet(ts[..i]) + {ts[i].hostname}
    ensures Grouped(ts[..i + 1], L, next)
  {
    var t, a, b := ts[i], ts[..i], ts[..i + 1];
    var day := DayOf(t);
    assert b[..i] == a;
    if day !in perDay {
      HostsOnOtherDay(a, day);
    }
    if t.hostname !in HostsOn(a, day) {
      SelectAbsent(a, day, t.hostname, L);
    }
    forall d | d in next ensures next[d].Keys == HostsOn(b, d) {
    }
    forall d, h | d in next && h in next[d] ensures next[d][h] == Select(b, {d}, {h}, L) {
    }
  }

  // ---------------------------------------------------------------------
  // generatePlanPerDay, second phase: streams for the hosts
  // ---------------------------------------------------------------------

  /** The hosts given stream `s`. */
  function StreamHosts(assign: map<string, int>, s: int): set<string>
  {
    set h | h in assign && assign[h] == s
  }

  /** The whole rounds and the hosts left over when `k` hosts are dealt
      out to `n` streams, one each in turn. */
  function Rounds(k: nat, n: nat): nat
    requires n > 0
    decreases k
  {
    if k < n then 0 else Rounds(k - n, n) + 1
  }

  function Rest(k: nat, n: nat): (r: nat)
    requires n > 0
    ensures r < n
    decreases k
  {
    if k < n then k else Rest(k - n, n)
  }

  /** How many of `k` hosts dealt out round-robin to `n` streams stream `s`
      gets: the whole rounds, and one more for the first `Rest` streams. */
  function Share(k: nat, n: nat, s: nat): nat
    requires n > 0
  {
    Rounds(k, n) + (if s < Rest(k, n) then 1 else 0)
  }

  /** `a` split as `n * q + r` with `0 <= r < n` gives quotient `q` and
      remainder `r`. */
  lemma DivModUnique(a: int, n: int, q: int, r: int)
    requires n > 0 && 0 <= r < n && a == n * q + r
    ensures a / n == q && a % n == r
  {
    var q', r' := a / n, a % n;
    assert a == n * q' + r';
    if q' < q {
      MulAtLeast(n, q - q');
    } else if q' > q {
      MulAtLeast(n, q' - q);
    }
  }

  lemma {:induction false} MulAtLeast(n: nat, m: int)
    requires m >= 1
    ensures n * m >= n
    decreases m
  {
    if m > 1 {
      MulAtLeast(n, m - 1);
      assert n * m == n * (m - 1) + n;
    }
  }

  lemma {:induction false} RoundsRest(k: nat, n: nat)
    requires n > 0
    ensures k == n * Rounds(k, n) + Rest(k, n)
    decreases k
  {
    if k >= n {
      RoundsRest(k - n, n);
      assert n * Rounds(k, n) == n * Rounds(k - n, n) + n;
    }
  }

  /** The rounds and the rest are the quotient and the remainder, so a
      stream's share is `k / n`, plus one for the first `k % n` streams. */
  lemma ShareIsDivision(k: nat, n: nat, s: nat)
    requires n > 0
    ensures Rounds(k, n) == k / n && Rest(k, n) == k % n
    ensures Share(k, n, s) == k / n + (if s < k % n then 1 else 0)
  {
    RoundsRest(k, n);
    DivModUnique(k, n, Rounds(k, n), Rest(k, n));
  }

  /** Dealing one more host: it goes to stream `Rest(k, n)`, and a new
      round starts once every stream has had its turn. */
  lemma {:induction false} RestStep(k: nat, n: nat)
    requires n > 0
    ensures Rest(k + 1, n) == (if Rest(k, n) + 1 == n then 0 else Rest(k, n) + 1)
    ensures Rounds(k + 1, n) == Rounds(k, n) + (if Rest(k, n) + 1 == n then 1 else 0)
    decreases k
  {
    if k >= n {
      RestStep(k - n, n);
    }
  }

  /** The next host goes to stream `Rest(k, n)`: that stream's share grows
      by one, the others stay. */
  lemma ShareStep(k: nat, n: nat, s: nat)
    requires n > 0 && s < n
    ensures Share(k + 1, n, s) == Share(k, n, s) + (if s == Rest(k, n) then 1 else 0)
  {
    RestStep(k, n);
  }

  /** `streamCounter = (streamCounter + 1) % numStreams` follows the rest. */
  lemma CounterStep(k: nat, n: nat)
    requires n > 0
    ensures (Rest(k, n) + 1) % n == Rest(k + 1, n)
  {
    RestStep(k, n);
    if Rest(k, n) + 1 < n {
      DivModUnique(Rest(k, n) + 1, n, 0, Rest(k, n) + 1);
    } else {
      DivModUnique(n, n, 1, 0);
    }
  }

  /** Round-robin dealing is balanced: two streams' shares differ by at
      most one, and the shares add up to the number of hosts. */
  lemma ShareBalanced(k: nat, n: nat)
    requires n > 0
    ensures forall s, s' :: 0 <= s < n && 0 <= s' < n ==> -1 <= Share(k, n, s) - Share(k, n, s') <= 1
    ensures SumShares(k, n, n) == k
  {
    SumSharesOf(k, n, n);
    RoundsRest(k, n);
  }

  /** The shares of the first `m` streams. */
  function SumShares(k: nat, n: nat, m: nat): nat
    requires n > 0
  {
    if m == 0 then 0 else SumShares(k, n, m - 1) + Share(k, n, m - 1)
  }

  lemma {:induction false} SumSharesOf(k: nat, n: nat, m: nat)
    requires n > 0 && m <= n
    ensures SumShares(k, n, m) == m * Rounds(k, n) + (if m < Rest(k, n) then m else Rest(k, n))
  {
    if m > 0 {
      SumSharesOf(k, n, m - 1);
    }
  }

  /** A new host dealt stream `c` joins that stream's hosts only. */
  lemma StreamHostsStep(assign: map<string, int>, h: string, c: int, s: int)
    requires h !in assign
    ensures StreamHosts(assign[h := c], s) == StreamHosts(assign, s) + (if c == s then {h} else {})
    ensures h !in StreamHosts(assign, s)
  {
  }

  /** Every host is dealt a stream in `[0, numStreams)`, and the streams
      get `Share` hosts each (stream `s` as many as round-robin dealing of
      the hosts gives it). */
  predicate Dealt(assign: map<string, int>, hostSet: set<string>, numStreams: int)
  {
    && assign.Keys == hostSet
    && (forall h :: h in assign ==> 0 <= assign[h] < numStreams)
    && (numStreams > 0 ==> forall s :: 0 <= s < numStreams ==> |StreamHosts(assign, s)| == Share(|hostSet|, numStreams, s))
  }

  /** The hosts dealt so far have streams in `[0, n)`, each stream has its
      share of them, and the counter names the stream dealt next. */
  predicate Dealing(assign: map<string, int>, counter: int, n: int)
  {
    && (forall h :: h in assign ==> 0 <= assign[h] < n)
    && (n > 0 ==> counter == Rest(|assign|, n) && forall s :: 0 <= s < n ==> |StreamHosts(assign, s)| == Share(|assign|, n, s))
  }

  /** The stream assignment loop of `generatePlanPerDay`: the hosts, in
      whatever order the map yields them, are dealt the streams 0, 1, ...,
      `numStreams - 1`, 0, 1, ... */
  method AssignStreams(hostSet: set<string>, numStreams: int) returns (assign: map<string, int>)
    requires numStreams > 0 || hostSet == {}
    ensures Dealt(assign, hostSet, numStreams)
  {
    assign := map[];
    var streamCounter := 0;
    var rest := hostSet;
    while rest != {}
      invariant rest <= hostSet && assign.Keys == hostSet - rest
      invariant Dealing(assign, streamCounter, numStreams)
      decreases rest
    {
      var host :| host in rest;
      DealStep(assign, host, streamCounter, numStreams);
      assign := assign[host := streamCounter];
      streamCounter := (streamCounter + 1) % numStreams;
      rest := rest - {host};
    }
    assert hostSet == assign.Keys;
  }

  /** Dealing the next host keeps every stream at its share. */
  lemma DealStep(assign: map<string, int>, host: string, c: int, n: int)
    requires host !in assign && n > 0 && Dealing(assign, c, n)
    ensures Dealing(assign[host := c], (c + 1) % n, n)
  {
    var next := assign[host := c];
    var k := |assign|;
    assert c == Rest(k, n);
    assert |next| == k + 1 by {
      assert next.Keys == assign.Keys + {host};
    }
    assert (c + 1) % n == Rest(k + 1, n) by {
      CounterStep(k, n);
    }
    forall s | 0 <= s < n ensures |StreamHosts(next, s)| == Share(k + 1, n, s) {
      StreamHostsStep(assign, host, c, s);
      ShareStep(k, n, s);
    }
  }

  // ---------------------------------------------------------------------
  // The plans: what generatePlanPerDay promises
  // ---------------------------------------------------------------------

  /** The streams of the hosts with traces on day `d`. */
  function DayStreams(ts: seq<MSTraceFile>, assign: map<string, int>, d: int): set<int>
  {
    set h | h in HostsOn(ts, d) && h in assign :: assign[h]
  }

  /** The source paths of the traces of day `d` whose host has stream `s`,
      in the order of the traces. */
  function StreamSources(ts: seq<MSTraceFile>, assign: map<string, int>, L: Layout, d: int, s: int): seq<string>
  {
    Select(ts, {d}, StreamHosts(assign, s), L)
  }

  /** The plan of stream `s` for day `d`: its target file, and its sources
      in ascending order. */
  function Plan(ts: seq<MSTraceFile>, assign: map<string, int>, L: Layout, d: int, s: int): PlanForDay
  {
    PlanForDay(Target(L, d, s), SortStrings(StreamSources(ts, assign, L, d, s)))
  }

  /** The plans of the streams `order`, in that order. */
  function PlansOf(ts: seq<MSTraceFile>, assign: map<string, int>, L: Layout, d: int, order: seq<int>): (r: seq<PlanForDay>)
    ensures |r| == |order|
    ensures forall i :: 0 <= i < |order| ==> r[i] == Plan(ts, assign, L, d, order[i])
  {
    if order == [] then [] else [Plan(ts, assign, L, d, order[0])] + PlansOf(ts, assign, L, d, order[1..])
  }

  /** `order` lists every element of `S` once. */
  predicate Enumerates(order: seq<int>, S: set<int>)
  {
    && (forall i, j :: 0 <= i < j < |order| ==> order[i] != order[j])
    && (forall i :: 0 <= i < |order| ==> order[i] in S)
    && (forall x :: x in S ==> x in order)
  }

  /** The hosts given one of the streams `order`. */
  function HostsOfStreams(assign: map<string, int>, order: seq<int>): set<string>
  {
    set h | h in assign && assign[h] in order
  }

  /** All source paths of a list of plans. */
  function AllSources(plans: seq<PlanForDay>): seq<string>
  {
    if plans == [] then [] else plans[0].sourceFiles + AllSources(plans[1..])
  }

  /** Every trace is in the plan of its own day and its host's stream, and
      that stream is one of the day's. */
  lemma TraceInItsPlan(ts: seq<MSTraceFile>, assign: map<string, int>, L: Layout, i: int)
    requires 0 <= i < |ts| && ts[i].hostname in assign
    ensures assign[ts[i].hostname] in DayStreams(ts, assign, DayOf(ts[i]))
    ensures Source(L, ts[i]) in Plan(ts, assign, L, DayOf(ts[i]), assign[ts[i].hostname]).sourceFiles
  {
    var t := ts[i];
    Covers(ts);
    assert t.hostname in HostsOn(ts, DayOf(t));
    var sh := StreamHosts(assign, assign[t.hostname]);
    SelectMember(ts, {DayOf(t)}, sh, L, i);
    var sources := StreamSources(ts, assign, L, DayOf(t), assign[t.hostname]);
    assert Source(L, t) in multiset(SortStrings(sources));
  }

  /** The plans of a day hold every trace of that day exactly once: their
      source lists together are the day's traces, counted with
      multiplicity. */
  lemma DaySourcesPartition(ts: seq<MSTraceFile>, assign: map<string, int>, L: Layout, d: int, order: seq<int>)
    requires HostSet(ts) <= assign.Keys
    requires Enumerates(order, DayStreams(ts, assign, d))
    ensures multiset(AllSources(PlansOf(ts, assign, L, d, order))) == multiset(Select(ts, {d}, HostSet(ts), L))
  {
    PartitionOfStreams(ts, assign, L, d, order);
    StreamsCoverDay(ts, assign, d, order);
    SelectCongruent(ts, {d}, HostsOfStreams(assign, order), HostSet(ts), L);
  }

  /** Every host of the day has one of the day's streams. */
  lemma StreamsCoverDay(ts: seq<MSTraceFile>, assign: map<string, int>, d: int, order: seq<int>)
    requires HostSet(ts) <= assign.Keys
    requires forall x :: x in DayStreams(ts, assign, d) ==> x in order
    ensures forall i :: 0 <= i < |ts| && DayOf(ts[i]) in {d} ==>
      (ts[i].hostname in HostsOfStreams(assign, order) <==> ts[i].hostname in HostSet(ts))
  {
    Covers(ts);
    forall i | 0 <= i < |ts| && DayOf(ts[i]) in {d}
      ensures ts[i].hostname in HostsOfStreams(assign, order)
    {
      var h := ts[i].hostname;
      assert h in HostsOn(ts, d) && h in assign;
      var x := assign[h];
      var S := DayStreams(ts, assign, d);
      assert x in S;
      assert x in order;
    }
  }

  lemma {:induction false} PartitionOfStreams(ts: seq<MSTraceFile>, assign: map<string, int>, L: Layout, d: int, order: seq<int>)
    requires forall i, j :: 0 <= i < j < |order| ==> order[i] != order[j]
    ensures multiset(AllSources(PlansOf(ts, assign, L, d, order)))
      == multiset(Select(ts, {d}, HostsOfStreams(assign, order), L))
  {
    if order == [] {
      assert HostsOfStreams(assign, order) == {};
      SelectNone(ts, {d}, L);
    } else {
      var s, rest := order[0], order[1..];
      var plans := PlansOf(ts, assign, L, d, order);
      PartitionOfStreams(ts, assign, L, d, rest);
      HostsOfStreamsCons(assign, order);
      SelectSplitHosts(ts, {d}, StreamHosts(assign, s), HostsOfStreams(assign, rest), L);
      assert plans[1..] == PlansOf(ts, assign, L, d, rest);
      assert AllSources(plans) == SortStrings(StreamSources(ts, assign, L, d, s)) + AllSources(plans[1..]);
    }
  }

  /** The hosts of a list of distinct streams are those of its first stream
      and, apart from them, those of the rest. */
  lemma HostsOfStreamsCons(assign: map<string, int>, order: seq<int>)
    requires order != []
    requires forall i, j :: 0 <= i < j < |order| ==> order[i] != order[j]
    ensures forall i, j :: 0 <= i < j < |order[1..]| ==> order[1..][i] != order[1..][j]
    ensures HostsOfStreams(assign, order) == StreamHosts(assign, order[0]) + HostsOfStreams(assign, order[1..])
    ensures StreamHosts(assign, order[0]) !! HostsOfStreams(assign, order[1..])
  {
    var s, rest := order[0], order[1..];
    assert order == [s] + rest;
    assert s !in rest by {
      forall j | 0 <= j < |rest| ensures rest[j] != s {
        assert rest[j] == order[j + 1];
      }
    }
    forall i, j | 0 <= i < j < |rest| ensures rest[i] != rest[j] {
      assert rest[i] == order[i + 1] && rest[j] == order[j + 1];
    }
  }

  /** No host, no sources. */
  lemma {:induction false} SelectNone(ts: seq<MSTraceFile>, days: set<int>, L: Layout)
    ensures Select(ts, days, {}, L) == []
  {
    if ts != [] {
      SelectNone(ts[..|ts| - 1], days, L);
    }
  }

  // ---------------------------------------------------------------------
  // generatePlanPerDay, third phase: one plan per day and stream
  // ---------------------------------------------------------------------

  /** The streams of the hosts in `done`. */
  function StreamsOf(assign: map<string, int>, done: set<string>): set<int>
  {
    set h | h in done && h in assign :: assign[h]
  }

  /** The plans of a day once the hosts `done` have been merged: one per
      stream of those hosts, with that stream's target file and the
      sources of its hosts among `done`. */
  predicate Merged(ts: seq<MSTraceFile>, assign: map<string, int>, L: Layout, day: int, done: set<string>, streamMap: map<int, PlanForDay>)
  {
    && streamMap.Keys == StreamsOf(assign, done)
    && forall s :: s in streamMap ==>
         && streamMap[s].targetFile == Target(L, day, s)
         && multiset(streamMap[s].sourceFiles) == multiset(Select(ts, {day}, StreamHosts(assign, s) * done, L))
  }

  /** The host loop of one day: the source list of every host of the day is
      added to the plan of the host's stream, which is made on first use.
      `count` is what the loop adds to `cnt`. */
  method MergeHosts(ts: seq<MSTraceFile>, L: Layout, assign: map<string, int>, day: int, hostmap: map<string, seq<string>>)
    returns (streamMap: map<int, PlanForDay>, count: int)
    requires hostmap.Keys == HostsOn(ts, day) && HostsOn(ts, day) <= assign.Keys
    requires forall h :: h in hostmap ==> hostmap[h] == Select(ts, {day}, {h}, L)
    ensures streamMap.Keys == DayStreams(ts, assign, day)
    ensures forall s :: s in streamMap ==>
      streamMap[s].targetFile == Target(L, day, s)
      && multiset(streamMap[s].sourceFiles) == multiset(StreamSources(ts, assign, L, day, s))
    ensures count == |Select(ts, {day}, HostsOn(ts, day), L)|
  {
    streamMap := map[];
    count := 0;
    var rest := hostmap.Keys;
    ghost var done: set<string> := {};
    assert Select(ts, {day}, {}, L) == [] by {
      SelectNone(ts, {day}, L);
    }
    assert StreamsOf(assign, {}) == {};
    while rest != {}
      invariant done !! rest && done + rest == hostmap.Keys
      invariant Merged(ts, assign, L, day, done, streamMap)
      invariant count == |Select(ts, {day}, done, L)|
      decreases rest
    {
      var host :| host in rest;
      ghost var before := streamMap;
      var traceFiles := hostmap[host];
      count := count + |traceFiles|;
      var stream := assign[host];
      if stream !in streamMap {
        streamMap := streamMap[stream := PlanForDay(Target(L, day, stream), traceFiles)];
      } else {
        streamMap := streamMap[stream := streamMap[stream].(sourceFiles := streamMap[stream].sourceFiles + traceFiles)];
      }
      MergeStep(ts, assign, L, day, done, host, before, streamMap);
      CountStep(ts, L, day, done, host);
      rest := rest - {host};
      done := done + {host};
    }
    MergedDay(ts, assign, L, day, streamMap);
  }

  /** Merging one more host's sources into the plan of its stream. */
  lemma MergeStep(ts: seq<MSTraceFile>, assign: map<string, int>, L: Layout, day: int, done: set<string>, host: string,
                  streamMap: map<int, PlanForDay>, next: map<int, PlanForDay>)
    requires host in assign && host !in done && Merged(ts, assign, L, day, done, streamMap)
    requires var st, files := assign[host], Select(ts, {day}, {host}, L);
      next == if st !in streamMap then streamMap[st := PlanForDay(Target(L, day, st), files)]
              else streamMap[st := streamMap[st].(sourceFiles := streamMap[st].sourceFiles + files)]
    ensures Merged(ts, assign, L, day, done + {host}, next)
  {
    var st := assign[host];
    StreamsOfGrow(assign, done, host);
    forall s | s in next
      ensures next[s].targetFile == Target(L, day, s)
      ensures multiset(next[s].sourceFiles) == multiset(Select(ts, {day}, StreamHosts(assign, s) * (done + {host}), L))
    {
      StreamHostsGrow(assign, s, done, host);
      if s == st {
        var before := if st in streamMap then streamMap[st].sourceFiles else [];
        assert multiset(before) == multiset(Select(ts, {day}, StreamHosts(assign, s) * done, L)) by {
          if st !in streamMap {
            assert StreamHosts(assign, s) * done == {};
            SelectNone(ts, {day}, L);
          }
        }
        assert next[s].sourceFiles == before + Select(ts, {day}, {host}, L);
        MergeJoin(ts, L, day, StreamHosts(assign, s) * done, host, before, next[s].sourceFiles);
      } else {
        assert s in streamMap && next[s] == streamMap[s];
        assert StreamHosts(assign, s) * (done + {host}) == StreamHosts(assign, s) * done;
      }
    }
  }

  /** The streams of the merged hosts grow by the new host's. */
  lemma StreamsOfGrow(assign: map<string, int>, done: set<string>, host: string)
    requires host in assign
    ensures StreamsOf(assign, done + {host}) == StreamsOf(assign, done) + {assign[host]}
  {
  }

  /** A stream's sources after merging a host of that stream: they grow by
      the host's sources. */
  lemma MergeJoin(ts: seq<MSTraceFile>, L: Layout, day: int, hosts: set<string>, host: string, before: seq<string>, after: seq<string>)
    requires host !in hosts
    requires multiset(before) == multiset(Select(ts, {day}, hosts, L))
    requires after == before + Select(ts, {day}, {host}, L)
    ensures multiset(after) == multiset(Select(ts, {day}, hosts + {host}, L))
  {
    SelectSplitHosts(ts, {day}, hosts, {host}, L);
  }

  lemma StreamHostsGrow(assign: map<string, int>, s: int, done: set<string>, host: string)
    requires host in assign && host !in done
    ensures StreamHosts(assign, s) * (done + {host})
      == StreamHosts(assign, s) * done + (if assign[host] == s then {host} else {})
    ensures host !in StreamHosts(assign, s) * done
  {
  }

  /** The count grows by the number of the host's traces. */
  lemma CountStep(ts: seq<MSTraceFile>, L: Layout, day: int, done: set<string>, host: string)
    requires host !in done
    ensures |Select(ts, {day}, done + {host}, L)| == |Select(ts, {day}, done, L)| + |Select(ts, {day}, {host}, L)|
  {
    SelectSplitHosts(ts, {day}, done, {host}, L);
    assert |multiset(Select(ts, {day}, done + {host}, L))| == |Select(ts, {day}, done + {host}, L)|;
  }

  /** Once every host of the day is merged, the plans are those of the
      day's streams, with all their sources. */
  lemma MergedDay(ts: seq<MSTraceFile>, assign: map<string, int>, L: Layout, day: int, streamMap: map<int, PlanForDay>)
    requires HostsOn(ts, day) <= assign.Keys && Merged(ts, assign, L, day, HostsOn(ts, day), streamMap)
    ensures streamMap.Keys == DayStreams(ts, assign, day)
    ensures forall s :: s in streamMap ==>
      multiset(streamMap[s].sourceFiles) == multiset(StreamSources(ts, assign, L, day, s))
  {
    Covers(ts);
    forall s | s in streamMap
      ensures multiset(streamMap[s].sourceFiles) == multiset(StreamSources(ts, assign, L, day, s))
    {
      SelectCongruent(ts, {day}, StreamHosts(assign, s) * HostsOn(ts, day), StreamHosts(assign, s), L);
    }
  }

  /** A non-empty set of numbers has a member to pick. */
  lemma SomeMember(S: set<int>)
    requires S != {}
    ensures exists x :: x in S
  {
    if forall x :: x !in S {
      assert false;
    }
  }

  /** The loop that lists a day's plans: the plans of the stream map, in
      whatever order the map yields them. */
  method CollectPlans(streamMap: map<int, PlanForDay>) returns (plans: seq<PlanForDay>, ghost order: seq<int>)
    ensures Enumerates(order, streamMap.Keys)
    ensures |plans| == |order| && forall i :: 0 <= i < |order| ==> plans[i] == streamMap[order[i]]
  {
    plans := [];
    order := [];
    var rest := streamMap.Keys;
    while rest != {}
      invariant rest <= streamMap.Keys
      invariant forall i, j :: 0 <= i < j < |order| ==> order[i] != order[j]
      invariant forall i :: 0 <= i < |order| ==> order[i] in streamMap.Keys && order[i] !in rest
      invariant forall x :: x in streamMap.Keys ==> x in rest || x in order
      invariant |plans| == |order| && forall i :: 0 <= i < |order| ==> plans[i] == streamMap[order[i]]
      decreases rest
    {
      SomeMember(rest);
      var s :| s in rest;
      plans := plans + [streamMap[s]];
      order := order + [s];
      rest := rest - {s};
    }
  }

  /** The plans of a day before their sources are sorted: for the streams
      `order`, in that order, each stream's target file and its sources in
      some order. */
  predicate Gathered(plans: seq<PlanForDay>, ts: seq<MSTraceFile>, assign: map<string, int>, L: Layout, d: int, order: seq<int>)
  {
    && |plans| == |order|
    && forall i :: 0 <= i < |plans| ==>
         && plans[i].targetFile == Target(L, d, order[i])
         && multiset(plans[i].sourceFiles) == multiset(StreamSources(ts, assign, L, d, order[i]))
  }

  /** The plans of every day of `allPlans` are gathered for the streams
      `orders` lists for that day, and those are exactly the day's streams. */
  predicate Built(ts: seq<MSTraceFile>, assign: map<string, int>, L: Layout,
                  allPlans: map<int, seq<PlanForDay>>, orders: map<int, seq<int>>)
  {
    forall d :: d in allPlans ==>
      d in orders && Enumerates(orders[d], DayStreams(ts, assign, d)) && Gathered(allPlans[d], ts, assign, L, d, orders[d])
  }

  /** The plans listed from a day's merged stream map are gathered for the
      day's streams. */
  lemma DayGathered(ts: seq<MSTraceFile>, assign: map<string, int>, L: Layout, day: int,
                    streamMap: map<int, PlanForDay>, plans: seq<PlanForDay>, order: seq<int>)
    requires streamMap.Keys == DayStreams(ts, assign, day)
    requires forall s :: s in streamMap ==>
      streamMap[s].targetFile == Target(L, day, s)
      && multiset(streamMap[s].sourceFiles) == multiset(StreamSources(ts, assign, L, day, s))
    requires Enumerates(order, streamMap.Keys)
    requires |plans| == |order| && forall i :: 0 <= i < |order| ==> plans[i] == streamMap[order[i]]
    ensures Enumerates(order, DayStreams(ts, assign, day)) && Gathered(plans, ts, assign, L, day, order)
  {
  }

  /** Adding one more day's gathered plans keeps every day built. */
  lemma BuiltStep(ts: seq<MSTraceFile>, assign: map<string, int>, L: Layout,
                  allPlans: map<int, seq<PlanForDay>>, orders: map<int, seq<int>>,
                  day: int, plans: seq<PlanForDay>, order: seq<int>)
    requires Built(ts, assign, L, allPlans, orders)
    requires Enumerates(order, DayStreams(ts, assign, day)) && Gathered(plans, ts, assign, L, day, order)
    ensures Built(ts, assign, L, allPlans[day := plans], orders[day := order])
  {
  }

  /** The day loop of `generatePlanPerDay`: for every day, its hosts'
      lists merged per stream and then listed; `cnt` counts the traces. */
  method BuildDayPlans(ts: seq<MSTraceFile>, L: Layout, perDay: map<int, map<string, seq<string>>>, assign: map<string, int>)
    returns (allPlans: map<int, seq<PlanForDay>>, cnt: int, ghost orders: map<int, seq<int>>)
    requires Grouped(ts, L, perDay) && HostSet(ts) <= assign.Keys
    ensures allPlans.Keys == Days(ts) && orders.Keys == Days(ts)
    ensures Built(ts, assign, L, allPlans, orders)
    ensures cnt == |ts|
  {
    cnt := 0;
    allPlans := map[];
    orders := map[];
    var rest := perDay.Keys;
    ghost var done: set<int> := {};
    assert |Select(ts, {}, HostSet(ts), L)| == 0 by {
      SelectEverything(ts[..0], {}, HostSet(ts), L);
      NoDays(ts, HostSet(ts), L);
    }
    while rest != {}
      invariant done !! rest && done + rest == perDay.Keys
      invariant allPlans.Keys == done && orders.Keys == done
      invariant Built(ts, assign, L, allPlans, orders)
      invariant cnt == |Select(ts, done, HostSet(ts), L)|
      decreases rest
    {
      SomeMember(rest);
      var day :| day in rest;
      HostsOnInHostSet(ts, day);
      var streamMap, count := MergeHosts(ts, L, assign, day, perDay[day]);
      cnt := cnt + count;
      var plans, order := CollectPlans(streamMap);
      DayGathered(ts, assign, L, day, streamMap, plans, order);
      BuiltStep(ts, assign, L, allPlans, orders, day, plans, order);
      allPlans := allPlans[day := plans];
      orders := orders[day := order];
      DayCount(ts, L, done, day);
      rest := rest - {day};
      done := done + {day};
    }
    Covers(ts);
    SelectEverything(ts, Days(ts), HostSet(ts), L);
  }

  /** No day, no sources. */
  lemma {:induction false} NoDays(ts: seq<MSTraceFile>, hosts: set<string>, L: Layout)
    ensures Select(ts, {}, hosts, L) == []
  {
    if ts != [] {
      NoDays(ts[..|ts| - 1], hosts, L);
    }
  }

  /** A day's hosts are hosts of the traces. */
  lemma {:induction false} HostsOnInHostSet(ts: seq<MSTraceFile>, d: int)
    ensures HostsOn(ts, d) <= HostSet(ts)
  {
    if ts != [] {
      HostsOnInHostSet(ts[..|ts| - 1], d);
    }
  }

  /** The count after one more day: the traces of that day are added. */
  lemma DayCount(ts: seq<MSTraceFile>, L: Layout, done: set<int>, day: int)
    requires day !in done
    ensures |Select(ts, done + {day}, HostSet(ts), L)| == |Select(ts, done, HostSet(ts), L)| + |Select(ts, {day}, HostsOn(ts, day), L)|
  {
    SelectSplitDays(ts, done, {day}, HostSet(ts), L);
    Covers(ts);
    SelectCongruent(ts, {day}, HostsOn(ts, day), HostSet(ts), L);
  }

  // ---------------------------------------------------------------------
  // Sorting the sources; generatePlanPerDay
  // ---------------------------------------------------------------------

  /** A plan with its sources in ascending order. */
  function SortedPlan(p: PlanForDay): (r: PlanForDay)
    ensures r.targetFile == p.targetFile
    ensures Sorted(r.sourceFiles) && multiset(r.sourceFiles) == multiset(p.sourceFiles)
  {
    p.(sourceFiles := SortStrings(p.sourceFiles))
  }

  /** `sorted` is `plans` with the sources of every plan sorted. */
  predicate SortedAll(plans: seq<PlanForDay>, sorted: seq<PlanForDay>)
  {
    |sorted| == |plans| && forall i :: 0 <= i < |plans| ==> sorted[i] == SortedPlan(plans[i])
  }

  /** The last loop of `generatePlanPerDay`: the sources of every plan of
      every day are sorted. The loop variable is a copy of the plan, but the
      sort works on the array its source slice shares with the plan in the
      map, so the plans in the map end up sorted. */
  method SortPlans(allPlans: map<int, seq<PlanForDay>>) returns (sorted: map<int, seq<PlanForDay>>)
    ensures sorted.Keys == allPlans.Keys
    ensures forall d :: d in sorted ==> SortedAll(allPlans[d], sorted[d])
  {
    sorted := map[];
    var rest := allPlans.Keys;
    while rest != {}
      invariant rest <= allPlans.Keys && sorted.Keys == allPlans.Keys - rest
      invariant forall d :: d in sorted ==> SortedAll(allPlans[d], sorted[d])
      decreases rest
    {
      SomeMember(rest);
      var d :| d in rest;
      var out := SortDay(allPlans[d]);
      sorted := sorted[d := out];
      rest := rest - {d};
    }
  }

  /** The inner loop of the last loop of `generatePlanPerDay`: the sources
      of each plan of one day are sorted. */
  method SortDay(dayplan: seq<PlanForDay>) returns (out: seq<PlanForDay>)
    ensures SortedAll(dayplan, out)
  {
    out := [];
    for i := 0 to |dayplan|
      invariant SortedAll(dayplan[..i], out)
    {
      var a := SortStrings(dayplan[i].sourceFiles);
      out := out + [dayplan[i].(sourceFiles := a)];
    }
    assert dayplan[..|dayplan|] == dayplan;
  }

  /** Sorting the sources of a day's gathered plans gives the day's plans. */
  lemma SortedGathered(ts: seq<MSTraceFile>, assign: map<string, int>, L: Layout, d: int, order: seq<int>,
                       plans: seq<PlanForDay>, sorted: seq<PlanForDay>)
    requires Gathered(plans, ts, assign, L, d, order) && SortedAll(plans, sorted)
    ensures sorted == PlansOf(ts, assign, L, d, order)
  {
    var r := PlansOf(ts, assign, L, d, order);
    forall i | 0 <= i < |sorted| ensures sorted[i] == r[i] {
      SortPermutation(plans[i].sourceFiles, StreamSources(ts, assign, L, d, order[i]));
    }
  }

  /** `generatePlanPerDay`: the plans of every day on which a chosen trace
      was taken, one per stream in use that day, with the hosts dealt to
      the streams in turn. `assign` is the stream of every host and
      `orders` the order in which the plans of each day are listed, which
      follows Go's map iteration and is not otherwise determined. */
  method GeneratePlanPerDay(chosen: seq<MSTraceFile>, L: Layout, numStreams: int)
    returns (allPlans: map<int, seq<PlanForDay>>, ghost assign: map<string, int>, ghost orders: map<int, seq<int>>)
    requires numStreams > 0 || HostSet(chosen) == {}
    ensures Dealt(assign, HostSet(chosen), numStreams)
    ensures allPlans.Keys == Days(chosen) && orders.Keys == Days(chosen)
    ensures forall d :: d in allPlans ==>
      Enumerates(orders[d], DayStreams(chosen, assign, d)) && allPlans[d] == PlansOf(chosen, assign, L, d, orders[d])
  {
    var hostSet, perDay := GroupTraces(chosen, L);
    var assignment := AssignStreams(hostSet, numStreams);
    assign := assignment;
    var gathered, cnt;
    gathered, cnt, orders := BuildDayPlans(chosen, L, perDay, assignment);
    allPlans := SortPlans(gathered);
    forall d | d in allPlans
      ensures allPlans[d] == PlansOf(chosen, assign, L, d, orders[d])
    {
      SortedGathered(chosen, assign, L, d, orders[d], gathered[d], allPlans[d]);
    }
  }

  // ---------------------------------------------------------------------
  // generatePlan: choosing the nodes, the output
  // ---------------------------------------------------------------------

  /** The hosts of the traces at the positions `perm[0..n)`. */
  function ChosenHosts(ts: seq<MSTraceFile>, perm: seq<int>, n: nat): set<string>
    requires n <= |perm| && forall i :: 0 <= i < |perm| ==> 0 <= perm[i] < |ts|
  {
    if n == 0 then {} else ChosenHosts(ts, perm, n - 1) + {ts[perm[n - 1]].hostname}
  }

  /** A host is chosen exactly when the trace at one of the first `n`
      positions of `perm` is one of its traces. */
  lemma {:induction false} ChosenHostsOf(ts: seq<MSTraceFile>, perm: seq<int>, n: nat)
    requires n <= |perm| && forall i :: 0 <= i < |perm| ==> 0 <= perm[i] < |ts|
    ensures forall h :: h in ChosenHosts(ts, perm, n) <==> exists i :: 0 <= i < n && ts[perm[i]].hostname == h
  {
    if n > 0 {
      ChosenHostsOf(ts, perm, n - 1);
      var last := ts[perm[n - 1]].hostname;
      forall h | h in ChosenHosts(ts, perm, n)
        ensures exists i :: 0 <= i < n && ts[perm[i]].hostname == h
      {
        if h == last {
          assert ts[perm[n - 1]].hostname == h;
        } else {
          assert h in ChosenHosts(ts, perm, n - 1);
          var i :| 0 <= i < n - 1 && ts[perm[i]].hostname == h;
          assert 0 <= i < n;
        }
      }
    }
  }

  /** The chosen hosts are hosts of the traces. */
  lemma {:induction false} ChosenHostsAreHosts(ts: seq<MSTraceFile>, perm: seq<int>, n: nat)
    requires n <= |perm| && forall i :: 0 <= i < |perm| ==> 0 <= perm[i] < |ts|
    ensures ChosenHosts(ts, perm, n) <= HostSet(ts)
  {
    if n > 0 {
      ChosenHostsAreHosts(ts, perm, n - 1);
      HostOfTrace(ts, perm[n - 1]);
    }
  }

  /** There are at most `n` chosen hosts: fewer when two chosen traces
      share a host. */
  lemma {:induction false} ChosenHostsBound(ts: seq<MSTraceFile>, perm: seq<int>, n: nat)
    requires n <= |perm| && forall i :: 0 <= i < |perm| ==> 0 <= perm[i] < |ts|
    ensures |ChosenHosts(ts, perm, n)| <= n
  {
    if n > 0 {
      ChosenHostsBound(ts, perm, n - 1);
    }
  }

  lemma {:induction false} HostOfTrace(ts: seq<MSTraceFile>, i: int)
    requires 0 <= i < |ts|
    ensures ts[i].hostname in HostSet(ts)
    decreases |ts|
  {
    if i < |ts| - 1 {
      HostOfTrace(ts[..|ts| - 1], i);
    }
  }

  /** The traces whose host is in `hosts`, in their order. */
  function OfHosts(ts: seq<MSTraceFile>, hosts: set<string>): (r: seq<MSTraceFile>)
    ensures |r| <= |ts|
  {
    if ts == [] then []
    else OfHosts(ts[..|ts| - 1], hosts) + (if ts[|ts| - 1].hostname in hosts then [ts[|ts| - 1]] else [])
  }

  /** Selecting by host keeps the order: the traces kept from a
      concatenation are those kept from its first part, then those kept
      from its second. */
  lemma {:induction false} OfHostsAppend(a: seq<MSTraceFile>, b: seq<MSTraceFile>, hosts: set<string>)
    ensures OfHosts(a + b, hosts) == OfHosts(a, hosts) + OfHosts(b, hosts)
    decreases |b|
  {
    if b == [] {
      assert a + b == a;
    } else {
      var b' := b[..|b| - 1];
      assert (a + b)[..|a + b| - 1] == a + b';
      OfHostsAppend(a, b', hosts);
    }
  }

  /** A trace is kept exactly when its host is one of `hosts`. */
  lemma {:induction false} OfHostsMembers(ts: seq<MSTraceFile>, hosts: set<string>)
    ensures forall t :: t in OfHosts(ts, hosts) <==> t in ts && t.hostname in hosts
  {
    if ts != [] {
      var ts' := ts[..|ts| - 1];
      OfHostsMembers(ts', hosts);
      assert ts == ts' + [ts[|ts| - 1]];
    }
  }

  /** The hosts of the traces kept are those of `hosts` that have traces. */
  lemma {:induction false} OfHostsHosts(ts: seq<MSTraceFile>, hosts: set<string>)
    ensures HostSet(OfHosts(ts, hosts)) == HostSet(ts) * hosts
  {
    if ts != [] {
      var ts' := ts[..|ts| - 1];
      var t := ts[|ts| - 1];
      OfHostsHosts(ts', hosts);
      var r' := OfHosts(ts', hosts);
      if t.hostname in hosts {
        assert (r' + [t])[..|r'|] == r';
      } else {
        assert r' + [] == r';
      }
    }
  }

  /** The node selection of `generatePlan`, given the permutation the
      random generator yields: the hosts of the traces at the first
      `numNodes` positions of `perm` are chosen, then every trace of a
      chosen host, in order. */
  method ChooseTraces(traces: seq<MSTraceFile>, perm: seq<int>, numNodes: int) returns (chosen: seq<MSTraceFile>)
    requires 0 <= numNodes <= |perm| && forall i :: 0 <= i < |perm| ==> 0 <= perm[i] < |traces|
    ensures chosen == OfHosts(traces, ChosenHosts(traces, perm, numNodes))
  {
    var chosenSet: set<string> := {};
    for i := 0 to numNodes
      invariant chosenSet == ChosenHosts(traces, perm, i)
    {
      chosenSet := chosenSet + {traces[perm[i]].hostname};
    }
    chosen := [];
    for i := 0 to |traces|
      invariant chosen == OfHosts(traces[..i], chosenSet)
    {
      assert traces[..i + 1][..i] == traces[..i];
      if traces[i].hostname in chosenSet {
        chosen := chosen + [traces[i]];
      }
    }
    assert traces[..|traces|] == traces;
  }

  /** Traces at or after the earliest one fall on days from 0 on. */
  lemma {:induction false} DaysNonNegative(ts: seq<MSTraceFile>)
    requires forall t :: t in ts ==> t.diffToMin >= 0
    ensures forall d :: d in Days(ts) ==> d >= 0
  {
    if ts != [] {
      var t := ts[|ts| - 1];
      assert t in ts;
      DayOfRelative(t);
      var ts' := ts[..|ts| - 1];
      forall u | u in ts' ensures u.diffToMin >= 0 {
        var k :| 0 <= k < |ts'| && ts'[k] == u;
        assert ts[k] == u;
      }
      DaysNonNegative(ts');
    }
  }

  /** Once the traces have their times relative to the earliest, the
      traces of any hosts fall on days from 0 on. */
  lemma ChosenOnLaterDays(orig: seq<MSTraceFile>, ts: seq<MSTraceFile>, hosts: set<string>)
    requires orig != [] && |ts| == |orig|
    requires forall i :: 0 <= i < |ts| ==> ts[i] == WithRelativeTime(orig[i], MinTime(orig))
    ensures forall d :: d in Days(OfHosts(ts, hosts)) ==> d >= 0
  {
    var chosen := OfHosts(ts, hosts);
    OfHostsMembers(ts, hosts);
    RelativeTimes(orig);
    forall t | t in chosen ensures t.diffToMin >= 0 {
      var k :| 0 <= k < |ts| && ts[k] == t;
    }
    DaysNonNegative(chosen);
  }

  /** The configuration recorded with the plan; the trace run and the hash
      of the metadata file are filled in by `main`. */
  datatype GeneratorConfig = GeneratorConfig(seed: int, numNodes: int, numStreams: int)

  /** The generated build plan: its configuration, and the plans of every
      day under the day written in decimal. */
  datatype OutputJSON = OutputJSON(config: GeneratorConfig, plan: map<string, seq<PlanForDay>>)

  /** The loop that files every day's plans under its decimal key. */
  method PlanKeys(allPlans: map<int, seq<PlanForDay>>) returns (plan: map<string, seq<PlanForDay>>)
    ensures plan.Keys == set d | d in allPlans :: Itoa(d)
    ensures forall d :: d in allPlans ==> Itoa(d) in plan && plan[Itoa(d)] == allPlans[d]
  {
    plan := map[];
    var rest := allPlans.Keys;
    ghost var done: set<int> := {};
    while rest != {}
      invariant done !! rest && done + rest == allPlans.Keys
      invariant plan.Keys == set d | d in done :: Itoa(d)
      invariant forall d :: d in done ==> Itoa(d) in plan && plan[Itoa(d)] == allPlans[d]
      decreases rest
    {
      SomeMember(rest);
      var day :| day in rest;
      KeyStep(done, day);
      forall d | d in done ensures Itoa(d) != Itoa(day) {
        if Itoa(d) == Itoa(day) {
          ItoaInjective(d, day);
        }
      }
      plan := plan[Itoa(day) := allPlans[day]];
      rest := rest - {day};
      done := done + {day};
    }
  }

  /** One more day gives one more key. */
  lemma KeyStep(done: set<int>, day: int)
    ensures (set d | d in done + {day} :: Itoa(d)) == (set d | d in done :: Itoa(d)) + {Itoa(day)}
  {
  }

  /** `generatePlan`, given the current time `now` (used as the seed when
      the seed is 0) and the permutation `perm` the random generator
      seeded so yields: the traces get their relative times, the hosts of
      the first `numNodes` traces of the permutation are chosen, and the
      plans of their traces are filed under the decimal day. */
  method GeneratePlan(seed: int, now: int, numNodes: int, numStreams: int, L: Layout,
                      traces: array<MSTraceFile>, perm: seq<int>)
    returns (out: OutputJSON, ghost chosen: seq<MSTraceFile>, ghost assign: map<string, int>, ghost orders: map<int, seq<int>>)
    requires traces.Length > 0
    requires 0 <= numNodes <= |perm| == traces.Length && forall i :: 0 <= i < |perm| ==> 0 <= perm[i] < traces.Length
    requires numStreams > 0 || numNodes == 0
    modifies traces
    ensures forall i :: 0 <= i < traces.Length ==>
      traces[i] == WithRelativeTime(old(traces[i]), MinTime(old(traces[..])))
    ensures out.config == GeneratorConfig(if seed == 0 then now else seed, numNodes, numStreams)
    ensures chosen == OfHosts(traces[..], ChosenHosts(traces[..], perm, numNodes))
    ensures Dealt(assign, HostSet(chosen), numStreams)
    ensures forall d :: d in Days(chosen) ==> d >= 0
    ensures out.plan.Keys == set d | d in Days(chosen) :: Itoa(d)
    ensures forall d :: d in Days(chosen) ==>
      && Itoa(d) in out.plan && d in orders
      && Enumerates(orders[d], DayStreams(chosen, assign, d))
      && out.plan[Itoa(d)] == PlansOf(chosen, assign, L, d, orders[d])
  {
    ghost var orig := traces[..];
    AddRelativeTime(traces);
    var config := GeneratorConfig(if seed == 0 then now else seed, numNodes, numStreams);
    var ts := traces[..];
    var chosenTraces := ChooseTraces(ts, perm, numNodes);
    chosen := chosenTraces;
    ChosenOnLaterDays(orig, ts, ChosenHosts(ts, perm, numNodes));
    OfHostsHosts(ts, ChosenHosts(ts, perm, numNodes));
    var allPlans;
    allPlans, assign, orders := GeneratePlanPerDay(chosenTraces, L, numStreams);
    var plan := PlanKeys(allPlans);
    out := OutputJSON(config, plan);
  }
}
