/** Value types shared by every component: bytes, optional values, the
    integer widths of Go's unsigned types, and small arithmetic helpers. */
module Common {

  /** One byte of a trace file or of a marshalled message. */
  newtype byte = b: int | 0 <= b < 256

  type Bytes = seq<byte>

  datatype Option<T> = None | Some(value: T)

  /** 2^32: Go's `uint32` conversions reduce modulo this value. */
  const TwoTo32: nat := 0x1_0000_0000

  /** 2^63: the magnitude bound of Go's `int64`. */
  const TwoTo63: nat := 0x8000_0000_0000_0000

  /** 2^64: Go's `uint64` conversions reduce modulo this value. */
  const TwoTo64: nat := 0x1_0000_0000_0000_0000

  /** 128^i, the weight of the i-th seven-bit group of a varint. */
  function Pow128(i: nat): (r: nat)
    ensures r >= 1
  {
    if i == 0 then 1 else 128 * Pow128(i - 1)
  }

  // Sequence identities, stated once so that proofs elsewhere need not
  // rediscover them by extensionality.

  lemma TailOfAppend<T>(a: seq<T>, b: seq<T>)
    requires a != []
    ensures (a + b)[1..] == a[1..] + b
  {
  }

  lemma TailOfCons<T>(x: T, a: seq<T>)
    ensures ([x] + a)[1..] == a
  {
  }

  lemma TailOfTail<T>(a: seq<T>)
    requires |a| >= 2
    ensures a[1..][1..] == a[2..]
  {
  }

  lemma AppendAssoc<T>(a: seq<T>, b: seq<T>, c: seq<T>)
    ensures a + b + c == a + (b + c)
  {
  }

  lemma AppendEmpty<T>(a: seq<T>)
    ensures a + [] == a && [] + a == a
  {
  }

  /** `r` is what is left of `s` after a prefix of it was read. */
  predicate IsSuffix<T(==)>(r: seq<T>, s: seq<T>)
  {
    |r| <= |s| && r == s[|s| - |r|..]
  }

  /** Sum of a sequence of naturals. */
  function Sum(s: seq<nat>): nat
  {
    if s == [] then 0 else Sum(s[..|s| - 1]) + s[|s| - 1]
  }

  /** Adding `d` to one element adds `d` to the sum. */
  lemma {:induction false} SumAdd(s: seq<nat>, i: nat, d: nat)
    requires i < |s|
    ensures Sum(s[i := s[i] + d]) == Sum(s) + d
    decreases |s|
  {
    var t := s[i := s[i] + d];
    assert t[..|t| - 1] == if i < |s| - 1 then s[..|s| - 1][i := s[i] + d] else s[..|s| - 1];
    if i < |s| - 1 {
      SumAdd(s[..|s| - 1], i, d);
    }
  }

  lemma {:induction false} SumZeros(n: nat)
    ensures Sum(seq(n, _ => 0)) == 0
  {
    if n > 0 {
      assert seq(n, _ => 0)[..n - 1] == seq(n - 1, _ => 0);
      SumZeros(n - 1);
    }
  }

  /** The sum of the weights `w` of the values of a finite map. */
  ghost function SumMap<K, V>(m: map<K, V>, w: V -> nat): nat
    decreases |m|
  {
    if m == map[] then 0
    else
      var x :| x in m;
      w(m[x]) + SumMap(m - {x}, w)
  }

  /** The sum over a map is any entry's weight plus the sum over the
      other entries, whichever entry the definition picks. */
  lemma {:induction false} SumMapRemove<K, V>(m: map<K, V>, w: V -> nat, x: K)
    requires x in m
    ensures SumMap(m, w) == w(m[x]) + SumMap(m - {x}, w)
    decreases |m|
  {
    var y :| y in m && SumMap(m, w) == w(m[y]) + SumMap(m - {y}, w);
    if y != x {
      SumMapRemove(m - {y}, w, x);
      SumMapRemove(m - {x}, w, y);
      assert m - {y} - {x} == m - {x} - {y};
    }
  }

  /** Setting one entry replaces its weight in the sum. */
  lemma SumMapUpdate<K, V>(m: map<K, V>, w: V -> nat, x: K, v: V)
    ensures SumMap(m[x := v], w) == SumMap(m, w) - (if x in m then w(m[x]) else 0) + w(v)
  {
    SumMapRemove(m[x := v], w, x);
    if x in m {
      SumMapRemove(m, w, x);
      assert m[x := v] - {x} == m - {x};
    } else {
      assert m[x := v] - {x} == m;
    }
  }

  /** A map whose weights are twice those of another map over the same
      keys has twice the sum. */
  lemma {:induction false} SumMapDouble<K, V>(m: map<K, V>, m2: map<K, V>, w: V -> nat)
    requires m.Keys == m2.Keys
    requires forall x :: x in m ==> w(m2[x]) == 2 * w(m[x])
    ensures SumMap(m2, w) == 2 * SumMap(m, w)
    decreases |m|
  {
    if m != map[] {
      var x :| x in m && SumMap(m, w) == w(m[x]) + SumMap(m - {x}, w);
      SumMapRemove(m2, w, x);
      SumMapDouble(m - {x}, m2 - {x}, w);
    }
  }

  /** Taking one more entry `x` of `m` out of the keys still to visit adds
      its weight to the sum over the visited entries. */
  lemma SumMapStep<K, V>(m: map<K, V>, rest: set<K>, x: K, w: V -> nat)
    requires x in rest && rest <= m.Keys
    ensures m - (rest - {x}) == (m - rest)[x := m[x]] && x !in m - rest
    ensures SumMap(m - (rest - {x}), w) == SumMap(m - rest, w) + w(m[x])
  {
    VisitStep(m, rest, x);
    SumMapUpdate(m - rest, w, x, m[x]);
  }

  /** Taking one more entry `x` of `m` out of the keys still to visit adds
      it to the visited entries. */
  lemma VisitStep<K, V>(m: map<K, V>, rest: set<K>, x: K)
    requires x in rest && rest <= m.Keys
    ensures m - (rest - {x}) == (m - rest)[x := m[x]] && x !in m - rest
  {
    assert m - (rest - {x}) == (m - rest)[x := m[x]];
  }

  /** The lists `f(x)` of the elements `x` of `xs`, one after another. */
  function Concat<T, U>(xs: seq<T>, f: T -> seq<U>): seq<U>
  {
    if xs == [] then [] else Concat(xs[..|xs| - 1], f) + f(xs[|xs| - 1])
  }

  /** The lists of two sequences are those of the first, then those of the
      second. */
  lemma {:induction false} ConcatAppend<T, U>(a: seq<T>, b: seq<T>, f: T -> seq<U>)
    ensures Concat(a + b, f) == Concat(a, f) + Concat(b, f)
    decreases |b|
  {
    if b == [] {
      assert a + b == a;
    } else {
      var b' := b[..|b| - 1];
      assert (a + b)[..|a + b| - 1] == a + b';
      ConcatAppend(a, b', f);
    }
  }

  /** One more element adds its list. */
  lemma ConcatStep<T, U>(xs: seq<T>, i: nat, f: T -> seq<U>)
    requires i < |xs|
    ensures Concat(xs[..i + 1], f) == Concat(xs[..i], f) + f(xs[i])
  {
    assert xs[..i + 1][..i] == xs[..i];
  }

  /** A histogram whose sum is the sum over a map: adding a new entry's
      weight to one of its bars keeps them equal. */
  lemma SumMapAddTo<K, V>(h: seq<nat>, n: nat, m: map<K, V>, x: K, v: V, w: V -> nat)
    requires n < |h| && x !in m && Sum(h) == SumMap(m, w)
    ensures Sum(h[n := h[n] + w(v)]) == SumMap(m[x := v], w)
  {
    SumAdd(h, n, w(v));
    SumMapUpdate(m, w, x, v);
  }

  /** The entries of `m` whose value has size `c`. */
  function Where<K, V>(m: map<K, V>, size: V -> nat, c: nat): map<K, V>
  {
    map k | k in m && size(m[k]) == c :: m[k]
  }

  /** The weights of the size classes `0 <= c < len` of `d`. */
  ghost function ClassSums<K, V>(d: map<K, V>, size: V -> nat, len: nat, w: V -> nat): (r: seq<nat>)
    ensures |r| == len
    decreases len
  {
    if len == 0 then [] else ClassSums(d, size, len - 1, w) + [SumMap(Where(d, size, len - 1), w)]
  }

  lemma {:induction false} ClassSumsAt<K, V>(d: map<K, V>, size: V -> nat, len: nat, w: V -> nat, c: nat)
    requires c < len
    ensures ClassSums(d, size, len, w)[c] == SumMap(Where(d, size, c), w)
    decreases len
  {
    if c < len - 1 {
      ClassSumsAt(d, size, len - 1, w, c);
    }
  }

  /** A new entry adds its weight to the class of its size only. */
  lemma WhereStep<K, V>(d: map<K, V>, size: V -> nat, k: K, v: V, c: nat, w: V -> nat)
    requires k !in d
    ensures SumMap(Where(d[k := v], size, c), w) == SumMap(Where(d, size, c), w) + if size(v) == c then w(v) else 0
  {
    if size(v) == c {
      assert Where(d[k := v], size, c) == Where(d, size, c)[k := v];
      SumMapUpdate(Where(d, size, c), w, k, v);
    } else {
      assert Where(d[k := v], size, c) == Where(d, size, c);
    }
  }

  /** A new entry adds its weight to the class of its size and to no other
      class. */
  lemma ClassSumsStep<K, V>(d: map<K, V>, size: V -> nat, k: K, v: V, len: nat, w: V -> nat)
    requires k !in d && size(v) < len
    ensures ClassSums(d[k := v], size, len, w) == ClassSums(d, size, len, w)[size(v) := ClassSums(d, size, len, w)[size(v)] + w(v)]
  {
    var before, after := ClassSums(d, size, len, w), ClassSums(d[k := v], size, len, w);
    forall c | 0 <= c < len
      ensures after[c] == before[size(v) := before[size(v)] + w(v)][c]
    {
      ClassSumsAt(d, size, len, w, c);
      ClassSumsAt(d[k := v], size, len, w, c);
      WhereStep(d, size, k, v, c, w);
    }
  }

  /** A histogram `h` over the size classes of the visited entries `done`:
      each class holds the weight of the entries of its size, and the
      histogram sums to the weight of all visited entries. */
  ghost predicate Classed<K, V>(done: map<K, V>, size: V -> nat, w: V -> nat, h: seq<nat>)
  {
    h == ClassSums(done, size, |h|, w) && Sum(h) == SumMap(done, w)
  }

  lemma ClassedStart<K, V>(done: map<K, V>, size: V -> nat, w: V -> nat, h: seq<nat>)
    requires done == map[]
    requires forall c :: 0 <= c < |h| ==> h[c] == 0
    ensures Classed(done, size, w, h)
  {
    forall c | 0 <= c < |h|
      ensures h[c] == ClassSums(done, size, |h|, w)[c]
    {
      assert Where(done, size, c) == map[];
      ClassSumsAt(done, size, |h|, w, c);
    }
    assert h == seq(|h|, _ => 0);
    SumZeros(|h|);
  }

  lemma ClassedStep<K, V>(done: map<K, V>, size: V -> nat, w: V -> nat, k: K, v: V, h: seq<nat>,
                          done': map<K, V>, h': seq<nat>)
    requires Classed(done, size, w, h) && k !in done && size(v) < |h|
    requires done' == done[k := v] && h' == h[size(v) := h[size(v)] + w(v)]
    ensures Classed(done', size, w, h')
  {
    assert |h'| == |h|;
    SumMapAddTo(h, size(v), done, k, v, w);
    assert Sum(h') == SumMap(done', w);
    ClassSumsStep(done, size, k, v, |h|, w);
    assert h' == ClassSums(done', size, |h'|, w);
  }

  lemma ClassedDone<K, V>(m: map<K, V>, size: V -> nat, w: V -> nat, h: seq<nat>)
    requires Classed(m, size, w, h)
    ensures forall c :: 0 <= c < |h| ==> h[c] == SumMap(Where(m, size, c), w)
  {
    forall c | 0 <= c < |h|
      ensures h[c] == SumMap(Where(m, size, c), w)
    {
      ClassSumsAt(m, size, |h|, w, c);
    }
  }

  /** Entries of weight one sum to their number. */
  lemma {:induction false} SumMapOnes<K, V>(m: map<K, V>, w: V -> nat)
    requires forall x :: x in m ==> w(m[x]) == 1
    ensures SumMap(m, w) == |m|
    decreases |m|
  {
    if m != map[] {
      var x :| x in m;
      SumMapRemove(m, w, x);
      assert (m - {x}).Keys == m.Keys - {x};
      SumMapOnes(m - {x}, w);
    }
  }

  /** `ks` lists the elements of `s`, each once. */
  ghost predicate Enumerates<K>(ks: seq<K>, s: set<K>)
  {
    && (forall i, j :: 0 <= i < j < |ks| ==> ks[i] != ks[j])
    && (forall i :: 0 <= i < |ks| ==> ks[i] in s)
    && (forall k :: k in s ==> k in ks)
  }

  lemma EnumeratesStep<K>(ks: seq<K>, s: set<K>, k: K)
    requires Enumerates(ks, s) && k !in s
    ensures Enumerates(ks + [k], s + {k})
  {
    forall x | x in s + {k}
      ensures x in ks + [k]
    {
      if x != k {
        var i :| 0 <= i < |ks| && ks[i] == x;
        assert (ks + [k])[i] == x;
      }
    }
  }

  /** Dropping the last element of an enumeration enumerates the rest. */
  lemma EnumeratesLast<K>(ks: seq<K>, s: set<K>)
    requires Enumerates(ks, s) && ks != []
    ensures ks[|ks| - 1] in s && Enumerates(ks[..|ks| - 1], s - {ks[|ks| - 1]})
  {
    var ks', k := ks[..|ks| - 1], ks[|ks| - 1];
    forall i | 0 <= i < |ks'|
      ensures ks'[i] != k
    {
      assert ks'[i] == ks[i];
    }
    forall x | x in s - {k}
      ensures x in ks'
    {
      var i :| 0 <= i < |ks| && ks[i] == x;
      assert ks'[i] == x;
    }
  }

  /** The `len` classes built by visiting the keys `ks` of `m` in this
      order, starting from zero: each visited key adds the weight `w` of
      its value to the class `size` of its value. */
  ghost function Histogram<K, V>(m: map<K, V>, ks: seq<K>, size: V -> nat, w: V -> nat, len: nat): (r: seq<nat>)
    ensures |r| == len
    decreases |ks|
  {
    if ks == [] then seq(len, _ => 0)
    else
      var h := Histogram(m, ks[..|ks| - 1], size, w, len);
      var k := ks[|ks| - 1];
      if k in m && size(m[k]) < len then h[size(m[k]) := h[size(m[k])] + w(m[k])] else h
  }

  /** Visiting one more key `k`, of class `n` and weight `x`, adds `x`
      to the class `n` of the histogram `h` of the keys visited before. */
  lemma HistogramStep<K, V>(m: map<K, V>, ks: seq<K>, size: V -> nat, w: V -> nat, len: nat,
                            k: K, n: nat, x: nat, h: seq<nat>, h': seq<nat>)
    requires h == Histogram(m, ks, size, w, len)
    requires k in m && n == size(m[k]) && x == w(m[k]) && n < len
    requires h' == h[n := h[n] + x]
    ensures h' == Histogram(m, ks + [k], size, w, len)
  {
    assert (ks + [k])[..|ks + [k]| - 1] == ks;
  }

  /** Once the keys `ks` of `m` are visited, each once and the keys `rest`
      not yet, the classes hold the weights of the visited keys. */
  lemma {:induction false} HistogramClassed<K, V>(m: map<K, V>, ks: seq<K>, rest: set<K>, size: V -> nat, w: V -> nat, len: nat)
    requires rest <= m.Keys && Enumerates(ks, m.Keys - rest)
    requires forall k :: k in m ==> size(m[k]) < len
    ensures Classed(m - rest, size, w, Histogram(m, ks, size, w, len))
    decreases |ks|
  {
    if ks == [] {
      assert m - rest == map[];
      ClassedStart(m - rest, size, w, Histogram(m, ks, size, w, len));
      assert Classed(m - rest, size, w, Histogram(m, ks, size, w, len));
    } else {
      var ks', k := ks[..|ks| - 1], ks[|ks| - 1];
      assert ks == ks' + [k];
      var rest' := rest + {k};
      EnumeratesLast(ks, m.Keys - rest);
      assert m.Keys - rest' == (m.Keys - rest) - {k};
      VisitStep(m, rest', k);
      assert rest' - {k} == rest;
      assert (m - rest')[k := m[k]] == m - rest;
      var h' := Histogram(m, ks', size, w, len);
      assert size(m[k]) < |h'|;
      HistogramStep(m, ks', size, w, len, k, size(m[k]), w(m[k]), h', h'[size(m[k]) := h'[size(m[k])] + w(m[k])]);
      HistogramClassed(m, ks', rest', size, w, len);
      ClassedStep(m - rest', size, w, k, m[k], h', m - rest, Histogram(m, ks, size, w, len));
    }
  }
}
