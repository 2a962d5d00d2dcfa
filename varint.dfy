/** Protocol-buffer base-128 varints as the trace tools use them: the
    length prefix that frames every message of a binary trace. */
module Varint {
  import opened Common

  /** `proto.EncodeVarint`: seven bits per byte, least significant group
      first, the high bit set on every byte but the last. */
  function EncodeVarint(x: nat): (r: Bytes)
    ensures 1 <= |r|
    decreases x
  {
    if x < 128 then [x as byte] else [(128 + x % 128) as byte] + EncodeVarint(x / 128)
  }

  /** Every byte of an encoding but the last carries the continuation bit. */
  lemma {:induction false} EncodeVarintShape(x: nat)
    ensures var r := EncodeVarint(x);
      (forall i :: 0 <= i < |r| - 1 ==> r[i] >= 128) && r[|r| - 1] < 128
    decreases x
  {
    if x >= 128 {
      EncodeVarintShape(x / 128);
    }
  }

  /** Values that fit in `k` seven-bit groups take at most `k` bytes. */
  lemma {:induction false} EncodeVarintLength(x: nat, k: nat)
    requires 1 <= k && x < Pow128(k)
    ensures |EncodeVarint(x)| <= k
    decreases k
  {
    if x >= 128 {
      assert Pow128(1) == 128;
      assert k >= 2;
      assert x / 128 < Pow128(k - 1);
      EncodeVarintLength(x / 128, k - 1);
    }
  }

  /** Any `uint64` value is encoded in at most ten bytes. */
  lemma EncodeVarintUint64(x: nat)
    requires x < TwoTo64
    ensures |EncodeVarint(x)| <= 10
  {
    calc {
      Pow128(10);
      128 * Pow128(9);
      128 * (128 * Pow128(8));
      { assert Pow128(8) == 0x100_0000_0000_0000 by {
          assert Pow128(4) == 0x1000_0000 by {
            assert Pow128(2) == 0x4000;
          }
          assert Pow128(6) == 128 * (128 * Pow128(4));
          assert Pow128(8) == 128 * (128 * Pow128(6));
        }
      }
      0x40_0000_0000_0000_0000;
    }
    EncodeVarintLength(x, 10);
  }

  /** The loop of `proto.DecodeVarint` from byte `n` on, with the value `x`
      accumulated so far: at most ten bytes are examined; a buffer that ends
      before a final byte, or ten bytes that all carry the continuation bit,
      give `(0, 0)`. The seven-bit groups never overlap, so the source's
      bitwise or of the shifted groups is their sum, and its `uint64`
      shifts amount to reducing the sum modulo 2^64. */
  function DecodeLoop(buf: Bytes, n: nat, x: nat): (r: (nat, nat))
    requires n <= 10
    decreases 10 - n
  {
    if n == 10 || n >= |buf| then (0, 0)
    else
      var x' := x + (buf[n] as nat % 128) * Pow128(n);
      if buf[n] < 128 then (x' % TwoTo64, n + 1) else DecodeLoop(buf, n + 1, x')
  }

  /** `proto.DecodeVarint`: the value and the number of bytes consumed, or
      `(0, 0)` when the buffer holds no complete varint. */
  function DecodeVarint(buf: Bytes): (r: (nat, nat))
    ensures r.0 < TwoTo64 && r.1 <= 10 && r.1 <= |buf|
    ensures r.1 == 0 ==> r.0 == 0
  {
    DecodeLoopBounds(buf, 0, 0);
    DecodeLoop(buf, 0, 0)
  }

  lemma {:induction false} DecodeLoopBounds(buf: Bytes, n: nat, x: nat)
    requires n <= 10
    ensures var r := DecodeLoop(buf, n, x);
      r.0 < TwoTo64 && r.1 <= 10 && r.1 <= |buf| && (r.1 == 0 ==> r.0 == 0) && (r.1 != 0 ==> r.1 > n)
    decreases 10 - n
  {
    if !(n == 10 || n >= |buf|) && buf[n] >= 128 {
      DecodeLoopBounds(buf, n + 1, x + (buf[n] as nat % 128) * Pow128(n));
    }
  }

  /** Decoding an encoding found at byte `n`, with `x` accumulated so far,
      adds the encoded value at the weight of position `n`. */
  lemma {:induction false} DecodeLoopOfEncoding(buf: Bytes, n: nat, x: nat, y: nat)
    requires n + |EncodeVarint(y)| <= 10 && n + |EncodeVarint(y)| <= |buf|
    requires buf[n..n + |EncodeVarint(y)|] == EncodeVarint(y)
    ensures DecodeLoop(buf, n, x) == ((x + y * Pow128(n)) % TwoTo64, n + |EncodeVarint(y)|)
    decreases y
  {
    var e := EncodeVarint(y);
    var p := Pow128(n);
    assert buf[n] == e[0];
    if y < 128 {
      assert buf[n] as nat == y;
    } else {
      var y' := y / 128;
      var e' := EncodeVarint(y');
      assert e == [(128 + y % 128) as byte] + e';
      assert buf[n] as nat % 128 == y % 128;
      var x' := x + (y % 128) * p;
      assert DecodeLoop(buf, n, x) == DecodeLoop(buf, n + 1, x');
      assert buf[n + 1..n + 1 + |e'|] == e' by {
        assert buf[n + 1..n + 1 + |e'|] == buf[n..n + |e|][1..];
      }
      DecodeLoopOfEncoding(buf, n + 1, x', y');
      assert Pow128(n + 1) == 128 * p;
      WeightStep(x, y, p);
      assert x' + y' * Pow128(n + 1) == x + y * p;
    }
  }

  lemma WeightStep(x: nat, y: nat, p: nat)
    ensures x + (y % 128) * p + (y / 128) * (128 * p) == x + y * p
  {
    assert (y / 128) * (128 * p) == (128 * (y / 128)) * p;
    assert (y % 128) * p + (128 * (y / 128)) * p == (y % 128 + 128 * (y / 128)) * p;
  }

  /** Decoding undoes encoding for every `uint64` value, whatever follows. */
  lemma DecodeEncode(x: nat, rest: Bytes)
    requires x < TwoTo64
    ensures DecodeVarint(EncodeVarint(x) + rest) == (x, |EncodeVarint(x)|)
  {
    EncodeVarintUint64(x);
    var buf := EncodeVarint(x) + rest;
    assert buf[0..|EncodeVarint(x)|] == EncodeVarint(x);
    DecodeLoopOfEncoding(buf, 0, 0, x);
    assert Pow128(0) == 1;
    assert (0 + x * Pow128(0)) % TwoTo64 == x;
    assert DecodeVarint(buf) == DecodeLoop(buf, 0, 0);
  }

  /** A buffer of continuation bytes only, shorter than ten, is incomplete. */
  lemma {:induction false} DecodeLoopIncomplete(buf: Bytes, n: nat, x: nat)
    requires n <= 10
    requires forall i :: n <= i < |buf| ==> buf[i] >= 128
    ensures DecodeLoop(buf, n, x) == (0, 0)
    decreases 10 - n
  {
    if !(n == 10 || n >= |buf|) {
      DecodeLoopIncomplete(buf, n + 1, x + (buf[n] as nat % 128) * Pow128(n));
    }
  }

  /** The outcome of reading one varint from a byte stream: its value, the
      unread rest, and whether a varint was read. */
  datatype VarintRead = VarintRead(value: nat, rest: Bytes, ok: bool)

  /** `readNextVarint`: bytes are taken one at a time and the bytes taken so
      far are decoded after each; the first complete decoding ends the read.
      When the stream ends first, everything was consumed and the read
      fails. `k` is the number of bytes already taken. */
  function ReadVarintFrom(s: Bytes, k: nat): (r: VarintRead)
    requires k <= |s|
    ensures r.ok ==> |r.rest| < |s| - k
    ensures !r.ok ==> r.rest == [] && r.value == 0
    ensures r.value < TwoTo64
    decreases |s| - k
  {
    if k == |s| then VarintRead(0, [], false)
    else
      var d := DecodeVarint(s[..k + 1]);
      if d != (0, 0) then VarintRead(d.0, s[k + 1..], true) else ReadVarintFrom(s, k + 1)
  }

  function ReadVarint(s: Bytes): (r: VarintRead)
    ensures r.ok ==> |r.rest| < |s|
    ensures !r.ok ==> r.rest == [] && r.value == 0
  {
    ReadVarintFrom(s, 0)
  }

  /** A stream that starts with the encoding of `x` yields `x` and exactly
      what follows the encoding. */
  lemma ReadVarintOfEncoding(x: nat, rest: Bytes)
    requires x < TwoTo64
    ensures ReadVarint(EncodeVarint(x) + rest) == VarintRead(x, rest, true)
  {
    var e := EncodeVarint(x);
    var s := e + rest;
    EncodeVarintUint64(x);
    EncodeVarintShape(x);
    ReadVarintSkips(s, |e| - 1, 0);
    assert s[..|e|] == e && s[|e|..] == rest;
    DecodeEncode(x, []);
    assert e + [] == e;
  }

  lemma {:induction false} ReadVarintSkips(s: Bytes, m: nat, k: nat)
    requires m < 10 && m < |s| && k <= m
    requires forall i :: 0 <= i < m ==> s[i] >= 128
    ensures ReadVarintFrom(s, k) == ReadVarintFrom(s, m)
    decreases m - k
  {
    if k < m {
      DecodeLoopIncomplete(s[..k + 1], 0, 0);
      ReadVarintSkips(s, m, k + 1);
    }
  }

  /** Ten leading continuation bytes are never a complete varint: the read
      consumes the whole stream and fails. */
  lemma ReadVarintOverlong(s: Bytes)
    requires |s| >= 10 && forall i :: 0 <= i < 10 ==> s[i] >= 128
    ensures ReadVarint(s) == VarintRead(0, [], false)
  {
    ReadVarintOverlongFrom(s, 0);
  }

  lemma {:induction false} ReadVarintOverlongFrom(s: Bytes, k: nat)
    requires |s| >= 10 && forall i :: 0 <= i < 10 ==> s[i] >= 128
    requires k <= |s|
    ensures ReadVarintFrom(s, k) == VarintRead(0, [], false)
    decreases |s| - k
  {
    if k < |s| {
      DecodeLoopIncomplete(s[..k + 1][..if k + 1 < 10 then k + 1 else 10], 0, 0);
      DecodeLoopPrefix(s[..k + 1], 0, 0);
      ReadVarintOverlongFrom(s, k + 1);
    }
  }

  /** Only the first ten bytes of a buffer matter to the decoder. */
  lemma {:induction false} DecodeLoopPrefix(buf: Bytes, n: nat, x: nat)
    requires n <= 10
    ensures DecodeLoop(buf, n, x) == DecodeLoop(buf[..if |buf| < 10 then |buf| else 10], n, x)
    decreases 10 - n
  {
    var p := buf[..if |buf| < 10 then |buf| else 10];
    if !(n == 10 || n >= |buf|) {
      assert p[n] == buf[n];
      DecodeLoopPrefix(buf, n + 1, x + (buf[n] as nat % 128) * Pow128(n));
    }
  }

  /** The length-prefixed framing of a message sequence: each message is
      preceded by the varint of its length. */
  function Frame(ms: seq<Bytes>): (r: Bytes)
  {
    if ms == [] then [] else Frame(ms[..|ms| - 1]) + EncodeVarint(|ms[|ms| - 1]|) + ms[|ms| - 1]
  }

  lemma FrameAppend(ms: seq<Bytes>, m: Bytes)
    ensures Frame(ms + [m]) == Frame(ms) + EncodeVarint(|m|) + m
  {
    assert (ms + [m])[..|ms|] == ms;
  }

  lemma {:induction false} FrameConcat(a: seq<Bytes>, b: seq<Bytes>)
    ensures Frame(a + b) == Frame(a) + Frame(b)
    decreases |b|
  {
    if b == [] {
      assert a + b == a;
    } else {
      var b' := b[..|b| - 1];
      var m := b[|b| - 1];
      assert a + b == (a + b') + [m];
      assert b == b' + [m];
      calc {
        Frame(a + b);
        { FrameAppend(a + b', m); }
        Frame(a + b') + EncodeVarint(|m|) + m;
        { FrameConcat(a, b'); }
        Frame(a) + Frame(b') + EncodeVarint(|m|) + m;
        { FrameAppend(b', m); }
        Frame(a) + Frame(b);
      }
    }
  }
}
