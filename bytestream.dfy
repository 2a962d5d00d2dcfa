/** Reading from a buffered byte stream, as the binary trace decoders do.
    A stream is the sequence of its unread bytes; each read returns what it
    took together with what is left. */
module ByteStream {
  import opened Common
  import opened Varint

  /** What a read took, what is left, and whether the read succeeded. */
  datatype Taken = Taken(data: Bytes, rest: Bytes, ok: bool)

  /** `io.ReadFull` into a buffer of `n` bytes: exactly `n` bytes, or an
      error after consuming whatever was left. */
  function ReadFull(s: Bytes, n: nat): (r: Taken)
    ensures r.ok <==> |s| >= n
    ensures r.ok ==> |r.data| == n && |r.rest| == |s| - n
    ensures !r.ok ==> r.data == s && r.rest == []
  {
    if |s| >= n then Taken(s[..n], s[n..], true) else Taken(s, [], false)
  }

  /** `ReadString('\n')` on a byte stream: everything up to and including
      the first line feed; without one, an error after consuming the rest
      of the stream. */
  function ReadLine(s: Bytes): (r: Taken)
    ensures r.data + r.rest == s
    ensures r.ok ==> r.data != [] && r.data[|r.data| - 1] == 10
    ensures !r.ok ==> r.data == s && r.rest == []
    decreases |s|
  {
    if s == [] then Taken([], [], false)
    else if s[0] == 10 then Taken([10], s[1..], true)
    else
      var r := ReadLine(s[1..]);
      Taken([s[0]] + r.data, r.rest, r.ok)
  }

  /** A line feed ends the line that `ReadLine` returns, and only the
      last byte of that line is one. */
  lemma {:induction false} ReadLineOfLine(l: Bytes, rest: Bytes)
    requires 10 !in l
    ensures ReadLine(l + [10] + rest) == Taken(l + [10], rest, true)
    decreases |l|
  {
    var s := l + [10] + rest;
    if l == [] {
      assert s == [10] + rest;
      TailOfCons(10 as byte, rest);
    } else {
      assert s[0] == l[0] && l[0] != 10;
      assert s[1..] == l[1..] + [10] + rest by {
        AppendAssoc(l, [10], rest);
        TailOfAppend(l, [10] + rest);
        AppendAssoc(l[1..], [10], rest);
      }
      ReadLineOfLine(l[1..], rest);
      assert [l[0]] + (l[1..] + [10]) == l + [10] by {
        AppendAssoc([l[0]], l[1..], [10]);
        assert [l[0]] + l[1..] == l;
      }
    }
  }

  /** `readNextVarint` (the decoders of both binary formats carry a copy):
      one byte at a time is appended to a buffer, which is decoded after
      every byte; the first complete decoding is the result, and the end of
      the stream is an error. */
  method ReadNextVarint(s: Bytes) returns (value: nat, ok: bool, rest: Bytes)
    ensures VarintRead(value, rest, ok) == ReadVarint(s)
  {
    var buf: Bytes := [];
    rest := s;
    while true
      invariant |buf| <= |s| && buf == s[..|buf|] && rest == s[|buf|..]
      invariant ReadVarintFrom(s, |buf|) == ReadVarint(s)
      decreases |rest|
    {
      if rest == [] {
        return 0, false, [];
      }
      var b := rest[0];
      rest := rest[1..];
      buf := buf + [b];
      assert buf == s[..|buf|];
      var d := DecodeVarint(buf);
      if d.0 != 0 || d.1 != 0 {
        return d.0, true, rest;
      }
    }
  }
}
