/** The pieces of Go's `bufio`, `strings`, `strconv`, `encoding/hex` and
    `regexp` that the trace decoders rely on, written out as functions over
    `string` (one `char` per decoded character). */
module Text {
  import opened Common

  // ---------------------------------------------------------------------
  // bufio.Reader.ReadString('\n')
  // ---------------------------------------------------------------------

  /** The outcome of one `ReadString('\n')`: the text returned, what is left
      unread, and whether the error was nil (a newline was found). */
  datatype Read = Read(line: string, rest: string, ok: bool)

  /** `ReadString('\n')`: everything up to and including the first newline;
      without a newline, all that is left together with `io.EOF`. */
  function ReadString(s: string): (r: Read)
    ensures r.line + r.rest == s
    ensures r.ok ==> |r.line| >= 1
    ensures !r.ok ==> r.line == s && r.rest == []
    decreases |s|
  {
    if s == [] then Read([], [], false)
    else if s[0] == '\n' then Read(['\n'], s[1..], true)
    else
      var r := ReadString(s[1..]);
      Read([s[0]] + r.line, r.rest, r.ok)
  }

  /** What `ReadString` returns is a line: on success it ends in the first
      newline of the text; on failure the text holds no newline. */
  lemma {:induction false} ReadStringLine(s: string)
    ensures var r := ReadString(s);
      (r.ok ==> r.line[|r.line| - 1] == '\n' && '\n' !in r.line[..|r.line| - 1])
      && (!r.ok ==> '\n' !in s)
    decreases |s|
  {
    if s != [] && s[0] != '\n' {
      ReadStringLine(s[1..]);
      var r := ReadString(s[1..]);
      if r.ok {
        assert ([s[0]] + r.line)[..|r.line|] == [s[0]] + r.line[..|r.line| - 1];
      } else {
        assert s == [s[0]] + s[1..];
      }
    }
  }

  /** Without a newline, `ReadString` returns the whole text and fails. */
  lemma {:induction false} ReadStringNoNewline(s: string)
    requires '\n' !in s
    ensures ReadString(s) == Read(s, [], false)
    decreases |s|
  {
    if s != [] {
      assert s[0] in s && s == [s[0]] + s[1..];
      ReadStringNoNewline(s[1..]);
    }
  }

  /** The text made of the given lines, each terminated by a newline. */
  function Lines(ls: seq<string>): string
  {
    if ls == [] then [] else ls[0] + "\n" + Lines(ls[1..])
  }

  /** A line as a line-oriented reader sees it: no newline inside. */
  predicate IsLine(l: string)
  {
    '\n' !in l
  }

  /** Reading a newline-free line back from `l + "\n" + rest`. */
  lemma {:induction false} ReadStringOfLine(l: string, rest: string)
    requires IsLine(l)
    ensures ReadString(l + "\n" + rest) == Read(l + "\n", rest, true)
    decreases |l|
  {
    var s := l + "\n" + rest;
    if l == [] {
      assert s[0] == '\n' && s[1..] == rest;
    } else {
      assert s[0] == l[0] && s[0] != '\n';
      assert s[1..] == l[1..] + "\n" + rest;
      ReadStringOfLine(l[1..], rest);
      assert [l[0]] + (l[1..] + "\n") == l + "\n";
    }
  }

  // ---------------------------------------------------------------------
  // strings.TrimSpace, HasPrefix, Contains, Split
  // ---------------------------------------------------------------------

  /** Reading from a text made of lines yields its first line, newline
      included, and leaves the other lines. */
  lemma ReadFirstLine(ls: seq<string>, rest: string)
    requires ls != [] && IsLine(ls[0])
    ensures ReadString(Lines(ls) + rest) == Read(ls[0] + "\n", Lines(ls[1..]) + rest, true)
  {
    assert Lines(ls) + rest == ls[0] + "\n" + (Lines(ls[1..]) + rest);
    ReadStringOfLine(ls[0], Lines(ls[1..]) + rest);
  }

  /** The same, for a line put in front of other lines. */
  lemma ReadConsLine(l: string, ls: seq<string>, rest: string)
    requires IsLine(l)
    ensures ReadString(Lines([l] + ls) + rest) == Read(l + "\n", Lines(ls) + rest, true)
  {
    ReadFirstLine([l] + ls, rest);
    TailOfCons(l, ls);
  }

  /** `unicode.IsSpace`: the Latin-1 spaces and the other characters with
      the Unicode White_Space property. */
  predicate IsSpace(c: char)
  {
    var n := c as int;
    (9 <= n <= 13) || n == 32 || n == 0x85 || n == 0xA0 || n == 0x1680
    || (0x2000 <= n <= 0x200A) || n == 0x2028 || n == 0x2029
    || n == 0x202F || n == 0x205F || n == 0x3000
  }

  function TrimLeftSpace(s: string): (r: string)
    ensures |r| <= |s| && r == s[|s| - |r|..]
    ensures forall i :: 0 <= i < |s| - |r| ==> IsSpace(s[i])
    ensures r != [] ==> !IsSpace(r[0])
    decreases |s|
  {
    if s != [] && IsSpace(s[0]) then TrimLeftSpace(s[1..]) else s
  }

  function TrimRightSpace(s: string): (r: string)
    ensures |r| <= |s| && r == s[..|r|]
    ensures forall i :: |r| <= i < |s| ==> IsSpace(s[i])
    ensures r != [] ==> !IsSpace(r[|r| - 1])
    decreases |s|
  {
    if s != [] && IsSpace(s[|s| - 1]) then TrimRightSpace(s[..|s| - 1]) else s
  }

  /** `strings.TrimSpace`: drops leading and trailing white space. */
  function TrimSpace(s: string): string
  {
    TrimRightSpace(TrimLeftSpace(s))
  }

  /** A line without surrounding white space is its own trimmed form. */
  lemma TrimSpaceOfTrimmed(s: string)
    requires s == [] || (!IsSpace(s[0]) && !IsSpace(s[|s| - 1]))
    ensures TrimSpace(s) == s
  {
  }

  /** A line and its newline trim to the same text. */
  lemma TrimSpaceDropsNewline(s: string)
    requires s == [] || (!IsSpace(s[0]) && !IsSpace(s[|s| - 1]))
    ensures TrimSpace(s + "\n") == s
  {
    var t := s + "\n";
    assert TrimRightSpace(t) == TrimRightSpace(t[..|t| - 1]) by {
      assert IsSpace(t[|t| - 1]);
    }
    assert t[..|t| - 1] == s;
    if s != [] {
      assert TrimLeftSpace(t) == t;
    } else {
      assert TrimLeftSpace(t) == [];
    }
  }

  /** Text made of white space only. */
  predicate AllSpace(s: string)
  {
    forall i :: 0 <= i < |s| ==> IsSpace(s[i])
  }

  /** A line trims to nothing exactly when it is all white space. */
  lemma TrimSpaceEmpty(s: string)
    ensures TrimSpace(s) == [] <==> AllSpace(s)
  {
    var t := TrimLeftSpace(s);
    assert t != [] ==> TrimRightSpace(t) != [];
  }

  lemma AllSpaceNewline(b: string)
    ensures AllSpace(b + "\n") <==> AllSpace(b)
  {
    if AllSpace(b) {
      assert forall i :: 0 <= i < |b| ==> (b + "\n")[i] == b[i];
    } else {
      var i :| 0 <= i < |b| && !IsSpace(b[i]);
      assert (b + "\n")[i] == b[i];
    }
  }

  /** A text without the first character of `sub` does not contain
      `sub`. */
  lemma {:induction false} NotContains(s: string, sub: string)
    requires sub != [] && sub[0] !in s
    ensures !Contains(s, sub)
    decreases |s|
  {
    if s != [] {
      assert s[1..] == s[1..] && forall c :: c in s[1..] ==> c in s;
      NotContains(s[1..], sub);
    }
  }

  /** Lines of a concatenation. */
  lemma {:induction false} LinesConcat(a: seq<string>, b: seq<string>)
    ensures Lines(a + b) == Lines(a) + Lines(b)
  {
    if a == [] {
      assert a + b == b;
    } else {
      assert (a + b)[1..] == a[1..] + b;
      LinesConcat(a[1..], b);
    }
  }

  predicate HasPrefix(s: string, p: string)
  {
    |p| <= |s| && s[..|p|] == p
  }

  /** A text whose first character differs from that of `p` does not start
      with `p`. */
  lemma NoPrefixByHead(s: string, p: string)
    requires p != [] && (s == [] || s[0] != p[0])
    ensures !HasPrefix(s, p)
  {
    if |p| <= |s| {
      assert s[..|p|][0] == s[0];
    }
  }

  /** `strings.Contains`. */
  predicate Contains(s: string, sub: string)
    decreases |s|
  {
    HasPrefix(s, sub) || (s != [] && Contains(s[1..], sub))
  }

  /** Text that contains `sub` still does when more text follows. */
  lemma {:induction false} ContainsExtend(a: string, b: string, sub: string)
    requires Contains(a, sub)
    ensures Contains(a + b, sub)
    decreases |a|
  {
    if HasPrefix(a, sub) {
      assert (a + b)[..|sub|] == a[..|sub|];
    } else {
      assert (a + b)[1..] == a[1..] + b;
      ContainsExtend(a[1..], b, sub);
    }
  }

  /** `strings.HasSuffix`. */
  predicate HasSuffix(s: string, suffix: string)
  {
    |suffix| <= |s| && s[|s| - |suffix|..] == suffix
  }

  /** `strings.Split` with a one-character separator: the texts between
      separators, none of which holds the separator. */
  function Split(s: string, sep: char): (parts: seq<string>)
    ensures |parts| >= 1
    ensures forall i :: 0 <= i < |parts| ==> sep !in parts[i]
    decreases |s|
  {
    if s == [] then [[]]
    else
      var tail := Split(s[1..], sep);
      if s[0] == sep then [[]] + tail
      else [[s[0]] + tail[0]] + tail[1..]
  }

  /** Joining the parts of a split with its separator gives the text back. */
  function Join(parts: seq<string>, sep: char): string
    requires |parts| >= 1
  {
    if |parts| == 1 then parts[0] else parts[0] + [sep] + Join(parts[1..], sep)
  }

  lemma {:induction false} SplitJoin(s: string, sep: char)
    ensures Join(Split(s, sep), sep) == s
    decreases |s|
  {
    if s != [] {
      SplitJoin(s[1..], sep);
      var tail := Split(s[1..], sep);
      if s[0] != sep && |tail| > 1 {
        assert ([[s[0]] + tail[0]] + tail[1..])[1..] == tail[1..];
      }
    }
  }

  /** A text before the first separator is the first part. */
  lemma {:induction false} SplitCons(a: string, rest: string, sep: char)
    requires sep !in a
    ensures Split(a + [sep] + rest, sep) == [a] + Split(rest, sep)
    decreases |a|
  {
    var s := a + [sep] + rest;
    if a == [] {
      assert s[0] == sep && s[1..] == rest;
    } else {
      assert s[0] == a[0] && s[0] != sep;
      assert s[1..] == a[1..] + [sep] + rest;
      SplitCons(a[1..], rest, sep);
      var tail := Split(s[1..], sep);
      assert Split(s, sep) == [[s[0]] + tail[0]] + tail[1..];
      assert [a[0]] + a[1..] == a;
    }
  }

  /** Splitting a text with exactly one separator gives its two sides. */
  lemma {:induction false} SplitTwo(a: string, b: string, sep: char)
    requires sep !in a && sep !in b
    ensures Split(a + [sep] + b, sep) == [a, b]
    decreases |a|
  {
    var s := a + [sep] + b;
    if a == [] {
      assert s[0] == sep && s[1..] == b;
      SplitNone(b, sep);
    } else {
      assert s[0] == a[0] && s[0] != sep;
      assert s[1..] == a[1..] + [sep] + b;
      SplitTwo(a[1..], b, sep);
      var tail := Split(s[1..], sep);
      assert tail == [a[1..], b];
      assert Split(s, sep) == [[s[0]] + tail[0]] + tail[1..];
      assert [a[0]] + a[1..] == a;
    }
  }

  lemma SplitNone(b: string, sep: char)
    requires sep !in b
    ensures Split(b, sep) == [b]
    decreases |b|
  {
    if b != [] {
      SplitNone(b[1..], sep);
      assert [b[0]] + b[1..] == b;
    }
  }

  // ---------------------------------------------------------------------
  // strconv: decimal numbers
  // ---------------------------------------------------------------------

  predicate IsDigit(c: char)
  {
    '0' <= c <= '9'
  }

  predicate AllDigits(s: string)
  {
    forall i :: 0 <= i < |s| ==> IsDigit(s[i])
  }

  function DigitsValue(s: string): nat
    requires AllDigits(s)
    decreases |s|
  {
    if s == [] then 0 else 10 * DigitsValue(s[..|s| - 1]) + (s[|s| - 1] as int - '0' as int)
  }

  /** `strconv.ParseUint(s, 10, bitSize)` with `bound` = 2^bitSize: a
      non-empty run of decimal digits whose value is below the bound. */
  function ParseUint(s: string, bound: nat): (r: Option<nat>)
    ensures r.Some? ==> r.value < bound
  {
    if s != [] && AllDigits(s) && DigitsValue(s) < bound then Some(DigitsValue(s)) else None
  }

  /** A line of digits is its own trimmed form. */
  lemma DigitsTrimmed(s: string)
    requires s != [] && AllDigits(s)
    ensures TrimSpace(s + "\n") == s
  {
    assert IsDigit(s[0]) && IsDigit(s[|s| - 1]);
    TrimSpaceDropsNewline(s);
  }

  /** `strconv.ParseInt(s, 10, 64)` with its error ignored, as the legacy
      decoder uses it: an optional sign and digits; a value out of the
      `int64` range yields the nearest bound; any other text yields 0. */
  function ParseInt64(s: string): (r: int)
    ensures -(TwoTo63 as int) <= r < TwoTo63
  {
    if s == [] then 0
    else
      var neg := s[0] == '-';
      var digits := if s[0] == '+' || s[0] == '-' then s[1..] else s;
      if digits == [] || !AllDigits(digits) then 0
      else if neg then (if DigitsValue(digits) > TwoTo63 then -(TwoTo63 as int) else 0 - DigitsValue(digits) as int)
      else (if DigitsValue(digits) >= TwoTo63 then TwoTo63 - 1 else DigitsValue(digits))
  }

  function DigitChar(d: nat): (c: char)
    requires d < 10
    ensures IsDigit(c) && c as int - '0' as int == d
  {
    (d + '0' as int) as char
  }

  /** Decimal rendering of a natural number (`strconv.Itoa`, `%v`). */
  function NatToString(n: nat): (s: string)
    ensures s != [] && AllDigits(s) && DigitsValue(s) == n
    ensures s[0] == '0' ==> s == "0"
    decreases n
  {
    if n < 10 then [DigitChar(n)]
    else
      var s := NatToString(n / 10) + [DigitChar(n % 10)];
      assert s[..|s| - 1] == NatToString(n / 10);
      s
  }

  /** The decimal rendering reads back as the same number. */
  lemma ParseUintOfNatToString(n: nat, bound: nat)
    requires n < bound
    ensures ParseUint(NatToString(n), bound) == Some(n)
  {
  }

  // ---------------------------------------------------------------------
  // encoding/hex
  // ---------------------------------------------------------------------

  function HexValue(c: char): Option<nat>
  {
    if '0' <= c <= '9' then Some(c as int - '0' as int)
    else if 'a' <= c <= 'f' then Some(c as int - 'a' as int + 10)
    else if 'A' <= c <= 'F' then Some(c as int - 'A' as int + 10)
    else None
  }

  /** `hex.DecodeString`: pairs of hex digits, either case; an odd length or
      a non-hex character is an error. */
  function HexDecode(s: string): (r: Option<Bytes>)
    ensures r.Some? ==> 2 * |r.value| == |s|
    decreases |s|
  {
    if s == [] then Some([])
    else if |s| == 1 then None
    else
      match (HexValue(s[0]), HexValue(s[1]), HexDecode(s[2..]))
      case (Some(hi), Some(lo), Some(tail)) =>
        assert hi < 16 && lo < 16;
        Some([(16 * hi + lo) as byte] + tail)
      case _ => None
  }

  function HexDigitChar(d: nat): char
    requires d < 16
  {
    if d < 10 then (d + '0' as int) as char else (d - 10 + 'a' as int) as char
  }

  /** `hex.EncodeToString`: two lower-case hex digits per byte. */
  function HexEncode(b: Bytes): (s: string)
    ensures |s| == 2 * |b|
  {
    if b == [] then [] else [HexDigitChar(b[0] as nat / 16), HexDigitChar(b[0] as nat % 16)] + HexEncode(b[1..])
  }

  /** Hex encoding is undone by hex decoding. */
  lemma {:induction false} HexRoundTrip(b: Bytes)
    ensures HexDecode(HexEncode(b)) == Some(b)
    decreases |b|
  {
    if b != [] {
      var s := HexEncode(b);
      HexRoundTrip(b[1..]);
      assert s[2..] == HexEncode(b[1..]);
      assert HexValue(s[0]) == Some(b[0] as nat / 16);
      assert HexValue(s[1]) == Some(b[0] as nat % 16);
      assert [b[0]] + b[1..] == b;
    }
  }

  // ---------------------------------------------------------------------
  // regexp `([0-9a-fz]+):([0-9]+)`, FindStringSubmatch, first group
  // ---------------------------------------------------------------------

  /** The character class `[0-9a-fz]`. */
  predicate IsTokenChar(c: char)
  {
    '0' <= c <= '9' || 'a' <= c <= 'f' || c == 'z'
  }

  /** The end of the longest run of token characters starting at `i`. */
  function RunEnd(s: string, i: nat): (j: nat)
    requires i <= |s|
    ensures i <= j <= |s|
    ensures forall k :: i <= k < j ==> IsTokenChar(s[k])
    ensures j < |s| ==> !IsTokenChar(s[j])
    decreases |s| - i
  {
    if i < |s| && IsTokenChar(s[i]) then RunEnd(s, i + 1) else i
  }

  /** The pattern matches starting at `i`: the greedy token run from `i` is
      followed by a colon and a digit (a shorter run would be followed by a
      token character, never by the colon). */
  predicate MatchAt(s: string, i: nat)
    requires i <= |s|
  {
    i < |s| && IsTokenChar(s[i])
    && var j := RunEnd(s, i); j + 1 < |s| && s[j] == ':' && IsDigit(s[j + 1])
  }

  /** The leftmost position at or after `i` where the pattern matches. */
  function FirstMatch(s: string, i: nat): (r: Option<nat>)
    requires i <= |s|
    ensures r.Some? ==> i <= r.value < |s| && MatchAt(s, r.value)
    ensures r.Some? ==> forall k :: i <= k < r.value ==> !MatchAt(s, k)
    ensures r.None? ==> forall k :: i <= k <= |s| ==> !MatchAt(s, k)
    decreases |s| - i
  {
    if i == |s| then None
    else if MatchAt(s, i) then Some(i)
    else FirstMatch(s, i + 1)
  }

  /** `FindStringSubmatch(s)[1]`: the token left of the colon in the
      leftmost match, or None when nothing matches (the source then
      indexes a nil slice and panics). */
  function ColonToken(s: string): (r: Option<string>)
    ensures r.Some? ==> r.value != [] && forall k :: 0 <= k < |r.value| ==> IsTokenChar(r.value[k])
  {
    match FirstMatch(s, 0)
    case None => None
    case Some(i) => Some(s[i..RunEnd(s, i)])
  }

  /** On a line `token:count` the first group is the whole token. */
  lemma ColonTokenOfPair(t: string, n: string)
    requires t != [] && forall k :: 0 <= k < |t| ==> IsTokenChar(t[k])
    requires n != [] && AllDigits(n)
    ensures ColonToken(t + ":" + n) == Some(t)
  {
    var s := t + ":" + n;
    RunEndOfToken(s, t, 0);
    assert s[|t| + 1] == n[0];
    assert MatchAt(s, 0);
    assert s[0..|t|] == t;
  }

  lemma {:induction false} RunEndOfToken(s: string, t: string, i: nat)
    requires |t| < |s| && s[..|t|] == t && !IsTokenChar(s[|t|])
    requires forall k :: 0 <= k < |t| ==> IsTokenChar(t[k])
    requires i <= |t|
    ensures RunEnd(s, i) == |t|
    decreases |t| - i
  {
    if i < |t| {
      assert s[i] == t[i];
      RunEndOfToken(s, t, i + 1);
    }
  }
}
