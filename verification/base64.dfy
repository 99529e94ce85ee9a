/**
 * Base64 over byte sequences, as `Buffer.toString('base64')` writes it
 * (the alphabet and padding of section 4 of RFC 4648) and as
 * `Buffer.from(text, 'base64')` reads it back.
 *
 * The reader never fails. It walks the UTF-16 code units of the text and
 * looks at each unit's low byte only, so `Ł` (U+0141) reads as `A` and
 * `Ľ` (U+013D) as `=`. It stops at the first unit read as `=`, skips the
 * units whose low byte is outside the alphabet (the URL-safe `-` and `_` of
 * section 5 of RFC 4648 count as 62 and 63), and turns each run of four
 * 6-bit values into three bytes; a final run of two or three values gives
 * one or two bytes, and a lone final value gives none.
 */
module Base64 {
  import opened Wrappers
  import Text

  type byte = x: int | 0 <= x < 256
  type sextet = x: int | 0 <= x < 64

  /** A character of the RFC 4648 section 4 alphabet. */
  predicate IsAlphabetChar(c: char) {
    ('A' <= c <= 'Z') || ('a' <= c <= 'z') || ('0' <= c <= '9') || c == '+' || c == '/'
  }

  /** The character the alphabet assigns to a 6-bit value. */
  function CharOf(v: sextet): (c: char)
    ensures IsAlphabetChar(c) && c != '='
  {
    if v < 26 then ('A' as int + v) as char
    else if v < 52 then ('a' as int + (v - 26)) as char
    else if v < 62 then ('0' as int + (v - 52)) as char
    else if v == 62 then '+'
    else '/'
  }

  /** The value the reader gives a character, or None for a character it skips. */
  function ValueOf(c: char): (r: Option<sextet>)
    ensures IsAlphabetChar(c) ==> r.Some? && CharOf(r.value) == c
    ensures r.Some? <==> IsAlphabetChar(c) || c == '-' || c == '_'
  {
    if 'A' <= c <= 'Z' then Some(c as int - 'A' as int)
    else if 'a' <= c <= 'z' then Some(c as int - 'a' as int + 26)
    else if '0' <= c <= '9' then Some(c as int - '0' as int + 52)
    else if c == '+' || c == '-' then Some(62)
    else if c == '/' || c == '_' then Some(63)
    else None
  }

  /** Reading a written character gives back its value. */
  lemma ValueOfCharOf(v: sextet)
    ensures ValueOf(CharOf(v)) == Some(v)
  {
  }

  /** The 6-bit values of `b`: four per whole 3-byte group, two or three for a tail of one or two bytes. */
  function Sextets(b: seq<byte>): (xs: seq<sextet>)
    ensures |xs| == 4 * (|b| / 3) + (if |b| % 3 == 0 then 0 else |b| % 3 + 1)
    decreases |b|
  {
    if |b| == 0 then []
    else if |b| == 1 then [b[0] / 4, (b[0] % 4) * 16]
    else if |b| == 2 then [b[0] / 4, (b[0] % 4) * 16 + b[1] / 16, (b[1] % 16) * 4]
    else Group(b[0], b[1], b[2]) + Sextets(b[3..])
  }

  /** The four 6-bit values of one whole group of three bytes. */
  function Group(b0: byte, b1: byte, b2: byte): (xs: seq<sextet>)
    ensures |xs| == 4
  {
    [b0 / 4, (b0 % 4) * 16 + b1 / 16, (b1 % 16) * 4 + b2 / 64, b2 % 64]
  }

  /** The three bytes of one group of four 6-bit values. */
  function Triple(x0: sextet, x1: sextet, x2: sextet, x3: sextet): (b: seq<byte>)
    ensures |b| == 3
  {
    [x0 * 4 + x1 / 16, (x1 % 16) * 16 + x2 / 4, (x2 % 4) * 64 + x3]
  }

  function Chars(xs: seq<sextet>): (s: string)
    ensures |s| == |xs|
    ensures forall i :: 0 <= i < |xs| ==> s[i] == CharOf(xs[i])
  {
    seq(|xs|, i requires 0 <= i < |xs| => CharOf(xs[i]))
  }

  /** The `=` characters that fill the last group of four. */
  function Padding(n: nat): string {
    if n % 3 == 1 then "==" else if n % 3 == 2 then "=" else ""
  }

  /** `Buffer.from(b).toString('base64')`. */
  function Encode(b: seq<byte>): (s: string)
    ensures |s| == 4 * ((|b| + 2) / 3)
    ensures forall i :: 0 <= i < |s| ==> IsAlphabetChar(s[i]) || s[i] == '='
    ensures forall i, j :: 0 <= i < j < |s| && s[i] == '=' ==> s[j] == '='
  {
    Chars(Sextets(b)) + Padding(|b|)
  }

  /** The character the reader takes a UTF-16 code unit for: the unit's low byte. */
  function LowByte(unit: int): (c: char)
    ensures (c as int) < 256
    ensures 0 <= unit < 256 ==> c as int == unit
  {
    (unit % 256) as char
  }

  /** The values of the code units before the first one read as `=`, skipping the units read outside the alphabet. */
  function Scan(u: seq<int>): (xs: seq<sextet>)
    ensures |xs| <= |u|
    decreases |u|
  {
    if |u| == 0 || LowByte(u[0]) == '=' then []
    else match ValueOf(LowByte(u[0]))
      case Some(v) => [v] + Scan(u[1..])
      case None => Scan(u[1..])
  }

  /** Bytes from 6-bit values: three per group of four, one or two for a tail of two or three. */
  function Bytes(xs: seq<sextet>): (b: seq<byte>)
    ensures |b| == 3 * (|xs| / 4) + (if |xs| % 4 <= 1 then 0 else |xs| % 4 - 1)
    decreases |xs|
  {
    if |xs| <= 1 then []
    else
      var x0: int, x1: int := xs[0], xs[1];
      if |xs| == 2 then [x0 * 4 + x1 / 16]
      else
        var x2: int := xs[2];
        if |xs| == 3 then [x0 * 4 + x1 / 16, (x1 % 16) * 16 + x2 / 4]
        else
          Triple(xs[0], xs[1], xs[2], xs[3]) + Bytes(xs[4..])
  }

  /** `Buffer.from(s, 'base64')`: total, with no error path, and never longer than the text's `length`. */
  function Decode(s: string): (b: seq<byte>)
    ensures |b| <= |Text.Utf16(s)|
    ensures Text.IsBmp(s) ==> |b| <= |s|
  {
    Bytes(Scan(Text.Utf16(s)))
  }

  /** The reader sees only low bytes: code units that agree on them scan alike. */
  lemma {:induction false} ScanReadsLowBytes(u: seq<int>, w: seq<int>)
    requires |u| == |w|
    requires forall k :: 0 <= k < |u| ==> u[k] % 256 == w[k] % 256
    ensures Scan(u) == Scan(w)
    decreases |u|
  {
    if |u| > 0 {
      assert LowByte(u[0]) == LowByte(w[0]);
      ScanReadsLowBytes(u[1..], w[1..]);
    }
  }

  /**
   * Texts whose characters agree on their low bytes decode alike, so a
   * cursor with `Ł` in place of `A` reads as the same bytes.
   */
  lemma DecodeReadsLowBytes(s: string, t: string)
    requires Text.IsBmp(s) && Text.IsBmp(t) && |s| == |t|
    requires forall i :: 0 <= i < |s| ==> (s[i] as int) % 256 == (t[i] as int) % 256
    ensures Decode(s) == Decode(t)
  {
    ScanReadsLowBytes(Text.Utf16(s), Text.Utf16(t));
  }

  /** Reading stops at padding and recovers the values behind written characters. */
  lemma {:induction false} ScanWritten(xs: seq<sextet>, pad: string)
    requires |pad| == 0 || pad[0] == '='
    ensures Scan(Text.Utf16(Chars(xs) + pad)) == xs
    decreases |xs|
  {
    var s := Chars(xs) + pad;
    if |xs| == 0 {
      assert s == pad;
      ScanPadding(pad);
    } else {
      assert s[1..] == Chars(xs[1..]) + pad;
      ScanFirst(s);
      ValueOfCharOf(xs[0]);
      ScanWritten(xs[1..], pad);
      assert xs == [xs[0]] + xs[1..];
    }
  }

  /** A written character is read as its own value, in front of what follows. */
  lemma ScanFirst(s: string)
    requires |s| > 0 && IsAlphabetChar(s[0])
    ensures Scan(Text.Utf16(s)) == [ValueOf(s[0]).value] + Scan(Text.Utf16(s[1..]))
  {
    Utf16Cons(s);
    ScanCons(s[0], Text.Utf16(s[1..]));
  }

  lemma Utf16Cons(s: string)
    requires |s| > 0 && (s[0] as int) < 0x1_0000
    ensures Text.Utf16(s) == [s[0] as int] + Text.Utf16(s[1..])
  {
  }

  lemma ScanCons(c: char, rest: seq<int>)
    requires IsAlphabetChar(c)
    ensures Scan([c as int] + rest) == [ValueOf(c).value] + Scan(rest)
  {
    var u := [c as int] + rest;
    assert LowByte(u[0]) == c;
    assert u[1..] == rest;
  }

  /** Nothing is read from the padding on. */
  lemma ScanPadding(pad: string)
    requires |pad| == 0 || pad[0] == '='
    ensures Scan(Text.Utf16(pad)) == []
  {
    if |pad| > 0 {
      assert Text.Utf16(pad)[0] == '=' as int;
    }
  }

  /** One whole group: three bytes to four values and back. */
  lemma GroupRoundTrip(b0: byte, b1: byte, b2: byte)
    ensures var g := Group(b0, b1, b2); Triple(g[0], g[1], g[2], g[3]) == [b0, b1, b2]
  {
  }

  /** The first bytes of a tail of one or two: the arithmetic of the short groups. */
  lemma TailRoundTrip(b0: byte, b1: byte)
    ensures (b0 / 4) * 4 + ((b0 % 4) * 16) / 16 == b0
    ensures (b0 / 4) * 4 + ((b0 % 4) * 16 + b1 / 16) / 16 == b0
    ensures (((b0 % 4) * 16 + b1 / 16) % 16) * 16 + ((b1 % 16) * 4) / 4 == b1
  {
  }

  /** Reading the values written for `b` gives back `b`. */
  lemma {:induction false} BytesOfSextets(b: seq<byte>)
    ensures Bytes(Sextets(b)) == b
    decreases |b|
  {
    if |b| == 0 {
    } else if |b| == 1 {
      TailRoundTrip(b[0], 0);
    } else if |b| == 2 {
      TailRoundTrip(b[0], b[1]);
    } else {
      WholeGroup(b);
      BytesOfSextets(b[3..]);
      assert b == b[..3] + b[3..];
    }
  }

  /** The first whole group of `b` comes back in front of the rest. */
  lemma WholeGroup(b: seq<byte>)
    requires |b| >= 3
    ensures Bytes(Sextets(b)) == b[..3] + Bytes(Sextets(b[3..]))
  {
    var g := Group(b[0], b[1], b[2]);
    assert Sextets(b) == g + Sextets(b[3..]);
    GroupBytes(g, Sextets(b[3..]));
    GroupRoundTrip(b[0], b[1], b[2]);
    FirstThree(b);
  }

  /** A group of four values in front of `rest` reads as its three bytes in front of what `rest` reads as. */
  lemma GroupBytes(g: seq<sextet>, rest: seq<sextet>)
    requires |g| == 4
    ensures Bytes(g + rest) == Triple(g[0], g[1], g[2], g[3]) + Bytes(rest)
  {
    var xs := g + rest;
    assert xs[0] == g[0] && xs[1] == g[1] && xs[2] == g[2] && xs[3] == g[3] && xs[4..] == rest;
  }

  lemma FirstThree(b: seq<byte>)
    requires |b| >= 3
    ensures b[..3] == [b[0], b[1], b[2]]
  {
  }

  /** Decoding inverts encoding on every byte sequence. */
  lemma {:induction false} RoundTrip(b: seq<byte>)
    ensures Decode(Encode(b)) == b
  {
    var pad := Padding(|b|);
    assert |pad| == 0 || pad[0] == '=';
    ScanWritten(Sextets(b), pad);
    BytesOfSextets(b);
  }

  /** Encoding is injective: distinct byte sequences never share an encoding. */
  lemma {:induction false} EncodeInjective(a: seq<byte>, b: seq<byte>)
    ensures Encode(a) == Encode(b) ==> a == b
  {
    RoundTrip(a);
    RoundTrip(b);
  }
}
