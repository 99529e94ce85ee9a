/**
 * The feed's page size and its cursor: the `created_at` text of the last
 * post of a page, written as Base64 over the text's UTF-8 bytes.
 */
module Pagination {
  import opened Text
  import Base64

  /** Posts per feed page. */
  const PostsPerPage: nat := 10

  /** The UTF-8 bytes of one character (`Buffer.from` encodes text as UTF-8). */
  function Utf8Char(c: char): (b: seq<Base64.byte>)
    ensures 1 <= |b| <= 4
    ensures (c as int) < 128 <==> |b| == 1
    ensures (c as int) < 128 ==> b == [c as int]
  {
    var n := c as int;
    if n < 0x80 then [n]
    else if n < 0x800 then [0xC0 + n / 0x40, 0x80 + n % 0x40]
    else if n < 0x1_0000 then [0xE0 + n / 0x1000, 0x80 + (n / 0x40) % 0x40, 0x80 + n % 0x40]
    else [0xF0 + n / 0x4_0000, 0x80 + (n / 0x1000) % 0x40, 0x80 + (n / 0x40) % 0x40, 0x80 + n % 0x40]
  }

  /** `Buffer.from(s)`: the UTF-8 bytes of `s`. */
  function Utf8(s: string): (b: seq<Base64.byte>)
    ensures |s| <= |b| <= 4 * |s|
    ensures IsAscii(s) ==> |b| == |s| && forall i :: 0 <= i < |s| ==> b[i] == s[i] as int
  {
    if |s| == 0 then [] else Utf8Char(s[0]) + Utf8(s[1..])
  }

  /**
   * `buffer.toString()` on bytes: a byte below 128 is its ASCII character;
   * any other byte becomes U+FFFD.
   */
  function AsciiText(b: seq<Base64.byte>): (s: string)
    ensures |s| == |b|
    ensures forall i :: 0 <= i < |b| ==> (b[i] < 128 ==> s[i] as int == b[i])
    ensures forall i :: 0 <= i < |b| ==> (b[i] >= 128 ==> s[i] as int == 0xFFFD)
  {
    seq(|b|, i requires 0 <= i < |b| => if b[i] < 128 then b[i] as char else 0xFFFD as char)
  }

  /** `encodeCursor`: the Base64 text of the timestamp's bytes. */
  function EncodeCursor(date: string): (cursor: string)
    ensures IsAscii(date) ==> |cursor| == 4 * ((|date| + 2) / 3)
    ensures forall i :: 0 <= i < |cursor| ==> Base64.IsAlphabetChar(cursor[i]) || cursor[i] == '='
    ensures cursor == "" <==> date == ""
  {
    Base64.Encode(Utf8(date))
  }

  /** `decodeCursor`: defined for every input, with no error path. */
  function DecodeCursor(cursor: string): (date: string)
    ensures |date| <= |Utf16(cursor)|
    ensures IsBmp(cursor) ==> |date| <= |cursor|
    ensures forall i :: 0 <= i < |date| ==> (date[i] as int) < 128 || date[i] as int == 0xFFFD
  {
    AsciiText(Base64.Decode(cursor))
  }

  /** Decoding the cursor of an ASCII timestamp gives back the timestamp. */
  lemma {:induction false} CursorRoundTrip(date: string)
    requires IsAscii(date)
    ensures DecodeCursor(EncodeCursor(date)) == date
  {
    var b := Utf8(date);
    Base64.RoundTrip(b);
    assert AsciiText(b) == date;
  }

  /** Distinct ASCII timestamps have distinct cursors. */
  lemma {:induction false} CursorInjective(a: string, b: string)
    requires IsAscii(a) && IsAscii(b)
    ensures EncodeCursor(a) == EncodeCursor(b) ==> a == b
  {
    CursorRoundTrip(a);
    CursorRoundTrip(b);
  }
}
