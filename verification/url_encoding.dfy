/** The `application/x-www-form-urlencoded` body that `URLSearchParams`
    produces (`toString`), as the WHATWG URL Standard defines its serializer:
    each name and value is turned into UTF-8 bytes, bytes outside a small
    safe set are percent-encoded, a space becomes `+`, and the pairs are
    joined as `name=value` with `&`. `Parse` is a reference decoder for such
    bodies; the round trip proves that a serialized body loses nothing,
    whatever Unicode scalar values the fields contain. */
module UrlEncoding {

  type Byte = b: int | 0 <= b < 256

  // ---------------------------------------------------------------------------
  // UTF-8

  /** The UTF-8 encoding of one character. */
  function Utf8(c: char): (bs: seq<Byte>)
    ensures 1 <= |bs| <= 4
  {
    var n := c as int;
    if n < 0x80 then [n]
    else if n < 0x800 then [0xC0 + n / 64, 0x80 + n % 64]
    else if n < 0x10000 then [0xE0 + n / 4096, 0x80 + (n / 64) % 64, 0x80 + n % 64]
    else [0xF0 + n / 0x40000, 0x80 + (n / 4096) % 64, 0x80 + (n / 64) % 64, 0x80 + n % 64]
  }

  function Utf8Bytes(s: string): seq<Byte> {
    if s == [] then [] else Utf8(s[0]) + Utf8Bytes(s[1..])
  }

  predicate Continuation(b: Byte) {
    0x80 <= b < 0xC0
  }

  predicate IsScalar(n: int) {
    0 <= n < 0xD800 || 0xE000 <= n < 0x110000
  }

  /** UTF-8 decoding; a byte that starts no well-formed sequence decodes to
      U+FFFD. */
  function Utf8Decode(bs: seq<Byte>): string
    decreases |bs|
  {
    if bs == [] then []
    else
      var b0: int := bs[0];
      var b1: int := if 2 <= |bs| then bs[1] else 0;
      var b2: int := if 3 <= |bs| then bs[2] else 0;
      var b3: int := if 4 <= |bs| then bs[3] else 0;
      var two := (b0 - 0xC0) * 64 + (b1 - 0x80);
      var three := (b0 - 0xE0) * 4096 + (b1 - 0x80) * 64 + (b2 - 0x80);
      var four := (b0 - 0xF0) * 0x40000 + (b1 - 0x80) * 4096 + (b2 - 0x80) * 64 + (b3 - 0x80);
      if b0 < 0x80 then
        [b0 as char] + Utf8Decode(bs[1..])
      else if 0xC0 <= b0 < 0xE0 && 2 <= |bs| && Continuation(bs[1]) && 0x80 <= two then
        [two as char] + Utf8Decode(bs[2..])
      else if 0xE0 <= b0 < 0xF0 && 3 <= |bs| && Continuation(bs[1]) && Continuation(bs[2])
              && 0x800 <= three && IsScalar(three) then
        [three as char] + Utf8Decode(bs[3..])
      else if 0xF0 <= b0 < 0xF8 && 4 <= |bs| && Continuation(bs[1]) && Continuation(bs[2]) && Continuation(bs[3])
              && 0x10000 <= four && IsScalar(four) then
        [four as char] + Utf8Decode(bs[4..])
      else
        [0xFFFD as char] + Utf8Decode(bs[1..])
  }

  /** Decoding the encoding of one character gives that character back and
      leaves the rest of the bytes to the next step. */
  lemma Utf8DecodeChar(c: char, rest: seq<Byte>)
    ensures Utf8Decode(Utf8(c) + rest) == [c] + Utf8Decode(rest)
  {
    var n := c as int;
    if n < 0x80 {
      assert (Utf8(c) + rest)[1..] == rest;
    } else if n < 0x800 {
      Utf8DecodeTwo(c, rest);
    } else if n < 0x10000 {
      Utf8DecodeThree(c, rest);
    } else {
      Utf8DecodeFour(c, rest);
    }
  }

  lemma Utf8DecodeTwo(c: char, rest: seq<Byte>)
    requires 0x80 <= c as int < 0x800
    ensures Utf8Decode(Utf8(c) + rest) == [c] + Utf8Decode(rest)
  {
    var n := c as int;
    var bs := Utf8(c) + rest;
    assert bs[0] == 0xC0 + n / 64 && bs[1] == 0x80 + n % 64;
    assert n == (n / 64) * 64 + n % 64;
    assert bs[2..] == rest;
  }

  lemma Utf8DecodeThree(c: char, rest: seq<Byte>)
    requires 0x800 <= c as int < 0x10000
    ensures Utf8Decode(Utf8(c) + rest) == [c] + Utf8Decode(rest)
  {
    var n := c as int;
    var bs := Utf8(c) + rest;
    assert bs[0] == 0xE0 + n / 4096 && bs[1] == 0x80 + (n / 64) % 64 && bs[2] == 0x80 + n % 64;
    SixBitDigits(n);
    assert bs[3..] == rest;
  }

  lemma Utf8DecodeFour(c: char, rest: seq<Byte>)
    requires 0x10000 <= c as int
    ensures Utf8Decode(Utf8(c) + rest) == [c] + Utf8Decode(rest)
  {
    var n := c as int;
    var bs := Utf8(c) + rest;
    assert bs[0] == 0xF0 + n / 0x40000 && bs[1] == 0x80 + (n / 4096) % 64;
    assert bs[2] == 0x80 + (n / 64) % 64 && bs[3] == 0x80 + n % 64;
    SixBitDigits(n);
    assert bs[4..] == rest;
  }

  /** A code point is the sum of its 6-bit groups. */
  lemma SixBitDigits(n: nat)
    ensures (n / 4096) * 4096 + ((n / 64) % 64) * 64 + n % 64 == n
    ensures (n / 0x40000) * 0x40000 + ((n / 4096) % 64) * 4096 + ((n / 64) % 64) * 64 + n % 64 == n
  {
    var d0, n1 := n % 64, n / 64;
    var d1, n2 := n1 % 64, n1 / 64;
    var d2, n3 := n2 % 64, n2 / 64;
    assert n == n1 * 64 + d0;
    assert n1 == n2 * 64 + d1;
    assert n2 == n3 * 64 + d2;
    assert n2 == n / 4096;
    assert n3 == n / 0x40000;
  }

  lemma {:induction false} Utf8RoundTrip(s: string)
    ensures Utf8Decode(Utf8Bytes(s)) == s
  {
    if s != [] {
      Utf8DecodeChar(s[0], Utf8Bytes(s[1..]));
      Utf8RoundTrip(s[1..]);
    }
  }

  // ---------------------------------------------------------------------------
  // Percent-encoding

  /** Bytes the serializer leaves as they are: `*-._`, digits and ASCII letters. */
  predicate Unreserved(b: Byte) {
    b == 0x2A || b == 0x2D || b == 0x2E || 0x30 <= b <= 0x39 || 0x41 <= b <= 0x5A || b == 0x5F || 0x61 <= b <= 0x7A
  }

  /** An upper-case hexadecimal digit. */
  function HexDigit(d: int): char
    requires 0 <= d < 16
  {
    if d < 10 then ('0' as int + d) as char else ('A' as int + d - 10) as char
  }

  predicate IsHex(c: char) {
    '0' <= c <= '9' || 'A' <= c <= 'F' || 'a' <= c <= 'f'
  }

  function HexValue(c: char): (d: int)
    requires IsHex(c)
    ensures 0 <= d < 16
  {
    if c <= '9' then c as int - '0' as int
    else if c <= 'F' then c as int - 'A' as int + 10
    else c as int - 'a' as int + 10
  }

  function EncodeByte(b: Byte): string {
    if Unreserved(b) then [b as char]
    else if b == 0x20 then "+"
    else ['%', HexDigit(b / 16), HexDigit(b % 16)]
  }

  function EncodeBytes(bs: seq<Byte>): string {
    if bs == [] then "" else EncodeByte(bs[0]) + EncodeBytes(bs[1..])
  }

  /** The urlencoded form of a name or a value. */
  function EncodeText(s: string): string {
    EncodeBytes(Utf8Bytes(s))
  }

  /** Percent-decoding with `+` read as a space; a `%` not followed by two
      hex digits stands for itself, and any other character for its UTF-8
      bytes. */
  function DecodeBytes(s: string): seq<Byte> {
    if s == [] then []
    else if s[0] == '+' then [0x20] + DecodeBytes(s[1..])
    else if s[0] == '%' && 3 <= |s| && IsHex(s[1]) && IsHex(s[2]) then
      [HexValue(s[1]) * 16 + HexValue(s[2])] + DecodeBytes(s[3..])
    else Utf8(s[0]) + DecodeBytes(s[1..])
  }

  lemma HexRoundTrip(d: int)
    requires 0 <= d < 16
    ensures IsHex(HexDigit(d)) && HexValue(HexDigit(d)) == d
  {
  }

  lemma DecodeEncodedByte(b: Byte, rest: string)
    ensures DecodeBytes(EncodeByte(b) + rest) == [b] + DecodeBytes(rest)
  {
    var s := EncodeByte(b) + rest;
    if Unreserved(b) {
      assert s[0] == b as char && s[1..] == rest;
      assert Utf8(b as char) == [b];
    } else if b == 0x20 {
      assert s[0] == '+' && s[1..] == rest;
    } else {
      var hi, lo := b / 16, b % 16;
      HexRoundTrip(hi);
      HexRoundTrip(lo);
      assert s[0] == '%' && s[1] == HexDigit(hi) && s[2] == HexDigit(lo) && s[3..] == rest;
      assert hi * 16 + lo == b;
    }
  }

  lemma {:induction false} DecodeEncodedBytes(bs: seq<Byte>)
    ensures DecodeBytes(EncodeBytes(bs)) == bs
  {
    if bs != [] {
      DecodeEncodedByte(bs[0], EncodeBytes(bs[1..]));
      DecodeEncodedBytes(bs[1..]);
    }
  }

  /** Neither `&` nor `=` ever appears in an encoded name or value. */
  lemma {:induction false} EncodedHasNoDelimiters(bs: seq<Byte>)
    ensures '&' !in EncodeBytes(bs) && '=' !in EncodeBytes(bs)
  {
    if bs != [] {
      EncodedHasNoDelimiters(bs[1..]);
      var e := EncodeByte(bs[0]);
      assert '&' !in e && '=' !in e;
      assert EncodeBytes(bs) == e + EncodeBytes(bs[1..]);
    }
  }

  function DecodeText(s: string): string {
    Utf8Decode(DecodeBytes(s))
  }

  lemma TextRoundTrip(s: string)
    ensures DecodeText(EncodeText(s)) == s
    ensures '&' !in EncodeText(s) && '=' !in EncodeText(s)
  {
    DecodeEncodedBytes(Utf8Bytes(s));
    Utf8RoundTrip(s);
    EncodedHasNoDelimiters(Utf8Bytes(s));
  }

  // ---------------------------------------------------------------------------
  // Whole bodies

  /** `URLSearchParams.toString()`: `name=value` pairs joined with `&`. */
  function Serialize(params: seq<(string, string)>): string {
    if params == [] then ""
    else
      var pair := EncodeText(params[0].0) + "=" + EncodeText(params[0].1);
      if |params| == 1 then pair else pair + "&" + Serialize(params[1..])
  }

  /** The pieces of `s` between occurrences of `sep`. */
  function SplitOn(s: string, sep: char): (parts: seq<string>)
    ensures 1 <= |parts|
  {
    if s == [] then [""]
    else
      var rest := SplitOn(s[1..], sep);
      if s[0] == sep then [""] + rest else [[s[0]] + rest[0]] + rest[1..]
  }

  lemma {:induction false} SplitOnNoSep(a: string, sep: char)
    requires sep !in a
    ensures SplitOn(a, sep) == [a]
  {
    if a != [] {
      SplitOnNoSep(a[1..], sep);
      assert a == [a[0]] + a[1..];
    }
  }

  lemma {:induction false} SplitOnFirst(a: string, sep: char, b: string)
    requires sep !in a
    ensures SplitOn(a + [sep] + b, sep) == [a] + SplitOn(b, sep)
  {
    var s := a + [sep] + b;
    if a == [] {
      assert s[1..] == b;
    } else {
      SplitOnFirst(a[1..], sep, b);
      assert s[1..] == a[1..] + [sep] + b;
      assert [a[0]] + a[1..] == a;
    }
  }

  /** The text before the first `sep` and the text after it; all of `s`
      and nothing when there is no `sep`. */
  function BreakAt(s: string, sep: char): (string, string) {
    if s == [] then ("", "")
    else if s[0] == sep then ("", s[1..])
    else
      var (before, after) := BreakAt(s[1..], sep);
      ([s[0]] + before, after)
  }

  lemma {:induction false} BreakAtFirst(a: string, sep: char, b: string)
    requires sep !in a
    ensures BreakAt(a + [sep] + b, sep) == (a, b)
  {
    var s := a + [sep] + b;
    if a == [] {
      assert s[1..] == b;
    } else {
      BreakAtFirst(a[1..], sep, b);
      assert s[1..] == a[1..] + [sep] + b;
      assert [a[0]] + a[1..] == a;
    }
  }

  function ParsePieces(pieces: seq<string>): seq<(string, string)> {
    if pieces == [] then []
    else if pieces[0] == "" then ParsePieces(pieces[1..])
    else
      var (name, value) := BreakAt(pieces[0], '=');
      [(DecodeText(name), DecodeText(value))] + ParsePieces(pieces[1..])
  }

  /** A reference decoder for urlencoded bodies: split on `&`, skip empty
      pieces, split each at its first `=`, decode both halves. */
  function Parse(body: string): seq<(string, string)> {
    ParsePieces(SplitOn(body, '&'))
  }

  /** A non-empty piece contributes its decoded name and value. */
  lemma ParsePiecesCons(piece: string, pieces: seq<string>)
    requires piece != ""
    ensures ParsePieces([piece] + pieces) ==
      [(DecodeText(BreakAt(piece, '=').0), DecodeText(BreakAt(piece, '=').1))] + ParsePieces(pieces)
  {
    var all := [piece] + pieces;
    assert all[0] == piece && all[1..] == pieces;
  }

  /** One serialized pair: not empty, free of `&`, and read back as the
      name and value it came from. */
  lemma PairParses(name: string, value: string)
    ensures var pair := EncodeText(name) + "=" + EncodeText(value);
      && pair != "" && '&' !in pair
      && DecodeText(BreakAt(pair, '=').0) == name && DecodeText(BreakAt(pair, '=').1) == value
  {
    TextRoundTrip(name);
    TextRoundTrip(value);
    var en, ev := EncodeText(name), EncodeText(value);
    assert en + "=" + ev == en + ['='] + ev;
    BreakAtFirst(en, '=', ev);
  }

  /** Every list of name/value pairs survives serialization unchanged, in
      order, whatever Unicode scalar values its names and values contain. */
  lemma {:induction false} ParseSerialize(params: seq<(string, string)>)
    ensures Parse(Serialize(params)) == params
  {
    if params != [] {
      var pair := EncodeText(params[0].0) + "=" + EncodeText(params[0].1);
      PairParses(params[0].0, params[0].1);
      if |params| == 1 {
        SplitOnNoSep(pair, '&');
        ParsePiecesCons(pair, []);
      } else {
        var rest := Serialize(params[1..]);
        ParseSerialize(params[1..]);
        SplitOnFirst(pair, '&', rest);
        assert Serialize(params) == pair + ['&'] + rest;
        ParsePiecesCons(pair, SplitOn(rest, '&'));
      }
    }
  }
}
