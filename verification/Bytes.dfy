/**
  Byte strings, UTF-8 and base64: the library codecs the source prints and
  parses with, written out so that what they keep can be proved.
 */
module Bytes {
  import opened Wrappers

  type Byte = b: int | 0 <= b < 256
  type ByteString = seq<Byte>

  // ----- UTF-8 (RFC 3629) -----

  function Utf8Char(c: char): ByteString
  {
    var n := c as int;
    if n < 0x80 then [n]
    else if n < 0x800 then [0xC0 + n / 64, 0x80 + n % 64]
    else if n < 0x10000 then [0xE0 + n / 4096, 0x80 + n / 64 % 64, 0x80 + n % 64]
    else [0xF0 + n / 262144, 0x80 + n / 4096 % 64, 0x80 + n / 64 % 64, 0x80 + n % 64]
  }

  /** `s.encode("utf-8")` */
  function Utf8(s: string): ByteString
  {
    if s == "" then [] else Utf8Char(s[0]) + Utf8(s[1..])
  }

  predicate IsContinuation(b: Byte) { 0x80 <= b < 0xC0 }

  predicate IsScalar(n: int) { 0 <= n < 0xD800 || 0xE000 <= n < 0x110000 }

  /** The first character of a byte string; overlong forms and surrogates are errors. */
  function DecodeChar(bs: ByteString): (r: Option<(char, ByteString)>)
    requires bs != []
    ensures r.Some? ==> |r.value.1| < |bs|
  {
    if bs[0] < 0x80 then Some((bs[0] as char, bs[1..]))
    else if 0xC2 <= bs[0] < 0xE0 && |bs| >= 2 && IsContinuation(bs[1]) then
      var n: int := (bs[0] as int - 0xC0) * 64 + (bs[1] as int - 0x80);
      Some((n as char, bs[2..]))
    else if 0xE0 <= bs[0] < 0xF0 && |bs| >= 3 && IsContinuation(bs[1]) && IsContinuation(bs[2]) then
      var n: int := (bs[0] as int - 0xE0) * 4096 + (bs[1] as int - 0x80) * 64 + (bs[2] as int - 0x80);
      if n >= 0x800 && IsScalar(n) then Some((n as char, bs[3..])) else None
    else if 0xF0 <= bs[0] < 0xF5 && |bs| >= 4
            && IsContinuation(bs[1]) && IsContinuation(bs[2]) && IsContinuation(bs[3]) then
      var n: int := (bs[0] as int - 0xF0) * 262144 + (bs[1] as int - 0x80) * 4096
                    + (bs[2] as int - 0x80) * 64 + (bs[3] as int - 0x80);
      if n >= 0x10000 && IsScalar(n) then Some((n as char, bs[4..])) else None
    else None
  }

  /** `bs.decode("utf-8")`; `None` is the UnicodeDecodeError. */
  function DecodeUtf8(bs: ByteString): Option<string>
  {
    if bs == [] then Some("")
    else match DecodeChar(bs)
      case None => None
      case Some((c, rest)) =>
        match DecodeUtf8(rest)
        case None => None
        case Some(s) => Some([c] + s)
  }

  lemma DecodeShortChar(c: char, rest: ByteString)
    requires c as int < 0x800
    ensures DecodeChar(Utf8Char(c) + rest) == Some((c, rest))
  {
    var head := Utf8Char(c);
    assert (head + rest)[|head|..] == rest;
  }

  lemma DecodeThreeByteChar(c: char, rest: ByteString)
    requires 0x800 <= c as int < 0x10000
    ensures DecodeChar(Utf8Char(c) + rest) == Some((c, rest))
  {
    var n := c as int;
    var q, r := n / 64, n % 64;
    assert n == q * 64 + r && q == q / 64 * 64 + q % 64 && n / 4096 == q / 64;
    var bs := Utf8Char(c) + rest;
    assert bs[0] == 0xE0 + q / 64 && bs[1] == 0x80 + q % 64 && bs[2] == 0x80 + r;
    assert bs[3..] == rest;
  }

  lemma DecodeFourByteChar(c: char, rest: ByteString)
    requires 0x10000 <= c as int
    ensures DecodeChar(Utf8Char(c) + rest) == Some((c, rest))
  {
    var n := c as int;
    var q, r := n / 64, n % 64;
    var q', r' := q / 64, q % 64;
    assert n == q * 64 + r && q == q' * 64 + r' && q' == q' / 64 * 64 + q' % 64;
    assert n / 4096 == q' && n / 262144 == q' / 64;
    var bs := Utf8Char(c) + rest;
    assert bs[0] == 0xF0 + q' / 64 && bs[1] == 0x80 + q' % 64 && bs[2] == 0x80 + r' && bs[3] == 0x80 + r;
    assert bs[4..] == rest;
  }

  lemma DecodeCharUtf8Char(c: char, rest: ByteString)
    ensures DecodeChar(Utf8Char(c) + rest) == Some((c, rest))
  {
    if c as int < 0x800 {
      DecodeShortChar(c, rest);
    } else if c as int < 0x10000 {
      DecodeThreeByteChar(c, rest);
    } else {
      DecodeFourByteChar(c, rest);
    }
  }

  lemma {:induction false} Utf8RoundTrip(s: string)
    ensures DecodeUtf8(Utf8(s)) == Some(s)
  {
    if s != "" {
      DecodeCharUtf8Char(s[0], Utf8(s[1..]));
      Utf8RoundTrip(s[1..]);
      assert s == [s[0]] + s[1..];
    }
  }

  lemma Utf8Injective(s: string, t: string)
    requires Utf8(s) == Utf8(t)
    ensures s == t
  {
    Utf8RoundTrip(s);
    Utf8RoundTrip(t);
  }

  // ----- Base64 (RFC 4648, sections 4 and 5) -----

  type Sextet = d: int | 0 <= d < 64

  /** The standard alphabet, or the URL-safe one. */
  function Symbol(d: Sextet, urlsafe: bool): char
  {
    if d < 26 then (d + 65) as char
    else if d < 52 then (d + 71) as char
    else if d < 62 then (d - 4) as char
    else if d == 62 then (if urlsafe then '-' else '+')
    else (if urlsafe then '_' else '/')
  }

  /** The alphabets of RFC 4648, tables 1 and 2. */
  lemma Alphabets(d: Sextet)
    ensures d < 26 ==> Symbol(d, false) == "ABCDEFGHIJKLMNOPQRSTUVWXYZ"[d]
    ensures 26 <= d < 52 ==> Symbol(d, false) == "abcdefghijklmnopqrstuvwxyz"[d - 26]
    ensures 52 <= d < 62 ==> Symbol(d, false) == "0123456789"[d - 52]
    ensures Symbol(62, false) == '+' && Symbol(63, false) == '/' && Symbol(62, true) == '-' && Symbol(63, true) == '_'
    ensures d < 62 ==> Symbol(d, true) == Symbol(d, false)
  {
  }

  /** `base64.b64encode` and `base64.urlsafe_b64encode`, padded. */
  function Base64Encode(bs: ByteString, urlsafe: bool): string
  {
    if |bs| == 0 then ""
    else if |bs| == 1 then
      [Symbol(bs[0] / 4, urlsafe), Symbol(bs[0] % 4 * 16, urlsafe), '=', '=']
    else if |bs| == 2 then
      [Symbol(bs[0] / 4, urlsafe), Symbol(bs[0] % 4 * 16 + bs[1] / 16, urlsafe),
       Symbol(bs[1] % 16 * 4, urlsafe), '=']
    else
      [Symbol(bs[0] / 4, urlsafe), Symbol(bs[0] % 4 * 16 + bs[1] / 16, urlsafe),
       Symbol(bs[1] % 16 * 4 + bs[2] / 64, urlsafe), Symbol(bs[2] % 64, urlsafe)]
      + Base64Encode(bs[3..], urlsafe)
  }

  /** What the decoder's table makes of one character. */
  datatype Token = Digit(d: Sextet) | Pad | Skip

  /** The URL-safe decoder first maps `-` to `+` and `_` to `/`. */
  function TokenOf(c: char, urlsafe: bool): Token
  {
    if 'A' <= c <= 'Z' then Digit(c as int - 65)
    else if 'a' <= c <= 'z' then Digit(c as int - 71)
    else if '0' <= c <= '9' then Digit(c as int + 4)
    else if c == '+' || (urlsafe && c == '-') then Digit(62)
    else if c == '/' || (urlsafe && c == '_') then Digit(63)
    else if c == '=' then Pad
    else Skip
  }

  /**
    The lenient scan of `binascii.a2b_base64`: characters outside the alphabet
    are skipped, a completed pad sequence ends the input. `quad` counts the
    digits of the current group and `left` holds the bits carried over.
   */
  function Scan(ts: seq<Token>, quad: int, left: int, pads: nat): Option<ByteString>
    requires 0 <= quad < 4 && 0 <= left < (if quad == 2 then 16 else if quad == 3 then 4 else 64)
  {
    if ts == [] then (if quad == 0 then Some([]) else None)
    else match ts[0]
      case Skip => Scan(ts[1..], quad, left, pads)
      case Pad =>
        if quad >= 2 && quad + pads + 1 >= 4 then Some([])
        else Scan(ts[1..], quad, left, if quad >= 2 then pads + 1 else pads)
      case Digit(d) =>
        if quad == 0 then Scan(ts[1..], 1, d, 0)
        else if quad == 1 then Emit(left * 4 + d / 16, Scan(ts[1..], 2, d % 16, 0))
        else if quad == 2 then Emit(left * 16 + d / 4, Scan(ts[1..], 3, d % 4, 0))
        else Emit(left * 64 + d, Scan(ts[1..], 0, 0, 0))
  }

  function Emit(b: Byte, rest: Option<ByteString>): Option<ByteString>
  {
    match rest
    case None => None
    case Some(bs) => Some([b] + bs)
  }

  function Tokens(s: string, urlsafe: bool): seq<Token>
  {
    seq(|s|, i requires 0 <= i < |s| => TokenOf(s[i], urlsafe))
  }

  predicate IsAscii(s: string)
  {
    forall c | c in s :: c as int < 128
  }

  /** `base64.b64decode` and `base64.urlsafe_b64decode` of a str; `None` is a ValueError. */
  function Base64Decode(s: string, urlsafe: bool): Option<ByteString>
  {
    if IsAscii(s) then Scan(Tokens(s, urlsafe), 0, 0, 0) else None
  }

  lemma SymbolRoundTrip(d: Sextet, urlsafe: bool)
    ensures TokenOf(Symbol(d, urlsafe), urlsafe) == Digit(d)
    ensures Symbol(d, urlsafe) != '=' && Symbol(d, urlsafe) != '.' && Symbol(d, urlsafe) as int < 128
  {
  }

  lemma ScanPair(d0: Sextet, d1: Sextet, rest: seq<Token>)
    ensures Scan([Digit(d0), Digit(d1)] + rest, 0, 0, 0)
         == Emit(d0 as int * 4 + d1 / 16, Scan(rest, 2, d1 % 16, 0))
  {
    var ts := [Digit(d0), Digit(d1)] + rest;
    assert ts[1..][0] == Digit(d1) && ts[1..][1..] == rest;
  }

  lemma ScanQuad(d0: Sextet, d1: Sextet, d2: Sextet, d3: Sextet, rest: seq<Token>)
    ensures Scan([Digit(d0), Digit(d1), Digit(d2), Digit(d3)] + rest, 0, 0, 0)
         == Emit(d0 as int * 4 + d1 / 16, Emit(d1 as int % 16 * 16 + d2 / 4,
              Emit(d2 as int % 4 * 64 + d3, Scan(rest, 0, 0, 0))))
  {
    var tail := [Digit(d2), Digit(d3)] + rest;
    assert [Digit(d0), Digit(d1), Digit(d2), Digit(d3)] + rest == [Digit(d0), Digit(d1)] + tail;
    ScanPair(d0, d1, tail);
    assert tail[1..][0] == Digit(d3) && tail[1..][1..] == rest;
  }

  lemma ScanTailTwo(d0: Sextet, d1: Sextet)
    ensures Scan([Digit(d0), Digit(d1), Pad, Pad], 0, 0, 0) == Some([d0 as int * 4 + d1 / 16])
  {
    var pads: seq<Token> := [Pad, Pad];
    assert [Digit(d0), Digit(d1), Pad, Pad] == [Digit(d0), Digit(d1)] + pads;
    ScanPair(d0, d1, pads);
    assert pads[1..] == [Pad];
    assert Scan(pads, 2, d1 % 16, 0) == Some([]);
    var b: Byte := d0 as int * 4 + d1 / 16;
    assert [b] + [] == [b];
  }

  lemma ScanTailThree(d0: Sextet, d1: Sextet, d2: Sextet)
    ensures Scan([Digit(d0), Digit(d1), Digit(d2), Pad], 0, 0, 0)
         == Some([d0 as int * 4 + d1 / 16, d1 as int % 16 * 16 + d2 / 4])
  {
    var rest := [Digit(d2), Pad];
    assert [Digit(d0), Digit(d1), Digit(d2), Pad] == [Digit(d0), Digit(d1)] + rest;
    ScanPair(d0, d1, rest);
    assert rest[1..] == [Pad];
    assert Scan([Pad], 3, d2 % 4, 0) == Some([]);
    var b: Byte, c: Byte := d0 as int * 4 + d1 / 16, d1 as int % 16 * 16 + d2 / 4;
    assert [b] + ([c] + []) == [b, c];
  }

  lemma TokensOfFour(a: char, b: char, c: char, d: char, rest: string, urlsafe: bool)
    ensures Tokens([a, b, c, d] + rest, urlsafe)
         == [TokenOf(a, urlsafe), TokenOf(b, urlsafe), TokenOf(c, urlsafe), TokenOf(d, urlsafe)]
            + Tokens(rest, urlsafe)
  {
  }

  lemma GroupBits(b0: Byte, b1: Byte, b2: Byte)
    ensures b0 as int / 4 * 4 + (b0 as int % 4 * 16 + b1 as int / 16) / 16 == b0
    ensures (b0 as int % 4 * 16 + b1 as int / 16) % 16 * 16 + (b1 as int % 16 * 4 + b2 as int / 64) / 4 == b1
    ensures (b1 as int % 16 * 4 + b2 as int / 64) % 4 * 64 + b2 as int % 64 == b2
  {
  }

  lemma DecodeOne(b0: Byte, urlsafe: bool)
    ensures Scan(Tokens(Base64Encode([b0], urlsafe), urlsafe), 0, 0, 0) == Some([b0])
  {
    var d0: Sextet, d1: Sextet := b0 / 4, b0 % 4 * 16;
    TokensOfFour(Symbol(d0, urlsafe), Symbol(d1, urlsafe), '=', '=', "", urlsafe);
    SymbolRoundTrip(d0, urlsafe);
    SymbolRoundTrip(d1, urlsafe);
    ScanTailTwo(d0, d1);
    assert Tokens(Base64Encode([b0], urlsafe), urlsafe) == [Digit(d0), Digit(d1), Pad, Pad];
  }

  lemma DecodeTwo(b0: Byte, b1: Byte, urlsafe: bool)
    ensures Scan(Tokens(Base64Encode([b0, b1], urlsafe), urlsafe), 0, 0, 0) == Some([b0, b1])
  {
    var d0: Sextet, d1: Sextet, d2: Sextet := b0 / 4, b0 % 4 * 16 + b1 / 16, b1 % 16 * 4;
    TokensOfFour(Symbol(d0, urlsafe), Symbol(d1, urlsafe), Symbol(d2, urlsafe), '=', "", urlsafe);
    SymbolRoundTrip(d0, urlsafe);
    SymbolRoundTrip(d1, urlsafe);
    SymbolRoundTrip(d2, urlsafe);
    ScanTailThree(d0, d1, d2);
    GroupBits(b0, b1, 0);
    assert Tokens(Base64Encode([b0, b1], urlsafe), urlsafe) == [Digit(d0), Digit(d1), Digit(d2), Pad];
  }

  lemma DecodeThree(b0: Byte, b1: Byte, b2: Byte, rest: ByteString, urlsafe: bool)
    ensures Scan(Tokens(Base64Encode([b0, b1, b2] + rest, urlsafe), urlsafe), 0, 0, 0)
         == Emit(b0, Emit(b1, Emit(b2, Scan(Tokens(Base64Encode(rest, urlsafe), urlsafe), 0, 0, 0))))
  {
    var d0: Sextet, d1: Sextet := b0 / 4, b0 % 4 * 16 + b1 / 16;
    var d2: Sextet, d3: Sextet := b1 % 16 * 4 + b2 / 64, b2 % 64;
    var tail := Base64Encode(rest, urlsafe);
    assert ([b0, b1, b2] + rest)[3..] == rest;
    TokensOfFour(Symbol(d0, urlsafe), Symbol(d1, urlsafe), Symbol(d2, urlsafe), Symbol(d3, urlsafe), tail, urlsafe);
    SymbolRoundTrip(d0, urlsafe);
    SymbolRoundTrip(d1, urlsafe);
    SymbolRoundTrip(d2, urlsafe);
    SymbolRoundTrip(d3, urlsafe);
    ScanQuad(d0, d1, d2, d3, Tokens(tail, urlsafe));
    GroupBits(b0, b1, b2);
  }

  /** The scan undoes the encoder group by group. */
  lemma {:induction false} ScanRoundTrip(bs: ByteString, urlsafe: bool)
    ensures Scan(Tokens(Base64Encode(bs, urlsafe), urlsafe), 0, 0, 0) == Some(bs)
    decreases |bs|
  {
    if |bs| == 1 {
      DecodeOne(bs[0], urlsafe);
      assert bs == [bs[0]];
    } else if |bs| == 2 {
      DecodeTwo(bs[0], bs[1], urlsafe);
      assert bs == [bs[0], bs[1]];
    } else if |bs| >= 3 {
      DecodeThree(bs[0], bs[1], bs[2], bs[3..], urlsafe);
      ScanRoundTrip(bs[3..], urlsafe);
      assert bs == [bs[0], bs[1], bs[2]] + bs[3..];
      assert bs == [bs[0]] + ([bs[1]] + ([bs[2]] + bs[3..]));
    }
  }

  lemma {:induction false} Base64IsAscii(bs: ByteString, urlsafe: bool)
    ensures IsAscii(Base64Encode(bs, urlsafe))
    ensures '.' !in Base64Encode(bs, urlsafe)
    decreases |bs|
  {
    if |bs| >= 3 {
      Base64IsAscii(bs[3..], urlsafe);
    }
  }

  lemma SymbolIsPlain(d: Sextet, urlsafe: bool)
    ensures 33 <= Symbol(d, urlsafe) as int < 127 && Symbol(d, urlsafe) != '\\' && Symbol(d, urlsafe) != '\"'
  {
  }

  /** Nothing in it needs escaping in a string literal. */
  lemma {:induction false} Base64IsPlain(bs: ByteString, urlsafe: bool)
    ensures forall c | c in Base64Encode(bs, urlsafe) :: 33 <= c as int < 127 && c != '\\' && c != '\"'
    decreases |bs|
  {
    hide Symbol;
    forall d: Sextet
      ensures 33 <= Symbol(d, urlsafe) as int < 127 && Symbol(d, urlsafe) != '\\' && Symbol(d, urlsafe) != '\"'
    {
      SymbolIsPlain(d, urlsafe);
    }
    if |bs| >= 3 {
      Base64IsPlain(bs[3..], urlsafe);
    }
  }

  lemma Base64RoundTrip(bs: ByteString, urlsafe: bool)
    ensures Base64Decode(Base64Encode(bs, urlsafe), urlsafe) == Some(bs)
  {
    ScanRoundTrip(bs, urlsafe);
    Base64IsAscii(bs, urlsafe);
  }

  lemma Base64Injective(a: ByteString, b: ByteString, urlsafe: bool)
    requires Base64Encode(a, urlsafe) == Base64Encode(b, urlsafe)
    ensures a == b
  {
    Base64RoundTrip(a, urlsafe);
    Base64RoundTrip(b, urlsafe);
  }
}
