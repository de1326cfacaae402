/** `urllib.parse.quote(s)` with its default `safe='/'`: the text is encoded as
    UTF-8 (RFC 3629, section 3) and every byte other than an unreserved
    character (RFC 3986, section 2.3) or `/` becomes a percent-encoded triplet
    with upper-case hex digits (RFC 3986, section 2.1). */
module UrlQuote {
  import opened Wrappers

  type Byte = b: int | 0 <= b < 0x100

  /** A Unicode scalar value: what a Dafny `char` holds. */
  predicate IsScalar(n: int) {
    0 <= n < 0xD800 || 0xE000 <= n < 0x11_0000
  }

  predicate IsContinuation(b: Byte) {
    0x80 <= b < 0xC0
  }

  /** The UTF-8 bytes of one character: one byte below U+0080, then two, three
      or four bytes, each continuation byte carrying six bits. */
  function EncodeChar(c: char): (bs: seq<Byte>)
    ensures 1 <= |bs| <= 4
    ensures |bs| == 1 <==> c as int < 0x80
    ensures |bs| == 1 ==> bs[0] == c as int
    ensures forall i :: 1 <= i < |bs| ==> IsContinuation(bs[i])
  {
    var n := c as int;
    if n < 0x80 then [n]
    else if n < 0x800 then [0xC0 + n / 0x40, 0x80 + n % 0x40]
    else if n < 0x1_0000 then [0xE0 + n / 0x1000, 0x80 + (n / 0x40) % 0x40, 0x80 + n % 0x40]
    else [0xF0 + n / 0x4_0000, 0x80 + (n / 0x1000) % 0x40, 0x80 + (n / 0x40) % 0x40, 0x80 + n % 0x40]
  }

  function Encode(s: string): (bs: seq<Byte>)
    ensures |bs| >= |s|
  {
    if s == [] then [] else EncodeChar(s[0]) + Encode(s[1..])
  }

  /** The number of bytes the sequence introduced by `lead` occupies, or 0 for
      a byte that cannot start one. */
  function SequenceLength(lead: Byte): nat {
    if lead < 0x80 then 1
    else if 0xC0 <= lead < 0xE0 then 2
    else if 0xE0 <= lead < 0xF0 then 3
    else if 0xF0 <= lead < 0xF8 then 4
    else 0
  }

  /** The code point a sequence of `len` bytes spells, before any check: the
      payload bits of the lead byte followed by six bits per continuation byte. */
  function CodePoint(bs: seq<Byte>, len: nat): int
    requires 1 <= len <= 4 && len <= |bs|
  {
    var b0: int := bs[0];
    if len == 1 then b0
    else if len == 2 then (b0 - 0xC0) * 0x40 + Low(bs[1])
    else if len == 3 then ((b0 - 0xE0) * 0x40 + Low(bs[1])) * 0x40 + Low(bs[2])
    else (((b0 - 0xF0) * 0x40 + Low(bs[1])) * 0x40 + Low(bs[2])) * 0x40 + Low(bs[3])
  }

  /** The six payload bits of a continuation byte. */
  function Low(b: Byte): int {
    b as int - 0x80
  }

  /** The shortest length that can spell `n`. */
  function ShortestLength(n: int): nat {
    if n < 0x80 then 1 else if n < 0x800 then 2 else if n < 0x1_0000 then 3 else 4
  }

  /** The first character of `bs` and the bytes it took, or `None` for a
      malformed, overlong or surrogate sequence. */
  function DecodeChar(bs: seq<Byte>): (r: Option<(char, nat)>)
    ensures r.Some? ==> 1 <= r.value.1 <= |bs|
  {
    if bs == [] then None
    else
      var len := SequenceLength(bs[0]);
      if len == 0 || len > |bs| then None
      else if exists i :: 1 <= i < len && !IsContinuation(bs[i]) then None
      else
        var n := CodePoint(bs, len);
        if IsScalar(n) && ShortestLength(n) == len then Some((n as char, len)) else None
  }

  /** UTF-8 decoding: the inverse of `Encode` on well-formed input. */
  function Decode(bs: seq<Byte>): (r: Option<string>)
    decreases |bs|
  {
    if bs == [] then Some([])
    else match DecodeChar(bs)
      case None => None
      case Some((c, len)) =>
        match Decode(bs[len..])
        case None => None
        case Some(rest) => Some([c] + rest)
  }

  /** The bytes of a character spell its code point. */
  lemma CodePointOfEncoding(c: char, rest: seq<Byte>)
    ensures var e := EncodeChar(c);
      && SequenceLength(e[0]) == |e|
      && CodePoint(e + rest, |e|) == c as int
      && ShortestLength(c as int) == |e|
  {
    var n := c as int;
    if n < 0x80 {
    } else if n < 0x800 {
      CodePointOfTwo(c, rest);
    } else if n < 0x1_0000 {
      CodePointOfThree(c, rest);
    } else {
      CodePointOfFour(c, rest);
    }
  }

  lemma CodePointOfTwo(c: char, rest: seq<Byte>)
    requires 0x80 <= c as int < 0x800
    ensures var e := EncodeChar(c);
      && SequenceLength(e[0]) == |e|
      && CodePoint(e + rest, |e|) == c as int
      && ShortestLength(c as int) == |e|
  {
    var n := c as int;
    var bs := EncodeChar(c) + rest;
    assert bs[0] == 0xC0 + n / 0x40 && bs[1] == 0x80 + n % 0x40;
  }

  lemma CodePointOfThree(c: char, rest: seq<Byte>)
    requires 0x800 <= c as int < 0x1_0000
    ensures var e := EncodeChar(c);
      && SequenceLength(e[0]) == |e|
      && CodePoint(e + rest, |e|) == c as int
      && ShortestLength(c as int) == |e|
  {
    var n := c as int;
    var bs := EncodeChar(c) + rest;
    assert bs[0] == 0xE0 + n / 0x1000 && bs[1] == 0x80 + (n / 0x40) % 0x40 && bs[2] == 0x80 + n % 0x40;
    assert (n / 0x1000) * 0x40 + (n / 0x40) % 0x40 == n / 0x40;
  }

  lemma CodePointOfFour(c: char, rest: seq<Byte>)
    requires 0x1_0000 <= c as int
    ensures var e := EncodeChar(c);
      && SequenceLength(e[0]) == |e|
      && CodePoint(e + rest, |e|) == c as int
      && ShortestLength(c as int) == |e|
  {
    var n := c as int;
    var bs := EncodeChar(c) + rest;
    assert bs[0] == 0xF0 + n / 0x4_0000 && bs[1] == 0x80 + (n / 0x1000) % 0x40;
    assert bs[2] == 0x80 + (n / 0x40) % 0x40 && bs[3] == 0x80 + n % 0x40;
    assert (n / 0x4_0000) * 0x40 + (n / 0x1000) % 0x40 == n / 0x1000;
    assert (n / 0x1000) * 0x40 + (n / 0x40) % 0x40 == n / 0x40;
  }

  lemma DecodeEncodeChar(c: char, rest: seq<Byte>)
    ensures DecodeChar(EncodeChar(c) + rest) == Some((c, |EncodeChar(c)|))
  {
    var e := EncodeChar(c);
    var bs := e + rest;
    CodePointOfEncoding(c, rest);
    assert forall i :: 1 <= i < |e| ==> bs[i] == e[i];
    assert !exists i :: 1 <= i < |e| && !IsContinuation(bs[i]);
    assert IsScalar(c as int);
  }

  /** Decoding the UTF-8 encoding of a string gives the string back. */
  lemma {:induction false} DecodeEncode(s: string)
    ensures Decode(Encode(s)) == Some(s)
  {
    if s != [] {
      var head := EncodeChar(s[0]);
      assert Encode(s) == head + Encode(s[1..]);
      DecodeEncodeChar(s[0], Encode(s[1..]));
      assert Encode(s)[|head|..] == Encode(s[1..]);
      DecodeEncode(s[1..]);
      assert Encode(s) != [];
      assert Decode(Encode(s)) == Some([s[0]] + s[1..]);
      assert [s[0]] + s[1..] == s;
    }
  }

  /** Unreserved characters of RFC 3986, section 2.3, which `quote` never encodes. */
  predicate Unreserved(b: int) {
    'A' as int <= b <= 'Z' as int || 'a' as int <= b <= 'z' as int || '0' as int <= b <= '9' as int
    || b == '-' as int || b == '.' as int || b == '_' as int || b == '~' as int
  }

  /** The bytes `quote` copies as they are: the unreserved ones and `/`. */
  predicate Safe(b: int) {
    Unreserved(b) || b == '/' as int
  }

  const HexDigits: string := "0123456789ABCDEF"

  predicate IsHexDigit(c: char) {
    '0' <= c <= '9' || 'A' <= c <= 'F'
  }

  function HexValue(c: char): nat
    requires IsHexDigit(c)
  {
    if c <= '9' then c as int - '0' as int else c as int - 'A' as int + 10
  }

  lemma HexDigitsDecode(d: nat)
    requires d < 16
    ensures IsHexDigit(HexDigits[d]) && HexValue(HexDigits[d]) == d
  {
  }

  /** One byte as `quote` writes it. */
  function QuoteByte(b: Byte): (r: string)
    ensures Safe(b) ==> r == [b as char]
    ensures !Safe(b) ==> |r| == 3 && r[0] == '%' && IsHexDigit(r[1]) && IsHexDigit(r[2])
    ensures !Safe(b) ==> HexValue(r[1]) * 16 + HexValue(r[2]) == b
  {
    if Safe(b) then [b as char]
    else
      HexDigitsDecode(b / 16);
      HexDigitsDecode(b % 16);
      ['%', HexDigits[b / 16], HexDigits[b % 16]]
  }

  function QuoteBytes(bs: seq<Byte>): string {
    if bs == [] then [] else QuoteByte(bs[0]) + QuoteBytes(bs[1..])
  }

  /** `urllib.parse.quote(s)`. */
  function Quote(s: string): string {
    QuoteBytes(Encode(s))
  }

  /** The characters `quote` can produce. */
  predicate QuotedChar(c: char) {
    Safe(c as int) || c == '%' || IsHexDigit(c)
  }

  /** Percent-decoding of text written by `quote`: a safe character stands for
      itself, `%` and two upper-case hex digits for a byte; anything else is
      rejected. */
  function Unquote(q: string): (r: Option<seq<Byte>>)
    decreases |q|
  {
    if q == [] then Some([])
    else if Safe(q[0] as int) then
      match Unquote(q[1..])
      case None => None
      case Some(rest) => Some([q[0] as int as Byte] + rest)
    else if q[0] == '%' && |q| >= 3 && IsHexDigit(q[1]) && IsHexDigit(q[2]) then
      match Unquote(q[3..])
      case None => None
      case Some(rest) => Some([HexValue(q[1]) * 16 + HexValue(q[2])] + rest)
    else None
  }

  lemma UnquoteQuoteByte(b: Byte, rest: string)
    ensures Unquote(QuoteByte(b) + rest) == (match Unquote(rest) case None => None case Some(r) => Some([b] + r))
  {
    var e := QuoteByte(b);
    var q := e + rest;
    if Safe(b) {
      assert q[0] == b as char && q[1..] == rest;
    } else {
      assert q[0] == '%' && q[1] == e[1] && q[2] == e[2] && q[3..] == rest;
      assert !Safe('%' as int);
    }
  }

  lemma {:induction false} UnquoteQuoteBytes(bs: seq<Byte>)
    ensures Unquote(QuoteBytes(bs)) == Some(bs)
  {
    if bs != [] {
      assert QuoteBytes(bs) == QuoteByte(bs[0]) + QuoteBytes(bs[1..]);
      UnquoteQuoteByte(bs[0], QuoteBytes(bs[1..]));
      UnquoteQuoteBytes(bs[1..]);
      assert bs == [bs[0]] + bs[1..];
    }
  }

  /** Percent-decoding and then UTF-8 decoding the quoted text gives the text back. */
  lemma QuoteRoundTrip(s: string)
    ensures Unquote(Quote(s)) == Some(Encode(s))
    ensures Decode(Unquote(Quote(s)).value) == Some(s)
  {
    UnquoteQuoteBytes(Encode(s));
    DecodeEncode(s);
  }

  lemma {:induction false} QuoteBytesAlphabet(bs: seq<Byte>)
    ensures forall i :: 0 <= i < |QuoteBytes(bs)| ==> QuotedChar(QuoteBytes(bs)[i])
  {
    if bs != [] {
      QuoteBytesAlphabet(bs[1..]);
      var head := QuoteByte(bs[0]);
      assert forall i :: 0 <= i < |head| ==> QuotedChar(head[i]);
      forall i | 0 <= i < |QuoteBytes(bs)| ensures QuotedChar(QuoteBytes(bs)[i]) {
        if i >= |head| {
          assert QuoteBytes(bs)[i] == QuoteBytes(bs[1..])[i - |head|];
        }
      }
    }
  }

  /** Quoted text holds only safe characters, `%` and hex digits: no space,
      no `=`, no `&`, nothing outside ASCII. */
  lemma QuoteAlphabet(s: string)
    ensures forall i :: 0 <= i < |Quote(s)| ==> QuotedChar(Quote(s)[i])
  {
    QuoteBytesAlphabet(Encode(s));
  }

  /** A text comes out unchanged exactly when every character is an ASCII
      letter or digit, one of `-._~`, or `/`. */
  lemma QuoteKeepsSafe(s: string)
    ensures Quote(s) == s <==> forall i :: 0 <= i < |s| ==> Safe(s[i] as int)
  {
    if forall i :: 0 <= i < |s| ==> Safe(s[i] as int) {
      QuoteOfSafe(s);
    } else {
      QuoteLength(s);
    }
  }

  lemma {:induction false} QuoteOfSafe(s: string)
    requires forall i :: 0 <= i < |s| ==> Safe(s[i] as int)
    ensures Quote(s) == s
  {
    if s != [] {
      QuoteOfSafe(s[1..]);
      var bs := Encode(s);
      assert bs[0] == s[0] as int && bs[1..] == Encode(s[1..]);
      assert s == [s[0]] + s[1..];
    }
  }

  /** Quoting never shortens a text, and keeps its length only when every
      character is safe. */
  lemma QuoteLength(s: string)
    ensures |Quote(s)| >= |s|
    ensures |Quote(s)| == |s| ==> forall i :: 0 <= i < |s| ==> Safe(s[i] as int)
  {
    EncodeLength(s);
    QuoteBytesLength(Encode(s));
  }

  /** Only ASCII text encodes to as many bytes as it has characters, each
      byte then being its character's code. */
  lemma {:induction false} EncodeLength(s: string)
    ensures |Encode(s)| == |s| ==> forall i :: 0 <= i < |s| ==> Encode(s)[i] == s[i] as int
  {
    if s != [] && |Encode(s)| == |s| {
      EncodeLength(s[1..]);
      assert |EncodeChar(s[0])| == 1;
      forall i | 1 <= i < |s| ensures Encode(s)[i] == s[i] as int {
        assert Encode(s)[i] == Encode(s[1..])[i - 1];
        assert s[i] == s[1..][i - 1];
      }
    }
  }

  /** Each byte quotes to at least one character, and to exactly one only when it is safe. */
  lemma {:induction false} QuoteBytesLength(bs: seq<Byte>)
    ensures |QuoteBytes(bs)| >= |bs|
    ensures |QuoteBytes(bs)| == |bs| ==> forall i :: 0 <= i < |bs| ==> Safe(bs[i])
  {
    if bs != [] {
      QuoteBytesLength(bs[1..]);
      assert forall i :: 1 <= i < |bs| ==> bs[i] == bs[1..][i - 1];
    }
  }

  /** A space becomes `%20`. */
  lemma QuoteSpace()
    ensures Quote(" ") == "%20"
  {
    assert Encode(" ") == [0x20];
    assert QuoteBytes([0x20]) == QuoteByte(0x20);
  }

  /** The Arabic letter teh (U+062A) becomes `%D8%AA`. */
  lemma QuoteArabicLetter()
    ensures Quote("\U{062A}") == "%D8%AA"
  {
    assert EncodeChar('\U{062A}') == [0xD8, 0xAA];
    assert Encode("\U{062A}") == [0xD8, 0xAA];
    assert QuoteBytes([0xAA]) == QuoteByte(0xAA);
    assert QuoteBytes([0xD8, 0xAA]) == QuoteByte(0xD8) + QuoteBytes([0xAA]);
  }
}
