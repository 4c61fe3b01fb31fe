/**
 * Byte-level encodings the library calls into: `Encoding.UTF8.GetBytes`
 * (RFC 3629), `Encoding.ASCII.GetString`, and `Uri.EscapeDataString`,
 * which percent-encodes every character outside the unreserved set of
 * RFC 3986, section 2.3, as the UTF-8 bytes of the character (section 2.1,
 * upper-case hexadecimal digits).
 */
module Encodings {
  import opened Wrappers
  import opened Runtime

  // ---------------------------------------------------------------------------
  // UTF-8

  /** A continuation byte `10xxxxxx` carrying six bits. */
  function Cont(bits: int): byte
    requires 0 <= bits
  {
    (0x80 + bits % 64) as byte
  }

  /** The UTF-8 encoding of one Unicode scalar value. */
  function Utf8(c: char): (r: seq<byte>)
    ensures 1 <= |r| <= 4
    ensures |r| == 1 <==> (c as int) < 0x80
    ensures (c as int) < 0x80 ==> r == [c as int as byte]
    ensures |r| > 1 ==> r[0] >= 0xC0 && forall i :: 1 <= i < |r| ==> 0x80 <= r[i] < 0xC0
  {
    var n := c as int;
    if n < 0x80 then [n as byte]
    else if n < 0x800 then [(0xC0 + n / 64) as byte, Cont(n)]
    else if n < 0x10000 then [(0xE0 + n / 4096) as byte, Cont(n / 64), Cont(n)]
    else [(0xF0 + n / 262144) as byte, Cont(n / 4096), Cont(n / 64), Cont(n)]
  }

  /** `Encoding.UTF8.GetBytes(s)`. */
  function Utf8String(s: string): seq<byte> {
    if |s| == 0 then [] else Utf8(s[0]) + Utf8String(s[1..])
  }

  lemma {:induction false} Utf8StringAppend(a: string, b: string)
    ensures Utf8String(a + b) == Utf8String(a) + Utf8String(b)
  {
    if |a| > 0 {
      Utf8StringAppend(a[1..], b);
      assert (a + b)[1..] == a[1..] + b;
    } else {
      assert a + b == b;
    }
  }

  /** The payload of a continuation byte, or nothing for any other byte. */
  function ContBits(b: byte): Option<int> {
    if 0x80 <= b < 0xC0 then Some(b as int - 0x80) else None
  }

  /**
   * A strict UTF-8 decoder: the first character of `bs` and the number of
   * bytes it takes, or nothing for a malformed, overlong or surrogate sequence.
   */
  function DecodeFirst(bs: seq<byte>): (r: Option<(char, nat)>)
    requires |bs| > 0
    ensures r.Some? ==> 1 <= r.value.1 <= |bs|
  {
    var b0 := bs[0] as int;
    if b0 < 0x80 then Some((b0 as char, 1))
    else if 0xC0 <= b0 < 0xE0 && |bs| >= 2 && ContBits(bs[1]).Some? then
      var n := (b0 - 0xC0) * 64 + ContBits(bs[1]).value;
      if n < 0x80 then None else Some((n as char, 2))
    else if 0xE0 <= b0 < 0xF0 && |bs| >= 3 && ContBits(bs[1]).Some? && ContBits(bs[2]).Some? then
      var n := (b0 - 0xE0) * 4096 + ContBits(bs[1]).value * 64 + ContBits(bs[2]).value;
      if n < 0x800 || (0xD800 <= n < 0xE000) then None else Some((n as char, 3))
    else if 0xF0 <= b0 < 0xF8 && |bs| >= 4 && ContBits(bs[1]).Some? && ContBits(bs[2]).Some? && ContBits(bs[3]).Some? then
      var n := (b0 - 0xF0) * 262144 + ContBits(bs[1]).value * 4096 + ContBits(bs[2]).value * 64 + ContBits(bs[3]).value;
      if n < 0x10000 || n > 0x10FFFF then None else Some((n as char, 4))
    else None
  }

  /** Strict UTF-8 decoding of a whole byte sequence. */
  function Utf8Decode(bs: seq<byte>): Option<string>
    decreases |bs|
  {
    if |bs| == 0 then Some("")
    else match DecodeFirst(bs)
      case None => None
      case Some((c, n)) =>
        match Utf8Decode(bs[n..])
        case None => None
        case Some(rest) => Some([c] + rest)
  }

  /** The six-bit groups of a code point, most significant first. */
  lemma SixBitGroups(n: nat)
    ensures n / 4096 == (n / 64) / 64 && n / 262144 == (n / 4096) / 64
    ensures n == (n / 64) * 64 + n % 64
    ensures n / 64 == (n / 4096) * 64 + (n / 64) % 64
    ensures n / 4096 == (n / 262144) * 64 + (n / 4096) % 64
  {
  }

  lemma DecodeFirstTwo(c: char, rest: seq<byte>)
    requires 0x80 <= c as int < 0x800
    ensures DecodeFirst(Utf8(c) + rest) == Some((c, 2))
  {
    var n := c as int;
    var bs := Utf8(c) + rest;
    SixBitGroups(n);
    assert bs[0] as int == 0xC0 + n / 64 && ContBits(bs[1]) == Some(n % 64);
  }

  lemma DecodeFirstThree(c: char, rest: seq<byte>)
    requires 0x800 <= c as int < 0x10000
    ensures DecodeFirst(Utf8(c) + rest) == Some((c, 3))
  {
    var n := c as int;
    var bs := Utf8(c) + rest;
    SixBitGroups(n);
    assert bs[0] as int == 0xE0 + n / 4096;
    assert ContBits(bs[1]) == Some((n / 64) % 64) && ContBits(bs[2]) == Some(n % 64);
    assert (n / 4096) * 4096 + ((n / 64) % 64) * 64 + n % 64 == n;
  }

  lemma DecodeFirstFour(c: char, rest: seq<byte>)
    requires 0x10000 <= c as int
    ensures DecodeFirst(Utf8(c) + rest) == Some((c, 4))
  {
    var n := c as int;
    var bs := Utf8(c) + rest;
    SixBitGroups(n);
    assert bs[0] as int == 0xF0 + n / 262144;
    assert ContBits(bs[1]) == Some((n / 4096) % 64);
    assert ContBits(bs[2]) == Some((n / 64) % 64) && ContBits(bs[3]) == Some(n % 64);
    assert (n / 262144) * 262144 + ((n / 4096) % 64) * 4096 + ((n / 64) % 64) * 64 + n % 64 == n;
  }

  /** Decoding the encoding of a character gives that character back. */
  lemma DecodeFirstUtf8(c: char, rest: seq<byte>)
    ensures DecodeFirst(Utf8(c) + rest) == Some((c, |Utf8(c)|))
  {
    var n := c as int;
    if n < 0x80 {
    } else if n < 0x800 {
      DecodeFirstTwo(c, rest);
    } else if n < 0x10000 {
      DecodeFirstThree(c, rest);
    } else {
      DecodeFirstFour(c, rest);
    }
  }

  /** UTF-8 decoding inverts UTF-8 encoding. */
  lemma {:induction false} Utf8RoundTrip(s: string)
    ensures Utf8Decode(Utf8String(s)) == Some(s)
  {
    if |s| > 0 {
      var bs := Utf8String(s);
      DecodeFirstUtf8(s[0], Utf8String(s[1..]));
      assert bs[|Utf8(s[0])|..] == Utf8String(s[1..]);
      Utf8RoundTrip(s[1..]);
      assert [s[0]] + s[1..] == s;
    }
  }

  /** A string of characters below U+0080 encodes to one byte per character. */
  lemma {:induction false} Utf8OfAscii(s: string)
    requires forall i :: 0 <= i < |s| ==> (s[i] as int) < 0x80
    ensures |Utf8String(s)| == |s|
    ensures forall i :: 0 <= i < |s| ==> Utf8String(s)[i] == s[i] as int as byte
  {
    if |s| > 0 {
      var t := s[1..];
      assert forall i :: 0 <= i < |t| ==> t[i] == s[i + 1];
      Utf8OfAscii(t);
      var head := Utf8(s[0]);
      assert head == [s[0] as int as byte];
      assert Utf8String(s) == head + Utf8String(t);
    }
  }

  // ---------------------------------------------------------------------------
  // ASCII

  /** `Encoding.ASCII.GetString`: a byte above 0x7F becomes `?`. */
  function AsciiDecode(bs: seq<byte>): (s: string)
    ensures |s| == |bs|
    ensures forall i :: 0 <= i < |bs| ==> (s[i] as int) < 0x80
    ensures forall i :: 0 <= i < |bs| ==> (bs[i] < 0x80 <==> s[i] as int == bs[i] as int)
    ensures forall i :: 0 <= i < |bs| ==> bs[i] >= 0x80 ==> s[i] == '?'
  {
    seq(|bs|, i requires 0 <= i < |bs| => if bs[i] < 0x80 then bs[i] as int as char else '?')
  }

  /** Re-encoding ASCII-decoded bytes gives them back exactly when all of them are below 0x80. */
  lemma AsciiRoundTrip(bs: seq<byte>)
    ensures Utf8String(AsciiDecode(bs)) == bs <==> forall i :: 0 <= i < |bs| ==> bs[i] < 0x80
  {
    var s := AsciiDecode(bs);
    Utf8OfAscii(s);
    var e := Utf8String(s);
    assert |e| == |bs|;
    if exists i :: 0 <= i < |bs| && bs[i] >= 0x80 {
      var i :| 0 <= i < |bs| && bs[i] >= 0x80;
      assert e[i] as int == s[i] as int != bs[i] as int;
    }
  }

  // ---------------------------------------------------------------------------
  // Percent-encoding

  /** The unreserved characters of RFC 3986, section 2.3. */
  predicate Unreserved(c: char) {
    || ('A' <= c <= 'Z') || ('a' <= c <= 'z') || ('0' <= c <= '9')
    || c == '-' || c == '.' || c == '_' || c == '~'
  }

  /** An upper-case hexadecimal digit. */
  function HexDigit(n: int): (c: char)
    requires 0 <= n < 16
    ensures HexValue(c) == Some(n)
  {
    "0123456789ABCDEF"[n]
  }

  /** The value of a hexadecimal digit of either case. */
  function HexValue(c: char): Option<int> {
    if '0' <= c <= '9' then Some(c as int - '0' as int)
    else if 'A' <= c <= 'F' then Some(c as int - 'A' as int + 10)
    else if 'a' <= c <= 'f' then Some(c as int - 'a' as int + 10)
    else None
  }

  /** `%XY` for one byte. */
  function EscapeByte(b: byte): string {
    ['%', HexDigit(b as int / 16), HexDigit(b as int % 16)]
  }

  function EscapeBytes(bs: seq<byte>): string {
    if |bs| == 0 then "" else EscapeByte(bs[0]) + EscapeBytes(bs[1..])
  }

  /** One character of `Uri.EscapeDataString`: kept when unreserved, else its UTF-8 bytes escaped. */
  function EscapeChar(c: char): string {
    if Unreserved(c) then [c] else EscapeBytes(Utf8(c))
  }

  /** `Uri.EscapeDataString(s)`. */
  function EscapeDataString(s: string): string {
    if |s| == 0 then "" else EscapeChar(s[0]) + EscapeDataString(s[1..])
  }

  /** The characters that can appear in escaped text. */
  predicate EscapedChar(c: char) {
    Unreserved(c) || c == '%'
  }

  lemma {:induction false} EscapeBytesChars(bs: seq<byte>)
    ensures forall i :: 0 <= i < |EscapeBytes(bs)| ==> EscapedChar(EscapeBytes(bs)[i])
  {
    if |bs| > 0 {
      EscapeBytesChars(bs[1..]);
      var e := EscapeByte(bs[0]);
      assert forall i :: 0 <= i < |e| ==> EscapedChar(e[i]);
    }
  }

  /** Escaped text holds only unreserved characters and `%`; so no `&`, `=` or space. */
  lemma {:induction false} EscapedChars(s: string)
    ensures forall i :: 0 <= i < |EscapeDataString(s)| ==> EscapedChar(EscapeDataString(s)[i])
    ensures '&' !in EscapeDataString(s) && '=' !in EscapeDataString(s)
  {
    if |s| > 0 {
      EscapedChars(s[1..]);
      if !Unreserved(s[0]) {
        EscapeBytesChars(Utf8(s[0]));
      }
    }
  }

  /** Decoding percent-encoded text into the bytes it stands for. */
  function PercentDecode(t: string): Option<seq<byte>>
    decreases |t|
  {
    if |t| == 0 then Some([])
    else if t[0] == '%' then
      if |t| >= 3 && HexValue(t[1]).Some? && HexValue(t[2]).Some? then
        match PercentDecode(t[3..])
        case None => None
        case Some(rest) => Some([(HexValue(t[1]).value * 16 + HexValue(t[2]).value) as byte] + rest)
      else None
    else if (t[0] as int) < 0x80 then
      match PercentDecode(t[1..])
      case None => None
      case Some(rest) => Some([t[0] as int as byte] + rest)
    else None
  }

  /** One escaped byte decodes back to that byte, followed by the decoding of what comes after it. */
  lemma DecodeEscapedByte(b: byte, t: string)
    ensures PercentDecode(EscapeByte(b) + t) == match PercentDecode(t)
      case None => None
      case Some(rest) => Some([b] + rest)
  {
    var u := EscapeByte(b) + t;
    var hi, lo := b as int / 16, b as int % 16;
    assert u[0] == '%' && u[1] == HexDigit(hi) && u[2] == HexDigit(lo);
    assert HexValue(u[1]) == Some(hi) && HexValue(u[2]) == Some(lo);
    assert u[3..] == t;
    assert (hi * 16 + lo) as byte == b;
  }

  lemma {:induction false} DecodeEscapedBytes(bs: seq<byte>, t: string)
    ensures PercentDecode(EscapeBytes(bs) + t) == match PercentDecode(t)
      case None => None
      case Some(rest) => Some(bs + rest)
  {
    if |bs| > 0 {
      DecodeEscapedBytes(bs[1..], t);
      var tail := EscapeBytes(bs[1..]) + t;
      assert EscapeBytes(bs) + t == EscapeByte(bs[0]) + tail;
      DecodeEscapedByte(bs[0], tail);
      if PercentDecode(t).Some? {
        var r := PercentDecode(t).value;
        assert [bs[0]] + (bs[1..] + r) == bs + r;
      }
    } else {
      assert EscapeBytes(bs) + t == t;
      if PercentDecode(t).Some? {
        assert bs + PercentDecode(t).value == PercentDecode(t).value;
      }
    }
  }

  /** Percent-decoding escaped text gives the UTF-8 bytes of the original. */
  lemma {:induction false} EscapeRoundTrip(s: string)
    ensures PercentDecode(EscapeDataString(s)) == Some(Utf8String(s))
  {
    if |s| > 0 {
      EscapeRoundTrip(s[1..]);
      var rest := EscapeDataString(s[1..]);
      if Unreserved(s[0]) {
        var u := [s[0]] + rest;
        assert EscapeDataString(s) == u;
        assert u[0] == s[0] != '%' && u[1..] == rest && (s[0] as int) < 0x80;
        assert PercentDecode(u) == Some([s[0] as int as byte] + Utf8String(s[1..]));
        assert Utf8(s[0]) == [s[0] as int as byte];
      } else {
        DecodeEscapedBytes(Utf8(s[0]), rest);
      }
    }
  }

  /** Text comes out of the escaping unchanged exactly when all its characters are unreserved. */
  lemma {:induction false} EscapeIdentity(s: string)
    ensures EscapeDataString(s) == s <==> forall i :: 0 <= i < |s| ==> Unreserved(s[i])
  {
    EscapeLength(s);
    if |s| > 0 {
      EscapeIdentity(s[1..]);
      if Unreserved(s[0]) {
        assert s == [s[0]] + s[1..];
        if EscapeDataString(s) == s {
          assert EscapeDataString(s[1..]) == EscapeDataString(s)[1..];
        }
      }
    }
  }

  lemma {:induction false} EscapeBytesLength(bs: seq<byte>)
    ensures |EscapeBytes(bs)| == 3 * |bs|
  {
    if |bs| > 0 {
      EscapeBytesLength(bs[1..]);
    }
  }

  /** Escaping never shortens text, and lengthens it when some character is reserved. */
  lemma {:induction false} EscapeLength(s: string)
    ensures |EscapeDataString(s)| >= |s|
    ensures (exists i :: 0 <= i < |s| && !Unreserved(s[i])) ==> |EscapeDataString(s)| > |s|
  {
    if |s| > 0 {
      EscapeLength(s[1..]);
      if !Unreserved(s[0]) {
        EscapeBytesLength(Utf8(s[0]));
      } else if exists i :: 0 <= i < |s| && !Unreserved(s[i]) {
        var i :| 0 <= i < |s| && !Unreserved(s[i]);
        assert !Unreserved(s[1..][i - 1]);
      }
    }
  }

  /** The concatenation of `f` applied to each character in turn. */
  function FlatMap(f: char -> string, s: string): string {
    if |s| == 0 then "" else f(s[0]) + FlatMap(f, s[1..])
  }

  lemma {:induction false} FlatMapAppend(f: char -> string, a: string, b: string)
    ensures FlatMap(f, a + b) == FlatMap(f, a) + FlatMap(f, b)
  {
    if |a| > 0 {
      FlatMapAppend(f, a[1..], b);
      assert (a + b)[0] == a[0] && (a + b)[1..] == a[1..] + b;
    } else {
      assert a + b == b;
    }
  }

  /** Escaping works character by character. */
  lemma {:induction false} EscapeFlatMap(s: string)
    ensures EscapeDataString(s) == FlatMap(EscapeChar, s)
  {
    if |s| > 0 {
      EscapeFlatMap(s[1..]);
    }
  }

  lemma EscapeAppend(a: string, b: string)
    ensures EscapeDataString(a + b) == EscapeDataString(a) + EscapeDataString(b)
  {
    EscapeFlatMap(a + b);
    EscapeFlatMap(a);
    EscapeFlatMap(b);
    FlatMapAppend(EscapeChar, a, b);
  }

  /** One reserved ASCII character becomes `%` and two hexadecimal digits. */
  lemma EscapeAsciiChar(c: char)
    requires (c as int) < 0x80 && !Unreserved(c)
    ensures EscapeDataString([c]) == ['%', HexDigit(c as int / 16), HexDigit(c as int % 16)]
  {
    assert Utf8(c) == [c as int as byte];
    assert EscapeBytes([c as int as byte]) == EscapeByte(c as int as byte) + EscapeBytes([]);
    assert [c][1..] == [];
  }

  /** `Uri.EscapeDataString(" ")`: a space becomes `%20`. */
  lemma EscapeSpaceExample()
    ensures EscapeDataString(" ") == "%20"
  {
    EscapeAsciiChar(' ');
    assert HexDigit(2) == '2' && HexDigit(0) == '0';
  }

  /** One reserved ASCII character between unreserved text is the only part escaped. */
  lemma EscapeBetween(a: string, c: char, b: string)
    requires forall i :: 0 <= i < |a| ==> Unreserved(a[i])
    requires forall i :: 0 <= i < |b| ==> Unreserved(b[i])
    requires (c as int) < 0x80 && !Unreserved(c)
    ensures EscapeDataString(a + [c] + b) == a + ['%', HexDigit(c as int / 16), HexDigit(c as int % 16)] + b
  {
    EscapeIdentity(a);
    EscapeIdentity(b);
    EscapeAsciiChar(c);
    EscapeAppend(a, [c]);
    EscapeAppend(a + [c], b);
  }

  /** `Uri.EscapeDataString("abc@abc.com")`: only the `@` is escaped. */
  lemma EscapeEmailExample()
    ensures EscapeDataString("abc@abc.com") == "abc%40abc.com"
  {
    var a, b := "abc", "abc.com";
    assert forall i :: 0 <= i < |a| ==> Unreserved(a[i]);
    assert forall i :: 0 <= i < |b| ==> Unreserved(b[i]);
    EscapeBetween(a, '@', b);
    assert HexDigit(4) == '4' && HexDigit(0) == '0';
    assert a + ['@'] + b == "abc@abc.com";
    assert a + ['%', '4', '0'] + b == "abc%40abc.com";
  }
}
