/**
 * Percent-encoding of query-string keys and values, as the qs library's
 * encoder does it in its default RFC 3986 format: a character of the
 * unreserved set of section 2.3 of RFC 3986 stands for itself; every other
 * character is written as the UTF-8 bytes of its code point, each as `%XX`
 * with upper-case hexadecimal digits (section 2.1 of RFC 3986). A space
 * becomes `%20`, never `+`.
 */
module PercentEncoding {

  type Byte = b: int | 0 <= b < 0x100

  /** ALPHA / DIGIT / "-" / "." / "_" / "~" */
  predicate Unreserved(c: char)
  {
    'A' <= c <= 'Z' || 'a' <= c <= 'z' || '0' <= c <= '9' || c == '-' || c == '.' || c == '_' || c == '~'
  }

  /** The UTF-8 encoding of one Unicode scalar value. */
  function Utf8(c: char): (bs: seq<Byte>)
    ensures 1 <= |bs| <= 4
    ensures c as int < 0x80 <==> |bs| == 1
    ensures c as int < 0x80 ==> bs[0] == c as int
  {
    var n := c as int;
    if n < 0x80 then [n]
    else if n < 0x800 then [0xC0 + n / 0x40, 0x80 + n % 0x40]
    else if n < 0x1_0000 then [0xE0 + n / 0x1000, 0x80 + (n / 0x40) % 0x40, 0x80 + n % 0x40]
    else [0xF0 + n / 0x4_0000, 0x80 + (n / 0x1000) % 0x40, 0x80 + (n / 0x40) % 0x40, 0x80 + n % 0x40]
  }

  function Utf8String(s: string): seq<Byte>
  {
    if |s| == 0 then [] else Utf8(s[0]) + Utf8String(s[1..])
  }

  const HexDigits: string := "0123456789ABCDEF"

  /** A digit of `HexDigits`: `0`-`9` or upper-case `A`-`F`. */
  predicate UpperHex(c: char)
  {
    '0' <= c <= '9' || 'A' <= c <= 'F'
  }

  /** Every `%` in `r` starts an escape: two upper-case hexadecimal digits follow it. */
  predicate EscapesUpperHex(r: string)
  {
    forall i :: 0 <= i < |r| && r[i] == '%' ==> i + 2 < |r| && UpperHex(r[i + 1]) && UpperHex(r[i + 2])
  }

  /** `%XX` for one byte, upper-case: the two digits are the byte's high and low nibbles. */
  function Escape(b: Byte): (r: string)
    ensures |r| == 3 && r[0] == '%' && Unreserved(r[1]) && Unreserved(r[2])
    ensures UpperHex(r[1]) && UpperHex(r[2]) && HexValue(r[1]) * 16 + HexValue(r[2]) == b
  {
    HexDigitValue(b / 16);
    HexDigitValue(b % 16);
    ['%', HexDigits[b / 16], HexDigits[b % 16]]
  }

  function EscapeAll(bs: seq<Byte>): (r: string)
    ensures |r| == 3 * |bs|
    ensures forall i :: 0 <= i < |r| ==> Unreserved(r[i]) || r[i] == '%'
    ensures EscapesUpperHex(r)
  {
    if |bs| == 0 then []
    else
      var e, rest := Escape(bs[0]), EscapeAll(bs[1..]);
      EscapesJoin(e, rest);
      e + rest
  }

  /** Two texts whose escapes are all complete stay so when joined. */
  lemma EscapesJoin(a: string, b: string)
    requires EscapesUpperHex(a) && EscapesUpperHex(b)
    ensures EscapesUpperHex(a + b)
  {
    var r := a + b;
    forall i | 0 <= i < |r| && r[i] == '%'
      ensures i + 2 < |r| && UpperHex(r[i + 1]) && UpperHex(r[i + 2])
    {
      if i < |a| {
        assert a[i] == '%';
        assert r[i + 1] == a[i + 1] && r[i + 2] == a[i + 2];
      } else {
        assert b[i - |a|] == '%';
        assert r[i + 1] == b[i - |a| + 1] && r[i + 2] == b[i - |a| + 2];
      }
    }
  }

  function EncodeChar(c: char): (r: string)
    ensures EscapesUpperHex(r)
  {
    if Unreserved(c) then [c] else EscapeAll(Utf8(c))
  }

  /**
   * The encoder qs applies to every key and value. Its output holds only
   * unreserved characters and `%`, so never `&`, `=`, `,` or `?`; it is at
   * least as long as its input, and exactly as long only when every
   * character is unreserved (and then it is the input itself).
   */
  function Encode(s: string): (r: string)
    ensures forall i :: 0 <= i < |r| ==> Unreserved(r[i]) || r[i] == '%'
    ensures EscapesUpperHex(r)
    ensures |r| >= |s|
    ensures |r| == |s| <==> forall i :: 0 <= i < |s| ==> Unreserved(s[i])
  {
    if |s| == 0 then ""
    else
      var head, tail := EncodeChar(s[0]), Encode(s[1..]);
      EscapesJoin(head, tail);
      var r := head + tail;
      assert forall i :: 0 <= i < |s| ==> s[i] == if i == 0 then s[0] else s[1..][i - 1];
      r
  }

  /** A space, `=`, `(` and `)` are escaped with upper-case digits. */
  lemma EncodeExamples()
    ensures Encode(" ") == "%20" && Encode("=") == "%3D"
    ensures Encode("(") == "%28" && Encode(")") == "%29"
  {
    EncodeAscii(' ');
    EncodeAscii('=');
    EncodeAscii('(');
    EncodeAscii(')');
  }

  /** A reserved ASCII character is one escape of its code. */
  lemma EncodeAscii(c: char)
    requires !Unreserved(c) && c as int < 0x80
    ensures Encode([c]) == ['%', HexDigits[c as int / 16], HexDigits[c as int % 16]]
  {
    assert Encode([c]) == EncodeChar(c) + Encode([]);
    assert EscapeAll([c as int]) == Escape(c as int) + EscapeAll([]);
  }

  /** The encoder never writes a delimiter of the query syntax. */
  lemma EncodeAvoids(s: string)
    ensures '&' !in Encode(s) && '=' !in Encode(s) && ',' !in Encode(s)
  {
    var r := Encode(s);
    forall i | 0 <= i < |r| ensures r[i] != '&' && r[i] != '=' && r[i] != ',' {
      assert Unreserved(r[i]) || r[i] == '%';
    }
  }

  lemma {:induction false} EncodeUnreserved(s: string)
    requires forall i :: 0 <= i < |s| ==> Unreserved(s[i])
    ensures Encode(s) == s
  {
    if |s| > 0 {
      EncodeUnreserved(s[1..]);
    }
  }

  predicate IsHexDigit(c: char)
  {
    '0' <= c <= '9' || 'A' <= c <= 'F' || 'a' <= c <= 'f'
  }

  function HexValue(c: char): (v: nat)
    requires IsHexDigit(c)
    ensures v < 16
  {
    if '0' <= c <= '9' then c as int - '0' as int
    else if 'A' <= c <= 'F' then c as int - 'A' as int + 10
    else c as int - 'a' as int + 10
  }

  /**
   * Percent-decoding to bytes: `%XX` with two hexadecimal digits (either
   * case) is that byte; any other character stands for its own UTF-8 bytes.
   */
  function Decode(s: string): seq<Byte>
  {
    if |s| == 0 then []
    else if s[0] == '%' && |s| >= 3 && IsHexDigit(s[1]) && IsHexDigit(s[2]) then
      [HexValue(s[1]) * 16 + HexValue(s[2])] + Decode(s[3..])
    else Utf8(s[0]) + Decode(s[1..])
  }

  lemma HexDigitValue(d: nat)
    requires d < 16
    ensures IsHexDigit(HexDigits[d]) && HexValue(HexDigits[d]) == d
  {
  }

  /** One `%XX` escape decodes to its byte. */
  lemma DecodeEscape(b: Byte, t: string)
    ensures Decode(Escape(b) + t) == [b] + Decode(t)
  {
    HexDigitValue(b / 16);
    HexDigitValue(b % 16);
    var s := Escape(b) + t;
    assert s[0] == '%' && s[1] == HexDigits[b / 16] && s[2] == HexDigits[b % 16];
    assert s[3..] == t;
  }

  lemma {:induction false} DecodeEscapeAll(bs: seq<Byte>, rest: string)
    ensures Decode(EscapeAll(bs) + rest) == bs + Decode(rest)
  {
    if |bs| > 0 {
      DecodeEscapeAll(bs[1..], rest);
      DecodeEscapeFront(bs, rest);
    } else {
      assert EscapeAll(bs) + rest == rest;
      assert bs + Decode(rest) == Decode(rest);
    }
  }

  /** The inductive step of DecodeEscapeAll: the first escape decodes to the first byte. */
  lemma DecodeEscapeFront(bs: seq<Byte>, rest: string)
    requires |bs| > 0
    requires Decode(EscapeAll(bs[1..]) + rest) == bs[1..] + Decode(rest)
    ensures Decode(EscapeAll(bs) + rest) == bs + Decode(rest)
  {
    var e, tail := EscapeAll(bs[1..]), bs[1..] + Decode(rest);
    calc {
      Decode(EscapeAll(bs) + rest);
      { assert EscapeAll(bs) + rest == Escape(bs[0]) + e + rest; }
      Decode(Escape(bs[0]) + e + rest);
      { DecodeEscapeCons(bs[0], e, rest, tail); }
      [bs[0]] + tail;
      { ConsAppend(bs, Decode(rest)); }
      bs + Decode(rest);
    }
  }

  lemma ConsAppend<T>(s: seq<T>, t: seq<T>)
    requires |s| > 0
    ensures [s[0]] + (s[1..] + t) == s + t
  {
    assert s == [s[0]] + s[1..];
  }

  lemma DecodeEscapeCons(b: Byte, e: string, rest: string, tail: seq<Byte>)
    requires Decode(e + rest) == tail
    ensures Decode(Escape(b) + e + rest) == [b] + tail
  {
    assert Escape(b) + e + rest == Escape(b) + (e + rest);
    DecodeEscape(b, e + rest);
  }

  lemma DecodeEncodeChar(c: char, rest: string)
    ensures Decode(EncodeChar(c) + rest) == Utf8(c) + Decode(rest)
  {
    if Unreserved(c) {
      assert ([c] + rest)[1..] == rest;
    } else {
      DecodeEscapeAll(Utf8(c), rest);
    }
  }

  /** Decoding what the encoder wrote gives back the UTF-8 bytes of the original text. */
  lemma {:induction false} DecodeEncode(s: string)
    ensures Decode(Encode(s)) == Utf8String(s)
  {
    if |s| > 0 {
      DecodeEncodeChar(s[0], Encode(s[1..]));
      DecodeEncode(s[1..]);
    }
  }

  /** The encoder works character by character. */
  lemma {:induction false} EncodeAppend(a: string, b: string)
    ensures Encode(a + b) == Encode(a) + Encode(b)
  {
    if |a| > 0 {
      assert (a + b)[0] == a[0] && (a + b)[1..] == a[1..] + b;
      EncodeAppend(a[1..], b);
    } else {
      assert a + b == b;
    }
  }
}
