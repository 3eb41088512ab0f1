/** UTF-8 as strict encoders and decoders treat it (RFC 3629): every character has one spelling. */
module Utf8 {
  import opened Basics

  function EncodeChar(c: char): (bytes: seq<Byte>)
    ensures |bytes| == Utf8Width(c)
    ensures forall k | 0 <= k < |bytes| :: bytes[k] < 0x80 ==> bytes == [c as int]
  {
    var n := c as int;
    if n <= 0x7f then [n]
    else if n <= 0x7ff then [0xc0 + n / 64, 0x80 + n % 64]
    else if n <= 0xffff then [0xe0 + n / 4096, 0x80 + n / 64 % 64, 0x80 + n % 64]
    else [0xf0 + n / 262144, 0x80 + n / 4096 % 64, 0x80 + n / 64 % 64, 0x80 + n % 64]
  }

  function Encode(s: string): (bytes: seq<Byte>)
    ensures |bytes| == Utf8Length(s)
  {
    if s == "" then [] else EncodeChar(s[0]) + Encode(s[1..])
  }

  function Two(a: int, b: int): int {
    (a - 0xc0) * 64 + (b - 0x80)
  }

  function Three(a: int, b: int, c: int): int {
    (a - 0xe0) * 4096 + (b - 0x80) * 64 + (c - 0x80)
  }

  function Four(a: int, b: int, c: int, d: int): int {
    (a - 0xf0) * 262144 + (b - 0x80) * 4096 + (c - 0x80) * 64 + (d - 0x80)
  }

  /** The number a lead byte and its continuation bytes spell, were they well formed. */
  function CodePoint(bytes: seq<Byte>): int
    requires bytes != []
  {
    if bytes[0] < 0xc0 || |bytes| < 2 then bytes[0]
    else if bytes[0] < 0xe0 || |bytes| < 3 then Two(bytes[0], bytes[1])
    else if bytes[0] < 0xf0 || |bytes| < 4 then Three(bytes[0], bytes[1], bytes[2])
    else Four(bytes[0], bytes[1], bytes[2], bytes[3])
  }

  /** Scalar values: no surrogates, nothing past U+10FFFF. */
  predicate IsScalar(n: int) {
    0 <= n < 0xd800 || 0xe000 <= n < 0x11_0000
  }

  /** The first character, refused unless the bytes are its one spelling. */
  function DecodeChar(bytes: seq<Byte>): (r: Option<char>)
    requires bytes != []
    ensures r.Some? ==> EncodeChar(r.value) <= bytes
  {
    var n := CodePoint(bytes);
    if IsScalar(n) && EncodeChar(n as char) <= bytes then Some(n as char) else None
  }

  function Decode(bytes: seq<Byte>): (r: Option<string>)
    decreases |bytes|
  {
    if bytes == [] then Some("") else
    var c := DecodeChar(bytes);
    if c.None? then None else
    var rest := Decode(bytes[Utf8Width(c.value)..]);
    if rest.None? then None else Some([c.value] + rest.value)
  }

  lemma TwoSpells(n: int)
    requires 0x80 <= n <= 0x7ff
    ensures Two(0xc0 + n / 64, 0x80 + n % 64) == n && n / 64 < 0x20
  {
  }

  lemma ThreeSpell(n: int)
    requires 0x800 <= n <= 0xffff
    ensures Three(0xe0 + n / 4096, 0x80 + n / 64 % 64, 0x80 + n % 64) == n && n / 4096 < 0x10
  {
    assert n / 64 / 64 == n / 4096;
  }

  lemma FourSpell(n: int)
    requires 0x1_0000 <= n < 0x11_0000
    ensures Four(0xf0 + n / 262144, 0x80 + n / 4096 % 64, 0x80 + n / 64 % 64, 0x80 + n % 64) == n
  {
    assert n / 64 / 64 == n / 4096 && n / 4096 / 64 == n / 262144;
  }

  lemma CodePointOfEncoded(c: char, bytes: seq<Byte>)
    requires EncodeChar(c) <= bytes
    ensures CodePoint(bytes) == c as int
  {
    hide Two, Three, Four;
    var e, n := EncodeChar(c), c as int;
    assert forall k | 0 <= k < |e| :: bytes[k] == e[k];
    if n <= 0x7f {
    } else if n <= 0x7ff {
      TwoSpells(n);
    } else if n <= 0xffff {
      ThreeSpell(n);
    } else {
      FourSpell(n);
    }
  }

  lemma DecodeCharOfEncoded(c: char, rest: seq<Byte>)
    ensures DecodeChar(EncodeChar(c) + rest) == Some(c)
  {
    hide EncodeChar, CodePoint;
    CodePointOfEncoded(c, EncodeChar(c) + rest);
    assert IsScalar(c as int);
  }

  lemma DecodeStep(bytes: seq<Byte>, c: char)
    requires bytes != [] && DecodeChar(bytes) == Some(c)
    ensures |bytes| >= Utf8Width(c) && bytes[..Utf8Width(c)] == EncodeChar(c)
    ensures var rest := Decode(bytes[Utf8Width(c)..]);
      Decode(bytes) == if rest.None? then None else Some([c] + rest.value)
  {
    hide EncodeChar, Utf8Width, CodePoint;
  }

  lemma {:induction false} DecodeOfEncoded(s: string)
    ensures Decode(Encode(s)) == Some(s)
  {
    if s != "" {
      var e, rest := EncodeChar(s[0]), Encode(s[1..]);
      assert Encode(s) == e + rest;
      DecodeCharOfEncoded(s[0], rest);
      hide *;
      DecodeStep(e + rest, s[0]);
      assert (e + rest)[|e|..] == rest;
      DecodeOfEncoded(s[1..]);
      assert s == [s[0]] + s[1..];
    }
  }

  lemma EncodeStep(c: char, s: string)
    ensures Encode([c] + s) == EncodeChar(c) + Encode(s)
  {
    assert ([c] + s)[1..] == s;
  }

  lemma NothingToDecode()
    ensures Decode([]) == Some("") && Encode("") == []
  {
  }

  lemma DecodesFirst(bytes: seq<Byte>)
    requires bytes != [] && Decode(bytes).Some?
    ensures DecodeChar(bytes).Some?
  {
    hide DecodeChar, Utf8Width;
  }

  lemma {:induction false} EncodeOfDecoded(bytes: seq<Byte>)
    requires Decode(bytes).Some?
    ensures Encode(Decode(bytes).value) == bytes
    decreases |bytes|
  {
    hide *;
    if bytes == [] {
      NothingToDecode();
    } else {
      DecodesFirst(bytes);
      var c := DecodeChar(bytes).value;
      var w := Utf8Width(c);
      DecodeStep(bytes, c);
      EncodeOfDecoded(bytes[w..]);
      EncodeStep(c, Decode(bytes[w..]).value);
      assert bytes == bytes[..w] + bytes[w..];
    }
  }

  /** Decoding succeeds on exactly the bytes of strings, and gives that string back. */
  lemma DecodesExactlyEncodings(bytes: seq<Byte>, s: string)
    ensures Decode(bytes) == Some(s) <==> bytes == Encode(s)
  {
    DecodeOfEncoded(s);
    if Decode(bytes) == Some(s) {
      EncodeOfDecoded(bytes);
    }
  }

  lemma {:induction false} EncodeAppend(a: string, b: string)
    ensures Encode(a + b) == Encode(a) + Encode(b)
  {
    if a == "" {
      assert a + b == b;
    } else {
      hide EncodeChar;
      assert (a + b)[1..] == a[1..] + b;
      EncodeAppend(a[1..], b);
      assert EncodeChar(a[0]) + (Encode(a[1..]) + Encode(b)) == (EncodeChar(a[0]) + Encode(a[1..])) + Encode(b);
    }
  }

  lemma AsciiByteOfChar(c: char, b: Byte)
    requires b < 0x80
    ensures b in EncodeChar(c) <==> b as char == c
  {
    var e := EncodeChar(c);
    if c as int < 0x80 {
      assert e == [c as int];
    }
  }

  /** An ASCII byte occurs in an encoding only where its character does. */
  lemma {:induction false} AsciiBytesAreCharacters(s: string, b: Byte)
    requires b < 0x80
    ensures b in Encode(s) <==> b as char in s
  {
    if s != "" {
      AsciiBytesAreCharacters(s[1..], b);
      AsciiByteOfChar(s[0], b);
      hide EncodeChar;
      assert s == [s[0]] + s[1..];
    }
  }
}
