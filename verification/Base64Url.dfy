/** Unpadded base64url (section 5 of RFC 4648), decoded strictly: one spelling for each nonempty byte string. */
module Base64Url {
  import opened Basics

  function Symbol(v: nat): (c: char)
    requires v < 64
  {
    if v < 26 then 'A' + v as char
    else if v < 52 then 'a' + (v - 26) as char
    else if v < 62 then '0' + (v - 52) as char
    else if v == 62 then '-' else '_'
  }

  /** The value of a symbol; the library decoder also knows the symbols of the other base64 alphabet. */
  function SymbolValue(c: char): (v: Option<nat>)
    ensures v.Some? ==> v.value < 64
  {
    if 'A' <= c <= 'Z' then Some(c as int - 'A' as int)
    else if 'a' <= c <= 'z' then Some(c as int - 'a' as int + 26)
    else if '0' <= c <= '9' then Some(c as int - '0' as int + 52)
    else if c == '-' || c == '+' then Some(62)
    else if c == '_' || c == '/' then Some(63)
    else None
  }

  lemma SymbolReadsBack(v: nat)
    requires v < 64
    ensures SymbolValue(Symbol(v)) == Some(v)
  {
  }

  /** `_b64encode`. */
  function B64Encode(b: seq<Byte>): string {
    if |b| == 0 then ""
    else if |b| == 1 then [Symbol(b[0] / 4), Symbol(b[0] % 4 * 16)]
    else if |b| == 2 then [Symbol(b[0] / 4), Symbol(b[0] % 4 * 16 + b[1] / 16), Symbol(b[1] % 16 * 4)]
    else Quad(b[0], b[1], b[2]) + B64Encode(b[3..])
  }

  function Quad(x: Byte, y: Byte, z: Byte): (s: string)
    ensures |s| == 4
  {
    [Symbol(x / 4), Symbol(x % 4 * 16 + y / 16), Symbol(y % 16 * 4 + z / 64), Symbol(z % 64)]
  }

  function First(a: nat, b: nat): Byte
    requires a < 64 && b < 64
  {
    a * 4 + b / 16
  }

  function Second(b: nat, c: nat): Byte
    requires b < 64 && c < 64
  {
    b % 16 * 16 + c / 4
  }

  function Third(c: nat, d: nat): Byte
    requires c < 64 && d < 64
  {
    c % 4 * 64 + d
  }

  /** What the library decoder makes of a string and the padding it lacks. Bits that do not fill a byte are dropped. */
  function LibraryDecode(s: string): Option<seq<Byte>> {
    if s == "" then Some([])
    else if |s| == 1 then None
    else
      var a, b := SymbolValue(s[0]), SymbolValue(s[1]);
      if a.None? || b.None? then None
      else if |s| == 2 then Some([First(a.value, b.value)])
      else
        var c := SymbolValue(s[2]);
        if c.None? then None
        else if |s| == 3 then Some([First(a.value, b.value), Second(b.value, c.value)])
        else
          var d := SymbolValue(s[3]);
          var rest := LibraryDecode(s[4..]);
          if d.None? || rest.None? then None
          else Some([First(a.value, b.value), Second(b.value, c.value), Third(c.value, d.value)] + rest.value)
  }

  /** `_b64decode`: whatever the library tolerates, only the encoder's own spelling is accepted. */
  function B64Decode(s: string): Option<seq<Byte>> {
    if s == "" then None else
    var decoded := LibraryDecode(s);
    if decoded.None? || B64Encode(decoded.value) != s then None else decoded
  }

  lemma BytesFromSymbols(x: Byte, y: Byte, z: Byte)
    ensures First(x / 4, x % 4 * 16 + y / 16) == x && First(x / 4, x % 4 * 16) == x
    ensures Second(x % 4 * 16 + y / 16, y % 16 * 4 + z / 64) == y && Second(x % 4 * 16 + y / 16, y % 16 * 4) == y
    ensures Third(y % 16 * 4 + z / 64, z % 64) == z
  {
  }

  lemma {:induction false} LibraryReadsBack(b: seq<Byte>)
    ensures LibraryDecode(B64Encode(b)) == Some(b)
  {
    hide Symbol, SymbolValue, First, Second, Third;
    if |b| > 0 {
      var x, y, z := b[0], if |b| > 1 then b[1] else 0, if |b| > 2 then b[2] else 0;
      BytesFromSymbols(x, y, z);
      SymbolReadsBack(x / 4);
      SymbolReadsBack(x % 4 * 16);
      SymbolReadsBack(x % 4 * 16 + y / 16);
      SymbolReadsBack(y % 16 * 4);
      SymbolReadsBack(y % 16 * 4 + z / 64);
      SymbolReadsBack(z % 64);
      if |b| > 2 {
        LibraryReadsBack(b[3..]);
        QuadReadsBack(x, y, z, B64Encode(b[3..]));
        assert b == [x, y, z] + b[3..];
      } else if |b| == 2 {
        assert b == [x, y];
      } else {
        assert b == [x];
      }
    }
  }

  lemma QuadReadsBack(x: Byte, y: Byte, z: Byte, rest: string)
    requires LibraryDecode(rest).Some?
    ensures LibraryDecode(Quad(x, y, z) + rest) == Some([x, y, z] + LibraryDecode(rest).value)
  {
    hide Symbol, SymbolValue, First, Second, Third;
    BytesFromSymbols(x, y, z);
    SymbolReadsBack(x / 4);
    SymbolReadsBack(x % 4 * 16 + y / 16);
    SymbolReadsBack(y % 16 * 4 + z / 64);
    SymbolReadsBack(z % 64);
    var q := Quad(x, y, z);
    assert (q + rest)[4..] == rest && (q + rest)[..4] == q;
  }

  /** The decoder accepts exactly the nonempty image of the encoder. */
  lemma DecodesExactlyEncoded(s: string, b: seq<Byte>)
    ensures B64Decode(s) == Some(b) <==> s != "" && s == B64Encode(b)
  {
    LibraryReadsBack(b);
  }

  /** The one encoding that is not decoded: that of no bytes. */
  lemma EmptyIsRefused(b: seq<Byte>)
    ensures B64Decode(B64Encode(b)) == Some(b) <==> b != []
    ensures B64Decode(B64Encode([])).None?
  {
    DecodesExactlyEncoded(B64Encode(b), b);
  }

  lemma B64EncodeInjective(a: seq<Byte>, b: seq<Byte>)
    requires B64Encode(a) == B64Encode(b)
    ensures a == b
  {
    LibraryReadsBack(a);
    LibraryReadsBack(b);
  }

  /** Encoded text holds no dot, so dots separate the parts of a token. */
  lemma {:induction false} NoDots(b: seq<Byte>)
    ensures '.' !in B64Encode(b)
    ensures b != [] ==> B64Encode(b) != ""
  {
    if |b| > 2 { NoDots(b[3..]); }
  }

  // ---------- The alphabet ----------

  const UPPER := "ABCDEFGHIJKLMNOPQRSTUVWXYZ"
  const LOWER := "abcdefghijklmnopqrstuvwxyz"
  const ALPHABET := UPPER + LOWER + "0123456789-_"

  lemma LettersInOrder(v: nat)
    requires v < 26
    ensures |UPPER| == |LOWER| == 26 && UPPER[v] as int == 65 + v && LOWER[v] as int == 97 + v
  {
  }

  /** The symbols are those of table 2 in section 5 of RFC 4648, in its order. */
  lemma SymbolsAreTheTable(v: nat)
    requires v < 64
    ensures |ALPHABET| == 64 && Symbol(v) == ALPHABET[v]
  {
    LettersInOrder(if v < 52 then v % 26 else 0);
    hide UPPER, LOWER;
  }

  /** The test vectors of section 10 of RFC 4648, without padding, and one with both symbols peculiar to this alphabet. */
  lemma TestVectors()
    ensures B64Encode([]) == "" && B64Encode([102]) == "Zg" && B64Encode([102, 111]) == "Zm8"
    ensures B64Encode([102, 111, 111]) == "Zm9v" && B64Encode([102, 111, 111, 98]) == "Zm9vYg"
    ensures B64Encode([102, 111, 111, 98, 97]) == "Zm9vYmE" && B64Encode([102, 111, 111, 98, 97, 114]) == "Zm9vYmFy"
    ensures B64Encode([251, 255]) == "-_8"
  {
    var b := [102, 111, 111, 98, 97, 114];
    assert b[3..] == [98, 97, 114] && b[..5][3..] == [98, 97] && b[..4][3..] == [98] && b[..3][3..] == [];
    assert b[..3] == [102, 111, 111] && b[..4] == [102, 111, 111, 98] && b[..5] == [102, 111, 111, 98, 97];
    assert B64Encode([98, 97, 114][3..]) == "";
  }
}
