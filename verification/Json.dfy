/** Compact JSON text: what `json.dumps(..., separators=(",", ":"), ensure_ascii=False)` writes,
    and the part of `json.loads` that reads such text back. */
module Json {
  import opened Basics
  import opened Digits

  datatype Json =
    | Null
    | Bool(b: bool)
    | Int(i: int)
    | Str(s: string)
    | List(items: seq<Json>)
    | Obj(members: seq<Member>)

  datatype Member = Member(key: string, value: Json)

  // ---------- Printing ----------

  function HexDigit(d: nat): (c: char)
    requires d < 16
  {
    if d < 10 then '0' + d as char else 'a' + (d - 10) as char
  }

  /** Section 7 of RFC 8259: the quotation mark, the reverse solidus and U+0000 to U+001F are escaped. */
  function EscapeChar(c: char): (s: string)
    ensures |s| > 0
  {
    if c == '"' then "\\\""
    else if c == '\\' then "\\\\"
    else if c == '\n' then "\\n"
    else if c == '\r' then "\\r"
    else if c == '\t' then "\\t"
    else if c as int == 8 then "\\b"
    else if c as int == 12 then "\\f"
    else if c < ' ' then "\\u00" + [HexDigit(c as int / 16), HexDigit(c as int % 16)]
    else [c]
  }

  function Escape(s: string): string {
    if s == "" then "" else EscapeChar(s[0]) + Escape(s[1..])
  }

  function Quote(s: string): (q: string)
    ensures |q| > 0 && q[0] == '"'
  {
    "\"" + Escape(s) + "\""
  }

  function Text(j: Json): (s: string)
    ensures |s| > 0
    ensures s[0] !in {']', '}', ',', ':'}
    decreases j, 0
  {
    match j
    case Null => "null"
    case Bool(b) => if b then "true" else "false"
    case Int(i) => IntText(i)
    case Str(s) => Quote(s)
    case List(items) => "[" + ItemsText(items) + "]"
    case Obj(members) => "{" + MembersText(members) + "}"
  }

  function ItemsText(items: seq<Json>): string
    decreases items, 1
  {
    if |items| == 0 then ""
    else if |items| == 1 then Text(items[0])
    else Text(items[0]) + "," + ItemsText(items[1..])
  }

  function MemberText(m: Member): (s: string)
    ensures |s| > 0 && s[0] == '"'
    decreases m, 1
  {
    Quote(m.key) + ":" + Text(m.value)
  }

  function MembersText(members: seq<Member>): string
    decreases members, 2
  {
    if |members| == 0 then ""
    else if |members| == 1 then MemberText(members[0])
    else MemberText(members[0]) + "," + MembersText(members[1..])
  }

  // ---------- Reading ----------

  datatype Read<T> = Fail | Done(value: T, rest: string)

  function HexValue(c: char): (d: nat)
    ensures d <= 16
  {
    if '0' <= c <= '9' then c as int - '0' as int
    else if 'a' <= c <= 'f' then c as int - 'a' as int + 10
    else 16
  }

  /** One character of a string body, which is not the closing quotation mark. */
  function ReadChar(s: string): (r: Read<char>)
    ensures r.Done? ==> |r.rest| < |s|
  {
    if s == "" || s[0] == '"' || s[0] < ' ' then Fail
    else if s[0] != '\\' then Done(s[0], s[1..])
    else if |s| < 2 then Fail
    else
      match s[1]
      case '"' => Done('"', s[2..])
      case '\\' => Done('\\', s[2..])
      case 'n' => Done('\n', s[2..])
      case 'r' => Done('\r', s[2..])
      case 't' => Done('\t', s[2..])
      case 'b' => Done(8 as char, s[2..])
      case 'f' => Done(12 as char, s[2..])
      case 'u' =>
        if |s| < 6 || s[2] != '0' || s[3] != '0' || HexValue(s[4]) > 15 || HexValue(s[5]) > 15 then Fail
        else Done((16 * HexValue(s[4]) + HexValue(s[5])) as char, s[6..])
      case _ => Fail
  }

  function ReadChars(s: string): (r: Read<string>)
    ensures r.Done? ==> |r.rest| < |s|
    decreases |s|
  {
    if s == "" then Fail
    else if s[0] == '"' then Done("", s[1..])
    else
      var c := ReadChar(s);
      if c.Fail? then Fail else
      var tail := ReadChars(c.rest);
      if tail.Fail? then Fail else Done([c.value] + tail.value, tail.rest)
  }

  function ReadQuoted(s: string): (r: Read<string>)
    ensures r.Done? ==> |r.rest| < |s|
  {
    if s == "" || s[0] != '"' then Fail else ReadChars(s[1..])
  }

  function ReadNat(s: string): (r: Read<nat>)
    ensures r.Done? ==> |r.rest| < |s|
  {
    var n := LeadingDigits(s);
    if IsNatText(s[..n]) then Done(NatValue(s[..n]), s[n..]) else Fail
  }

  function ReadInt(s: string): (r: Read<int>)
    ensures r.Done? ==> |r.rest| < |s|
  {
    if s != "" && s[0] == '-' then
      var n := ReadNat(s[1..]);
      if n.Fail? then Fail else Done(0 - n.value, n.rest)
    else
      var n := ReadNat(s);
      if n.Fail? then Fail else Done(n.value, n.rest)
  }

  function ReadWord(s: string): (r: Read<Json>)
    ensures r.Done? ==> |r.rest| < |s|
  {
    if StartsWith(s, "null") then Done(Null, s[4..])
    else if StartsWith(s, "true") then Done(Bool(true), s[4..])
    else if StartsWith(s, "false") then Done(Bool(false), s[5..])
    else Fail
  }

  function ReadValue(s: string): (r: Read<Json>)
    ensures r.Done? ==> |r.rest| < |s|
    decreases |s|, 0
  {
    if s == "" then Fail
    else if s[0] == '"' then
      var q := ReadQuoted(s);
      if q.Fail? then Fail else Done(Str(q.value), q.rest)
    else if s[0] == '[' then
      if StartsWith(s, "[]") then Done(List([]), s[2..]) else
      var items := ReadItems(s[1..]);
      if items.Fail? then Fail else Done(List(items.value), items.rest)
    else if s[0] == '{' then
      if StartsWith(s, "{}") then Done(Obj([]), s[2..]) else
      var members := ReadMembers(s[1..]);
      if members.Fail? then Fail else Done(Obj(members.value), members.rest)
    else if s[0] == '-' || IsDigit(s[0]) then
      var i := ReadInt(s);
      if i.Fail? then Fail else Done(Int(i.value), i.rest)
    else ReadWord(s)
  }

  function ReadItems(s: string): (r: Read<seq<Json>>)
    ensures r.Done? ==> |r.rest| < |s|
    decreases |s|, 1
  {
    var first := ReadValue(s);
    if first.Fail? || first.rest == "" then Fail
    else if first.rest[0] == ']' then Done([first.value], first.rest[1..])
    else if first.rest[0] != ',' then Fail
    else
      var tail := ReadItems(first.rest[1..]);
      if tail.Fail? then Fail else Done([first.value] + tail.value, tail.rest)
  }

  function ReadMember(s: string): (r: Read<Member>)
    ensures r.Done? ==> |r.rest| < |s|
    decreases |s|, 1
  {
    var key := ReadQuoted(s);
    if key.Fail? || key.rest == "" || key.rest[0] != ':' then Fail else
    var value := ReadValue(key.rest[1..]);
    if value.Fail? then Fail else Done(Member(key.value, value.value), value.rest)
  }

  function ReadMembers(s: string): (r: Read<seq<Member>>)
    ensures r.Done? ==> |r.rest| < |s|
    decreases |s|, 2
  {
    var first := ReadMember(s);
    if first.Fail? || first.rest == "" then Fail
    else if first.rest[0] == '}' then Done([first.value], first.rest[1..])
    else if first.rest[0] != ',' then Fail
    else
      var tail := ReadMembers(first.rest[1..]);
      if tail.Fail? then Fail else Done([first.value] + tail.value, tail.rest)
  }

  /** A whole document: one value and nothing after it. */
  function Loads(s: string): Read<Json> {
    var r := ReadValue(s);
    if r.Done? && r.rest == "" then r else Fail
  }

  // ---------- Round trip ----------

  lemma ReadCharOfEscape(c: char, rest: string)
    ensures ReadChar(EscapeChar(c) + rest) == Done(c, rest)
    ensures EscapeChar(c)[0] != '"'
  {
    var s := EscapeChar(c) + rest;
    assert s[|EscapeChar(c)|..] == rest;
    if c < ' ' && |EscapeChar(c)| == 6 {
      assert 16 * (c as int / 16) + c as int % 16 == c as int;
    }
  }

  lemma {:induction false} ReadCharsOfEscape(s: string, tail: string)
    requires tail != "" && tail[0] == '"'
    ensures ReadChars(Escape(s) + tail) == Done(s, tail[1..])
  {
    hide ReadChar, EscapeChar;
    if s == "" {
      assert Escape(s) + tail == tail;
    } else {
      var more := Escape(s[1..]) + tail;
      var all := Escape(s) + tail;
      assert all == EscapeChar(s[0]) + more;
      ReadCharOfEscape(s[0], more);
      assert all[0] == EscapeChar(s[0])[0];
      ReadCharsOfEscape(s[1..], tail);
      assert [s[0]] + s[1..] == s;
    }
  }

  lemma ReadQuotedOfQuote(s: string, rest: string)
    ensures ReadQuoted(Quote(s) + rest) == Done(s, rest)
  {
    assert (Quote(s) + rest)[1..] == Escape(s) + ("\"" + rest);
    ReadCharsOfEscape(s, "\"" + rest);
  }

  lemma ReadNatOfText(n: nat, rest: string)
    requires |rest| > 0 ==> !IsDigit(rest[0])
    ensures ReadNat(NatText(n) + rest) == Done(n, rest)
  {
    LeadingDigitsOfAppend(NatText(n), rest);
    NatValueOfText(n);
  }

  lemma ReadIntOfText(i: int, rest: string)
    requires |rest| > 0 ==> !IsDigit(rest[0])
    ensures ReadInt(IntText(i) + rest) == Done(i, rest)
  {
    hide ReadNat, NatText;
    var s := IntText(i) + rest;
    if i < 0 {
      assert s[0] == '-' && s[1..] == NatText(-i) + rest;
      ReadNatOfText(-i, rest);
    } else {
      assert s[0] == NatText(i)[0];
      ReadNatOfText(i, rest);
    }
  }

  lemma ReadWordOfText(j: Json, rest: string)
    requires j.Null? || j.Bool?
    ensures ReadValue(Text(j) + rest) == Done(j, rest)
  {
    hide ReadInt, ReadQuoted, ReadItems, ReadMembers;
    var s := Text(j) + rest;
    assert s[0] == Text(j)[0];
    assert s[..|Text(j)|] == Text(j) && s[|Text(j)|..] == rest;
  }

  lemma {:induction false} ReadListOfText(items: seq<Json>, rest: string)
    ensures ReadValue(Text(List(items)) + rest) == Done(List(items), rest)
    decreases items, 3
  {
    hide ReadInt, ReadQuoted, ReadWord, ReadItems, ReadMembers;
    var inner := ItemsText(items) + "]" + rest;
    var s := Text(List(items)) + rest;
    assert s == "[" + inner;
    assert s[0] == '[' && s[1..] == inner && s[1] == inner[0];
    if items == [] {
      assert ItemsText(items) == "";
      assert s[1] == ']' && s[2..] == rest;
    } else {
      ReadItemsOfText(items, rest);
      assert inner[0] == ItemsText(items)[0];
    }
  }

  lemma {:induction false} ReadObjOfText(members: seq<Member>, rest: string)
    ensures ReadValue(Text(Obj(members)) + rest) == Done(Obj(members), rest)
    decreases members, 3
  {
    hide ReadInt, ReadQuoted, ReadWord, ReadItems, ReadMembers;
    var inner := MembersText(members) + "}" + rest;
    var s := Text(Obj(members)) + rest;
    assert s == "{" + inner;
    assert s[0] == '{' && s[1..] == inner && s[1] == inner[0];
    if members == [] {
      assert MembersText(members) == "";
      assert s[1] == '}' && s[2..] == rest;
    } else {
      ReadMembersOfText(members, rest);
      assert inner[0] == MembersText(members)[0];
    }
  }

  /** Reading printed text gives the value back, whatever follows that does not continue a number. */
  lemma {:induction false} ReadValueOfText(j: Json, rest: string)
    requires |rest| > 0 ==> !IsDigit(rest[0])
    ensures ReadValue(Text(j) + rest) == Done(j, rest)
    decreases j, 4
  {
    match j {
      case Null => ReadWordOfText(j, rest);
      case Bool(_) => ReadWordOfText(j, rest);
      case Int(i) =>
        hide ReadInt, IntText, ReadQuoted, ReadWord, ReadItems, ReadMembers;
        ReadIntOfText(i, rest);
        assert (Text(j) + rest)[0] == IntText(i)[0];
      case Str(text) =>
        hide ReadInt, Quote, ReadQuoted, ReadWord, ReadItems, ReadMembers;
        ReadQuotedOfQuote(text, rest);
        assert (Text(j) + rest)[0] == Quote(text)[0];
      case List(items) => ReadListOfText(items, rest);
      case Obj(members) => ReadObjOfText(members, rest);
    }
  }

  lemma {:induction false} ReadItemsOfText(items: seq<Json>, rest: string)
    requires items != []
    ensures ReadItems(ItemsText(items) + "]" + rest) == Done(items, rest)
    ensures |ItemsText(items)| > 0 && ItemsText(items)[0] != ']'
    decreases items, 1
  {
    hide ReadValue, Text;
    var s := ItemsText(items) + "]" + rest;
    if |items| == 1 {
      assert s == Text(items[0]) + ("]" + rest);
      ReadValueOfText(items[0], "]" + rest);
      assert items == [items[0]];
    } else {
      var tail := ItemsText(items[1..]) + "]" + rest;
      assert s == Text(items[0]) + ("," + tail);
      ReadValueOfText(items[0], "," + tail);
      ReadItemsOfText(items[1..], rest);
      assert ("," + tail)[1..] == tail;
      assert items == [items[0]] + items[1..];
    }
  }

  lemma {:induction false} ReadMemberOfText(m: Member, rest: string)
    requires |rest| > 0 ==> !IsDigit(rest[0])
    ensures ReadMember(MemberText(m) + rest) == Done(m, rest)
    decreases m, 1
  {
    hide ReadValue, ReadQuoted, Text, Quote;
    var tail := Text(m.value) + rest;
    assert MemberText(m) + rest == Quote(m.key) + (":" + tail);
    ReadQuotedOfQuote(m.key, ":" + tail);
    assert (":" + tail)[1..] == tail;
    ReadValueOfText(m.value, rest);
  }

  lemma {:induction false} ReadMembersOfText(members: seq<Member>, rest: string)
    requires members != []
    ensures ReadMembers(MembersText(members) + "}" + rest) == Done(members, rest)
    ensures |MembersText(members)| > 0 && MembersText(members)[0] == '"'
    decreases members, 2
  {
    hide ReadMember, MemberText;
    var s := MembersText(members) + "}" + rest;
    if |members| == 1 {
      assert s == MemberText(members[0]) + ("}" + rest);
      ReadMemberOfText(members[0], "}" + rest);
      assert members == [members[0]];
    } else {
      var tail := MembersText(members[1..]) + "}" + rest;
      assert s == MemberText(members[0]) + ("," + tail);
      ReadMemberOfText(members[0], "," + tail);
      ReadMembersOfText(members[1..], rest);
      assert ("," + tail)[1..] == tail;
      assert members == [members[0]] + members[1..];
    }
  }

  lemma LoadsOfText(j: Json)
    ensures Loads(Text(j)) == Done(j, "")
  {
    assert Text(j) + "" == Text(j);
    ReadValueOfText(j, "");
  }

  /** Compact JSON text determines the value it was printed from. */
  lemma TextInjective(a: Json, b: Json)
    requires Text(a) == Text(b)
    ensures a == b
  {
    LoadsOfText(a);
    LoadsOfText(b);
  }
}
