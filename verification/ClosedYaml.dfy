/** The bounded decoder for the closed YAML subset: lines, scalars and the indentation parser. */
module ClosedYaml {
  import opened Basics
  import opened Digits

  const MAX_INPUT := 1024 * 1024
  const MAX_NODES := 32_768
  const MAX_DEPTH := 64
  const MAX_LINES := 65_536
  const MAX_SCALAR := 256 * 1024
  const MAX_INTEGER_DIGITS := 5_000

  datatype Line = Line(indent: nat, sequence: bool, body: string)

  /** A decoded value. A dictionary keeps its insertion order. */
  datatype Value =
    | Null
    | Bool(b: bool)
    | Int(i: int)
    | Str(s: string)
    | Seq(items: seq<Value>)
    | Map(entries: seq<Entry>)

  datatype Entry = Entry(key: string, value: Value)

  /** The two scalar languages left open: what `json.loads` makes of a double-quoted scalar,
      and which texts the plain-scalar patterns admit. */
  datatype Scalars = Scalars(doubleQuoted: string -> Option<string>, plain: string -> bool)

  /** Semantic nodes: one per container, key and scalar. */
  function Size(v: Value): (n: nat)
    ensures n > 0
    decreases v, 0
  {
    match v
    case Seq(items) => 1 + SizeOfItems(items)
    case Map(entries) => 1 + SizeOfEntries(entries)
    case _ => 1
  }

  function SizeOfItems(items: seq<Value>): nat
    decreases items, 1
  {
    if items == [] then 0 else SizeOfItems(items[..|items| - 1]) + Size(items[|items| - 1])
  }

  function SizeOfEntry(e: Entry): nat
    decreases e, 1
  {
    1 + Size(e.value)
  }

  function SizeOfEntries(entries: seq<Entry>): nat
    decreases entries, 2
  {
    if entries == [] then 0 else SizeOfEntries(entries[..|entries| - 1]) + SizeOfEntry(entries[|entries| - 1])
  }

  predicate HasKey(entries: seq<Entry>, key: string) {
    exists i :: 0 <= i < |entries| && entries[i].key == key
  }

  // ---------- Mapping entries ----------

  predicate IsKeyStart(c: char) {
    'A' <= c <= 'Z' || 'a' <= c <= 'z' || c == '_'
  }

  predicate IsKeyChar(c: char) {
    IsKeyStart(c) || IsDigit(c) || c in {'.', '-', '/'}
  }

  function Lower(s: string): string {
    seq(|s|, i requires 0 <= i < |s| => if 'A' <= s[i] <= 'Z' then (s[i] as int + 32) as char else s[i])
  }

  predicate IsConservativeKey(key: string) {
    && key != "" && IsKeyStart(key[0])
    && (forall i | 0 <= i < |key| :: IsKeyChar(key[i]))
    && Lower(key) !in {"y", "n", "yes", "no", "on", "off", "true", "false", "null"}
    && Utf8Length(key) <= MAX_SCALAR
  }

  datatype Pair = Pair(key: string, raw: Option<string>)

  function FirstColon(s: string): (k: nat)
    ensures k <= |s|
    ensures forall i | 0 <= i < k :: s[i] != ':'
    ensures k < |s| ==> s[k] == ':'
  {
    if s == "" || s[0] == ':' then 0 else 1 + FirstColon(s[1..])
  }

  function PairOf(body: string): Option<Pair> {
    var k := FirstColon(body);
    if k == |body| then None else
    var key, rest := body[..k], body[k + 1..];
    if rest != "" && rest[0] != ' ' then None
    else if !IsConservativeKey(key) then None
    else if rest == "" then Some(Pair(key, None))
    else if rest == " " then None
    else Some(Pair(key, Some(rest[1..])))
  }

  // ---------- Scalars ----------

  predicate SafeText(s: string) {
    forall i | 0 <= i < |s| ::
      && s[i] >= ' ' && !(0x7f <= s[i] as int <= 0x9f) && s[i] as int != 0xfeff
  }

  function Unquote(inner: string): Option<string> {
    if inner == "" then Some("")
    else if inner[0] != '\'' then Prepend(inner[0], Unquote(inner[1..]))
    else if |inner| < 2 || inner[1] != '\'' then None
    else Prepend('\'', Unquote(inner[2..]))
  }

  function Prepend(c: char, s: Option<string>): Option<string> {
    if s.None? then None else Some([c] + s.value)
  }

  function SingleQuoted(raw: string): Option<string> {
    if |raw| < 2 || raw[|raw| - 1] != '\'' then None else
    var text := Unquote(raw[1..|raw| - 1]);
    if text.Some? && Utf8Length(text.value) <= MAX_SCALAR && SafeText(text.value) then text else None
  }

  method QuotedSingle(raw: string) returns (r: Option<string>)
    ensures r == SingleQuoted(raw)
  {
    if |raw| < 2 || raw[|raw| - 1] != '\'' {
      return None;
    }
    var inner := raw[1..|raw| - 1];
    var output, decodedBytes, index := "", 0, 0;
    assert inner[0..] == inner;
    JoinNothing(Unquote(inner));
    while index < |inner|
      invariant index <= |inner|
      invariant decodedBytes == Utf8Length(output) <= MAX_SCALAR
      invariant Unquote(inner) == Join(output, Unquote(inner[index..]))
    {
      var c := inner[index];
      ghost var start := index;
      if c == '\'' {
        if index + 1 >= |inner| || inner[index + 1] != '\'' {
          assert Unquote(inner[index..]) == None;
          return None;
        }
        index := index + 2;
        assert inner[start..][2..] == inner[index..];
      } else {
        index := index + 1;
        assert inner[start..][1..] == inner[index..];
      }
      var width := Utf8Width(c);
      JoinStep(output, c, Unquote(inner[index..]));
      Utf8LengthAppend(output, [c]);
      if decodedBytes > MAX_SCALAR - width {
        JoinGrows(output + [c], Unquote(inner[index..]));
        return None;
      }
      decodedBytes := decodedBytes + width;
      output := output + [c];
    }
    assert inner[index..] == "";
    assert output + "" == output;
    return if SafeText(output) then Some(output) else None;
  }

  ghost function Join(s: string, t: Option<string>): Option<string> {
    if t.None? then None else Some(s + t.value)
  }

  lemma JoinNothing(t: Option<string>)
    ensures Join("", t) == t
  {
    if t.Some? {
      assert "" + t.value == t.value;
    }
  }

  lemma JoinStep(s: string, c: char, t: Option<string>)
    ensures Join(s, Prepend(c, t)) == Join(s + [c], t)
  {
    if t.Some? {
      assert s + ([c] + t.value) == s + [c] + t.value;
    }
  }

  lemma JoinGrows(s: string, t: Option<string>)
    ensures t.Some? ==> Utf8Length(Join(s, t).value) >= Utf8Length(s)
  {
    if t.Some? {
      Utf8LengthAppend(s, t.value);
    }
  }

  /** The pattern `0|-[1-9][0-9]*|[1-9][0-9]*`. */
  predicate IsIntegerText(raw: string) {
    IsNatText(raw) || (raw != "" && raw[0] == '-' && IsNatText(raw[1..]) && raw[1] != '0')
  }

  function IntegerValue(raw: string): int
    requires IsIntegerText(raw)
  {
    if raw[0] == '-' then 0 - NatValue(raw[1..]) else NatValue(raw)
  }

  function ScalarOf(o: Scalars, raw: string): Option<Value> {
    if raw == "{}" then Some(Map([]))
    else if raw == "[]" then Some(Seq([]))
    else if raw == "null" then Some(Null)
    else if raw == "true" then Some(Bool(true))
    else if raw == "false" then Some(Bool(false))
    else if IsIntegerText(raw) then
      if |raw| - (if raw[0] == '-' then 1 else 0) > MAX_INTEGER_DIGITS then None else Some(Int(IntegerValue(raw)))
    else if StartsWith(raw, "\"") then
      var text := o.doubleQuoted(raw);
      if text.Some? && Utf8Length(text.value) <= MAX_SCALAR && SafeText(text.value) then Some(Str(text.value))
      else None
    else if StartsWith(raw, "'") then
      var text := SingleQuoted(raw);
      if text.Some? then Some(Str(text.value)) else None
    else if Utf8Length(raw) <= MAX_SCALAR && o.plain(raw) then Some(Str(raw))
    else None
  }

  method Scalar(o: Scalars, raw: string) returns (r: Option<Value>)
    ensures r == ScalarOf(o, raw)
  {
    if StartsWith(raw, "'") {
      var text := QuotedSingle(raw);
      r := if text.Some? then Some(Str(text.value)) else None;
    } else {
      r := ScalarOf(o, raw);
    }
  }

  // ---------- What the decoder computes, without the node bound ----------

  datatype Parsed<T> = Parsed(value: T, next: nat)

  function BlockAt(o: Scalars, lines: seq<Line>, i: nat, indent: nat, depth: nat): (r: Option<Parsed<Value>>)
    requires i <= |lines|
    ensures r.Some? ==> i < r.value.next <= |lines|
    decreases |lines| - i, 3
  {
    if depth > MAX_DEPTH || i >= |lines| || lines[i].indent != indent then None
    else if lines[i].sequence then
      var items := ItemsFrom(o, lines, i, indent, depth, []);
      if items.None? then None else Some(Parsed(Seq(items.value.value), items.value.next))
    else
      var entries := EntriesFrom(o, lines, i, indent, depth, []);
      if entries.None? then None else Some(Parsed(Map(entries.value.value), entries.value.next))
  }

  function ChildAt(o: Scalars, lines: seq<Line>, i: nat, parentIndent: nat, depth: nat): (r: Option<Parsed<Value>>)
    requires i <= |lines|
    ensures r.Some? ==> i < r.value.next <= |lines|
    decreases |lines| - i, 4
  {
    if i >= |lines| then None
    else if lines[i].indent == parentIndent + 2 || (lines[i].sequence && lines[i].indent == parentIndent) then
      BlockAt(o, lines, i, lines[i].indent, depth + 1)
    else None
  }

  /** The value of an entry whose key line ends just before line `i`. */
  function EntryValueAt(o: Scalars, lines: seq<Line>, i: nat, raw: Option<string>, indent: nat, depth: nat)
    : (r: Option<Parsed<Value>>)
    requires i <= |lines|
    ensures r.Some? ==> i <= r.value.next <= |lines|
    decreases |lines| - i, 5
  {
    if raw.None? then ChildAt(o, lines, i, indent, depth)
    else
      var scalar := ScalarOf(o, raw.value);
      if scalar.None? then None else Some(Parsed(scalar.value, i))
  }

  /** The entries of one mapping from line `i` on, after those in `acc`. */
  function EntriesFrom(o: Scalars, lines: seq<Line>, i: nat, indent: nat, depth: nat, acc: seq<Entry>)
    : (r: Option<Parsed<seq<Entry>>>)
    requires i <= |lines|
    ensures r.Some? ==> i <= r.value.next <= |lines|
    ensures r.Some? && i < |lines| && lines[i].indent == indent && !lines[i].sequence ==> i < r.value.next
    ensures r.Some? ==> SizeOfEntries(r.value.value) >= SizeOfEntries(acc)
    decreases |lines| - i, 0
  {
    if i >= |lines| || lines[i].indent != indent || lines[i].sequence then Some(Parsed(acc, i))
    else
      var pair := PairOf(lines[i].body);
      if pair.None? || HasKey(acc, pair.value.key) then None else
      var value := EntryValueAt(o, lines, i + 1, pair.value.raw, indent, depth);
      if value.None? then None else
      var acc' := acc + [Entry(pair.value.key, value.value.value)];
      assert acc'[..|acc|] == acc;
      EntriesFrom(o, lines, value.value.next, indent, depth, acc')
  }

  /** The sequence item on line `i`. */
  function ItemAt(o: Scalars, lines: seq<Line>, i: nat, indent: nat, depth: nat): (r: Option<Parsed<Value>>)
    requires i < |lines|
    ensures r.Some? ==> i < r.value.next <= |lines|
    decreases |lines| - i, 1
  {
    if lines[i].body == "" then
      if i + 1 >= |lines| || lines[i + 1].indent != indent + 2 then None
      else BlockAt(o, lines, i + 1, indent + 2, depth + 1)
    else
      var pair := PairOf(lines[i].body);
      if pair.None? then
        var scalar := ScalarOf(o, lines[i].body);
        if scalar.None? then None else Some(Parsed(scalar.value, i + 1))
      else
        var value := EntryValueAt(o, lines, i + 1, pair.value.raw, indent + 2, depth + 1);
        if value.None? then None else
        var entries := EntriesFrom(o, lines, value.value.next, indent + 2, depth + 1,
                                   [Entry(pair.value.key, value.value.value)]);
        if entries.None? then None else Some(Parsed(Map(entries.value.value), entries.value.next))
  }

  function ItemsFrom(o: Scalars, lines: seq<Line>, i: nat, indent: nat, depth: nat, acc: seq<Value>)
    : (r: Option<Parsed<seq<Value>>>)
    requires i <= |lines|
    ensures r.Some? ==> i <= r.value.next <= |lines|
    ensures r.Some? && i < |lines| && lines[i].indent == indent && lines[i].sequence ==> i < r.value.next
    ensures r.Some? ==> SizeOfItems(r.value.value) >= SizeOfItems(acc)
    decreases |lines| - i, 2
  {
    if i >= |lines| || lines[i].indent != indent || !lines[i].sequence then Some(Parsed(acc, i))
    else
      var item := ItemAt(o, lines, i, indent, depth);
      if item.None? then None else
      var acc' := acc + [item.value.value];
      assert acc'[..|acc|] == acc;
      ItemsFrom(o, lines, item.value.next, indent, depth, acc')
  }

  /** The mapping a whole list of lines stands for, before the node bound. */
  function DocumentOf(o: Scalars, lines: seq<Line>): Option<Value> {
    if lines == [Line(0, false, "{}")] then Some(Map([]))
    else
      var block := BlockAt(o, lines, 0, 0, 0);
      if block.Some? && block.value.next == |lines| && block.value.value.Map? then Some(block.value.value) else None
  }

  // ---------- The decoder ----------

  class Decoder {
    const o: Scalars
    const lines: seq<Line>
    var nodes: nat

    constructor (o: Scalars, lines: seq<Line>)
      ensures this.o == o && this.lines == lines && nodes == 0
    {
      this.o, this.lines, nodes := o, lines, 0;
    }

    /** `spent` nodes are left after a success worth `size`; a success needs room for all of them. */
    ghost predicate Charged(before: nat, fits: bool, size: nat, ok: bool)
      reads this
    {
      && (ok <==> fits && before + size <= MAX_NODES)
      && (ok ==> nodes == before + size)
    }

    method Node() returns (ok: bool)
      modifies this
      ensures nodes == old(nodes) + 1
      ensures ok <==> nodes <= MAX_NODES
    {
      nodes := nodes + 1;
      ok := nodes <= MAX_NODES;
    }

    method Parse() returns (r: Option<Value>)
      requires nodes == 0
      modifies this
      ensures r.Some? <==> DocumentOf(o, lines).Some? && Size(DocumentOf(o, lines).value) <= MAX_NODES
      ensures r.Some? ==> r == DocumentOf(o, lines) && nodes == Size(r.value)
    {
      if |lines| == 1 && lines[0].indent == 0 && !lines[0].sequence && lines[0].body == "{}" {
        assert lines == [Line(0, false, "{}")];
        var ok := Node();
        return Some(Map([]));
      }
      assert lines != [Line(0, false, "{}")];
      var block := Block(0, 0, 0);
      if block.None? || block.value.next != |lines| || !block.value.value.Map? {
        return None;
      }
      return Some(block.value.value);
    }

    method Block(index: nat, indent: nat, depth: nat) returns (r: Option<Parsed<Value>>)
      requires index <= |lines| && nodes <= MAX_NODES
      modifies this
      ensures var s := BlockAt(o, lines, index, indent, depth);
        && Charged(old(nodes), s.Some?, if s.Some? then Size(s.value.value) else 0, r.Some?)
        && (r.Some? ==> r == s)
      decreases |lines| - index, 3
    {
      hide ItemsFrom, EntriesFrom, SizeOfEntries, SizeOfItems;
      if depth > MAX_DEPTH || index >= |lines| {
        return None;
      }
      var line := lines[index];
      if line.indent != indent {
        return None;
      }
      if line.sequence {
        var items := Sequence(index, indent, depth);
        r := if items.None? then None else Some(Parsed(Seq(items.value.value), items.value.next));
      } else {
        var entries := Mapping(index, indent, depth);
        r := if entries.None? then None else Some(Parsed(Map(entries.value.value), entries.value.next));
      }
    }

    method Child(index: nat, parentIndent: nat, depth: nat) returns (r: Option<Parsed<Value>>)
      requires index <= |lines| && nodes <= MAX_NODES
      modifies this
      ensures var s := ChildAt(o, lines, index, parentIndent, depth);
        && Charged(old(nodes), s.Some?, if s.Some? then Size(s.value.value) else 0, r.Some?)
        && (r.Some? ==> r == s)
      decreases |lines| - index, 4
    {
      if index >= |lines| {
        return None;
      }
      var line := lines[index];
      var allowed := if line.sequence then {parentIndent, parentIndent + 2} else {parentIndent + 2};
      if line.indent !in allowed {
        return None;
      }
      r := Block(index, line.indent, depth + 1);
    }

    method Put(result: seq<Entry>, key: string, raw: Option<string>, index: nat, indent: nat, depth: nat)
      returns (r: Option<Parsed<seq<Entry>>>)
      requires index <= |lines| && nodes <= MAX_NODES
      modifies this
      ensures var s := EntryValueAt(o, lines, index, raw, indent, depth);
        && Charged(old(nodes), s.Some? && !HasKey(result, key),
                   if s.Some? then 1 + Size(s.value.value) else 0, r.Some?)
        && (r.Some? ==> r.value == Parsed(result + [Entry(key, s.value.value)], s.value.next))
      decreases |lines| - index, 5
    {
      if HasKey(result, key) {
        return None;
      }
      var ok := Node();
      if !ok {
        return None;
      }
      if raw.None? {
        var child := Child(index, indent, depth);
        if child.None? {
          return None;
        }
        return Some(Parsed(result + [Entry(key, child.value.value)], child.value.next));
      }
      var value := Scalar(o, raw.value);
      if value.None? {
        return None;
      }
      ScalarSize(o, raw.value);
      ok := Node();
      if !ok {
        return None;
      }
      return Some(Parsed(result + [Entry(key, value.value)], index));
    }

    /** The entry loop, run by a mapping and by an item that opens a mapping on its dash. */
    method Entries(start: seq<Entry>, first: nat, indent: nat, depth: nat) returns (r: Option<Parsed<seq<Entry>>>)
      requires first <= |lines| && nodes <= MAX_NODES
      modifies this
      ensures var s := EntriesFrom(o, lines, first, indent, depth, start);
        && Charged(old(nodes), s.Some?, if s.Some? then SizeOfEntries(s.value.value) - SizeOfEntries(start) else 0, r.Some?)
        && (r.Some? ==> r == s)
      decreases |lines| - first, 0
    {
      hide EntriesFrom, EntryValueAt, SizeOfEntries, Size, PairOf, HasKey;
      var result, index := start, first;
      while index < |lines|
        invariant first <= index <= |lines|
        invariant SizeOfEntries(result) >= SizeOfEntries(start)
        invariant nodes == old(nodes) + SizeOfEntries(result) - SizeOfEntries(start) <= MAX_NODES
        invariant EntriesFrom(o, lines, first, indent, depth, start)
               == EntriesFrom(o, lines, index, indent, depth, result)
      {
        var line := lines[index];
        EntriesStep(o, lines, index, indent, depth, result);
        if line.indent != indent || line.sequence {
          return Some(Parsed(result, index));
        }
        var pair := PairOf(line.body);
        if pair.None? {
          return None;
        }
        var put := Put(result, pair.value.key, pair.value.raw, index + 1, indent, depth);
        if put.None? {
          return None;
        }
        result, index := put.value.value, put.value.next;
      }
      EntriesEnd(o, lines, indent, depth, result);
      return Some(Parsed(result, index));
    }

    method Mapping(index: nat, indent: nat, depth: nat) returns (r: Option<Parsed<seq<Entry>>>)
      requires index <= |lines| && nodes <= MAX_NODES
      modifies this
      ensures var s := EntriesFrom(o, lines, index, indent, depth, []);
        && Charged(old(nodes), s.Some?, if s.Some? then 1 + SizeOfEntries(s.value.value) else 0, r.Some?)
        && (r.Some? ==> r == s)
      decreases |lines| - index, 1
    {
      var ok := Node();
      if !ok {
        return None;
      }
      r := Entries([], index, indent, depth);
    }

    method Sequence(first: nat, indent: nat, depth: nat) returns (r: Option<Parsed<seq<Value>>>)
      requires first <= |lines| && nodes <= MAX_NODES
      modifies this
      ensures var s := ItemsFrom(o, lines, first, indent, depth, []);
        && Charged(old(nodes), s.Some?, if s.Some? then 1 + SizeOfItems(s.value.value) else 0, r.Some?)
        && (r.Some? ==> r == s)
      decreases |lines| - first, 2
    {
      hide ItemAt, Size;
      var ok := Node();
      if !ok {
        return None;
      }
      var result: seq<Value> := [];
      var index := first;
      while index < |lines|
        invariant first <= index <= |lines|
        invariant nodes == old(nodes) + 1 + SizeOfItems(result) <= MAX_NODES
        invariant ItemsFrom(o, lines, first, indent, depth, []) == ItemsFrom(o, lines, index, indent, depth, result)
      {
        var line := lines[index];
        if line.indent != indent || !line.sequence {
          break;
        }
        ghost var s := ItemAt(o, lines, index, indent, depth);
        ghost var next := if s.Some? then result + [s.value.value] else [];
        assert s.Some? ==> next[..|result|] == result;
        var item := Item(index, indent, depth);
        if item.None? {
          return None;
        }
        result, index := result + [item.value.value], item.value.next;
      }
      return Some(Parsed(result, index));
    }

    /** The body of the sequence loop for one dash. */
    method Item(index: nat, indent: nat, depth: nat) returns (r: Option<Parsed<Value>>)
      requires index < |lines| && nodes <= MAX_NODES
      modifies this
      ensures var s := ItemAt(o, lines, index, indent, depth);
        && Charged(old(nodes), s.Some?, if s.Some? then Size(s.value.value) else 0, r.Some?)
        && (r.Some? ==> r == s)
      decreases |lines| - index, 1
    {
      hide EntriesFrom, BlockAt, SizeOfEntries, PairOf, ScalarOf, EntryValueAt;
      var line := lines[index];
      if line.body == "" {
        if index + 1 >= |lines| || lines[index + 1].indent != indent + 2 {
          return None;
        }
        r := Block(index + 1, indent + 2, depth + 1);
        return;
      }
      var pair := PairOf(line.body);
      if pair.None? {
        var scalar := Scalar(o, line.body);
        if scalar.None? {
          return None;
        }
        ScalarSize(o, line.body);
        var ok := Node();
        return if ok then Some(Parsed(scalar.value, index + 1)) else None;
      }
      var ok := Node();
      if !ok {
        return None;
      }
      ghost var s := EntryValueAt(o, lines, index + 1, pair.value.raw, indent + 2, depth + 1);
      if s.Some? {
        SingleEntrySize(Entry(pair.value.key, s.value.value));
      }
      var put := Put([], pair.value.key, pair.value.raw, index + 1, indent + 2, depth + 1);
      if put.None? {
        return None;
      }
      assert put.value.value == [Entry(pair.value.key, s.value.value)];
      var entries := Entries(put.value.value, put.value.next, indent + 2, depth + 1);
      r := if entries.None? then None else Some(Parsed(Map(entries.value.value), entries.value.next));
    }
  }

  /** One unfolding of the entry loop. */
  lemma EntriesStep(o: Scalars, lines: seq<Line>, i: nat, indent: nat, depth: nat, acc: seq<Entry>)
    requires i < |lines|
    ensures var here := EntriesFrom(o, lines, i, indent, depth, acc);
      if lines[i].indent != indent || lines[i].sequence then here == Some(Parsed(acc, i))
      else
        var pair := PairOf(lines[i].body);
        if pair.None? then here == None
        else
          var s := EntryValueAt(o, lines, i + 1, pair.value.raw, indent, depth);
          if HasKey(acc, pair.value.key) || s.None? then here == None
          else
            var next := acc + [Entry(pair.value.key, s.value.value)];
            && here == EntriesFrom(o, lines, s.value.next, indent, depth, next)
            && SizeOfEntries(next) == SizeOfEntries(acc) + 1 + Size(s.value.value)
  {
    hide EntryValueAt, PairOf, HasKey, Size;
    if lines[i].indent == indent && !lines[i].sequence && PairOf(lines[i].body).Some? {
      var pair := PairOf(lines[i].body).value;
      var s := EntryValueAt(o, lines, i + 1, pair.raw, indent, depth);
      if s.Some? {
        var next := acc + [Entry(pair.key, s.value.value)];
        assert next[..|next| - 1] == acc;
      }
    }
  }

  lemma EntriesEnd(o: Scalars, lines: seq<Line>, indent: nat, depth: nat, acc: seq<Entry>)
    ensures EntriesFrom(o, lines, |lines|, indent, depth, acc) == Some(Parsed(acc, |lines|))
  {
  }

  lemma ScalarSize(o: Scalars, raw: string)
    ensures ScalarOf(o, raw).Some? ==> Size(ScalarOf(o, raw).value) == 1
  {
  }

  lemma SingleEntrySize(e: Entry)
    ensures SizeOfEntries([e]) == 1 + Size(e.value)
  {
    assert [e][..0] == [];
  }
}
