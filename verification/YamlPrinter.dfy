/** A printer in several layouts, the round trip through the decoder, and what a decoded value satisfies. */
module YamlPrinter {
  import opened Basics
  import opened Digits
  import opened ClosedYaml
  import opened YamlText
  import opened YamlLayouts

  // ---------- Scalars on one line ----------

  function Doubled(s: string): string {
    if s == "" then "" else (if s[0] == '\'' then "''" else [s[0]]) + Doubled(s[1..])
  }

  predicate OnOneLine(v: Value) {
    (v.Seq? ==> v.items == []) && (v.Map? ==> v.entries == [])
  }

  function RawFor(v: Value): string
    requires OnOneLine(v)
  {
    match v
    case Null => "null"
    case Bool(b) => if b then "true" else "false"
    case Int(i) => IntText(i)
    case Str(s) => "'" + Doubled(s) + "'"
    case Seq(_) => "[]"
    case Map(_) => "{}"
  }

  /** Values within the scalar bounds, with conservative and distinct keys at every level. */
  ghost predicate Printable(v: Value) {
    match v
    case Int(i) => |IntText(i)| - (if i < 0 then 1 else 0) <= MAX_INTEGER_DIGITS
    case Str(s) => SafeText(s) && Utf8Length(s) <= MAX_SCALAR
    case Seq(items) => forall i | 0 <= i < |items| :: Printable(items[i])
    case Map(entries) =>
      && DistinctKeys(entries)
      && forall i | 0 <= i < |entries| :: IsConservativeKey(entries[i].key) && Printable(entries[i].value)
    case _ => true
  }

  ghost predicate DistinctKeys(entries: seq<Entry>) {
    forall i, j | 0 <= i < j < |entries| :: entries[i].key != entries[j].key
  }

  lemma {:induction false} UnquoteDoubled(s: string)
    ensures Unquote(Doubled(s)) == Some(s)
  {
    if s != "" {
      UnquoteDoubled(s[1..]);
      assert [s[0]] + s[1..] == s;
      if s[0] == '\'' {
        assert Doubled(s)[2..] == Doubled(s[1..]);
      } else {
        assert Doubled(s)[1..] == Doubled(s[1..]);
      }
    }
  }

  lemma {:induction false} DoubledIsClean(s: string)
    requires SafeText(s)
    ensures Clean(Doubled(s))
  {
    if s != "" {
      DoubledIsClean(s[1..]);
    }
  }

  lemma QuotedScalar(o: Scalars, s: string)
    requires SafeText(s) && Utf8Length(s) <= MAX_SCALAR
    ensures ScalarOf(o, "'" + Doubled(s) + "'") == Some(Str(s))
  {
    var raw := "'" + Doubled(s) + "'";
    assert raw[1..|raw| - 1] == Doubled(s);
    UnquoteDoubled(s);
    assert raw[0] == '\'' && raw[..1] == "'";
  }

  lemma IntegerScalar(o: Scalars, i: int)
    requires |IntText(i)| - (if i < 0 then 1 else 0) <= MAX_INTEGER_DIGITS
    ensures ScalarOf(o, IntText(i)) == Some(Int(i))
  {
    var raw := IntText(i);
    if i < 0 {
      assert raw[1..] == NatText(-i);
      NatValueOfText(-i);
    } else {
      NatValueOfText(i);
    }
    assert IsDigit(raw[0]) || raw[0] == '-';
    assert IsIntegerText(raw);
  }

  /** Printed scalars are read back, are no mapping entries, and fit on a line. */
  lemma RawForReads(o: Scalars, v: Value)
    requires OnOneLine(v) && Printable(v)
    ensures ScalarOf(o, RawFor(v)) == Some(v)
    ensures RawOk(RawFor(v)) && PairOf(RawFor(v)).None? && Clean(RawFor(v))
  {
    match v {
      case Str(s) => QuotedReads(o, s);
      case Int(i) => IntegerReads(o, i);
      case _ => WordReads(o, v);
    }
  }

  lemma QuotedReads(o: Scalars, s: string)
    requires SafeText(s) && Utf8Length(s) <= MAX_SCALAR
    ensures var raw := "'" + Doubled(s) + "'";
      ScalarOf(o, raw) == Some(Str(s)) && RawOk(raw) && PairOf(raw).None? && Clean(raw)
  {
    QuotedScalar(o, s);
    DoubledIsClean(s);
    hide ScalarOf, PairOf, Doubled, Utf8Length;
    NotAnEntry("'" + Doubled(s) + "'");
  }

  lemma IntegerReads(o: Scalars, i: int)
    requires |IntText(i)| - (if i < 0 then 1 else 0) <= MAX_INTEGER_DIGITS
    ensures var raw := IntText(i);
      ScalarOf(o, raw) == Some(Int(i)) && RawOk(raw) && PairOf(raw).None? && Clean(raw)
  {
    IntegerScalar(o, i);
    IntTextIsClean(i);
    hide ScalarOf, PairOf, NatText;
    NotAnEntry(IntText(i));
  }

  lemma WordReads(o: Scalars, v: Value)
    requires OnOneLine(v) && !v.Str? && !v.Int?
    ensures var raw := RawFor(v);
      ScalarOf(o, raw) == Some(v) && RawOk(raw) && PairOf(raw).None? && Clean(raw)
  {
    NoColon(RawFor(v));
  }

  lemma IntTextIsClean(i: int)
    ensures Clean(IntText(i)) && IntText(i)[|IntText(i)| - 1] != ' '
  {
    var raw := IntText(i);
    forall k | 0 <= k < |raw| ensures IsDigit(raw[k]) || raw[k] == '-' {
      if i < 0 && k > 0 { assert raw[k] == raw[1..][k - 1]; }
    }
  }

  lemma NotAnEntry(raw: string)
    requires raw != "" && !IsKeyStart(raw[0])
    ensures PairOf(raw).None?
  {
  }

  lemma NoColon(raw: string)
    requires ':' !in raw
    ensures PairOf(raw).None?
  {
  }

  // ---------- Layout styles ----------

  /** `flush`: sequences start at their key's indent. `inline`: an item's mapping opens on its dash. */
  datatype Style = Style(flush: bool, inline: bool)

  function NodeOf(v: Value, style: Style): Node
    decreases v, 0
  {
    match v
    case Map(entries) => MapNode(LayEntries(entries, style))
    case Seq(items) => SeqNode(LayItems(items, style))
    case _ => SeqNode([])
  }

  function LayEntry(e: Entry, style: Style): NodeEntry
    decreases e, 1
  {
    if OnOneLine(e.value) then Inline(e.key, RawFor(e.value))
    else Nested(e.key, !(style.flush && e.value.Seq?), NodeOf(e.value, style))
  }

  function LayEntries(entries: seq<Entry>, style: Style): (r: seq<NodeEntry>)
    ensures |r| == |entries|
    ensures forall i | 0 <= i < |entries| :: r[i] == LayEntry(entries[i], style)
    decreases entries, 2
  {
    if entries == [] then [] else [LayEntry(entries[0], style)] + LayEntries(entries[1..], style)
  }

  function LayItem(v: Value, style: Style): NodeItem
    decreases v, 3
  {
    if OnOneLine(v) then ScalarItem(RawFor(v))
    else if v.Map? && style.inline then MapItem(LayEntries(v.entries, style))
    else BareItem(NodeOf(v, style))
  }

  function LayItems(items: seq<Value>, style: Style): (r: seq<NodeItem>)
    ensures |r| == |items|
    ensures forall i | 0 <= i < |items| :: r[i] == LayItem(items[i], style)
    decreases items, 4
  {
    if items == [] then [] else [LayItem(items[0], style)] + LayItems(items[1..], style)
  }

  /** At most `h` nonempty containers lie on any path. */
  ghost predicate Fits(v: Value, h: nat)
    decreases v
  {
    match v
    case Seq(items) => items != [] ==> h > 0 && forall i | 0 <= i < |items| :: Fits(items[i], h - 1)
    case Map(entries) => entries != [] ==> h > 0 && forall i | 0 <= i < |entries| :: Fits(entries[i].value, h - 1)
    case _ => true
  }

  lemma {:induction false} NodeMeans(o: Scalars, v: Value, style: Style)
    requires Printable(v) && (v.Map? || v.Seq?)
    ensures Meaning(o, NodeOf(v, style)) == v
    decreases v, 0
  {
    if v.Map? { EntriesMean(o, v.entries, style); } else { ItemsMean(o, v.items, style); }
  }

  lemma {:induction false} EntryMeans(o: Scalars, e: Entry, style: Style)
    requires Printable(e.value)
    ensures MeaningOfEntry(o, LayEntry(e, style)) == e
    decreases e, 1
  {
    if OnOneLine(e.value) {
      RawForReads(o, e.value);
    } else {
      NodeMeans(o, e.value, style);
    }
  }

  lemma {:induction false} EntriesMean(o: Scalars, entries: seq<Entry>, style: Style)
    requires forall i | 0 <= i < |entries| :: Printable(entries[i].value)
    ensures YamlLayouts.MeaningOfEntries(o, LayEntries(entries, style)) == entries
    decreases entries, 2
  {
    hide LayEntry, Printable, MeaningOfEntry;
    if entries != [] {
      EntryMeans(o, entries[0], style);
      EntriesMean(o, entries[1..], style);
      assert LayEntries(entries, style)[1..] == LayEntries(entries[1..], style);
    }
  }

  lemma {:induction false} ItemsMean(o: Scalars, items: seq<Value>, style: Style)
    requires forall i | 0 <= i < |items| :: Printable(items[i])
    ensures MeaningOfItems(o, LayItems(items, style)) == items
    decreases items, 4
  {
    hide LayItem, Printable, MeaningOfItem;
    if items != [] {
      ItemMeans(o, items[0], style);
      ItemsMean(o, items[1..], style);
      assert LayItems(items, style)[1..] == LayItems(items[1..], style);
    }
  }

  lemma {:induction false} ItemMeans(o: Scalars, v: Value, style: Style)
    requires Printable(v)
    ensures MeaningOfItem(o, LayItem(v, style)) == v
    decreases v, 3
  {
    if OnOneLine(v) {
      RawForReads(o, v);
    } else if v.Map? && style.inline {
      EntriesMean(o, v.entries, style);
    } else {
      NodeMeans(o, v, style);
    }
  }

  lemma {:induction false} NodeIsValid(o: Scalars, v: Value, style: Style, h: nat, depth: nat)
    requires Printable(v) && !OnOneLine(v) && Fits(v, h) && depth + h <= MAX_DEPTH + 1
    ensures ValidNode(o, NodeOf(v, style), depth)
    decreases v, 0
  {
    if v.Map? {
      EntriesAreValid(o, v.entries, style, h - 1, depth);
    } else {
      forall i | 0 <= i < |v.items| ensures ValidItem(o, LayItem(v.items[i], style), depth) {
        ItemIsValid(o, v.items[i], style, h - 1, depth);
      }
    }
  }

  lemma {:induction false} EntriesAreValid(o: Scalars, entries: seq<Entry>, style: Style, h: nat, depth: nat)
    requires DistinctKeys(entries) && depth + h <= MAX_DEPTH
    requires forall i | 0 <= i < |entries| ::
      IsConservativeKey(entries[i].key) && Printable(entries[i].value) && Fits(entries[i].value, h)
    ensures DistinctEntries(LayEntries(entries, style))
    ensures forall i | 0 <= i < |entries| :: ValidEntry(o, LayEntries(entries, style)[i], depth)
    decreases entries, 0
  {
    forall i | 0 <= i < |entries| ensures ValidEntry(o, LayEntry(entries[i], style), depth) {
      var e := entries[i];
      if OnOneLine(e.value) {
        RawForReads(o, e.value);
      } else {
        NodeIsValid(o, e.value, style, h, depth + 1);
      }
    }
    forall i | 0 <= i < |entries| ensures LayEntries(entries, style)[i].key == entries[i].key {
      assert LayEntries(entries, style)[i] == LayEntry(entries[i], style);
    }
  }

  lemma {:induction false} ItemIsValid(o: Scalars, v: Value, style: Style, h: nat, depth: nat)
    requires Printable(v) && Fits(v, h) && depth + h <= MAX_DEPTH
    ensures ValidItem(o, LayItem(v, style), depth)
    decreases v, 1
  {
    if OnOneLine(v) {
      RawForReads(o, v);
    } else if v.Map? && style.inline {
      EntriesAreValid(o, v.entries, style, h - 1, depth + 1);
    } else {
      NodeIsValid(o, v, style, h, depth + 1);
    }
  }

  function DocumentFor(v: Value, style: Style): Document
    requires v.Map?
  {
    if v.entries == [] then EmptyDocument else YamlLayouts.Document(LayEntries(v.entries, style))
  }

  lemma DocumentForMeans(o: Scalars, v: Value, style: Style)
    requires v.Map? && Printable(v) && Fits(v, MAX_DEPTH + 1)
    ensures ValidDocument(o, DocumentFor(v, style)) && MeaningOfDocument(o, DocumentFor(v, style)) == v
  {
    if v.entries != [] {
      NodeIsValid(o, v, style, MAX_DEPTH + 1, 0);
      NodeMeans(o, v, style);
    }
  }

  // ---------- Printed text is allowed text ----------

  predicate Clean(s: string) {
    forall i | 0 <= i < |s| :: AllowedChar(s[i]) && s[i] != '\n'
  }

  ghost predicate CleanLines(lines: seq<Line>) {
    forall i | 0 <= i < |lines| :: Clean(lines[i].body)
  }

  lemma {:induction false} NodeIsClean(o: Scalars, v: Value, style: Style, indent: nat)
    requires Printable(v)
    ensures CleanLines(Print(NodeOf(v, style), indent))
    decreases v, 0
  {
    match v {
      case Map(entries) => EntriesAreClean(o, entries, style, indent);
      case Seq(items) => ItemsAreClean(o, items, style, indent);
      case _ => assert Print(NodeOf(v, style), indent) == [];
    }
  }

  lemma {:induction false} EntryIsClean(o: Scalars, e: Entry, style: Style, indent: nat)
    requires IsConservativeKey(e.key) && Printable(e.value)
    ensures Clean(Body(LayEntry(e, style))) && CleanLines(Tail(LayEntry(e, style), indent))
    decreases e, 1
  {
    if OnOneLine(e.value) {
      RawForReads(o, e.value);
    } else {
      NodeIsClean(o, e.value, style, if style.flush && e.value.Seq? then indent else indent + 2);
    }
  }

  lemma {:induction false} EntriesAreClean(o: Scalars, entries: seq<Entry>, style: Style, indent: nat)
    requires forall i | 0 <= i < |entries| :: IsConservativeKey(entries[i].key) && Printable(entries[i].value)
    ensures CleanLines(PrintEntries(LayEntries(entries, style), indent))
    decreases entries, 2
  {
    hide LayEntry, Printable, Body, Tail, Clean, IsConservativeKey;
    if entries != [] {
      EntryIsClean(o, entries[0], style, indent);
      EntriesAreClean(o, entries[1..], style, indent);
      assert LayEntries(entries, style)[1..] == LayEntries(entries[1..], style);
    }
  }

  lemma {:induction false} ItemIsClean(o: Scalars, v: Value, style: Style, indent: nat)
    requires Printable(v)
    ensures CleanLines(PrintItem(LayItem(v, style), indent))
    decreases v, 3
  {
    if OnOneLine(v) {
      RawForReads(o, v);
    } else if v.Map? && style.inline {
      var es := LayEntries(v.entries, style);
      EntryIsClean(o, v.entries[0], style, indent + 2);
      EntriesAreClean(o, v.entries[1..], style, indent + 2);
      assert es[1..] == LayEntries(v.entries[1..], style);
    } else {
      NodeIsClean(o, v, style, indent + 2);
    }
  }

  lemma {:induction false} ItemsAreClean(o: Scalars, items: seq<Value>, style: Style, indent: nat)
    requires forall i | 0 <= i < |items| :: Printable(items[i])
    ensures CleanLines(PrintItems(LayItems(items, style), indent))
    decreases items, 4
  {
    hide LayItem, Printable, PrintItem, Clean;
    if items != [] {
      ItemIsClean(o, items[0], style, indent);
      ItemsAreClean(o, items[1..], style, indent);
      assert LayItems(items, style)[1..] == LayItems(items[1..], style);
    }
  }

  lemma {:induction false} JoinedIsAllowed(raws: seq<string>)
    requires raws != [] && forall i | 0 <= i < |raws| :: Clean(raws[i])
    ensures forall k | 0 <= k < |Joined(raws)| :: AllowedChar(Joined(raws)[k])
    ensures Newlines(Joined(raws)) == |raws| - 1
  {
    NoNewlines(raws[0]);
    if |raws| > 1 {
      JoinedIsAllowed(raws[1..]);
      NewlinesAppend(raws[0] + "\n", Joined(raws[1..]));
      NewlinesAppend(raws[0], "\n");
      assert Newlines("\n") == 1 + Newlines("");
    }
  }

  lemma {:induction false} NoNewlines(s: string)
    requires Clean(s)
    ensures Newlines(s) == 0
  {
    if s != "" { NoNewlines(s[1..]); }
  }

  lemma {:induction false} NewlinesAppend(a: string, b: string)
    ensures Newlines(a + b) == Newlines(a) + Newlines(b)
  {
    if a == "" {
      assert a + b == b;
    } else {
      assert (a + b)[1..] == a[1..] + b;
      NewlinesAppend(a[1..], b);
    }
  }

  lemma {:induction false} JoinedEnds(raws: seq<string>)
    requires raws != [] && raws[|raws| - 1] != ""
    ensures Joined(raws) != "" && Joined(raws)[|Joined(raws)| - 1] == raws[|raws| - 1][|raws[|raws| - 1]| - 1]
  {
    if |raws| > 1 {
      JoinedEnds(raws[1..]);
      assert raws[1..][|raws| - 2] == raws[|raws| - 1];
    }
  }

  /** Printed lines: one line feed between two lines, and nothing forbidden. */
  lemma RenderedIsAllowed(lines: seq<Line>, terminated: bool)
    requires lines != [] && AllWellFormed(lines) && CleanLines(lines)
    ensures forall k | 0 <= k < |Rendered(lines, terminated)| :: AllowedChar(Rendered(lines, terminated)[k])
    ensures LineCount(Rendered(lines, terminated)) == |lines|
  {
    var raws, end := Raws(lines), if terminated then "\n" else "";
    forall i | 0 <= i < |lines| ensures Clean(raws[i]) && raws[i] != "" {
      LineOfRaw(lines[i]);
      RawIsClean(lines[i]);
    }
    JoinedIsAllowed(raws);
    JoinedEnds(raws);
    hide Joined, Raws, Clean, WellFormed;
    var last := raws[|raws| - 1];
    LastNotNewline(last, lines[|lines| - 1]);
    NewlinesAppend(Joined(raws), end);
    assert Newlines("\n") == 1 + Newlines("");
    if !terminated {
      assert Joined(raws) + end == Joined(raws);
    }
  }

  lemma LastNotNewline(raw: string, line: Line)
    requires WellFormed(line) && raw == Raw(line) && raw != ""
    ensures raw[|raw| - 1] != '\n'
  {
    LineOfRaw(line);
  }

  lemma RawIsClean(line: Line)
    requires Clean(line.body)
    ensures Clean(Raw(line))
  {
    var raw := Raw(line);
    forall i | 0 <= i < |raw| ensures AllowedChar(raw[i]) && raw[i] != '\n' {
      if i >= line.indent { assert raw[i] == Marked(line)[i - line.indent]; }
    }
  }

  // ---------- A layout never has more lines than nodes ----------

  lemma {:induction false} SizeOfEntriesCons(e: Entry, rest: seq<Entry>)
    ensures SizeOfEntries([e] + rest) == 1 + Size(e.value) + SizeOfEntries(rest)
  {
    var all := [e] + rest;
    if rest == [] {
      assert all == [e];
      SingleEntrySize(e);
    } else {
      assert all[..|all| - 1] == [e] + rest[..|rest| - 1];
      SizeOfEntriesCons(e, rest[..|rest| - 1]);
    }
  }

  lemma {:induction false} SizeOfItemsCons(v: Value, rest: seq<Value>)
    ensures SizeOfItems([v] + rest) == Size(v) + SizeOfItems(rest)
  {
    var all := [v] + rest;
    if rest == [] {
      assert all == [v] && all[..0] == [];
    } else {
      assert all[..|all| - 1] == [v] + rest[..|rest| - 1];
      SizeOfItemsCons(v, rest[..|rest| - 1]);
    }
  }

  lemma {:induction false} NodeLines(o: Scalars, n: Node, indent: nat)
    ensures |Print(n, indent)| < Size(Meaning(o, n))
    decreases n, 0
  {
    if n.MapNode? { EntriesLines(o, n.entries, indent); } else { ItemsLines(o, n.items, indent); }
  }

  lemma {:induction false} TailLines(o: Scalars, e: NodeEntry, indent: nat)
    ensures |Tail(e, indent)| <= Size(MeaningOfEntry(o, e).value)
    decreases e, 1
  {
    if e.Nested? { NodeLines(o, e.child, if e.deeper then indent + 2 else indent); }
  }

  lemma {:induction false} EntriesLines(o: Scalars, es: seq<NodeEntry>, indent: nat)
    ensures |PrintEntries(es, indent)| <= SizeOfEntries(YamlLayouts.MeaningOfEntries(o, es))
    decreases es, 2
  {
    hide Tail, MeaningOfEntry, Size, Body;
    if es != [] {
      TailLines(o, es[0], indent);
      EntriesLines(o, es[1..], indent);
      SizeOfEntriesCons(MeaningOfEntry(o, es[0]), YamlLayouts.MeaningOfEntries(o, es[1..]));
    }
  }

  lemma {:induction false} ItemLines(o: Scalars, it: NodeItem, indent: nat)
    ensures |PrintItem(it, indent)| <= Size(MeaningOfItem(o, it))
    decreases it, 3
  {
    match it {
      case ScalarItem(_) =>
      case BareItem(child) => NodeLines(o, child, indent + 2);
      case MapItem(es) => EntriesLines(o, es, indent + 2);
    }
  }

  lemma {:induction false} ItemsLines(o: Scalars, items: seq<NodeItem>, indent: nat)
    ensures |PrintItems(items, indent)| <= SizeOfItems(MeaningOfItems(o, items))
    decreases items, 4
  {
    hide PrintItem, MeaningOfItem, Size;
    if items != [] {
      ItemLines(o, items[0], indent);
      ItemsLines(o, items[1..], indent);
      SizeOfItemsCons(MeaningOfItem(o, items[0]), MeaningOfItems(o, items[1..]));
    }
  }

  // ---------- Round trip ----------

  lemma PrintedDocumentIsClean(o: Scalars, v: Value, style: Style)
    requires v.Map? && Printable(v)
    ensures CleanLines(PrintDocument(DocumentFor(v, style)))
  {
    if v.entries != [] {
      NodeIsClean(o, v, style, 0);
    }
  }

  lemma DocumentLines(o: Scalars, d: Document)
    ensures |PrintDocument(d)| <= Size(MeaningOfDocument(o, d))
    ensures |PrintDocument(d)| > 1 ==> |PrintDocument(d)| < Size(MeaningOfDocument(o, d))
  {
    if d.Document? {
      NodeLines(o, MapNode(d.root), 0);
    }
  }

  /** Every in-bounds mapping tree, printed in any of the styles, decodes to that same tree. */
  lemma RoundTrip(o: Scalars, v: Value, style: Style, terminated: bool)
    requires v.Map? && Printable(v) && Fits(v, MAX_DEPTH + 1) && Size(v) <= MAX_NODES
    requires Utf8Length(RenderedDocument(DocumentFor(v, style), terminated)) <= MAX_INPUT
    ensures Decoded(o, RenderedDocument(DocumentFor(v, style), terminated)) == Some(v)
  {
    hide Printable, Fits, Size, DocumentFor, PrintDocument, MeaningOfDocument, ValidDocument, Decoded, Rendered, LineCount;
    var d := DocumentFor(v, style);
    var text := RenderedDocument(d, terminated);
    DocumentForMeans(o, v, style);
    DocumentWellFormed(o, d);
    PrintedDocumentIsClean(o, v, style);
    RenderedIsAllowed(PrintDocument(d), terminated);
    DocumentLines(o, d);
    assert TextAllowed(text);
    DecodesExactlyRenderedLayouts(o, text, v);
  }

  // ---------- What every decoded value satisfies ----------

  /** Keys are distinct at every level, and a container at `depth` keeps within `MAX_DEPTH + 2`. */
  ghost predicate Bounded(v: Value, depth: nat)
    decreases v
  {
    match v
    case Seq(items) => depth <= MAX_DEPTH + 2 && forall i | 0 <= i < |items| :: Bounded(items[i], depth + 1)
    case Map(entries) =>
      && depth <= MAX_DEPTH + 2
      && DistinctKeys(entries)
      && forall i | 0 <= i < |entries| :: IsConservativeKey(entries[i].key) && Bounded(entries[i].value, depth + 1)
    case _ => true
  }

  lemma RawIsBounded(o: Scalars, raw: string, depth: nat)
    requires depth <= MAX_DEPTH + 2
    ensures Bounded(RawMeaning(o, raw), depth)
  {
  }

  lemma {:induction false} NodeIsBounded(o: Scalars, n: Node, depth: nat)
    requires ValidNode(o, n, depth)
    ensures Bounded(Meaning(o, n), depth)
    decreases n, 0
  {
    if n.MapNode? {
      EntriesAreBounded(o, n.entries, depth);
    } else {
      var vs := MeaningOfItems(o, n.items);
      ItemMeaningAt(o, n.items);
      forall i | 0 <= i < |vs| ensures Bounded(vs[i], depth + 1) {
        ItemIsBounded(o, n.items[i], depth);
      }
    }
  }

  lemma {:induction false} ItemMeaningAt(o: Scalars, items: seq<NodeItem>)
    ensures |MeaningOfItems(o, items)| == |items|
    ensures forall i | 0 <= i < |items| :: MeaningOfItems(o, items)[i] == MeaningOfItem(o, items[i])
  {
    if items != [] { ItemMeaningAt(o, items[1..]); }
  }

  lemma {:induction false} EntryMeaningAt(o: Scalars, es: seq<NodeEntry>)
    ensures forall i | 0 <= i < |es| :: YamlLayouts.MeaningOfEntries(o, es)[i] == MeaningOfEntry(o, es[i])
  {
    if es != [] { EntryMeaningAt(o, es[1..]); }
  }

  lemma {:induction false} EntriesAreBounded(o: Scalars, es: seq<NodeEntry>, depth: nat)
    requires depth <= MAX_DEPTH + 1 && DistinctEntries(es)
    requires forall i | 0 <= i < |es| :: ValidEntry(o, es[i], depth)
    ensures Bounded(Map(YamlLayouts.MeaningOfEntries(o, es)), depth)
    decreases es, 0
  {
    var ms := YamlLayouts.MeaningOfEntries(o, es);
    EntryMeaningAt(o, es);
    forall i | 0 <= i < |es| ensures ms[i].key == es[i].key && IsConservativeKey(ms[i].key) && Bounded(ms[i].value, depth + 1) {
      EntryKey(o, es[i]);
      if es[i].Nested? {
        NodeIsBounded(o, es[i].child, depth + 1);
      } else {
        RawIsBounded(o, es[i].raw, depth + 1);
      }
    }
  }

  lemma {:induction false} ItemIsBounded(o: Scalars, it: NodeItem, depth: nat)
    requires ValidItem(o, it, depth) && depth <= MAX_DEPTH
    ensures Bounded(MeaningOfItem(o, it), depth + 1)
    decreases it, 1
  {
    match it {
      case ScalarItem(raw) => RawIsBounded(o, raw, depth + 1);
      case BareItem(child) => NodeIsBounded(o, child, depth + 1);
      case MapItem(es) => EntriesAreBounded(o, es, depth + 1);
    }
  }

  /** A decoded value is a mapping within every bound, whatever text it came from. */
  lemma DecodedIsBounded(o: Scalars, text: string)
    ensures Decoded(o, text).Some? ==>
      var v := Decoded(o, text).value;
      v.Map? && Bounded(v, 0) && Size(v) <= MAX_NODES
  {
    if Decoded(o, text).Some? {
      var lines := PreparedLines(text).value;
      PreparedIsRendered(text, lines);
      var d := DocumentReads(o, lines);
      if d.Document? {
        NodeIsBounded(o, MapNode(d.root), 0);
      }
    }
  }
}
