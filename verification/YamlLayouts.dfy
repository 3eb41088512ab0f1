/** The legal layouts of a document, and the theorem that the decoder accepts exactly those. */
module YamlLayouts {
  import opened Basics
  import opened Digits
  import opened ClosedYaml
  import opened YamlText

  // ---------- Layouts ----------

  /** A block as it is laid out: every layout choice is a constructor or a field. */
  datatype Node = MapNode(entries: seq<NodeEntry>) | SeqNode(items: seq<NodeItem>)

  /** A value on the key's own line, or a block below it, at the key's indent or two deeper. */
  datatype NodeEntry = Inline(key: string, raw: string) | Nested(key: string, deeper: bool, child: Node)

  /** After a dash: a scalar, nothing (the block starts on the next line), or a mapping's first entry. */
  datatype NodeItem = ScalarItem(raw: string) | BareItem(child: Node) | MapItem(entries: seq<NodeEntry>)

  function Body(e: NodeEntry): string {
    match e
    case Inline(key, raw) => key + ": " + raw
    case Nested(key, _, _) => key + ":"
  }

  function RawOf(e: NodeEntry): Option<string> {
    if e.Inline? then Some(e.raw) else None
  }

  function Print(n: Node, indent: nat): seq<Line>
    decreases n, 0
  {
    match n
    case MapNode(entries) => PrintEntries(entries, indent)
    case SeqNode(items) => PrintItems(items, indent)
  }

  /** The lines below an entry's own line. */
  function Tail(e: NodeEntry, indent: nat): seq<Line>
    decreases e, 1
  {
    match e
    case Inline(_, _) => []
    case Nested(_, deeper, child) => Print(child, if deeper then indent + 2 else indent)
  }

  function PrintEntries(es: seq<NodeEntry>, indent: nat): (r: seq<Line>)
    decreases es, 2
  {
    if es == [] then []
    else [Line(indent, false, Body(es[0]))] + (Tail(es[0], indent) + PrintEntries(es[1..], indent))
  }

  function PrintItem(it: NodeItem, indent: nat): (r: seq<Line>)
    ensures r != []
    decreases it, 3
  {
    match it
    case ScalarItem(raw) => [Line(indent, true, raw)]
    case BareItem(child) => [Line(indent, true, "")] + Print(child, indent + 2)
    case MapItem(es) =>
      if es == [] then [Line(indent, true, "")]
      else [Line(indent, true, Body(es[0]))] + (Tail(es[0], indent + 2) + PrintEntries(es[1..], indent + 2))
  }

  function PrintItems(items: seq<NodeItem>, indent: nat): seq<Line>
    decreases items, 4
  {
    if items == [] then [] else PrintItem(items[0], indent) + PrintItems(items[1..], indent)
  }

  // ---------- What a layout means ----------

  function RawMeaning(o: Scalars, raw: string): Value {
    var v := ScalarOf(o, raw);
    if v.Some? then v.value else Null
  }

  function Meaning(o: Scalars, n: Node): Value
    decreases n, 0
  {
    match n
    case MapNode(entries) => Map(MeaningOfEntries(o, entries))
    case SeqNode(items) => Seq(MeaningOfItems(o, items))
  }

  function MeaningOfEntry(o: Scalars, e: NodeEntry): Entry
    decreases e, 1
  {
    match e
    case Inline(key, raw) => Entry(key, RawMeaning(o, raw))
    case Nested(key, _, child) => Entry(key, Meaning(o, child))
  }

  function MeaningOfEntries(o: Scalars, es: seq<NodeEntry>): (r: seq<Entry>)
    ensures |r| == |es|
    decreases es, 2
  {
    if es == [] then [] else [MeaningOfEntry(o, es[0])] + MeaningOfEntries(o, es[1..])
  }

  function MeaningOfItem(o: Scalars, it: NodeItem): Value
    decreases it, 3
  {
    match it
    case ScalarItem(raw) => RawMeaning(o, raw)
    case BareItem(child) => Meaning(o, child)
    case MapItem(es) => Map(MeaningOfEntries(o, es))
  }

  function MeaningOfItems(o: Scalars, items: seq<NodeItem>): seq<Value>
    decreases items, 4
  {
    if items == [] then [] else [MeaningOfItem(o, items[0])] + MeaningOfItems(o, items[1..])
  }

  // ---------- Which layouts are legal ----------

  predicate RawOk(raw: string) {
    raw != "" && raw[|raw| - 1] != ' ' && '\n' !in raw
  }

  ghost predicate DistinctEntries(es: seq<NodeEntry>) {
    forall i, j | 0 <= i < j < |es| :: es[i].key != es[j].key
  }

  /** Blocks nest at most `MAX_DEPTH` deep; only the first line of an item's mapping escapes the count. */
  ghost predicate ValidNode(o: Scalars, n: Node, depth: nat)
    decreases n
  {
    && depth <= MAX_DEPTH
    && match n
       case MapNode(es) => es != [] && DistinctEntries(es) && forall i | 0 <= i < |es| :: ValidEntry(o, es[i], depth)
       case SeqNode(items) => items != [] && forall i | 0 <= i < |items| :: ValidItem(o, items[i], depth)
  }

  ghost predicate ValidEntry(o: Scalars, e: NodeEntry, depth: nat)
    decreases e
  {
    && IsConservativeKey(e.key)
    && match e
       case Inline(_, raw) => RawOk(raw) && ScalarOf(o, raw).Some?
       case Nested(_, deeper, child) => (deeper || child.SeqNode?) && ValidNode(o, child, depth + 1)
  }

  ghost predicate ValidItem(o: Scalars, it: NodeItem, depth: nat)
    decreases it
  {
    match it
    case ScalarItem(raw) => RawOk(raw) && PairOf(raw).None? && ScalarOf(o, raw).Some?
    case BareItem(child) => ValidNode(o, child, depth + 1)
    case MapItem(es) => es != [] && DistinctEntries(es) && forall i | 0 <= i < |es| :: ValidEntry(o, es[i], depth + 1)
  }

  // ---------- Lines in place ----------

  predicate At(lines: seq<Line>, i: nat, part: seq<Line>) {
    i + |part| <= |lines| && lines[i..i + |part|] == part
  }

  lemma AtSplit(lines: seq<Line>, i: nat, a: seq<Line>, b: seq<Line>)
    ensures At(lines, i, a + b) <==> At(lines, i, a) && At(lines, i + |a|, b)
  {
    var j, k := i + |a|, i + |a| + |b|;
    if k <= |lines| {
      assert lines[i..k] == lines[i..j] + lines[j..k];
      assert lines[i..k][..|a|] == lines[i..j] && lines[i..k][|a|..] == lines[j..k];
      assert (a + b)[..|a|] == a && (a + b)[|a|..] == b;
    }
  }

  lemma AtHead(lines: seq<Line>, i: nat, head: Line, rest: seq<Line>)
    ensures At(lines, i, [head] + rest) <==> i < |lines| && lines[i] == head && At(lines, i + 1, rest)
  {
    AtSplit(lines, i, [head], rest);
    if i < |lines| {
      assert lines[i..i + 1] == [lines[i]];
    }
  }

  // ---------- Entry lines ----------

  lemma FirstColonIs(s: string, k: nat)
    requires k < |s| && s[k] == ':' && forall i | 0 <= i < k :: s[i] != ':'
    ensures FirstColon(s) == k
  {
  }

  lemma PairOfBody(e: NodeEntry)
    requires IsConservativeKey(e.key) && (e.Inline? ==> e.raw != "")
    ensures PairOf(Body(e)) == Some(Pair(e.key, RawOf(e)))
    ensures Body(e) != ""
  {
    var body, k := Body(e), |e.key|;
    assert forall i | 0 <= i < k :: body[i] == e.key[i];
    FirstColonIs(body, k);
    assert body[..k] == e.key;
    if e.Inline? {
      assert body[k + 1..] == " " + e.raw;
      assert (" " + e.raw)[1..] == e.raw;
    } else {
      assert body[k + 1..] == "";
    }
  }

  lemma BodyOfPair(body: string)
    requires PairOf(body).Some?
    ensures var p := PairOf(body).value;
      && IsConservativeKey(p.key)
      && body == p.key + ":" + (if p.raw.Some? then " " + p.raw.value else "")
      && (p.raw.Some? ==> p.raw.value != "")
  {
    var k := FirstColon(body);
    var rest := body[k + 1..];
    assert body == body[..k] + ":" + rest;
    if rest != "" {
      assert rest == " " + rest[1..];
    }
  }

  // ---------- Every legal layout decodes to its meaning ----------

  /** What may come after an entry of a mapping at `indent`. */
  predicate FollowsEntry(lines: seq<Line>, j: nat, indent: nat) {
    j >= |lines| || lines[j].indent < indent || (lines[j].indent == indent && !lines[j].sequence)
  }

  predicate FollowsItem(lines: seq<Line>, j: nat, indent: nat) {
    j >= |lines| || lines[j].indent <= indent
  }

  predicate FollowsNode(lines: seq<Line>, j: nat, indent: nat, n: Node) {
    j >= |lines| || lines[j].indent < indent || (n.SeqNode? && lines[j].indent == indent && !lines[j].sequence)
  }

  ghost predicate Fresh(acc: seq<Entry>, es: seq<NodeEntry>) {
    DistinctEntries(es) && forall i | 0 <= i < |es| :: !HasKey(acc, es[i].key)
  }

  lemma FreshStep(o: Scalars, acc: seq<Entry>, es: seq<NodeEntry>)
    requires es != [] && Fresh(acc, es)
    ensures Fresh(acc + [MeaningOfEntry(o, es[0])], es[1..])
    ensures !HasKey(acc, es[0].key)
  {
    var acc' := acc + [MeaningOfEntry(o, es[0])];
    forall i | 0 <= i < |es[1..]| ensures !HasKey(acc', es[1..][i].key) {
      assert es[1..][i] == es[i + 1];
      assert forall k | 0 <= k < |acc| :: acc'[k] == acc[k];
    }
  }

  lemma FreshStart(es: seq<NodeEntry>)
    requires DistinctEntries(es)
    ensures Fresh([], es)
  {
  }

  lemma PrintHead(o: Scalars, n: Node, indent: nat, depth: nat)
    requires ValidNode(o, n, depth)
    ensures var p := Print(n, indent); p != [] && p[0].indent == indent && p[0].sequence == n.SeqNode?
  {
    if n.SeqNode? {
      ItemHead(n.items[0], indent);
      assert Print(n, indent) == PrintItem(n.items[0], indent) + PrintItems(n.items[1..], indent);
    } else {
      assert Print(n, indent)[0] == Line(indent, false, Body(n.entries[0]));
    }
  }

  lemma {:induction false} BlockPrints(o: Scalars, lines: seq<Line>, n: Node, i: nat, indent: nat, depth: nat)
    requires ValidNode(o, n, depth)
    requires At(lines, i, Print(n, indent)) && FollowsNode(lines, i + |Print(n, indent)|, indent, n)
    ensures BlockAt(o, lines, i, indent, depth) == Some(Parsed(Meaning(o, n), i + |Print(n, indent)|))
    decreases n, 0
  {
    hide *;
    var p := Print(n, indent);
    PrintHead(o, n, indent, depth);
    AtFirst(lines, i, p);
    ValidNodeParts(o, n, depth);
    PrintIs(n, indent);
    MeaningIs(o, n);
    BlockIs(o, lines, i, indent, depth);
    FollowsNodeIs(lines, i + |p|, indent, n);
    match n {
      case MapNode(es) =>
        FreshStart(es);
        EntriesPrint(o, lines, es, i, indent, depth, []);
        assert [] + MeaningOfEntries(o, es) == MeaningOfEntries(o, es);
      case SeqNode(items) =>
        ItemsPrint(o, lines, items, i, indent, depth, []);
        assert [] + MeaningOfItems(o, items) == MeaningOfItems(o, items);
    }
  }

  lemma AtFirst(lines: seq<Line>, i: nat, part: seq<Line>)
    requires At(lines, i, part) && part != []
    ensures i < |lines| && lines[i] == part[0]
  {
    assert lines[i] == lines[i..i + |part|][0];
  }

  lemma ValidNodeParts(o: Scalars, n: Node, depth: nat)
    requires ValidNode(o, n, depth)
    ensures depth <= MAX_DEPTH
    ensures n.MapNode? ==> DistinctEntries(n.entries) && forall i | 0 <= i < |n.entries| :: ValidEntry(o, n.entries[i], depth)
    ensures n.SeqNode? ==> forall i | 0 <= i < |n.items| :: ValidItem(o, n.items[i], depth)
  {
  }

  lemma PrintIs(n: Node, indent: nat)
    ensures Print(n, indent) == if n.MapNode? then PrintEntries(n.entries, indent) else PrintItems(n.items, indent)
  {
  }

  lemma MeaningIs(o: Scalars, n: Node)
    ensures Meaning(o, n) == if n.MapNode? then Map(MeaningOfEntries(o, n.entries)) else Seq(MeaningOfItems(o, n.items))
  {
  }

  lemma FollowsNodeIs(lines: seq<Line>, j: nat, indent: nat, n: Node)
    requires FollowsNode(lines, j, indent, n)
    ensures j >= |lines| || lines[j].indent < indent || (n.SeqNode? && lines[j].indent == indent && !lines[j].sequence)
  {
  }

  lemma BlockIs(o: Scalars, lines: seq<Line>, i: nat, indent: nat, depth: nat)
    requires i < |lines| && lines[i].indent == indent && depth <= MAX_DEPTH
    ensures lines[i].sequence ==>
      var items := ItemsFrom(o, lines, i, indent, depth, []);
      BlockAt(o, lines, i, indent, depth)
      == if items.None? then None else Some(Parsed(Seq(items.value.value), items.value.next))
    ensures !lines[i].sequence ==>
      var entries := EntriesFrom(o, lines, i, indent, depth, []);
      BlockAt(o, lines, i, indent, depth)
      == if entries.None? then None else Some(Parsed(Map(entries.value.value), entries.value.next))
  {
    hide ItemsFrom, EntriesFrom;
  }

  lemma {:induction false} ValuePrints(o: Scalars, lines: seq<Line>, e: NodeEntry, i: nat, indent: nat, depth: nat)
    requires i <= |lines| && ValidEntry(o, e, depth)
    requires At(lines, i, Tail(e, indent)) && FollowsEntry(lines, i + |Tail(e, indent)|, indent)
    ensures EntryValueAt(o, lines, i, RawOf(e), indent, depth)
         == Some(Parsed(MeaningOfEntry(o, e).value, i + |Tail(e, indent)|))
    decreases e, 1
  {
    match e {
      case Inline(_, _) =>
      case Nested(_, deeper, child) =>
        var c := if deeper then indent + 2 else indent;
        var p := Print(child, c);
        PrintHead(o, child, c, depth + 1);
        assert lines[i] == lines[i..i + |p|][0] == p[0];
        BlockPrints(o, lines, child, i, c, depth + 1);
    }
  }

  lemma {:induction false} EntryPrints(
    o: Scalars, lines: seq<Line>, e: NodeEntry, i: nat, indent: nat, depth: nat, acc: seq<Entry>)
    requires ValidEntry(o, e, depth) && !HasKey(acc, e.key)
    requires i < |lines| && lines[i] == Line(indent, false, Body(e))
    requires At(lines, i + 1, Tail(e, indent)) && FollowsEntry(lines, i + 1 + |Tail(e, indent)|, indent)
    ensures EntriesFrom(o, lines, i, indent, depth, acc)
         == EntriesFrom(o, lines, i + 1 + |Tail(e, indent)|, indent, depth, acc + [MeaningOfEntry(o, e)])
    decreases e, 2
  {
    hide *;
    ValidEntryParts(o, e, depth);
    PairOfBody(e);
    ValuePrints(o, lines, e, i + 1, indent, depth);
    EntryKey(o, e);
    EntriesStep(o, lines, i, indent, depth, acc);
    var m := MeaningOfEntry(o, e);
    assert m == Entry(e.key, m.value);
  }

  lemma {:induction false} EntriesPrint(
    o: Scalars, lines: seq<Line>, es: seq<NodeEntry>, i: nat, indent: nat, depth: nat, acc: seq<Entry>)
    requires Fresh(acc, es) && forall k | 0 <= k < |es| :: ValidEntry(o, es[k], depth)
    requires At(lines, i, PrintEntries(es, indent))
    requires var j := i + |PrintEntries(es, indent)|; j >= |lines| || lines[j].indent < indent
    ensures EntriesFrom(o, lines, i, indent, depth, acc)
         == Some(Parsed(acc + MeaningOfEntries(o, es), i + |PrintEntries(es, indent)|))
    decreases es, 3
  {
    hide EntriesFrom, ValidEntry, HasKey, Fresh, MeaningOfEntry, Tail, Body, At;
    AtFits(lines, i, PrintEntries(es, indent));
    if es == [] {
      assert acc + [] == acc;
      if i < |lines| {
        EntriesStep(o, lines, i, indent, depth, acc);
      } else {
        EntriesEnd(o, lines, indent, depth, acc);
      }
    } else {
      var e, rest := es[0], es[1..];
      var tail, after := Tail(e, indent), PrintEntries(rest, indent);
      AtHead(lines, i, Line(indent, false, Body(e)), tail + after);
      AtSplit(lines, i + 1, tail, after);
      var j := i + 1 + |tail|;
      EntriesHead(lines, rest, j, indent);
      FreshStep(o, acc, es);
      EntryPrints(o, lines, e, i, indent, depth, acc);
      var m := MeaningOfEntry(o, e);
      EntriesPrint(o, lines, rest, j, indent, depth, acc + [m]);
      assert acc + [m] + MeaningOfEntries(o, rest) == acc + MeaningOfEntries(o, es);
    }
  }

  lemma AtFits(lines: seq<Line>, i: nat, part: seq<Line>)
    requires At(lines, i, part)
    ensures i + |part| <= |lines|
  {
  }

  lemma EntryKey(o: Scalars, e: NodeEntry)
    ensures MeaningOfEntry(o, e).key == e.key
  {
  }

  lemma ValidEntryParts(o: Scalars, e: NodeEntry, depth: nat)
    requires ValidEntry(o, e, depth)
    ensures IsConservativeKey(e.key) && (e.Inline? ==> e.raw != "")
  {
  }

  /** The line after an entry is the next key or lies outside the mapping. */
  lemma EntriesHead(lines: seq<Line>, es: seq<NodeEntry>, j: nat, indent: nat)
    requires At(lines, j, PrintEntries(es, indent))
    requires var k := j + |PrintEntries(es, indent)|; k >= |lines| || lines[k].indent < indent
    ensures FollowsEntry(lines, j, indent)
  {
    if es != [] {
      AtHead(lines, j, Line(indent, false, Body(es[0])), Tail(es[0], indent) + PrintEntries(es[1..], indent));
    }
  }

  lemma {:induction false} MapItemPrints(
    o: Scalars, lines: seq<Line>, es: seq<NodeEntry>, i: nat, indent: nat, depth: nat)
    requires es != [] && DistinctEntries(es) && forall k | 0 <= k < |es| :: ValidEntry(o, es[k], depth + 1)
    requires i < |lines| && lines[i] == Line(indent, true, Body(es[0]))
    requires At(lines, i + 1, Tail(es[0], indent + 2) + PrintEntries(es[1..], indent + 2))
    requires var k := i + 1 + |Tail(es[0], indent + 2)| + |PrintEntries(es[1..], indent + 2)|;
      FollowsItem(lines, k, indent)
    ensures ItemAt(o, lines, i, indent, depth)
         == Some(Parsed(Map(MeaningOfEntries(o, es)),
                        i + 1 + |Tail(es[0], indent + 2)| + |PrintEntries(es[1..], indent + 2)|))
    decreases es, 4
  {
    hide EntriesFrom, EntryValueAt, BlockAt, PairOf, ScalarOf, ValidEntry, Body, MeaningOfEntry, Tail, At;
    var e, rest := es[0], es[1..];
    var tail, after := Tail(e, indent + 2), PrintEntries(rest, indent + 2);
    AtSplit(lines, i + 1, tail, after);
    var j := i + 1 + |tail|;
    EntriesHead(lines, rest, j, indent + 2);
    ValidEntryParts(o, e, depth + 1);
    PairOfBody(e);
    ValuePrints(o, lines, e, i + 1, indent + 2, depth + 1);
    FreshStart(es);
    FreshStep(o, [], es);
    EntryKey(o, e);
    var m := MeaningOfEntry(o, e);
    assert [] + [m] == [m] && m == Entry(e.key, m.value);
    AtFits(lines, i + 1, tail);
    EntriesPrint(o, lines, rest, j, indent + 2, depth + 1, [m]);
    assert [m] + MeaningOfEntries(o, rest) == MeaningOfEntries(o, es);
  }

  lemma {:induction false} BareItemPrints(o: Scalars, lines: seq<Line>, child: Node, i: nat, indent: nat, depth: nat)
    requires ValidNode(o, child, depth + 1)
    requires i < |lines| && lines[i] == Line(indent, true, "")
    requires At(lines, i + 1, Print(child, indent + 2))
    requires FollowsItem(lines, i + 1 + |Print(child, indent + 2)|, indent)
    ensures ItemAt(o, lines, i, indent, depth) == Some(Parsed(Meaning(o, child), i + 1 + |Print(child, indent + 2)|))
    decreases child, 5
  {
    hide BlockAt, Meaning, ValidNode, Print, At;
    PrintHead(o, child, indent + 2, depth + 1);
    AtFirst(lines, i + 1, Print(child, indent + 2));
    BlockPrints(o, lines, child, i + 1, indent + 2, depth + 1);
  }

  lemma {:induction false} ItemPrints(o: Scalars, lines: seq<Line>, it: NodeItem, i: nat, indent: nat, depth: nat)
    requires i < |lines| && ValidItem(o, it, depth)
    requires At(lines, i, PrintItem(it, indent)) && FollowsItem(lines, i + |PrintItem(it, indent)|, indent)
    ensures lines[i].indent == indent && lines[i].sequence
    ensures ItemAt(o, lines, i, indent, depth) == Some(Parsed(MeaningOfItem(o, it), i + |PrintItem(it, indent)|))
    decreases it, 5
  {
    match it {
      case ScalarItem(raw) =>
        hide EntriesFrom, EntryValueAt, BlockAt, PairOf, ScalarOf;
        AtHead(lines, i, Line(indent, true, raw), []);
      case BareItem(child) =>
        hide BlockAt, Meaning, ValidNode, At, Print;
        var p := Print(child, indent + 2);
        AtHead(lines, i, Line(indent, true, ""), p);
        BareItemPrints(o, lines, child, i, indent, depth);
      case MapItem(es) =>
        hide ItemAt, ValidEntry, MeaningOfEntries, Body;
        AtHead(lines, i, Line(indent, true, Body(es[0])),
               Tail(es[0], indent + 2) + PrintEntries(es[1..], indent + 2));
        MapItemPrints(o, lines, es, i, indent, depth);
    }
  }

  lemma {:induction false} ItemsPrint(
    o: Scalars, lines: seq<Line>, items: seq<NodeItem>, i: nat, indent: nat, depth: nat, acc: seq<Value>)
    requires forall k | 0 <= k < |items| :: ValidItem(o, items[k], depth)
    requires At(lines, i, PrintItems(items, indent))
    requires var j := i + |PrintItems(items, indent)|;
      j >= |lines| || lines[j].indent < indent || (lines[j].indent == indent && !lines[j].sequence)
    ensures ItemsFrom(o, lines, i, indent, depth, acc)
         == Some(Parsed(acc + MeaningOfItems(o, items), i + |PrintItems(items, indent)|))
    decreases items, 6
  {
    hide *;
    AtFits(lines, i, PrintItems(items, indent));
    ItemsStep(o, lines, i, indent, depth, acc);
    if items == [] {
      NoItems(o, indent, acc);
    } else {
      var it, rest := items[0], items[1..];
      var head, after := PrintItem(it, indent), PrintItems(rest, indent);
      assert items == [it] + rest;
      ItemsCons(o, it, rest, indent);
      AtSplit(lines, i, head, after);
      ItemsHead(o, lines, rest, i + |head|, indent, depth);
      AtFits(lines, i, head);
      ItemPrints(o, lines, it, i, indent, depth);
      var m := MeaningOfItem(o, it);
      ItemsPrint(o, lines, rest, i + |head|, indent, depth, acc + [m]);
      assert acc + [m] + MeaningOfItems(o, rest) == acc + MeaningOfItems(o, items);
    }
  }

  /** One unfolding of the item loop. */
  lemma ItemsStep(o: Scalars, lines: seq<Line>, i: nat, indent: nat, depth: nat, acc: seq<Value>)
    requires i <= |lines|
    ensures ItemsFrom(o, lines, i, indent, depth, acc)
         == if i >= |lines| || lines[i].indent != indent || !lines[i].sequence then Some(Parsed(acc, i))
            else
              var item := ItemAt(o, lines, i, indent, depth);
              if item.None? then None
              else ItemsFrom(o, lines, item.value.next, indent, depth, acc + [item.value.value])
  {
    hide ItemAt;
  }

  lemma NoItems(o: Scalars, indent: nat, acc: seq<Value>)
    ensures acc + MeaningOfItems(o, []) == acc && PrintItems([], indent) == []
  {
  }

  lemma ItemsCons(o: Scalars, it: NodeItem, rest: seq<NodeItem>, indent: nat)
    ensures MeaningOfItems(o, [it] + rest) == [MeaningOfItem(o, it)] + MeaningOfItems(o, rest)
    ensures PrintItems([it] + rest, indent) == PrintItem(it, indent) + PrintItems(rest, indent)
    ensures PrintItem(it, indent) != []
  {
    assert ([it] + rest)[1..] == rest;
  }

  lemma ItemHead(it: NodeItem, indent: nat)
    ensures PrintItem(it, indent)[0].indent == indent && PrintItem(it, indent)[0].sequence
  {
  }

  lemma ItemsHead(o: Scalars, lines: seq<Line>, items: seq<NodeItem>, j: nat, indent: nat, depth: nat)
    requires At(lines, j, PrintItems(items, indent))
    requires var k := j + |PrintItems(items, indent)|; k >= |lines| || lines[k].indent <= indent
    ensures FollowsItem(lines, j, indent)
  {
    if items != [] {
      var head := PrintItem(items[0], indent);
      AtSplit(lines, j, head, PrintItems(items[1..], indent));
      ItemHead(items[0], indent);
      assert lines[j] == lines[j..j + |head|][0];
    }
  }

  // ---------- Everything the decoder accepts is a legal layout ----------

  lemma RawOkOfBody(line: Line)
    requires WellFormed(line) && PairOf(line.body).Some?
    ensures var p := PairOf(line.body).value; p.raw.Some? ==> RawOk(p.raw.value)
  {
    BodyOfPair(line.body);
    var p := PairOf(line.body).value;
    if p.raw.Some? {
      var prefix := p.key + ":" + " ";
      assert line.body == prefix + p.raw.value;
      assert line.body[|prefix|..] == p.raw.value;
      NoNewlineInSuffix(line.body, |prefix|);
    }
  }

  lemma LineOfEntry(line: Line, e: NodeEntry)
    requires PairOf(line.body) == Some(Pair(e.key, RawOf(e)))
    ensures line.body == Body(e)
  {
    BodyOfPair(line.body);
    if e.Inline? {
      assert e.key + ":" + (" " + e.raw) == e.key + ": " + e.raw;
    } else {
      assert e.key + ":" + "" == e.key + ":";
    }
  }

  lemma FreshCons(o: Scalars, acc: seq<Entry>, e: NodeEntry, rest: seq<NodeEntry>)
    requires !HasKey(acc, e.key) && Fresh(acc + [MeaningOfEntry(o, e)], rest)
    ensures Fresh(acc, [e] + rest)
  {
    var acc' := acc + [MeaningOfEntry(o, e)];
    EntryKey(o, e);
    assert acc'[|acc|].key == e.key;
    forall k | 0 <= k < |rest| ensures !HasKey(acc, rest[k].key) && rest[k].key != e.key {
      assert !HasKey(acc', rest[k].key);
      assert forall j | 0 <= j < |acc| :: acc[j] == acc'[j];
    }
  }

  lemma {:induction false} BlockReads(o: Scalars, lines: seq<Line>, i: nat, indent: nat, depth: nat)
    returns (n: Node)
    requires i <= |lines| && AllWellFormed(lines) && BlockAt(o, lines, i, indent, depth).Some?
    ensures ValidNode(o, n, depth) && At(lines, i, Print(n, indent))
    ensures BlockAt(o, lines, i, indent, depth) == Some(Parsed(Meaning(o, n), i + |Print(n, indent)|))
    decreases |lines| - i, 3
  {
    hide *;
    BlockNeeds(o, lines, i, indent, depth);
    BlockIs(o, lines, i, indent, depth);
    if lines[i].sequence {
      var items := ItemsRead(o, lines, i, indent, depth, []);
      assert [] + MeaningOfItems(o, items) == MeaningOfItems(o, items);
      n := SeqNode(items);
      ValidSeqNode(o, items, depth);
    } else {
      var es := EntriesRead(o, lines, i, indent, depth, []);
      assert [] + MeaningOfEntries(o, es) == MeaningOfEntries(o, es);
      n := MapNode(es);
      ValidMapNode(o, es, depth);
    }
    PrintIs(n, indent);
    MeaningIs(o, n);
  }

  lemma BlockNeeds(o: Scalars, lines: seq<Line>, i: nat, indent: nat, depth: nat)
    requires i <= |lines| && BlockAt(o, lines, i, indent, depth).Some?
    ensures i < |lines| && lines[i].indent == indent && depth <= MAX_DEPTH
  {
  }

  lemma ValidSeqNode(o: Scalars, items: seq<NodeItem>, depth: nat)
    requires depth <= MAX_DEPTH && items != [] && forall k | 0 <= k < |items| :: ValidItem(o, items[k], depth)
    ensures ValidNode(o, SeqNode(items), depth)
  {
  }

  lemma ValidMapNode(o: Scalars, es: seq<NodeEntry>, depth: nat)
    requires depth <= MAX_DEPTH && es != [] && Fresh([], es)
    requires forall k | 0 <= k < |es| :: ValidEntry(o, es[k], depth)
    ensures ValidNode(o, MapNode(es), depth)
  {
  }

  lemma {:induction false} ValueReads(
    o: Scalars, lines: seq<Line>, i: nat, key: string, raw: Option<string>, indent: nat, depth: nat)
    returns (e: NodeEntry)
    requires i <= |lines| && AllWellFormed(lines) && IsConservativeKey(key)
    requires raw.Some? ==> RawOk(raw.value)
    requires EntryValueAt(o, lines, i, raw, indent, depth).Some?
    ensures e.key == key && RawOf(e) == raw && ValidEntry(o, e, depth) && At(lines, i, Tail(e, indent))
    ensures EntryValueAt(o, lines, i, raw, indent, depth)
         == Some(Parsed(MeaningOfEntry(o, e).value, i + |Tail(e, indent)|))
    decreases |lines| - i, 5
  {
    hide BlockAt, ScalarOf, IsConservativeKey, RawOk, WellFormed;
    if raw.Some? {
      e := Inline(key, raw.value);
      assert lines[i..i] == [];
    } else {
      var c := lines[i].indent;
      var child := BlockReads(o, lines, i, c, depth + 1);
      PrintHead(o, child, c, depth + 1);
      AtFirst(lines, i, Print(child, c));
      e := Nested(key, c == indent + 2, child);
    }
  }

  lemma {:induction false} EntriesRead(
    o: Scalars, lines: seq<Line>, i: nat, indent: nat, depth: nat, acc: seq<Entry>) returns (es: seq<NodeEntry>)
    requires i <= |lines| && AllWellFormed(lines) && EntriesFrom(o, lines, i, indent, depth, acc).Some?
    ensures Fresh(acc, es) && (forall k | 0 <= k < |es| :: ValidEntry(o, es[k], depth))
    ensures At(lines, i, PrintEntries(es, indent))
    ensures EntriesFrom(o, lines, i, indent, depth, acc)
         == Some(Parsed(acc + MeaningOfEntries(o, es), i + |PrintEntries(es, indent)|))
    ensures i < |lines| && lines[i].indent == indent && !lines[i].sequence ==> es != []
    decreases |lines| - i, 0
  {
    hide *;
    if i < |lines| {
      EntriesStep(o, lines, i, indent, depth, acc);
    } else {
      EntriesEnd(o, lines, indent, depth, acc);
    }
    if i >= |lines| || lines[i].indent != indent || lines[i].sequence {
      es := [];
      NoEntries(o, lines, i, indent, acc);
    } else {
      var pair := PairOf(lines[i].body).value;
      LineWellFormed(lines, i);
      RawOkOfBody(lines[i]);
      BodyOfPair(lines[i].body);
      var e := ValueReads(o, lines, i + 1, pair.key, pair.raw, indent, depth);
      LineOfEntry(lines[i], e);
      var m := MeaningOfEntry(o, e);
      EntryKey(o, e);
      assert m == Entry(pair.key, m.value);
      var tail := Tail(e, indent);
      AtFits(lines, i + 1, tail);
      var j := i + 1 + |tail|;
      var rest := EntriesRead(o, lines, j, indent, depth, acc + [m]);
      es := [e] + rest;
      FreshCons(o, acc, e, rest);
      EntriesCons(o, e, rest, indent);
      AtSplit(lines, i + 1, tail, PrintEntries(rest, indent));
      AtHead(lines, i, Line(indent, false, Body(e)), tail + PrintEntries(rest, indent));
      assert acc + [m] + MeaningOfEntries(o, rest) == acc + ([m] + MeaningOfEntries(o, rest));
    }
  }

  lemma LineWellFormed(lines: seq<Line>, i: nat)
    requires AllWellFormed(lines) && i < |lines|
    ensures WellFormed(lines[i])
  {
  }

  lemma NoEntries(o: Scalars, lines: seq<Line>, i: nat, indent: nat, acc: seq<Entry>)
    requires i <= |lines|
    ensures Fresh(acc, []) && At(lines, i, PrintEntries([], indent)) && PrintEntries([], indent) == []
    ensures acc + MeaningOfEntries(o, []) == acc
  {
    assert lines[i..i] == [];
  }

  lemma EntriesCons(o: Scalars, e: NodeEntry, rest: seq<NodeEntry>, indent: nat)
    ensures MeaningOfEntries(o, [e] + rest) == [MeaningOfEntry(o, e)] + MeaningOfEntries(o, rest)
    ensures PrintEntries([e] + rest, indent)
         == [Line(indent, false, Body(e))] + (Tail(e, indent) + PrintEntries(rest, indent))
  {
    assert ([e] + rest)[1..] == rest;
  }

  lemma {:induction false} ItemRead(o: Scalars, lines: seq<Line>, i: nat, indent: nat, depth: nat)
    returns (it: NodeItem)
    requires i < |lines| && AllWellFormed(lines) && lines[i].indent == indent && lines[i].sequence
    requires ItemAt(o, lines, i, indent, depth).Some?
    ensures ValidItem(o, it, depth) && At(lines, i, PrintItem(it, indent))
    ensures ItemAt(o, lines, i, indent, depth) == Some(Parsed(MeaningOfItem(o, it), i + |PrintItem(it, indent)|))
    decreases |lines| - i, 1
  {
    hide *;
    if lines[i].body == "" {
      BareItemIs(o, lines, i, indent, depth);
      var child := BlockReads(o, lines, i + 1, indent + 2, depth + 1);
      it := BareItem(child);
      BareItemParts(o, child, indent, depth);
      AtHead(lines, i, Line(indent, true, ""), Print(child, indent + 2));
    } else if PairOf(lines[i].body).None? {
      it := ScalarItemRead(o, lines, i, indent, depth);
    } else {
      it := MapItemRead(o, lines, i, indent, depth);
    }
  }

  lemma BareItemIs(o: Scalars, lines: seq<Line>, i: nat, indent: nat, depth: nat)
    requires i < |lines| && lines[i].body == "" && ItemAt(o, lines, i, indent, depth).Some?
    ensures i + 1 < |lines| && ItemAt(o, lines, i, indent, depth) == BlockAt(o, lines, i + 1, indent + 2, depth + 1)
  {
    hide BlockAt;
  }

  lemma BareItemParts(o: Scalars, child: Node, indent: nat, depth: nat)
    ensures MeaningOfItem(o, BareItem(child)) == Meaning(o, child)
    ensures PrintItem(BareItem(child), indent) == [Line(indent, true, "")] + Print(child, indent + 2)
    ensures ValidNode(o, child, depth + 1) ==> ValidItem(o, BareItem(child), depth)
  {
    hide Meaning, Print, ValidNode;
  }

  lemma ScalarItemRead(o: Scalars, lines: seq<Line>, i: nat, indent: nat, depth: nat) returns (it: NodeItem)
    requires i < |lines| && AllWellFormed(lines) && lines[i].indent == indent && lines[i].sequence
    requires lines[i].body != "" && PairOf(lines[i].body).None? && ItemAt(o, lines, i, indent, depth).Some?
    ensures ValidItem(o, it, depth) && At(lines, i, PrintItem(it, indent))
    ensures ItemAt(o, lines, i, indent, depth) == Some(Parsed(MeaningOfItem(o, it), i + |PrintItem(it, indent)|))
  {
    hide PairOf, ScalarOf, EntriesFrom, EntryValueAt, BlockAt;
    it := ScalarItem(lines[i].body);
    LineWellFormed(lines, i);
    assert lines[i..i + 1] == [lines[i]];
  }

  lemma {:induction false} MapItemRead(o: Scalars, lines: seq<Line>, i: nat, indent: nat, depth: nat)
    returns (it: NodeItem)
    requires i < |lines| && AllWellFormed(lines) && lines[i].indent == indent && lines[i].sequence
    requires ItemAt(o, lines, i, indent, depth).Some? && lines[i].body != "" && PairOf(lines[i].body).Some?
    ensures ValidItem(o, it, depth) && At(lines, i, PrintItem(it, indent))
    ensures ItemAt(o, lines, i, indent, depth) == Some(Parsed(MeaningOfItem(o, it), i + |PrintItem(it, indent)|))
    decreases |lines| - i, 0
  {
    hide *;
    var pair := PairOf(lines[i].body).value;
    LineWellFormed(lines, i);
    RawOkOfBody(lines[i]);
    BodyOfPair(lines[i].body);
    MapItemIs(o, lines, i, indent, depth);
    var e := ValueReads(o, lines, i + 1, pair.key, pair.raw, indent + 2, depth + 1);
    LineOfEntry(lines[i], e);
    var m := MeaningOfEntry(o, e);
    EntryKey(o, e);
    assert m == Entry(pair.key, m.value);
    var tail := Tail(e, indent + 2);
    AtFits(lines, i + 1, tail);
    var rest := EntriesRead(o, lines, i + 1 + |tail|, indent + 2, depth + 1, [m]);
    it := MapItem([e] + rest);
    NoKeys(e.key);
    assert [] + [m] == [m];
    FreshCons(o, [], e, rest);
    EntriesCons(o, e, rest, indent + 2);
    ValidMapItem(o, e, rest, depth);
    MapItemParts(o, e, rest, indent);
    AtSplit(lines, i + 1, tail, PrintEntries(rest, indent + 2));
    AtHead(lines, i, Line(indent, true, Body(e)), tail + PrintEntries(rest, indent + 2));
  }

  lemma NoKeys(key: string)
    ensures !HasKey([], key)
  {
  }

  lemma MapItemIs(o: Scalars, lines: seq<Line>, i: nat, indent: nat, depth: nat)
    requires i < |lines| && lines[i].body != "" && PairOf(lines[i].body).Some?
    requires ItemAt(o, lines, i, indent, depth).Some?
    ensures var pair := PairOf(lines[i].body).value;
      var value := EntryValueAt(o, lines, i + 1, pair.raw, indent + 2, depth + 1);
      && value.Some?
      && var entries := EntriesFrom(o, lines, value.value.next, indent + 2, depth + 1,
                                    [Entry(pair.key, value.value.value)]);
         && entries.Some?
         && ItemAt(o, lines, i, indent, depth) == Some(Parsed(Map(entries.value.value), entries.value.next))
  {
    hide EntriesFrom, EntryValueAt, PairOf;
  }

  lemma ValidMapItem(o: Scalars, e: NodeEntry, rest: seq<NodeEntry>, depth: nat)
    requires Fresh([], [e] + rest) && ValidEntry(o, e, depth + 1)
    requires forall k | 0 <= k < |rest| :: ValidEntry(o, rest[k], depth + 1)
    ensures ValidItem(o, MapItem([e] + rest), depth)
  {
    hide ValidEntry;
  }

  lemma MapItemParts(o: Scalars, e: NodeEntry, rest: seq<NodeEntry>, indent: nat)
    ensures MeaningOfItem(o, MapItem([e] + rest)) == Map(MeaningOfEntries(o, [e] + rest))
    ensures PrintItem(MapItem([e] + rest), indent)
         == [Line(indent, true, Body(e))] + (Tail(e, indent + 2) + PrintEntries(rest, indent + 2))
  {
    hide MeaningOfEntries, Tail, PrintEntries, Body;
    assert ([e] + rest)[1..] == rest;
  }

  lemma {:induction false} ItemsRead(
    o: Scalars, lines: seq<Line>, i: nat, indent: nat, depth: nat, acc: seq<Value>) returns (items: seq<NodeItem>)
    requires i <= |lines| && AllWellFormed(lines) && ItemsFrom(o, lines, i, indent, depth, acc).Some?
    ensures forall k | 0 <= k < |items| :: ValidItem(o, items[k], depth)
    ensures At(lines, i, PrintItems(items, indent))
    ensures ItemsFrom(o, lines, i, indent, depth, acc)
         == Some(Parsed(acc + MeaningOfItems(o, items), i + |PrintItems(items, indent)|))
    ensures i < |lines| && lines[i].indent == indent && lines[i].sequence ==> items != []
    decreases |lines| - i, 2
  {
    hide ItemAt, ValidItem, WellFormed, PrintItem, MeaningOfItem, SizeOfItems;
    if i >= |lines| || lines[i].indent != indent || !lines[i].sequence {
      items := [];
      assert lines[i..i] == [] && acc + [] == acc;
    } else {
      var it := ItemRead(o, lines, i, indent, depth);
      var head, m := PrintItem(it, indent), MeaningOfItem(o, it);
      var rest := ItemsRead(o, lines, i + |head|, indent, depth, acc + [m]);
      items := [it] + rest;
      assert items[1..] == rest;
      AtSplit(lines, i, head, PrintItems(rest, indent));
      assert acc + [m] + MeaningOfItems(o, rest) == acc + ([m] + MeaningOfItems(o, rest));
    }
  }

  // ---------- Documents ----------

  datatype Document = EmptyDocument | Document(root: seq<NodeEntry>)

  ghost predicate ValidDocument(o: Scalars, d: Document) {
    d.Document? ==> ValidNode(o, MapNode(d.root), 0)
  }

  function PrintDocument(d: Document): seq<Line> {
    if d.EmptyDocument? then [Line(0, false, "{}")] else Print(MapNode(d.root), 0)
  }

  function MeaningOfDocument(o: Scalars, d: Document): Value {
    if d.EmptyDocument? then Map([]) else Meaning(o, MapNode(d.root))
  }

  lemma DocumentPrints(o: Scalars, d: Document)
    requires ValidDocument(o, d)
    ensures DocumentOf(o, PrintDocument(d)) == Some(MeaningOfDocument(o, d))
  {
    if d.Document? {
      var n, lines := MapNode(d.root), PrintDocument(d);
      assert At(lines, 0, lines);
      BlockPrints(o, lines, n, 0, 0, 0);
      var body := Body(d.root[0]);
      assert lines[0] == Line(0, false, body);
      PairOfBody(d.root[0]);
      assert FirstColon("{}") == 2;
    }
  }

  lemma DocumentReads(o: Scalars, lines: seq<Line>) returns (d: Document)
    requires AllWellFormed(lines) && DocumentOf(o, lines).Some?
    ensures ValidDocument(o, d) && PrintDocument(d) == lines && DocumentOf(o, lines) == Some(MeaningOfDocument(o, d))
  {
    if lines == [Line(0, false, "{}")] {
      d := EmptyDocument;
    } else {
      hide BlockAt, ValidNode, Print, Meaning;
      var n := BlockReads(o, lines, 0, 0, 0);
      MeaningIs(o, n);
      assert n.MapNode?;
      d := Document(n.entries);
      assert lines[0..|lines|] == lines;
    }
  }

  /** The decoder accepts exactly the legal layouts, and reads each as what it means. */
  lemma DecodesExactlyLayouts(o: Scalars, lines: seq<Line>, v: Value)
    requires AllWellFormed(lines)
    ensures DocumentOf(o, lines) == Some(v)
       <==> exists d :: ValidDocument(o, d) && PrintDocument(d) == lines && MeaningOfDocument(o, d) == v
  {
    if DocumentOf(o, lines) == Some(v) {
      var d := DocumentReads(o, lines);
    }
    if exists d :: ValidDocument(o, d) && PrintDocument(d) == lines && MeaningOfDocument(o, d) == v {
      var d :| ValidDocument(o, d) && PrintDocument(d) == lines && MeaningOfDocument(o, d) == v;
      DocumentPrints(o, d);
    }
  }

  // ---------- Legal layouts are well-formed lines ----------

  lemma KeyCharsAreSafe(key: string)
    requires IsConservativeKey(key)
    ensures key != "" && '\n' !in key && key[0] !in {' ', '#', '%', '-', '.'}
  {
  }

  lemma EntryLineWellFormed(o: Scalars, e: NodeEntry, depth: nat, indent: nat, sequence: bool)
    requires ValidEntry(o, e, depth) && indent % 2 == 0
    ensures WellFormed(Line(indent, sequence, Body(e)))
  {
    hide IsConservativeKey, ScalarOf, ValidNode;
    KeyCharsAreSafe(e.key);
    var body := Body(e);
    assert body[0] == e.key[0];
    if e.Inline? {
      var prefix := e.key + ": ";
      assert body == prefix + e.raw;
      assert body[|body| - 1] == e.raw[|e.raw| - 1];
    } else {
      assert body[|body| - 1] == ':';
    }
  }

  lemma {:induction false} NodeWellFormed(o: Scalars, n: Node, indent: nat, depth: nat)
    requires ValidNode(o, n, depth) && indent % 2 == 0
    ensures AllWellFormed(Print(n, indent))
    decreases n, 0
  {
    match n {
      case MapNode(es) => EntriesWellFormed(o, es, indent, depth);
      case SeqNode(items) => ItemsWellFormed(o, items, indent, depth);
    }
  }

  lemma {:induction false} TailWellFormed(o: Scalars, e: NodeEntry, indent: nat, depth: nat)
    requires ValidEntry(o, e, depth) && indent % 2 == 0
    ensures AllWellFormed(Tail(e, indent))
    decreases e, 1
  {
    if e.Nested? {
      NodeWellFormed(o, e.child, if e.deeper then indent + 2 else indent, depth + 1);
    }
  }

  lemma {:induction false} EntriesWellFormed(o: Scalars, es: seq<NodeEntry>, indent: nat, depth: nat)
    requires (forall k | 0 <= k < |es| :: ValidEntry(o, es[k], depth)) && indent % 2 == 0
    ensures AllWellFormed(PrintEntries(es, indent))
    decreases es, 2
  {
    hide ValidEntry, WellFormed, Body, Tail;
    if es != [] {
      EntryLineWellFormed(o, es[0], depth, indent, false);
      TailWellFormed(o, es[0], indent, depth);
      EntriesWellFormed(o, es[1..], indent, depth);
    }
  }

  lemma {:induction false} ItemWellFormed(o: Scalars, it: NodeItem, indent: nat, depth: nat)
    requires ValidItem(o, it, depth) && indent % 2 == 0
    ensures AllWellFormed(PrintItem(it, indent))
    decreases it, 3
  {
    match it {
      case ScalarItem(raw) =>
      case BareItem(child) =>
        NodeWellFormed(o, child, indent + 2, depth + 1);
      case MapItem(es) =>
        hide ValidEntry, Body, Tail;
        EntryLineWellFormed(o, es[0], depth + 1, indent, true);
        TailWellFormed(o, es[0], indent + 2, depth + 1);
        EntriesWellFormed(o, es[1..], indent + 2, depth + 1);
    }
  }

  lemma {:induction false} ItemsWellFormed(o: Scalars, items: seq<NodeItem>, indent: nat, depth: nat)
    requires (forall k | 0 <= k < |items| :: ValidItem(o, items[k], depth)) && indent % 2 == 0
    ensures AllWellFormed(PrintItems(items, indent))
    decreases items, 4
  {
    hide ValidItem, WellFormed, PrintItem;
    if items != [] {
      ItemWellFormed(o, items[0], indent, depth);
      ItemsWellFormed(o, items[1..], indent, depth);
    }
  }

  lemma DocumentWellFormed(o: Scalars, d: Document)
    requires ValidDocument(o, d)
    ensures AllWellFormed(PrintDocument(d)) && PrintDocument(d) != []
  {
    if d.Document? {
      NodeWellFormed(o, MapNode(d.root), 0, 0);
      PrintHead(o, MapNode(d.root), 0, 0);
    }
  }

  // ---------- From text to value ----------

  function Decoded(o: Scalars, text: string): Option<Value> {
    var lines := PreparedLines(text);
    if lines.None? then None else
    var v := DocumentOf(o, lines.value);
    if v.Some? && Size(v.value) <= MAX_NODES then v else None
  }

  method DecodeClosedYaml(o: Scalars, text: string) returns (r: Option<Value>)
    ensures r == Decoded(o, text)
  {
    var lines := Prepare(text);
    if lines.None? {
      return None;
    }
    var decoder := new Decoder(o, lines.value);
    r := decoder.Parse();
  }

  /** A text decodes to `v` exactly when it is allowed text that renders, with or without a final
      line feed, some legal layout meaning `v`, and `v` is within the node bound. */
  lemma DecodesExactlyRenderedLayouts(o: Scalars, text: string, v: Value)
    ensures Decoded(o, text) == Some(v)
       <==> && TextAllowed(text) && Size(v) <= MAX_NODES
            && exists d, terminated | ValidDocument(o, d) ::
                 MeaningOfDocument(o, d) == v && text == RenderedDocument(d, terminated)
  {
    hide TextAllowed, PreparedLines, DocumentOf, Size, ValidDocument, PrintDocument, MeaningOfDocument, Rendered;
    if Decoded(o, text) == Some(v) {
      var lines := PreparedLines(text).value;
      PreparedIsRendered(text, lines);
      var d := DocumentReads(o, lines);
      assert text == RenderedDocument(d, false) || text == RenderedDocument(d, true);
    }
    if TextAllowed(text) && Size(v) <= MAX_NODES {
      forall d, terminated | ValidDocument(o, d) && MeaningOfDocument(o, d) == v && text == RenderedDocument(d, terminated)
        ensures Decoded(o, text) == Some(v)
      {
        DocumentWellFormed(o, d);
        PreparedIsRendered(text, PrintDocument(d));
        DocumentPrints(o, d);
      }
    }
  }

  function RenderedDocument(d: Document, terminated: bool): string {
    if PrintDocument(d) == [] then "" else Rendered(PrintDocument(d), terminated)
  }

  /** Layout never changes meaning: two legal layouts of one text mean the same. */
  lemma LayoutNeverChangesMeaning(o: Scalars, text: string, d1: Document, t1: bool, d2: Document, t2: bool)
    requires ValidDocument(o, d1) && ValidDocument(o, d2) && TextAllowed(text)
    requires text == RenderedDocument(d1, t1) == RenderedDocument(d2, t2)
    ensures MeaningOfDocument(o, d1) == MeaningOfDocument(o, d2)
  {
    hide *;
    DocumentWellFormed(o, d1);
    DocumentWellFormed(o, d2);
    RenderedIs(d1, t1);
    RenderedIs(d2, t2);
    PreparedIsRendered(text, PrintDocument(d1));
    PreparedIsRendered(text, PrintDocument(d2));
    DocumentPrints(o, d1);
    DocumentPrints(o, d2);
  }

  lemma RenderedIs(d: Document, terminated: bool)
    requires PrintDocument(d) != []
    ensures RenderedDocument(d, terminated) == Rendered(PrintDocument(d), terminated)
  {
  }
}
