/** One document in two of its layouts, as text. */
module YamlExamples {
  import opened Basics
  import opened ClosedYaml
  import opened YamlText
  import opened YamlLayouts
  import opened YamlPrinter

  function Third(): Entry {
    Entry("b", Map([Entry("m", Null)]))
  }

  function Listed(): Value {
    Seq([Str("x"), Map([Entry("k", Str("z"))])])
  }

  /** A list of a string and a mapping under one key, a mapping under another. */
  function Tree(): Value {
    Map([Entry("a", Listed()), Third()])
  }

  lemma {:induction false} AsciiLength(s: string)
    ensures Utf8Length(s) <= 4 * |s|
  {
    if s != "" {
      AsciiLength(s[1..]);
    }
  }

  lemma {:induction false} JoinedLength(raws: seq<string>, m: nat)
    requires raws != [] && forall i | 0 <= i < |raws| :: |raws[i]| <= m
    ensures |Joined(raws)| <= (m + 1) * |raws|
  {
    if |raws| > 1 {
      JoinedLength(raws[1..], m);
      assert (m + 1) * |raws| == (m + 1) * |raws[1..]| + (m + 1);
    } else {
      assert (m + 1) * |raws| == m + 1;
    }
  }

  lemma KeysAreConservative()
    ensures IsConservativeKey("a") && IsConservativeKey("b") && IsConservativeKey("k") && IsConservativeKey("m")
    ensures !IsConservativeKey("n") && !IsConservativeKey("1") && !IsConservativeKey("")
  {
    assert Utf8Length("") == 0 && "a"[1..] == "" && "b"[1..] == "" && "k"[1..] == "" && "m"[1..] == "";
    assert Lower("a") == "a" && Lower("b") == "b" && Lower("k") == "k" && Lower("m") == "m" && Lower("n") == "n";
  }

  lemma TextsAreSafe()
    ensures Printable(Str("x")) && Printable(Str("z"))
    ensures RawFor(Str("x")) == "'x'" && RawFor(Str("z")) == "'z'"
  {
    assert Utf8Length("") == 0 && "x"[1..] == "" && "z"[1..] == "";
    assert Doubled("x") == "x" && Doubled("z") == "z";
  }

  lemma TreeIsInBounds()
    ensures Printable(Tree()) && Fits(Tree(), 65) && Size(Tree()) == 11
  {
    KeysAreConservative();
    TextsAreSafe();
    hide IsConservativeKey;
    var inner := Map([Entry("k", Str("z"))]);
    assert Printable(inner) && Printable(Listed()) && Printable(Third().value);
    assert Printable(Tree());
    assert Fits(inner, 63) && Fits(Third().value, 64);
    assert Fits(Listed(), 64);
    SizeOne(Entry("k", Str("z")));
    SizeOne(Entry("m", Null));
    SizeTwo(Str("x"), inner);
    SizeEntries(Entry("a", Listed()), Third());
  }

  lemma {:induction false} SizeOne(e: Entry)
    ensures Size(Map([e])) == 2 + Size(e.value)
  {
    assert [e][..0] == [] && SizeOfEntries([]) == 0;
    assert SizeOfEntries([e]) == SizeOfEntries([e][..0]) + SizeOfEntry([e][0]);
  }

  lemma {:induction false} SizeTwo(a: Value, b: Value)
    ensures Size(Seq([a, b])) == 1 + Size(a) + Size(b)
  {
    assert [a, b][..1] == [a] && [a][..0] == [] && SizeOfItems([]) == 0;
    assert SizeOfItems([a]) == SizeOfItems([a][..0]) + Size([a][0]);
    assert SizeOfItems([a, b]) == SizeOfItems([a, b][..1]) + Size([a, b][1]);
  }

  lemma {:induction false} SizeEntries(a: Entry, b: Entry)
    ensures Size(Map([a, b])) == 3 + Size(a.value) + Size(b.value)
  {
    assert [a, b][..1] == [a] && [a][..0] == [] && SizeOfEntries([]) == 0;
    assert SizeOfEntries([a]) == SizeOfEntries([a][..0]) + SizeOfEntry([a][0]);
    assert SizeOfEntries([a, b]) == SizeOfEntries([a, b][..1]) + SizeOfEntry([a, b][1]);
  }

  // ---------- Its layouts ----------

  lemma {:induction false} PrintTwo(a: NodeEntry, b: NodeEntry, indent: nat)
    ensures PrintEntries([a, b], indent)
         == [Line(indent, false, Body(a))] + (Tail(a, indent) + ([Line(indent, false, Body(b))] + Tail(b, indent)))
    ensures PrintEntries([a], indent) == [Line(indent, false, Body(a))] + Tail(a, indent)
  {
    assert [a, b][1..] == [b] && [b][1..] == [] && [a][1..] == [];
    assert PrintEntries([], indent) == [];
    assert PrintEntries([b], indent) == [Line(indent, false, Body(b))] + (Tail(b, indent) + []);
    assert Tail(b, indent) + [] == Tail(b, indent) && Tail(a, indent) + [] == Tail(a, indent);
  }

  lemma {:induction false} PrintItemsTwo(a: NodeItem, b: NodeItem, indent: nat)
    ensures PrintItems([a, b], indent) == PrintItem(a, indent) + PrintItem(b, indent)
  {
    assert [a, b][1..] == [b] && [b][1..] == [];
    assert PrintItems([], indent) == [] && PrintItems([b], indent) == PrintItem(b, indent) + [];
  }

  /** The list's items, below the key at `indent`. */
  lemma ListLines(style: Style, indent: nat)
    ensures Print(NodeOf(Listed(), style), indent) ==
      if style.inline then [Line(indent, true, "'x'"), Line(indent, true, "k: 'z'")]
      else [Line(indent, true, "'x'"), Line(indent, true, ""), Line(indent + 2, false, "k: 'z'")]
  {
    TextsAreSafe();
    var inner := Map([Entry("k", Str("z"))]);
    var es := [Inline("k", "'z'")];
    assert LayEntries(inner.entries, style) == es;
    assert Body(es[0]) == "k" + ": " + "'z'" == "k: 'z'";
    PrintTwo(es[0], es[0], indent + 2);
    assert es[1..] == [];
    var a, b := ScalarItem("'x'"), LayItem(inner, style);
    assert LayItems(Listed().items, style) == [a, b];
    PrintItemsTwo(a, b, indent);
    assert PrintItem(a, indent) == [Line(indent, true, "'x'")];
    if style.inline {
      assert b == MapItem(es);
      assert PrintItem(b, indent) == [Line(indent, true, Body(es[0]))] + (Tail(es[0], indent + 2) + PrintEntries(es[1..], indent + 2));
    } else {
      assert b == BareItem(MapNode(es));
      assert PrintItem(b, indent) == [Line(indent, true, "")] + Print(MapNode(es), indent + 2);
    }
  }

  function LinesFor(style: Style): seq<Line> {
    var n := if style.flush then 0 else 2;
    [Line(0, false, "a:")]
    + (if style.inline then [Line(n, true, "'x'"), Line(n, true, "k: 'z'")]
       else [Line(n, true, "'x'"), Line(n, true, ""), Line(n + 2, false, "k: 'z'")])
    + [Line(0, false, "b:"), Line(2, false, "m: null")]
  }

  lemma ListEntry(style: Style)
    ensures var e, n := LayEntry(Entry("a", Listed()), style), if style.flush then 0 else 2;
      && Body(e) == "a:"
      && Tail(e, 0) == if style.inline then [Line(n, true, "'x'"), Line(n, true, "k: 'z'")]
                       else [Line(n, true, "'x'"), Line(n, true, ""), Line(n + 2, false, "k: 'z'")]
  {
    var e := LayEntry(Entry("a", Listed()), style);
    assert e == Nested("a", !style.flush, NodeOf(Listed(), style));
    hide LayEntry, NodeOf, Print;
    ListLines(style, if style.flush then 0 else 2);
  }

  lemma MapEntry(style: Style)
    ensures var e := LayEntry(Third(), style); Body(e) == "b:" && Tail(e, 0) == [Line(2, false, "m: null")]
  {
    var e := Inline("m", "null");
    assert LayEntries(Third().value.entries, style) == [e];
    assert LayEntry(Third(), style) == Nested("b", true, MapNode([e]));
    PrintTwo(e, e, 2);
    assert Body(e) == "m" + ": " + "null" == "m: null";
  }

  lemma TreeLayout(style: Style)
    ensures PrintDocument(DocumentFor(Tree(), style))
         == PrintEntries([LayEntry(Entry("a", Listed()), style), LayEntry(Third(), style)], 0)
  {
    hide LayEntry, PrintEntries;
    assert LayEntries(Tree().entries, style) == [LayEntry(Entry("a", Listed()), style), LayEntry(Third(), style)];
  }

  lemma DocumentLinesAre(style: Style)
    ensures PrintDocument(DocumentFor(Tree(), style)) == LinesFor(style)
  {
    hide *;
    TreeLayout(style);
    ListEntry(style);
    MapEntry(style);
    PrintTwo(LayEntry(Entry("a", Listed()), style), LayEntry(Third(), style), 0);
    LinesAre(style);
  }

  lemma LinesAre(style: Style)
    ensures var n := if style.flush then 0 else 2;
      LinesFor(style) ==
        [Line(0, false, "a:")]
        + ((if style.inline then [Line(n, true, "'x'"), Line(n, true, "k: 'z'")]
            else [Line(n, true, "'x'"), Line(n, true, ""), Line(n + 2, false, "k: 'z'")])
           + ([Line(0, false, "b:")] + [Line(2, false, "m: null")]))
  {
  }

  // ---------- Its texts ----------

  /** The raw lines of the document in each style. */
  function RawsFor(style: Style): seq<string> {
    if style.flush && style.inline then ["a:", "- 'x'", "- k: 'z'", "b:", "  m: null"]
    else if style.flush then ["a:", "- 'x'", "-", "  k: 'z'", "b:", "  m: null"]
    else if style.inline then ["a:", "  - 'x'", "  - k: 'z'", "b:", "  m: null"]
    else ["a:", "  - 'x'", "  -", "    k: 'z'", "b:", "  m: null"]
  }

  lemma RawVectors()
    ensures Raw(Line(0, false, "a:")) == "a:" && Raw(Line(0, false, "b:")) == "b:" && Raw(Line(2, false, "m: null")) == "  m: null"
    ensures Raw(Line(0, true, "'x'")) == "- 'x'" && Raw(Line(2, true, "'x'")) == "  - 'x'"
    ensures Raw(Line(0, true, "k: 'z'")) == "- k: 'z'" && Raw(Line(2, true, "k: 'z'")) == "  - k: 'z'"
    ensures Raw(Line(0, true, "")) == "-" && Raw(Line(2, true, "")) == "  -"
    ensures Raw(Line(2, false, "k: 'z'")) == "  k: 'z'" && Raw(Line(4, false, "k: 'z'")) == "    k: 'z'"
  {
    assert Spaces(0) == "" && Spaces(2) == "  " && Spaces(4) == "    ";
    hide Spaces;
  }

  lemma RawsAre(style: Style)
    ensures Raws(LinesFor(style)) == RawsFor(style)
  {
    RawVectors();
    hide Raw;
  }

  /** The tree is what each of four texts decodes to: the list at its key's indent or two deeper, and its mapping after
      the dash or below a bare one. */
  lemma FourLayouts(o: Scalars, style: Style, terminated: bool)
    ensures Decoded(o, Joined(RawsFor(style)) + if terminated then "\n" else "") == Some(Tree())
  {
    hide *;
    TreeIsInBounds();
    RawsAre(style);
    DocumentLinesAre(style);
    RenderedIs(style, terminated);
    TextIsShort(style, terminated);
    Limits();
    TreeIsMap();
    RoundTrip(o, Tree(), style, terminated);
  }

  lemma TreeIsMap()
    ensures Tree().Map?
  {
  }

  lemma Limits()
    ensures MAX_DEPTH == 64 && MAX_NODES == 32768 && MAX_INPUT == 1048576 && MAX_LINES == 65536 && MAX_SCALAR == 262144
  {
  }

  lemma RenderedIs(style: Style, terminated: bool)
    requires PrintDocument(DocumentFor(Tree(), style)) == LinesFor(style) && Raws(LinesFor(style)) == RawsFor(style)
    ensures RawsFor(style) != []
    ensures RenderedDocument(DocumentFor(Tree(), style), terminated) == Joined(RawsFor(style)) + if terminated then "\n" else ""
  {
    assert |LinesFor(style)| > 0;
    hide PrintDocument, DocumentFor, Raws, Joined, Tree;
  }

  lemma TextIsShort(style: Style, terminated: bool)
    ensures RawsFor(style) != []
    ensures Utf8Length(Joined(RawsFor(style)) + if terminated then "\n" else "") <= 1048576
  {
    JoinedLength(RawsFor(style), 20);
    AsciiLength(Joined(RawsFor(style)) + if terminated then "\n" else "");
  }
}
