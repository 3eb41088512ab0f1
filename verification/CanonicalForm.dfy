/** The form of canonical text: keys in order at every level, and what is already in that form stays. */
module CanonicalForm {
  import opened Basics
  import opened Digits
  import opened Json
  import opened Ordering
  import opened Canonical

  /** Every object's keys come one before the other by code points, at every level. */
  ghost predicate KeysAscend(j: Json) {
    match j
    case List(items) => forall i | 0 <= i < |items| :: KeysAscend(items[i])
    case Obj(members) =>
      && (forall i, k | 0 <= i < k < |members| :: ComesFirst(members[i].key, members[k].key))
      && forall i | 0 <= i < |members| :: KeysAscend(members[i].value)
    case _ => true
  }

  lemma AscendingIsSorted(ms: seq<Member>)
    ensures Sorted(ms) <==> forall i, k | 0 <= i < k < |ms| :: ComesFirst(ms[i].key, ms[k].key)
  {
    hide Less, ComesFirst;
    forall i, k | 0 <= i < k < |ms| ensures Less(ms[i].key, ms[k].key) <==> ComesFirst(ms[i].key, ms[k].key) {
      LessIsByCodePoint(ms[i].key, ms[k].key);
    }
  }

  /** Sorting keys leaves alone what has them in order. */
  lemma {:induction false} InOrderStays(j: Json)
    requires KeysAscend(j)
    ensures SortKeys(j) == j
  {
    match j {
      case List(items) =>
        forall i | 0 <= i < |items| ensures SortKeys(items[i]) == items[i] {
          InOrderStays(items[i]);
        }
        assert SortKeysOfItems(items) == items;
      case Obj(members) =>
        forall i | 0 <= i < |members| ensures SortKeysOfMember(members[i]) == members[i] {
          InOrderStays(members[i].value);
        }
        assert SortKeysOfMembers(members) == members;
        AscendingIsSorted(members);
        SortedStays(members);
      case _ =>
    }
  }

  lemma {:induction false} FormAscends(v: Value, depth: nat)
    requires PythonValue(v) && Encodable(v, depth)
    ensures KeysAscend(Form(v))
    decreases v
  {
    hide *;
    Parts(v, depth);
    if IsArray(v) {
      FormOfArray(v);
      forall i | 0 <= i < |v.items| ensures KeysAscend(Form(v.items[i])) {
        FormAscends(v.items[i], depth + 1);
      }
      ItemsAscend(v.items);
    } else if IsObject(v) {
      FormOfObject(v);
      ObjectParts(v, depth);
      forall i | 0 <= i < |EntriesOf(v)| ensures KeysAscend(Form(EntriesOf(v)[i].value)) {
        FormAscends(EntriesOf(v)[i].value, depth + 1);
      }
      MembersAscend(EntriesOf(v));
    } else if v.PyEnum? {
      FormOfEnum(v);
      FormAscends(v.member, depth + 1);
    } else {
      LeafAscends(v);
    }
  }

  lemma Parts(v: Value, depth: nat)
    requires PythonValue(v) && Encodable(v, depth)
    ensures v.PyEnum? ==> PythonValue(v.member) && Encodable(v.member, depth + 1)
    ensures IsArray(v) ==> forall i | 0 <= i < |v.items| ::
      PythonValue(v.items[i]) && Encodable(v.items[i], depth + 1) && v.items[i] < v
    ensures v.PyDecimal? ==> IsNatText(v.digits)
    ensures IsArray(v) <==> v.PyList? || v.PyTuple?
    ensures IsObject(v) <==> v.PyRecord? || v.PyDict?
  {
  }

  lemma {:induction false} DecimalAscends(s: Scaled)
    ensures KeysAscend(DecimalJson(s))
  {
    hide IntText, ComesFirst;
    var payload := List([Str(IntText(s.coefficient)), Int(s.exponent)]);
    assert KeysAscend(payload);
    assert DecimalJson(s).members[0].value == payload;
  }

  lemma {:induction false} LeafAscends(v: Value)
    requires !v.PyEnum? && !IsArray(v) && !IsObject(v) && (v.PyDecimal? ==> IsNatText(v.digits))
    ensures KeysAscend(Form(v))
  {
    if v.PyDecimal? {
      var s := NormalDecimal(v.negative, v.digits, v.exponent);
      FormOfDecimal(s);
      DecimalAscends(s);
      assert Form(v) == DecimalJson(s) by { hide NormalDecimal, DecimalJson, SortMembers, IntText; }
      hide *;
    } else {
      hide SortMembers, IsNatText;
    }
  }

  lemma {:induction false} ItemsAscend(items: seq<Value>)
    requires forall i | 0 <= i < |items| :: KeysAscend(Form(items[i]))
    ensures KeysAscend(List(SortKeysOfItems(NormalItems(items))))
  {
    var js := SortKeysOfItems(NormalItems(items));
    forall i | 0 <= i < |items| ensures js[i] == Form(items[i]) {
    }
    hide NormalItems, SortKeysOfItems, Form, SortKeys;
  }

  lemma MembersAscend(entries: seq<Entry>)
    requires DistinctKeys(entries) && AllNamed(entries)
    requires forall i | 0 <= i < |entries| :: KeysAscend(Form(entries[i].value))
    ensures KeysAscend(Obj(SortMembers(FormMembers(entries))))
  {
    FormMemberAt(entries);
    var ms := FormMembers(entries);
    hide FormMembers, Form;
    SortIsSorted(ms);
    AscendingIsSorted(SortMembers(ms));
    forall i | 0 <= i < |SortMembers(ms)| ensures KeysAscend(SortMembers(ms)[i].value) {
      assert SortMembers(ms)[i] in multiset(SortMembers(ms));
      assert SortMembers(ms)[i] in ms;
    }
  }

  /** The text of an accepted value reads back as JSON with every object's keys in code-point order. */
  lemma CanonicalTextAscends(v: Value)
    requires PythonValue(v) && Accepted(v)
    ensures Loads(CanonicalText(v)).Done? && KeysAscend(Loads(CanonicalText(v)).value)
  {
    FormAscends(v, 0);
    CanonicalTextReads(v);
  }

  // ---------- JSON as values ----------

  /** The plain Python value of some JSON. */
  function Plainly(j: Json): Value
    decreases j, 0
  {
    match j
    case Null => PyNone
    case Bool(b) => PyBool(b)
    case Int(i) => PyInt(i)
    case Str(s) => PyStr(s)
    case List(items) => PyList(PlainItems(items))
    case Obj(members) => PyDict(PlainEntries(members))
  }

  function PlainItems(items: seq<Json>): (r: seq<Value>)
    ensures |r| == |items| && forall i | 0 <= i < |items| :: r[i] == Plainly(items[i])
    decreases items, 1
  {
    if items == [] then [] else [Plainly(items[0])] + PlainItems(items[1..])
  }

  function PlainEntry(m: Member): Entry
    decreases m, 1
  {
    Entry(Name(m.key), Plainly(m.value))
  }

  function PlainEntries(members: seq<Member>): (r: seq<Entry>)
    ensures |r| == |members| && forall i | 0 <= i < |members| :: r[i] == PlainEntry(members[i])
    decreases members, 2
  {
    if members == [] then [] else [PlainEntry(members[0])] + PlainEntries(members[1..])
  }

  lemma {:induction false} NormalOfPlain(j: Json)
    ensures Normal(Plainly(j)) == j
  {
    match j {
      case List(items) =>
        forall i | 0 <= i < |items| ensures Normal(Plainly(items[i])) == items[i] {
          NormalOfPlain(items[i]);
        }
        assert NormalItems(PlainItems(items)) == items;
      case Obj(members) =>
        forall i | 0 <= i < |members| ensures NormalMember(PlainEntry(members[i])) == members[i] {
          NormalOfPlain(members[i].value);
        }
        assert NormalMembers(PlainEntries(members)) == members;
      case _ =>
    }
  }

  /** JSON with its keys in order is printed as the canonical text of the value it is. */
  lemma InOrderIsCanonical(j: Json)
    requires KeysAscend(j)
    ensures CanonicalText(Plainly(j)) == Text(j)
  {
    NormalOfPlain(j);
    InOrderStays(j);
  }

  // ---------- Literal texts ----------

  /** One dictionary, given in either order, and its text. */
  lemma TwoKeys()
    ensures var a, b := Entry(Name("a"), PyInt(1)), Entry(Name("b"), PyInt(2));
      CanonicalText(PyDict([a, b])) == "{\"a\":1,\"b\":2}" && CanonicalText(PyDict([b, a])) == "{\"a\":1,\"b\":2}"
  {
    var a, b := Member("a", Int(1)), Member("b", Int(2));
    var x, y := Entry(Name("a"), PyInt(1)), Entry(Name("b"), PyInt(2));
    NormalOfTwo(x, y, a, b);
    NormalOfTwo(y, x, b, a);
    assert a.value == SortKeys(a.value) && b.value == SortKeys(b.value);
    LiteralTexts();
    LessAt("a", "b", 0);
    hide *;
    SortsTwo(a, b);
  }

  lemma {:induction false} MembersOfTwo(x: Entry, y: Entry, a: Member, b: Member)
    requires NormalMember(x) == a && NormalMember(y) == b
    requires SortKeys(a.value) == a.value && SortKeys(b.value) == b.value
    ensures NormalMembers([x, y]) == [a, b] && SortKeysOfMembers([a, b]) == [a, b]
  {
    hide SortKeys, NormalMember, NormalMembers, SortKeysOfMembers;
    assert SortKeysOfMember(a) == a && SortKeysOfMember(b) == b;
  }

  lemma {:induction false} NormalOfTwo(x: Entry, y: Entry, a: Member, b: Member)
    requires NormalMember(x) == a && NormalMember(y) == b
    requires SortKeys(a.value) == a.value && SortKeys(b.value) == b.value
    ensures CanonicalText(PyDict([x, y])) == Text(Obj(SortMembers([a, b])))
  {
    hide Text, SortMembers;
    MembersOfTwo(x, y, a, b);
    hide NormalMember, NormalMembers, SortKeysOfMembers;
    var v := PyDict([x, y]);
    assert Normal(v) == Obj(NormalMembers([x, y]));
    assert SortKeys(Obj([a, b])) == Obj(SortMembers(SortKeysOfMembers([a, b])));
  }

  lemma SortsTwo(a: Member, b: Member)
    requires Less(a.key, b.key)
    ensures SortMembers([a, b]) == [a, b] == SortMembers([b, a])
  {
    hide Less, SortMembers;
    LessTotal(a.key, b.key);
    SortedStays([a, b]);
    SortForgetsOrder([a, b], [b, a]);
  }

  lemma LiteralTexts()
    ensures Text(Obj([Member("a", Int(1)), Member("b", Int(2))])) == "{\"a\":1,\"b\":2}"
  {
    var a, b := Member("a", Int(1)), Member("b", Int(2));
    assert Quote("a") == "\"a\"" by { assert Escape("a") == "a" by { assert "a"[1..] == ""; } }
    assert Quote("b") == "\"b\"" by { assert Escape("b") == "b" by { assert "b"[1..] == ""; } }
    assert MemberText(a) == "\"a\":1" && MemberText(b) == "\"b\":2";
    assert [a, b][1..] == [b];
    assert MembersText([a, b]) == "\"a\":1" + "," + "\"b\":2";
  }

  /** Every string escape there is, and what is left as it stands. */
  lemma Escapes(c: char)
    ensures EscapeChar('"') == "\\\"" && EscapeChar('\\') == "\\\\" && EscapeChar(8 as char) == "\\b" && EscapeChar(12 as char) == "\\f"
    ensures EscapeChar('\n') == "\\n" && EscapeChar('\r') == "\\r" && EscapeChar('\t') == "\\t"
    ensures EscapeChar(0 as char) == "\\u0000" && EscapeChar(11 as char) == "\\u000b" && EscapeChar(31 as char) == "\\u001f"
    ensures c >= ' ' && c != '"' && c != '\\' ==> EscapeChar(c) == [c]
    ensures c < ' ' && c as int !in {8, 9, 10, 12, 13} ==>
      EscapeChar(c)[..4] == "\\u00" && |EscapeChar(c)| == 6
      && HexValue(EscapeChar(c)[4]) * 16 + HexValue(EscapeChar(c)[5]) == c as int
  {
  }

  /** Texts of every kind of value. */
  lemma EveryKind()
    ensures Text(Null) == "null" && Text(Bool(true)) == "true" && Text(Bool(false)) == "false"
    ensures Text(Int(-12)) == "-12" && Text(List([])) == "[]" && Text(Obj([])) == "{}"
    ensures Text(List([Null, Bool(true)])) == "[null,true]"
    ensures Text(Str("a\n")) == "\"a\\n\""
  {
    assert NatText(1) == "1" && NatText(12) == "12";
    assert [Null, Bool(true)][1..] == [Bool(true)];
    assert "a\n"[1..] == "\n" && "\n"[1..] == "";
    assert Escape("") == "" && Escape("\n") == "\\n" && Escape("a\n") == "a\\n";
  }
}
