/** Small known answers: figures and texts that fix the meaning of what the general results are stated with. */
module Vectors {
  import opened Basics
  import opened Digits
  import U = Utf8
  import Q = QDecimal
  import C = Canonical
  import H = HeadingIds
  import T = TreeWalk

  /** The examples of section 7 of RFC 3629, and a character of each width. */
  lemma Utf8Vectors()
    ensures U.Encode("A\U{2262}\U{0391}") == [0x41, 0xE2, 0x89, 0xA2, 0xCE, 0x91]
    ensures U.EncodeChar('\U{D55C}') == [0xED, 0x95, 0x9C] && U.EncodeChar('\U{65E5}') == [0xE6, 0x97, 0xA5]
    ensures U.EncodeChar('\U{233B4}') == [0xF0, 0xA3, 0x8E, 0xB4] && U.EncodeChar('\U{E9}') == [0xC3, 0xA9]
  {
    var s := "A\U{2262}\U{0391}";
    assert s[1..] == "\U{2262}\U{0391}" && s[1..][1..] == "\U{0391}" && s[1..][1..][1..] == "";
    assert U.Encode("") == [] && U.EncodeChar('\U{0391}') == [0xCE, 0x91] && U.EncodeChar('\U{2262}') == [0xE2, 0x89, 0xA2];
    assert U.Encode("\U{0391}") == [0xCE, 0x91] && U.Encode("\U{2262}\U{0391}") == [0xE2, 0x89, 0xA2, 0xCE, 0x91];
  }

  /** Wire spellings of 1250 thousandths, of twelve hundred, of five thousandths and of zero. */
  lemma WireVectors()
    ensures Q.Wire(Q.Dec("1250", -3)) == "1.25" && Q.Wire(Q.Dec("12", 2)) == "1200"
    ensures Q.Wire(Q.Dec("5", -3)) == "0.005" && Q.Wire(Q.Dec("0", -7)) == "0"
  {
    FixedVectors();
    hide Q.Fixed, Q.Zeros;
    StripVectors();
    hide Q.RStrip;
    assert '.' in "1.250" by { assert "1.250"[1] == '.'; }
    assert '.' in "0.005" by { assert "0.005"[1] == '.'; }
  }

  lemma FixedVectors()
    ensures Q.Fixed(Q.Dec("1250", -3)) == "1.250" && Q.Fixed(Q.Dec("12", 2)) == "1200" && Q.Fixed(Q.Dec("5", -3)) == "0.005"
  {
    assert Q.Zeros(0) == "" && Q.Zeros(1) == "0" && Q.Zeros(2) == "00";
    assert "1250"[..1] == "1" && "1250"[1..] == "250";
  }

  lemma StripVectors()
    ensures Q.RStrip("1.250", '0') == "1.25" && Q.RStrip("1.25", '.') == "1.25"
    ensures Q.RStrip("0.005", '0') == "0.005" && Q.RStrip("0.005", '.') == "0.005"
  {
    assert "1.250"[..4] == "1.25" && Q.RStrip("1.25", '0') == "1.25";
  }

  /** Numbers as decimals carry them. */
  lemma DecimalVectors()
    ensures C.DecimalValue(false, "125", -2) == 1.25 && C.DecimalValue(true, "5", 1) == -50.0
    ensures C.NormalDecimal(true, "1500", -1) == C.Scaled(-15, 1) && C.NormalDecimal(true, "0", 9) == C.Scaled(0, 0)
  {
    assert Pow10(0) == 1 && Pow10(1) == 10 && Pow10(2) == 100;
    ValueVectors();
    hide NatValue;
    assert C.StripZeros(15, 1) == C.Scaled(15, 1) && C.StripZeros(150, 0) == C.Scaled(15, 1);
    assert C.StripZeros(1500, -1) == C.Scaled(15, 1);
  }

  lemma ValueVectors()
    ensures NatValue("125") == 125 && NatValue("5") == 5 && NatValue("1500") == 1500 && NatValue("0") == 0
  {
    hide NatValue;
    NatValueOfText(125);
    NatValueOfText(5);
    NatValueOfText(1500);
    NatValueOfText(0);
    assert NatText(1) == "1" && NatText(12) == "12" && NatText(125) == "125" && NatText(5) == "5" && NatText(0) == "0";
    assert NatText(15) == "15" && NatText(150) == "150" && NatText(1500) == "1500";
  }

  // ---------- What the tree walk charges ----------

  lemma {:induction false} OneCost(t: T.Tree)
    ensures T.TreesCost([t]) == T.TreeCost(t)
  {
    assert [t][..0] == [] && T.TreesCost([]) == T.Cost(0, 0);
    assert T.TreesCost([t]) == T.Plus(T.TreesCost([t][..0]), T.TreeCost([t][0]));
  }

  lemma {:induction false} AppendCost(ts: seq<T.Tree>, t: T.Tree)
    ensures T.TreesCost(ts + [t]) == T.Plus(T.TreesCost(ts), T.TreeCost(t))
  {
    assert (ts + [t])[..|ts|] == ts;
  }

  /** A list of three: an item for each and the brackets, besides its elements. */
  lemma {:induction false} CostOfThree(a: T.Tree, b: T.Tree, c: T.Tree)
    ensures T.TreeCost(T.ListTree([a, b, c]))
         == T.Plus(T.Cost(3, 2), T.Plus(T.Plus(T.TreeCost(a), T.TreeCost(b)), T.TreeCost(c)))
  {
    hide T.TreeCost, T.TreesCost, T.Plus;
    OneCost(a);
    AppendCost([a], b);
    AppendCost([a, b], c);
    assert [a] + [b] == [a, b] && [a, b] + [c] == [a, b, c];
    ListIs([a, b, c]);
  }

  lemma {:induction false} ListIs(ts: seq<T.Tree>)
    ensures T.TreeCost(T.ListTree(ts)) == T.Plus(T.Cost(|ts|, 2), T.TreesCost(ts))
  {
  }

  /** A dictionary of one key: two items, the braces, the quoted key and its colon, besides the value. */
  lemma {:induction false} CostOfKey(key: string, t: T.Tree)
    ensures T.TreeCost(T.DictTree([Some(key)], [t])) == T.Plus(T.Cost(2, Utf8Length(key) + 5), T.TreeCost(t))
  {
    OneCost(t);
    var keys := [Some(key)];
    assert keys[..0] == [] && T.KeyBytes([]) == 0 && T.KeyBytes(keys) == Utf8Length(key) + 3;
    hide T.TreesCost;
  }

  /** Leaves: five bytes for a constant, the spelling of an integer, the encoding and quotes of a string. */
  lemma LeafCosts()
    ensures T.TreeCost(T.BoolTree(true)) == T.Cost(0, 5) && T.TreeCost(T.IntTree(-7)) == T.Cost(0, 2)
    ensures T.TreeCost(T.StrTree("\U{E9}")) == T.Cost(0, 4)
  {
    assert NatText(7) == "7" && IntText(-7) == "-7";
    assert Utf8Length("") == 0 && "\U{E9}"[1..] == "" && Utf8Length("\U{E9}") == 2;
  }

  /** Headings of one base: the first keeps it, the next get numbers from two, and a number taken by name is skipped. */
  lemma HeadingVectors(ids: seq<string>)
    requires H.NaiveIds(["a", "a", "a-3", "a"], ids)
    ensures ids == ["a", "a-2", "a-3", "a-4"]
  {
    var bases := ["a", "a", "a-3", "a"];
    assert NatText(2) == "2" && NatText(3) == "3" && NatText(4) == "4";
    assert H.Candidate("a", 2) == "a-2" && H.Candidate("a", 3) == "a-3" && H.Candidate("a", 4) == "a-4";
    hide H.Candidate;
    assert H.IsNaive(H.Taken(ids[..0]), bases[0], ids[0]) && H.IsNaive(H.Taken(ids[..1]), bases[1], ids[1]);
    assert H.IsNaive(H.Taken(ids[..2]), bases[2], ids[2]) && H.IsNaive(H.Taken(ids[..3]), bases[3], ids[3]);
    assert ids[..0] == [] && ids[0] == "a";
    assert ids[..1] == ["a"];
    TakenOne("a");
    assert H.IsNaive({"a"}, "a", "a-2");
    H.NaiveIsUnique({"a"}, "a", ids[1], "a-2");
    assert ids[..2] == ["a"] + ["a-2"];
    TakenMore(["a"], "a-2");
    assert ids[2] == "a-3";
    assert ids[..3] == (["a"] + ["a-2"]) + ["a-3"];
    TakenMore(["a"] + ["a-2"], "a-3");
    var taken := {"a", "a-2", "a-3"};
    assert H.Taken(ids[..3]) == taken;
    assert H.AllTaken(taken, "a", 2, 4) by {
      forall k: nat | 2 <= k < 4 ensures H.Candidate("a", k) in taken {
        assert k == 2 || k == 3;
      }
    }
    assert H.IsNaive(taken, "a", "a-4");
    H.NaiveIsUnique(taken, "a", ids[3], "a-4");
  }

  lemma TakenOne(a: string)
    ensures H.Taken([a]) == {a}
  {
    assert [a][0] == a;
  }

  lemma TakenMore(ids: seq<string>, id: string)
    ensures H.Taken(ids + [id]) == H.Taken(ids) + {id}
  {
    var more := ids + [id];
    forall x ensures x in H.Taken(more) <==> x in H.Taken(ids) + {id} {
      if x in H.Taken(ids) {
        var k :| 0 <= k < |ids| && ids[k] == x;
        assert more[k] == x;
      }
      assert more[|ids|] == id;
    }
  }

  /** The limits the sources set. */
  lemma Limits()
    ensures C.MAX_DEPTH == 64 && C.MAX_ITEMS == 10000 && C.MAX_OUTPUT_BYTES == 1000000 && C.MAX_INTEGER_BITS == 4096
    ensures T.MAX_DEPTH == 64 && T.MAX_TREE_ITEMS == 32768 && T.MAX_TREE_BYTES == 2097152 && T.MAX_INTEGER_BITS == 4096
  {
  }
}
