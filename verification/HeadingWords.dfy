/** The base of a heading's id is its words, in order, joined by hyphens. */
module HeadingWords {
  import opened Basics
  import opened HeadingIds

  /** The maximal runs of alphanumeric characters. */
  function Words(s: string, isAlphanumeric: char -> bool): seq<string> {
    if s == "" then [] else
    var front, last := s[..|s| - 1], s[|s| - 1];
    var words := Words(front, isAlphanumeric);
    if !isAlphanumeric(last) then words
    else if front != "" && isAlphanumeric(front[|front| - 1]) && words != [] then
      words[..|words| - 1] + [words[|words| - 1] + [last]]
    else words + [[last]]
  }

  function Hyphenated(words: seq<string>): string {
    if words == [] then ""
    else if |words| == 1 then words[0]
    else Hyphenated(words[..|words| - 1]) + "-" + words[|words| - 1]
  }

  lemma {:induction false} HyphenatedExtends(words: seq<string>, c: char)
    requires words != []
    ensures Hyphenated(words[..|words| - 1] + [words[|words| - 1] + [c]]) == Hyphenated(words) + [c]
  {
    var n := |words| - 1;
    HyphenatedAppend(words[..n], words[n] + [c]);
    HyphenatedAppend(words[..n], words[n]);
    hide *;
    assert words[..n] + [words[n]] == words;
    if n > 0 {
      assert (Hyphenated(words[..n]) + "-" + words[n]) + [c] == Hyphenated(words[..n]) + "-" + (words[n] + [c]);
    }
  }

  lemma {:induction false} HyphenatedAppend(words: seq<string>, w: string)
    ensures Hyphenated(words + [w]) == if words == [] then w else Hyphenated(words) + "-" + w
  {
    assert (words + [w])[..|words|] == words;
    var more := words + [w];
    assert Hyphenated(more) == if |more| == 1 then more[0] else Hyphenated(more[..|words|]) + "-" + more[|words|];
  }

  predicate AlphanumericWords(words: seq<string>, isAlphanumeric: char -> bool) {
    forall w | w in words :: w != "" && forall k | 0 <= k < |w| :: isAlphanumeric(w[k])
  }

  lemma LongerWords(words: seq<string>, last: char, isAlphanumeric: char -> bool)
    requires AlphanumericWords(words, isAlphanumeric) && isAlphanumeric(last)
    ensures AlphanumericWords(words + [[last]], isAlphanumeric)
    ensures words != [] ==>
      AlphanumericWords(words[..|words| - 1] + [words[|words| - 1] + [last]], isAlphanumeric)
  {
    if words != [] {
      assert words[|words| - 1] in words;
      assert forall w | w in words[..|words| - 1] :: w in words;
    }
  }

  lemma {:induction false} WordsAreAlphanumeric(s: string, isAlphanumeric: char -> bool)
    ensures AlphanumericWords(Words(s, isAlphanumeric), isAlphanumeric)
    ensures s != "" && isAlphanumeric(s[|s| - 1]) ==> Words(s, isAlphanumeric) != []
  {
    if s != "" {
      var front := s[..|s| - 1];
      WordsAreAlphanumeric(front, isAlphanumeric);
      if isAlphanumeric(s[|s| - 1]) {
        LongerWords(Words(front, isAlphanumeric), s[|s| - 1], isAlphanumeric);
      }
      hide AlphanumericWords;
    }
  }

  lemma {:induction false} HyphenatedEnds(words: seq<string>, isAlphanumeric: char -> bool)
    requires words != [] && AlphanumericWords(words, isAlphanumeric) && !isAlphanumeric('-')
    ensures var h := Hyphenated(words); h != "" && h[0] != '-' && h[|h| - 1] != '-'
  {
    assert words[|words| - 1] in words;
    if |words| > 1 {
      var front := words[..|words| - 1];
      assert forall w | w in front :: w in words;
      HyphenatedEnds(front, isAlphanumeric);
    }
  }

  /** Words with a hyphen before or after them. */
  function Between(lead: bool, words: seq<string>, trail: bool): string {
    (if lead then "-" else "") + Hyphenated(words) + (if trail then "-" else "")
  }

  /** One more character after a collapsed text: it ends the last word, goes on with it, or begins another. */
  lemma {:induction false} CollapseStep(s: string, isAlphanumeric: char -> bool)
    requires s != "" && !isAlphanumeric('-')
    ensures var front, last := Collapse(s[..|s| - 1], isAlphanumeric), s[|s| - 1];
      Collapse(s, isAlphanumeric) ==
        if isAlphanumeric(last) then front + [last]
        else if front != "" && front[|front| - 1] == '-' then front else front + "-"
  {
  }

  lemma {:induction false} BetweenStep(lead: bool, words: seq<string>, trail: bool, last: char)
    requires words == [] ==> !trail
    requires words != [] ==> var h := Hyphenated(words); h != "" && h[|h| - 1] != '-'
    ensures var b := Between(lead, words, trail);
      && (words != [] && !trail ==>
        b + [last] == Between(lead, words[..|words| - 1] + [words[|words| - 1] + [last]], false))
      && (words == [] || trail ==> b + [last] == Between(lead, words + [[last]], false))
      && (if b != "" && b[|b| - 1] == '-' then b else b + "-")
         == if words == [] then "-" else Between(lead, words, true)
  {
    HyphenatedAppend(words, [last]);
    if words != [] {
      HyphenatedExtends(words, last);
    } else {
      assert Hyphenated(words) == "";
    }
    hide Hyphenated;
    var h := Hyphenated(words);
    assert Between(lead, words, trail) == (if lead then "-" else "") + (h + if trail then "-" else "");
  }

  lemma {:induction false} WordsStep(s: string, isAlphanumeric: char -> bool)
    requires s != ""
    ensures var front, last := s[..|s| - 1], s[|s| - 1];
      var words := Words(front, isAlphanumeric);
      Words(s, isAlphanumeric) ==
        if !isAlphanumeric(last) then words
        else if front != "" && isAlphanumeric(front[|front| - 1]) && words != [] then
          words[..|words| - 1] + [words[|words| - 1] + [last]]
        else words + [[last]]
  {
  }

  predicate Lead(s: string, isAlphanumeric: char -> bool) {
    s != "" && !isAlphanumeric(s[0])
  }

  predicate Trail(s: string, isAlphanumeric: char -> bool) {
    s != "" && !isAlphanumeric(s[|s| - 1]) && Words(s, isAlphanumeric) != []
  }

  /** Collapsing keeps the words, with a hyphen at each end that was not alphanumeric. */
  lemma {:induction false} CollapseIsWords(s: string, isAlphanumeric: char -> bool)
    requires !isAlphanumeric('-')
    ensures Collapse(s, isAlphanumeric) ==
      Between(Lead(s, isAlphanumeric), Words(s, isAlphanumeric), Trail(s, isAlphanumeric))
  {
    if s != "" {
      var front, last := s[..|s| - 1], s[|s| - 1];
      CollapseIsWords(front, isAlphanumeric);
      CollapseStep(s, isAlphanumeric);
      WordsStep(s, isAlphanumeric);
      WordsAreAlphanumeric(front, isAlphanumeric);
      var words := Words(front, isAlphanumeric);
      FirstAlphanumeric(front, isAlphanumeric);
      if words != [] {
        HyphenatedEnds(words, isAlphanumeric);
      }
      hide Collapse, Hyphenated, AlphanumericWords, Words, Between;
      var lead, trail := Lead(front, isAlphanumeric), Trail(front, isAlphanumeric);
      BetweenStep(lead, words, trail, last);
      LeadStays(s, isAlphanumeric);
      if isAlphanumeric(last) {
        assert !Trail(s, isAlphanumeric);
      } else if words == [] {
        assert Between(true, [], false) == "-" by { assert Hyphenated([]) == ""; }
      }
    } else {
      assert Between(false, [], false) == "";
    }
  }

  /** Whether the text begins with a hyphen is settled by its first character, or by its being without words. */
  lemma {:induction false} LeadStays(s: string, isAlphanumeric: char -> bool)
    requires s != ""
    ensures Lead(s, isAlphanumeric) ==
      if |s| == 1 then !isAlphanumeric(s[0]) else Lead(s[..|s| - 1], isAlphanumeric)
  {
  }

  lemma {:induction false} FirstAlphanumeric(s: string, isAlphanumeric: char -> bool)
    ensures Words(s, isAlphanumeric) == [] <==> forall k | 0 <= k < |s| :: !isAlphanumeric(s[k])
  {
    if s != "" {
      var front := s[..|s| - 1];
      FirstAlphanumeric(front, isAlphanumeric);
      assert (forall k | 0 <= k < |s| :: !isAlphanumeric(s[k])) <==>
        (forall k | 0 <= k < |front| :: !isAlphanumeric(front[k])) && !isAlphanumeric(s[|s| - 1]);
    }
  }

  lemma StripTrail(s: string)
    requires s != "" && s[0] != '-' && s[|s| - 1] != '-'
    ensures StripHyphens(s) == s && StripHyphens(s + "-") == s
  {
    assert (s + "-")[..|s|] == s;
  }

  lemma StripLead(s: string)
    ensures StripHyphens("-" + s) == StripHyphens(s)
  {
    assert ("-" + s)[1..] == s;
  }

  lemma StripEnds(s: string, lead: bool, trail: bool)
    requires s != "" && s[0] != '-' && s[|s| - 1] != '-'
    ensures StripHyphens((if lead then "-" else "") + s + (if trail then "-" else "")) == s
  {
    StripTrail(s);
    StripLead(s);
    StripLead(s + "-");
    hide StripHyphens;
    assert "-" + s + "-" == "-" + (s + "-") && "" + s + "-" == s + "-" && "" + s + "" == s && "-" + s + "" == "-" + s;
  }

  /** The base keeps every alphanumeric character, in order and in its word, and parts words by single hyphens. */
  lemma BaseIsWords(folded: string, isAlphanumeric: char -> bool)
    requires !isAlphanumeric('-')
    ensures Base(folded, isAlphanumeric) ==
      if Words(folded, isAlphanumeric) == [] then "section" else Hyphenated(Words(folded, isAlphanumeric))
  {
    CollapseIsWords(folded, isAlphanumeric);
    WordsAreAlphanumeric(folded, isAlphanumeric);
    var words := Words(folded, isAlphanumeric);
    if words != [] {
      HyphenatedEnds(words, isAlphanumeric);
      StripEnds(Hyphenated(words), !isAlphanumeric(folded[0]), !isAlphanumeric(folded[|folded| - 1]));
    } else {
      assert StripHyphens("") == "" && "-"[1..] == "" && StripHyphens("-") == "";
    }
  }
}
