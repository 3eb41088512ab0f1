/** Heading ids of a rendered document: a cached counter per slug that agrees with searching from two. */
module HeadingIds {
  import opened Basics
  import opened Digits

  // ---------- The slug of a heading ----------

  /** Every character that is not alphanumeric becomes a hyphen, and a run of hyphens becomes one. */
  function Collapse(s: string, isAlphanumeric: char -> bool): (r: string)
    ensures forall k | 0 <= k < |r| :: r[k] == '-' || (isAlphanumeric(r[k]) && r[k] in s)
    ensures forall k | 0 <= k < |r| - 1 :: !(r[k] == '-' && r[k + 1] == '-')
  {
    if s == "" then "" else
    var front := Collapse(s[..|s| - 1], isAlphanumeric);
    var last := s[|s| - 1];
    var c := if isAlphanumeric(last) then last else '-';
    if c == '-' && front != "" && front[|front| - 1] == '-' then front else front + [c]
  }

  function StripHyphens(s: string): string {
    if s != "" && s[0] == '-' then StripHyphens(s[1..])
    else if s != "" && s[|s| - 1] == '-' then StripHyphens(s[..|s| - 1])
    else s
  }

  /** The base of a heading's id, from its normalized and case-folded text. */
  function Base(folded: string, isAlphanumeric: char -> bool): string {
    var s := StripHyphens(Collapse(folded, isAlphanumeric));
    if s == "" then "section" else s
  }

  /** No two hyphens in a row. */
  predicate SingleHyphens(s: string) {
    forall k | 0 <= k < |s| - 1 :: !(s[k] == '-' && s[k + 1] == '-')
  }

  predicate HyphensAnd(s: string, isAlphanumeric: char -> bool) {
    forall k | 0 <= k < |s| :: s[k] == '-' || isAlphanumeric(s[k])
  }

  predicate StripsTo(s: string, r: string, isAlphanumeric: char -> bool) {
    && (r != "" ==> r[0] != '-' && r[|r| - 1] != '-')
    && (SingleHyphens(s) ==> SingleHyphens(r))
    && (HyphensAnd(s, isAlphanumeric) ==> HyphensAnd(r, isAlphanumeric))
    && (r == "" ==> forall k | 0 <= k < |s| :: s[k] == '-')
  }

  lemma {:induction false} StripShape(s: string, isAlphanumeric: char -> bool)
    ensures StripsTo(s, StripHyphens(s), isAlphanumeric)
  {
    if s != "" && s[0] == '-' {
      StripShape(s[1..], isAlphanumeric);
      hide StripHyphens;
      assert s == [s[0]] + s[1..];
      assert SingleHyphens(s) ==> SingleHyphens(s[1..]);
    } else if s != "" && s[|s| - 1] == '-' {
      StripShape(s[..|s| - 1], isAlphanumeric);
      hide StripHyphens;
      assert s == s[..|s| - 1] + [s[|s| - 1]];
      assert SingleHyphens(s) ==> SingleHyphens(s[..|s| - 1]);
    }
  }

  /** A base is never empty, starts and ends without a hyphen, holds no two hyphens in a row and nothing else that is
      not alphanumeric; it is `section` for want of anything alphanumeric. */
  lemma BaseShape(folded: string, isAlphanumeric: char -> bool)
    requires !isAlphanumeric('-')
    ensures var b := Base(folded, isAlphanumeric);
      && b != "" && b[0] != '-' && b[|b| - 1] != '-' && SingleHyphens(b)
      && (b != "section" ==> HyphensAnd(b, isAlphanumeric))
    ensures (forall k | 0 <= k < |folded| :: !isAlphanumeric(folded[k])) ==> Base(folded, isAlphanumeric) == "section"
  {
    var c := Collapse(folded, isAlphanumeric);
    hide Collapse, StripHyphens;
    StripShape(c, isAlphanumeric);
    var r := StripHyphens(c);
    if (forall k | 0 <= k < |folded| :: !isAlphanumeric(folded[k])) && r != "" {
      assert r[0] == '-' || isAlphanumeric(r[0]);
      StrippedIsPart(c, 0);
      assert false;
    }
  }

  lemma {:induction false} StrippedIsPart(s: string, k: nat)
    requires k < |StripHyphens(s)|
    ensures StripHyphens(s)[k] in s
  {
    if s != "" && s[0] == '-' {
      StrippedIsPart(s[1..], k);
    } else if s != "" && s[|s| - 1] == '-' {
      StrippedIsPart(s[..|s| - 1], k);
    }
  }

  // ---------- Unique ids ----------

  /** The id tried for the `n`th heading of a base. */
  function Candidate(base: string, n: nat): string {
    base + "-" + NatText(n)
  }

  lemma NotItself(base: string, n: nat)
    ensures Candidate(base, n) != base
  {
    assert |Candidate(base, n)| > |base|;
  }

  lemma CandidatesDiffer(base: string, m: nat, n: nat)
    requires Candidate(base, m) == Candidate(base, n)
    ensures m == n
  {
    assert Candidate(base, m)[|base| + 1..] == NatText(m);
    assert Candidate(base, n)[|base| + 1..] == NatText(n);
    NatTextInjective(m, n);
  }

  /** The numbers from `lo` up to `hi`, all of whose candidates are taken. */
  predicate AllTaken(taken: set<string>, base: string, lo: nat, hi: nat) {
    forall k | lo <= k < hi :: Candidate(base, k) in taken
  }

  /** A run of taken candidates is no longer than there are ids. */
  lemma {:induction false} RunIsBounded(taken: set<string>, base: string, lo: nat, hi: nat)
    requires lo <= hi && AllTaken(taken, base, lo, hi)
    ensures hi - lo <= |taken|
    decreases hi
  {
    if lo < hi {
      var last := Candidate(base, hi - 1);
      forall k | lo <= k < hi - 1 ensures Candidate(base, k) in taken - {last} {
        if Candidate(base, k) == last { CandidatesDiffer(base, k, hi - 1); }
      }
      RunIsBounded(taken - {last}, base, lo, hi - 1);
    }
  }

  /** The id by plain search: the base itself if it is free, or else the first free candidate from two upward. */
  ghost predicate IsNaive(taken: set<string>, base: string, id: string) {
    if base !in taken then id == base
    else exists n: nat {:trigger Candidate(base, n)} ::
           n >= 2 && id == Candidate(base, n) && id !in taken && AllTaken(taken, base, 2, n)
  }

  lemma NaiveIsUnique(taken: set<string>, base: string, a: string, b: string)
    requires IsNaive(taken, base, a) && IsNaive(taken, base, b)
    ensures a == b && a !in taken
  {
    if base in taken {
      var m: nat :| m >= 2 && a == Candidate(base, m) && a !in taken && AllTaken(taken, base, 2, m);
      var n: nat :| n >= 2 && b == Candidate(base, n) && b !in taken && AllTaken(taken, base, 2, n);
    }
  }

  predicate Cached(counts: map<string, nat>) {
    forall base | base in counts :: counts[base] >= 1 && AllTaken(counts.Keys, base, 2, counts[base] + 1)
  }

  lemma CachedStep(counts: map<string, nat>, base: string, number: nat)
    requires Cached(counts) && base in counts && number >= 2
    requires Candidate(base, number) !in counts && AllTaken(counts.Keys, base, 2, number)
    ensures var more := counts[base := number][Candidate(base, number) := 1];
      Cached(more) && more.Keys == counts.Keys + {Candidate(base, number)}
  {
    NotItself(base, number);
    hide Candidate;
    var more := counts[base := number][Candidate(base, number) := 1];
    assert more.Keys == counts.Keys + {Candidate(base, number)};
    forall b | b in more ensures more[b] >= 1 && AllTaken(more.Keys, b, 2, more[b] + 1) {
      if b != Candidate(base, number) && b != base {
        assert AllTaken(counts.Keys, b, 2, counts[b] + 1);
      }
    }
  }

  lemma CachedNew(counts: map<string, nat>, base: string)
    requires Cached(counts) && base !in counts
    ensures Cached(counts[base := 1]) && counts[base := 1].Keys == counts.Keys + {base}
  {
    hide Candidate;
    var more := counts[base := 1];
    assert more.Keys == counts.Keys + {base};
    forall b | b in more && b != base ensures AllTaken(more.Keys, b, 2, more[b] + 1) {
      assert AllTaken(counts.Keys, b, 2, counts[b] + 1);
    }
  }

  class Slugs {
    /** For each id given, a number up to which its candidates from two are all taken. */
    var counts: map<string, nat>

    constructor ()
      ensures counts == map[]
    {
      counts := map[];
    }

    ghost predicate Valid()
      reads this
    {
      Cached(counts)
    }

    /** `_slug`, from the base of the heading on. */
    method Slug(base: string) returns (id: string)
      requires Valid()
      modifies this
      ensures Valid()
      ensures id !in old(counts) && counts.Keys == old(counts.Keys) + {id}
      ensures IsNaive(old(counts.Keys), base, id)
    {
      hide Candidate;
      if base !in counts {
        CachedNew(counts, base);
        counts := counts[base := 1];
        return base;
      }
      assert AllTaken(counts.Keys, base, 2, counts[base] + 1);
      hide Cached;
      var number := counts[base] + 1;
      var candidate := Candidate(base, number);
      while candidate in counts
        invariant counts == old(counts) && number >= 2 && candidate == Candidate(base, number)
        invariant AllTaken(counts.Keys, base, 2, number)
        decreases |counts.Keys| + 2 - number
      {
        assert AllTaken(counts.Keys, base, 2, number + 1);
        RunIsBounded(counts.Keys, base, 2, number + 1);
        number := number + 1;
        candidate := Candidate(base, number);
      }
      CachedStep(counts, base, number);
      counts := counts[base := number];
      counts := counts[candidate := 1];
      return candidate;
    }
  }

  // ---------- A whole document ----------

  ghost predicate Distinct(ids: seq<string>) {
    forall i, j | 0 <= i < j < |ids| :: ids[i] != ids[j]
  }

  function Taken(ids: seq<string>): set<string> {
    set k | 0 <= k < |ids| :: ids[k]
  }

  /** Each id is what plain search gives after the ids before it. */
  ghost predicate NaiveIds(bases: seq<string>, ids: seq<string>) {
    |ids| == |bases| && forall k | 0 <= k < |ids| :: IsNaive(Taken(ids[..k]), bases[k], ids[k])
  }

  /** The headings of one document, as `_prepare_tokens` takes them. */
  method PrepareHeadings(bases: seq<string>) returns (ids: seq<string>)
    ensures NaiveIds(bases, ids) && Distinct(ids)
  {
    var slugs := new Slugs();
    ids := [];
    for i := 0 to |bases|
      invariant slugs.Valid() && fresh(slugs)
      invariant |ids| == i && slugs.counts.Keys == Taken(ids) && Distinct(ids)
      invariant forall k | 0 <= k < i :: IsNaive(Taken(ids[..k]), bases[k], ids[k])
    {
      hide IsNaive;
      var id := slugs.Slug(bases[i]);
      assert ids[..i] == ids;
      assert forall k | 0 <= k < i :: (ids + [id])[..k] == ids[..k];
      assert Taken(ids + [id]) == Taken(ids) + {id} by {
        assert (ids + [id])[i] == id;
        assert forall k | 0 <= k < i :: (ids + [id])[k] == ids[k];
      }
      ids := ids + [id];
      assert ids[..i + 1] == ids;
    }
  }

  /** The ids of a document are determined by its headings, whatever the counter cached. */
  lemma {:induction false} IdsAreDetermined(bases: seq<string>, a: seq<string>, b: seq<string>)
    requires NaiveIds(bases, a) && NaiveIds(bases, b)
    ensures a == b
  {
    if bases != [] {
      var n := |bases| - 1;
      forall k | 0 <= k < n
        ensures IsNaive(Taken(a[..n][..k]), bases[..n][k], a[..n][k]) && IsNaive(Taken(b[..n][..k]), bases[..n][k], b[..n][k])
      {
        assert a[..n][..k] == a[..k] && b[..n][..k] == b[..k];
      }
      IdsAreDetermined(bases[..n], a[..n], b[..n]);
      NaiveIsUnique(Taken(a[..n]), bases[n], a[n], b[n]);
      assert a == a[..n] + [a[n]] && b == b[..n] + [b[n]];
    }
  }
}
