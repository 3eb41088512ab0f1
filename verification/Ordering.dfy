/** Code-point order on strings, and members sorted by key: Python's `sorted` and `sort_keys=True`. */
module Ordering {
  import opened Json

  predicate Less(a: string, b: string) {
    if b == "" then false
    else if a == "" then true
    else a[0] < b[0] || (a[0] == b[0] && Less(a[1..], b[1..]))
  }

  lemma {:induction false} LessTotal(a: string, b: string)
    ensures Less(a, b) || Less(b, a) || a == b
    ensures !(Less(a, b) && Less(b, a))
    ensures !Less(a, a)
  {
    if a != "" {
      LessTotal(a[1..], if b == "" then "" else b[1..]);
      if b != "" && a[0] == b[0] && a[1..] == b[1..] {
        assert a == [a[0]] + a[1..] == b;
      }
    }
  }

  lemma {:induction false} LessTransitive(a: string, b: string, c: string)
    requires Less(a, b) && Less(b, c)
    ensures Less(a, c)
  {
    if a != "" && a[0] == b[0] == c[0] {
      LessTransitive(a[1..], b[1..], c[1..]);
    }
  }

  ghost predicate Sorted(ms: seq<Member>) {
    forall i, j | 0 <= i < j < |ms| :: Less(ms[i].key, ms[j].key)
  }

  ghost predicate DistinctNames(ms: seq<Member>) {
    forall i, j | 0 <= i < j < |ms| :: ms[i].key != ms[j].key
  }

  function Insert(m: Member, ms: seq<Member>): (r: seq<Member>)
    ensures multiset(r) == multiset{m} + multiset(ms)
  {
    if ms == [] || !Less(ms[0].key, m.key) then [m] + ms
    else
      assert ms == [ms[0]] + ms[1..];
      [ms[0]] + Insert(m, ms[1..])
  }

  function SortMembers(ms: seq<Member>): (r: seq<Member>)
    ensures multiset(r) == multiset(ms)
  {
    if ms == [] then []
    else
      assert ms == [ms[0]] + ms[1..];
      Insert(ms[0], SortMembers(ms[1..]))
  }

  lemma {:induction false} InsertKeepsSorted(m: Member, ms: seq<Member>)
    requires Sorted(ms) && forall i | 0 <= i < |ms| :: ms[i].key != m.key
    ensures Sorted(Insert(m, ms))
  {
    if ms != [] && Less(ms[0].key, m.key) {
      var tail := Insert(m, ms[1..]);
      InsertKeepsSorted(m, ms[1..]);
      forall j | 0 <= j < |tail| ensures Less(ms[0].key, tail[j].key) {
        assert tail[j] in multiset(tail);
        assert tail[j] == m || tail[j] in ms[1..];
      }
    } else if ms != [] {
      LessTotal(ms[0].key, m.key);
      forall j | 0 <= j < |ms| ensures Less(m.key, ms[j].key) {
        if j > 0 { LessTransitive(m.key, ms[0].key, ms[j].key); }
      }
    }
  }

  lemma {:induction false} SortIsSorted(ms: seq<Member>)
    requires DistinctNames(ms)
    ensures Sorted(SortMembers(ms))
  {
    if ms != [] {
      var tail := SortMembers(ms[1..]);
      SortIsSorted(ms[1..]);
      forall i | 0 <= i < |tail| ensures tail[i].key != ms[0].key {
        assert tail[i] in multiset(tail);
        assert tail[i] in ms[1..];
      }
      InsertKeepsSorted(ms[0], tail);
    }
  }

  lemma {:induction false} SortedUnique(xs: seq<Member>, ys: seq<Member>)
    requires Sorted(xs) && Sorted(ys)
    requires forall m :: m in xs <==> m in ys
    ensures xs == ys
  {
    assert ys != [] ==> ys[0] in ys;
    if xs != [] {
      assert xs[0] in ys && ys[0] in xs;
      LessTotal(xs[0].key, ys[0].key);
      assert xs[0] == ys[0];
      forall m ensures m in xs[1..] <==> m in ys[1..] {
        LessTotal(xs[0].key, xs[0].key);
        assert xs[0] !in xs[1..] && ys[0] !in ys[1..];
        assert m in xs <==> m == xs[0] || m in xs[1..];
        assert m in ys <==> m == ys[0] || m in ys[1..];
      }
      SortedUnique(xs[1..], ys[1..]);
    }
  }

  /** Sorting forgets exactly the order of the members. */
  lemma SortForgetsOrder(xs: seq<Member>, ys: seq<Member>)
    requires DistinctNames(xs) && DistinctNames(ys)
    ensures SortMembers(xs) == SortMembers(ys) <==> forall m :: m in xs <==> m in ys
  {
    SortIsSorted(xs);
    SortIsSorted(ys);
    assert forall m :: m in xs <==> m in multiset(xs);
    assert forall m :: m in ys <==> m in multiset(ys);
    assert forall m :: m in SortMembers(xs) <==> m in multiset(SortMembers(xs));
    assert forall m :: m in SortMembers(ys) <==> m in multiset(SortMembers(ys));
    if forall m :: m in xs <==> m in ys {
      SortedUnique(SortMembers(xs), SortMembers(ys));
    }
  }

  // ---------- The order, said without recursion ----------

  /** `a` and `b` agree before `k`, where `a` ends or has the smaller code point. */
  predicate ComesFirstAt(a: string, b: string, k: nat) {
    k <= |a| && k < |b| && a[..k] == b[..k] && (k < |a| ==> a[k] as int < b[k] as int)
  }

  /** `a` is a proper prefix of `b`, or smaller at the first place where they differ. */
  ghost predicate ComesFirst(a: string, b: string) {
    exists k: nat :: ComesFirstAt(a, b, k)
  }

  lemma {:induction false} LessAt(a: string, b: string, k: nat)
    requires ComesFirstAt(a, b, k)
    ensures Less(a, b)
  {
    if k > 0 {
      assert a[0] == a[..k][0] == b[..k][0] == b[0];
      assert a[1..][..k - 1] == a[..k][1..] == b[..k][1..] == b[1..][..k - 1];
      LessAt(a[1..], b[1..], k - 1);
    }
  }

  lemma {:induction false} LessHasPlace(a: string, b: string) returns (k: nat)
    requires Less(a, b)
    ensures ComesFirstAt(a, b, k)
  {
    if a == "" || a[0] != b[0] {
      k := 0;
    } else {
      k := LessHasPlace(a[1..], b[1..]);
      k := k + 1;
      assert a[..k] == [a[0]] + a[1..][..k - 1] && b[..k] == [b[0]] + b[1..][..k - 1];
    }
  }

  /** The order is by code points: a prefix comes first, and otherwise the first difference decides. */
  lemma LessIsByCodePoint(a: string, b: string)
    ensures Less(a, b) <==> ComesFirst(a, b)
  {
    if Less(a, b) {
      var k := LessHasPlace(a, b);
    }
    if k: nat :| ComesFirstAt(a, b, k) {
      LessAt(a, b, k);
    }
  }

  /** Sorting leaves sorted members alone. */
  lemma SortedStays(ms: seq<Member>)
    requires Sorted(ms)
    ensures SortMembers(ms) == ms
  {
    forall i, j | 0 <= i < j < |ms| ensures ms[i].key != ms[j].key {
      LessTotal(ms[i].key, ms[j].key);
    }
    SortIsSorted(ms);
    assert forall m :: m in ms <==> m in multiset(ms);
    assert forall m :: m in SortMembers(ms) <==> m in multiset(SortMembers(ms));
    SortedUnique(SortMembers(ms), ms);
  }
}
