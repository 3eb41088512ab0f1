/** Sorting by a tuple of strings, and lists without two elements of the same key. */
module Sorting {
  import opened Ordering

  /** The order of tuples of strings. */
  predicate LessKeys(a: seq<string>, b: seq<string>) {
    if b == [] then false
    else if a == [] then true
    else Less(a[0], b[0]) || (a[0] == b[0] && LessKeys(a[1..], b[1..]))
  }

  lemma {:induction false} LessKeysTotal(a: seq<string>, b: seq<string>)
    ensures LessKeys(a, b) || LessKeys(b, a) || a == b
    ensures !(LessKeys(a, b) && LessKeys(b, a)) && !LessKeys(a, a)
  {
    if a != [] {
      LessTotal(a[0], if b == [] then "" else b[0]);
      LessKeysTotal(a[1..], if b == [] then [] else b[1..]);
      if b != [] && a[0] == b[0] && a[1..] == b[1..] {
        assert a == [a[0]] + a[1..] == b;
      }
    }
  }

  lemma {:induction false} LessKeysTransitive(a: seq<string>, b: seq<string>, c: seq<string>)
    requires LessKeys(a, b) && LessKeys(b, c)
    ensures LessKeys(a, c)
  {
    if a != [] {
      LessTotal(a[0], a[0]);
      if a[0] == b[0] == c[0] {
        LessKeysTransitive(a[1..], b[1..], c[1..]);
      } else if a[0] != b[0] && b[0] != c[0] {
        LessTransitive(a[0], b[0], c[0]);
      }
    }
  }

  predicate SortedBy<T>(xs: seq<T>, key: T -> seq<string>) {
    forall i, j | 0 <= i < j < |xs| :: LessKeys(key(xs[i]), key(xs[j]))
  }

  /** No two elements share a key. */
  ghost predicate Distinct<T, K>(xs: seq<T>, key: T -> K) {
    forall i, j | 0 <= i < j < |xs| :: key(xs[i]) != key(xs[j])
  }

  function InsertBy<T>(x: T, xs: seq<T>, key: T -> seq<string>): (r: seq<T>)
    ensures multiset(r) == multiset{x} + multiset(xs)
  {
    if xs == [] || !LessKeys(key(xs[0]), key(x)) then [x] + xs
    else
      assert xs == [xs[0]] + xs[1..];
      [xs[0]] + InsertBy(x, xs[1..], key)
  }

  function SortBy<T>(xs: seq<T>, key: T -> seq<string>): (r: seq<T>)
    ensures multiset(r) == multiset(xs) && |r| == |xs|
  {
    if xs == [] then []
    else
      assert xs == [xs[0]] + xs[1..];
      var r := InsertBy(xs[0], SortBy(xs[1..], key), key);
      assert |multiset(r)| == |r| && |multiset(xs)| == |xs|;
      r
  }

  lemma {:induction false} InsertByKeepsSorted<T>(x: T, xs: seq<T>, key: T -> seq<string>)
    requires SortedBy(xs, key) && forall i | 0 <= i < |xs| :: key(xs[i]) != key(x)
    ensures SortedBy(InsertBy(x, xs, key), key)
  {
    hide LessKeys;
    if xs != [] && LessKeys(key(xs[0]), key(x)) {
      var tail := InsertBy(x, xs[1..], key);
      InsertByKeepsSorted(x, xs[1..], key);
      forall j | 0 <= j < |tail| ensures LessKeys(key(xs[0]), key(tail[j])) {
        assert tail[j] in multiset(tail);
        assert tail[j] == x || tail[j] in xs[1..];
      }
    } else if xs != [] {
      LessKeysTotal(key(xs[0]), key(x));
      forall j | 0 <= j < |xs| ensures LessKeys(key(x), key(xs[j])) {
        if j > 0 { LessKeysTransitive(key(x), key(xs[0]), key(xs[j])); }
      }
    }
  }

  lemma {:induction false} SortByIsSorted<T>(xs: seq<T>, key: T -> seq<string>)
    requires Distinct(xs, key)
    ensures SortedBy(SortBy(xs, key), key)
  {
    if xs != [] {
      var tail := SortBy(xs[1..], key);
      SortByIsSorted(xs[1..], key);
      forall i | 0 <= i < |tail| ensures key(tail[i]) != key(xs[0]) {
        assert tail[i] in multiset(tail);
        assert tail[i] in xs[1..];
      }
      InsertByKeepsSorted(xs[0], tail, key);
    }
  }

  lemma {:induction false} SortedByUnique<T>(xs: seq<T>, ys: seq<T>, key: T -> seq<string>)
    requires SortedBy(xs, key) && SortedBy(ys, key) && multiset(xs) == multiset(ys)
    ensures xs == ys
  {
    hide LessKeys;
    if xs == [] {
      assert |multiset(ys)| == |ys|;
    } else {
      assert xs[0] in multiset(xs) && xs[0] in ys;
      assert ys[0] in multiset(ys) && ys[0] in xs;
      LessKeysTotal(key(xs[0]), key(ys[0]));
      assert xs[0] == ys[0];
      assert xs == [xs[0]] + xs[1..] && ys == [ys[0]] + ys[1..];
      assert multiset(xs[1..]) == multiset(xs) - multiset{xs[0]};
      assert multiset(ys[1..]) == multiset(ys) - multiset{ys[0]};
      SortedByUnique(xs[1..], ys[1..], key);
    }
  }

  /** Sorting forgets the order it was given. */
  lemma SortForgets<T>(xs: seq<T>, ys: seq<T>, key: T -> seq<string>)
    requires multiset(xs) == multiset(ys) && Distinct(xs, key)
    ensures SortBy(xs, key) == SortBy(ys, key)
  {
    DistinctPermutation(xs, ys, key);
    SortByIsSorted(xs, key);
    SortByIsSorted(ys, key);
    SortedByUnique(SortBy(xs, key), SortBy(ys, key), key);
  }

  lemma {:induction false} CountAtMostOne<T>(xs: seq<T>, x: T)
    requires forall i, j | 0 <= i < j < |xs| :: xs[i] != xs[j]
    ensures multiset(xs)[x] <= 1
  {
    if xs != [] {
      CountAtMostOne(xs[1..], x);
      assert xs == [xs[0]] + xs[1..];
      if xs[0] == x {
        assert x !in xs[1..];
        assert x !in multiset(xs[1..]);
      }
    }
  }

  lemma TwiceMeansTwo<T>(xs: seq<T>, i: nat, j: nat)
    requires i < j < |xs| && xs[i] == xs[j]
    ensures multiset(xs)[xs[i]] >= 2
  {
    assert xs == (xs[..i] + [xs[i]]) + (xs[i + 1..j] + [xs[j]] + xs[j + 1..]);
  }

  /** Having distinct keys does not depend on the order. */
  lemma DistinctPermutation<T, K>(xs: seq<T>, ys: seq<T>, key: T -> K)
    requires multiset(xs) == multiset(ys) && Distinct(xs, key)
    ensures Distinct(ys, key)
  {
    forall i, j | 0 <= i < j < |ys| ensures key(ys[i]) != key(ys[j]) {
      assert ys[i] in multiset(ys) && ys[j] in multiset(ys);
      assert ys[i] in xs && ys[j] in xs;
      if ys[i] == ys[j] {
        TwiceMeansTwo(ys, i, j);
        CountAtMostOne(xs, ys[i]);
      }
    }
  }

  lemma SameMembers<T>(xs: seq<T>, ys: seq<T>)
    requires multiset(xs) == multiset(ys)
    ensures |xs| == |ys| && forall x :: x in xs <==> x in ys
  {
    assert |multiset(xs)| == |xs| && |multiset(ys)| == |ys|;
    forall x ensures x in xs <==> x in ys {
      assert x in xs <==> x in multiset(xs);
      assert x in ys <==> x in multiset(ys);
    }
  }

  lemma RemoveAt<T>(xs: seq<T>, j: nat)
    requires j < |xs|
    ensures multiset(xs) == multiset(xs[..j] + xs[j + 1..]) + multiset{xs[j]}
  {
    assert xs == xs[..j] + [xs[j]] + xs[j + 1..];
  }

  lemma Cancel<T>(a: multiset<T>, b: multiset<T>, c: multiset<T>)
    requires a + c == b + c
    ensures a == b
  {
    forall x ensures a[x] == b[x] {
      assert (a + c)[x] == (b + c)[x];
    }
  }

  lemma DropSame<T>(xs: seq<T>, ys: seq<T>, j: nat)
    requires xs != [] && j < |ys| && xs[0] == ys[j]
    ensures multiset(xs) == multiset(ys) <==> multiset(xs[1..]) == multiset(ys[..j] + ys[j + 1..])
  {
    RemoveAt(ys, j);
    RemoveAt(xs, 0);
    assert xs[..0] + xs[1..] == xs[1..];
    var a, b, c := multiset(xs[1..]), multiset(ys[..j] + ys[j + 1..]), multiset{xs[0]};
    if multiset(xs) == multiset(ys) {
      Cancel(a, b, c);
    }
  }

  /** Images of a permuted list, element by element, are a permutation of the images. */
  lemma {:induction false} MapPermutation<T, U>(xs: seq<T>, ys: seq<T>, us: seq<U>, vs: seq<U>)
    requires |us| == |xs| && |vs| == |ys| && multiset(xs) == multiset(ys)
    requires forall i, j | 0 <= i < |xs| && 0 <= j < |ys| && xs[i] == ys[j] :: us[i] == vs[j]
    ensures multiset(us) == multiset(vs)
  {
    SameMembers(xs, ys);
    if xs != [] {
      assert xs[0] in ys;
      var j :| 0 <= j < |ys| && ys[j] == xs[0];
      DropSame(xs, ys, j);
      DropSame(us, vs, j);
      ImagesOfRest(xs, ys, us, vs, j);
      MapPermutation(xs[1..], ys[..j] + ys[j + 1..], us[1..], vs[..j] + vs[j + 1..]);
    }
  }

  lemma ImagesOfRest<T, U>(xs: seq<T>, ys: seq<T>, us: seq<U>, vs: seq<U>, j: nat)
    requires |us| == |xs| > 0 && |vs| == |ys| && j < |ys|
    requires forall i, j | 0 <= i < |xs| && 0 <= j < |ys| && xs[i] == ys[j] :: us[i] == vs[j]
    ensures var ys', vs' := ys[..j] + ys[j + 1..], vs[..j] + vs[j + 1..];
      forall a, b | 0 <= a < |xs[1..]| && 0 <= b < |ys'| && xs[1..][a] == ys'[b] :: us[1..][a] == vs'[b]
  {
    var ys', vs' := ys[..j] + ys[j + 1..], vs[..j] + vs[j + 1..];
    forall a, b | 0 <= a < |xs[1..]| && 0 <= b < |ys'| && xs[1..][a] == ys'[b] ensures us[1..][a] == vs'[b] {
      var k := if b < j then b else b + 1;
      assert ys'[b] == ys[k] && vs'[b] == vs[k];
      assert xs[1..][a] == xs[a + 1];
    }
  }
}
