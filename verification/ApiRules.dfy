/** Rewriting of decoded JSON objects, one key at a time, by tables of rules. */
module ApiRules {
  import opened Basics

  datatype Number = NotANumber | Infinite(positive: bool) | Finite(r: real)

  datatype Value =
    | Null
    | Bool(b: bool)
    | Int(i: int)
    | Float(f: Number)
    | Str(s: string)
    | List(items: seq<Value>)
    | Dict(entries: Object)

  type Object = map<string, Value>

  // ---------- Comparison ----------

  /** `_equal`: the same type at every place, and equal there as Python compares. */
  predicate Equal(a: Value, b: Value)
    decreases a
  {
    match (a, b)
    case (Null, Null) => true
    case (Bool(x), Bool(y)) => x == y
    case (Int(x), Int(y)) => x == y
    case (Float(x), Float(y)) => x == y && !x.NotANumber?
    case (Str(x), Str(y)) => x == y
    case (List(x), List(y)) => |x| == |y| && forall i | 0 <= i < |x| :: Equal(x[i], y[i])
    case (Dict(x), Dict(y)) => x.Keys == y.Keys && forall k | k in x :: Equal(x[k], y[k])
    case _ => false
  }

  /** No number in the value is not a number. */
  predicate Comparable(a: Value)
    decreases a
  {
    match a
    case Float(x) => !x.NotANumber?
    case List(x) => forall i | 0 <= i < |x| :: Comparable(x[i])
    case Dict(x) => forall k | k in x :: Comparable(x[k])
    case _ => true
  }

  /** The comparison is exact structural equality, on values that equal themselves. */
  lemma {:induction false} EqualIsExact(a: Value, b: Value)
    ensures Equal(a, b) <==> a == b && Comparable(a)
    decreases a
  {
    match (a, b) {
      case (List(x), List(y)) =>
        forall i | 0 <= i < |x| && i < |y| ensures Equal(x[i], y[i]) <==> x[i] == y[i] && Comparable(x[i]) {
          EqualIsExact(x[i], y[i]);
        }
      case (Dict(x), Dict(y)) =>
        forall k | k in x && k in y ensures Equal(x[k], y[k]) <==> x[k] == y[k] && Comparable(x[k]) {
          EqualIsExact(x[k], y[k]);
        }
      case _ =>
    }
  }

  // ---------- Rules ----------

  /** What is done with the value under a key. Any other value than a rule speaks of makes the source raise. */
  datatype Rule =
    | Default(value: Value)                                      // `setdefault`
    | OmitFalse                                                  // drop an explicit false
    | Within(rules: seq<KeyRule>, exactlyOne: set<string>)       // a dictionary, if present
    | WithinSome(rules: seq<KeyRule>)                            // a dictionary, if present and not null
    | Each(rules: seq<KeyRule>, mentions: set<string>)           // every element of what is iterated, if present

  datatype KeyRule = KeyRule(key: string, rule: Rule)

  function Get(o: Object, k: string): Option<Value> {
    if k in o then Some(o[k]) else None
  }

  function Put(o: Object, k: string, e: Option<Value>): (r: Object)
    ensures Get(r, k) == e
    ensures forall j | j != k :: Get(r, j) == Get(o, j)
  {
    if e.Some? then o[k := e.value] else o - {k}
  }

  lemma SameObject(a: Object, b: Object)
    requires forall k :: Get(a, k) == Get(b, k)
    ensures a == b
  {
    forall k ensures k in a <==> k in b {
      assert Get(a, k) == Get(b, k);
    }
    forall k | k in a ensures a[k] == b[k] {
      assert Get(a, k) == Get(b, k);
    }
  }

  predicate Contains(s: string, t: string) {
    StartsWith(s, t) || (s != "" && Contains(s[1..], t))
  }

  /** An element that is no dictionary passes only where the source merely asks whether it mentions some keys. */
  predicate Passes(v: Value, mentions: set<string>) {
    mentions != {}
    && match v
       case Str(s) => forall m | m in mentions :: !Contains(s, m)
       case List(items) => forall m | m in mentions :: Str(m) !in items
       case _ => false
  }

  /** What going through a string yields. */
  function Letters(s: string): (r: seq<Value>)
    ensures |r| == |s| && forall k | 0 <= k < |s| :: r[k] == Str([s[k]])
  {
    seq(|s|, k requires 0 <= k < |s| => Str([s[k]]))
  }

  function Apply(rule: Rule, e: Option<Value>): Option<Option<Value>>
    decreases rule, 0
  {
    match rule
    case Default(v) => Some(if e.Some? then e else Some(v))
    case OmitFalse => Some(if e == Some(Bool(false)) then None else e)
    case Within(rules, exactlyOne) =>
      if e.None? then Some(e)
      else if !e.value.Dict? || !ExactlyOne(exactlyOne, e.value.entries) then None
      else
        var r := Rewrite(e.value.entries, rules);
        if r.None? then None else Some(Some(Dict(r.value)))
    case WithinSome(rules) =>
      if e.None? || e.value.Null? then Some(e)
      else if !e.value.Dict? then None
      else
        var r := Rewrite(e.value.entries, rules);
        if r.None? then None else Some(Some(Dict(r.value)))
    case Each(rules, mentions) =>
      if e.None? then Some(e)
      else
        match e.value
        case List(items) =>
          var r := Elements(items, rules, mentions);
          if r.None? then None else Some(Some(List(r.value)))
        case Dict(o) => if forall k | k in o :: Passes(Str(k), mentions) then Some(e) else None
        case Str(s) => if forall v | v in Letters(s) :: Passes(v, mentions) then Some(e) else None
        case _ => None
  }

  /** No demand, or exactly one of the keys is there. */
  predicate ExactlyOne(keys: set<string>, o: Object) {
    keys == {} || |keys * o.Keys| == 1
  }

  /** One rule after another. */
  function Rewrite(o: Object, rules: seq<KeyRule>): Option<Object>
    decreases rules, 1
  {
    if rules == [] then Some(o) else
    var front, last := rules[..|rules| - 1], rules[|rules| - 1];
    var before := Rewrite(o, front);
    if before.None? then None else
    var e := Apply(last.rule, Get(before.value, last.key));
    if e.None? then None else Some(Put(before.value, last.key, e.value))
  }

  function Element(v: Value, rules: seq<KeyRule>, mentions: set<string>): Option<Value>
    decreases rules, 2
  {
    if v.Dict? then
      var r := Rewrite(v.entries, rules);
      if r.None? then None else Some(Dict(r.value))
    else if Passes(v, mentions) then Some(v) else None
  }

  function Elements(items: seq<Value>, rules: seq<KeyRule>, mentions: set<string>): (r: Option<seq<Value>>)
    ensures r.Some? ==> |r.value| == |items|
    decreases rules, 3, |items|
  {
    if items == [] then Some([]) else
    var front := Elements(items[..|items| - 1], rules, mentions);
    if front.None? then None else
    var last := Element(items[|items| - 1], rules, mentions);
    if last.None? then None else Some(front.value + [last.value])
  }

  // ---------- Tables whose rules do not disturb one another ----------

  ghost predicate DistinctKeys(rules: seq<KeyRule>) {
    forall i, j | 0 <= i < j < |rules| :: rules[i].key != rules[j].key
  }

  predicate HasKey(rules: seq<KeyRule>, k: string) {
    exists i :: 0 <= i < |rules| && rules[i].key == k
  }

  /** A table speaks of each key once, and never adds or drops a key that one of its demands counts. */
  ghost predicate Sound(rule: Rule)
    decreases rule
  {
    match rule
    case Within(rules, exactlyOne) => SoundTable(rules) && forall k | k in exactlyOne :: !HasKey(rules, k)
    case WithinSome(rules) => SoundTable(rules)
    case Each(rules, mentions) => SoundTable(rules)
    case _ => true
  }

  ghost predicate SoundTable(rules: seq<KeyRule>)
    decreases rules
  {
    DistinctKeys(rules) && forall i | 0 <= i < |rules| :: Sound(rules[i].rule)
  }

  /** Rewriting by a table is pointwise: each key by its own rule, every other key untouched. */
  lemma {:induction false} RewriteIsPointwise(o: Object, rules: seq<KeyRule>)
    requires DistinctKeys(rules)
    ensures Rewrite(o, rules).Some? <==> forall i | 0 <= i < |rules| :: Apply(rules[i].rule, Get(o, rules[i].key)).Some?
    ensures Rewrite(o, rules).Some? ==>
      forall i | 0 <= i < |rules| :: Apply(rules[i].rule, Get(o, rules[i].key)) == Some(Get(Rewrite(o, rules).value, rules[i].key))
    ensures Rewrite(o, rules).Some? ==>
      forall k | !HasKey(rules, k) :: Get(Rewrite(o, rules).value, k) == Get(o, k)
    decreases |rules|
  {
    hide Apply, Get;
    if rules != [] {
      var n := |rules| - 1;
      var front, last := rules[..n], rules[n];
      assert forall i | 0 <= i < n :: front[i] == rules[i];
      RewriteIsPointwise(o, front);
      assert !HasKey(front, last.key);
      forall k | !HasKey(rules, k) ensures !HasKey(front, k) && k != last.key {
        assert rules[n].key == last.key;
      }
    }
  }

  /** Rewriting once is rewriting for good. */
  lemma {:induction false} ApplyIdempotent(rule: Rule, e: Option<Value>)
    requires Sound(rule) && Apply(rule, e).Some?
    ensures Apply(rule, Apply(rule, e).value) == Some(Apply(rule, e).value)
    decreases rule, 0
  {
    match rule {
      case Within(rules, exactlyOne) =>
        if e.Some? {
          RewriteIdempotent(e.value.entries, rules);
          KeepsExactlyOne(e.value.entries, rules, exactlyOne);
        }
      case WithinSome(rules) =>
        if e.Some? && !e.value.Null? {
          RewriteIdempotent(e.value.entries, rules);
        }
      case Each(rules, mentions) =>
        if e.Some? && e.value.List? {
          ElementsIdempotent(e.value.items, rules, mentions);
        }
      case _ =>
    }
  }

  lemma {:induction false} RewriteIdempotent(o: Object, rules: seq<KeyRule>)
    requires SoundTable(rules) && Rewrite(o, rules).Some?
    ensures Rewrite(Rewrite(o, rules).value, rules) == Rewrite(o, rules)
    decreases rules, 1
  {
    var r := Rewrite(o, rules).value;
    RewriteIsPointwise(o, rules);
    hide Rewrite, Apply;
    forall i | 0 <= i < |rules| ensures Apply(rules[i].rule, Get(r, rules[i].key)) == Some(Get(r, rules[i].key)) {
      ApplyIdempotent(rules[i].rule, Get(o, rules[i].key));
    }
    NothingToRewrite(r, rules);
  }

  lemma NothingToRewrite(o: Object, rules: seq<KeyRule>)
    requires DistinctKeys(rules)
    requires forall i | 0 <= i < |rules| :: Apply(rules[i].rule, Get(o, rules[i].key)) == Some(Get(o, rules[i].key))
    ensures Rewrite(o, rules) == Some(o)
  {
    RewriteIsPointwise(o, rules);
    hide Rewrite, Apply;
    var r := Rewrite(o, rules).value;
    forall k ensures Get(r, k) == Get(o, k) {
      if HasKey(rules, k) {
        var i :| 0 <= i < |rules| && rules[i].key == k;
        assert Apply(rules[i].rule, Get(o, rules[i].key)) == Some(Get(r, rules[i].key));
      }
    }
    SameObject(r, o);
  }

  lemma KeepsExactlyOne(o: Object, rules: seq<KeyRule>, keys: set<string>)
    requires DistinctKeys(rules) && Rewrite(o, rules).Some? && ExactlyOne(keys, o)
    requires forall k | k in keys :: !HasKey(rules, k)
    ensures ExactlyOne(keys, Rewrite(o, rules).value)
  {
    RewriteIsPointwise(o, rules);
    var r := Rewrite(o, rules).value;
    hide Rewrite, Apply;
    forall k | k in keys ensures k in r <==> k in o {
      assert Get(r, k) == Get(o, k);
    }
    assert keys * r.Keys == keys * o.Keys;
  }

  lemma {:induction false} ElementsIdempotent(items: seq<Value>, rules: seq<KeyRule>, mentions: set<string>)
    requires SoundTable(rules) && Elements(items, rules, mentions).Some?
    ensures Elements(Elements(items, rules, mentions).value, rules, mentions) == Elements(items, rules, mentions)
    decreases rules, 3, |items|
  {
    if items != [] {
      var n := |items| - 1;
      var r := Elements(items, rules, mentions).value;
      ElementsIdempotent(items[..n], rules, mentions);
      if items[n].Dict? {
        RewriteIdempotent(items[n].entries, rules);
      }
      hide Rewrite, Passes;
      assert r[..n] == Elements(items[..n], rules, mentions).value;
      assert Element(r[n], rules, mentions) == Some(r[n]);
    }
  }
}
