/** The canonical encoder as it runs: a walk over an object graph that counts items and remembers open containers. */
module CanonicalWalk {
  import opened Basics
  import opened Digits
  import opened Json
  import opened Canonical

  // ---------- Objects and their unfoldings ----------

  /** An object's identity, as `id()` gives it: an index into the heap. */
  type Ref = nat

  /** Containers may share members and may contain themselves; a leaf has no members. */
  datatype Cell =
    | LeafCell(leaf: Value)
    | EnumCell(member: Ref)
    | ListCell(items: seq<Ref>)
    | TupleCell(items: seq<Ref>)
    | RecordCell(keys: seq<Key>, values: seq<Ref>)
    | DictCell(keys: seq<Key>, values: seq<Ref>)

  type Heap = seq<Cell>

  predicate IsCollection(c: Cell) {
    !c.LeafCell? && !c.EnumCell?
  }

  function Members(c: Cell): seq<Ref> {
    match c
    case LeafCell(_) => []
    case EnumCell(member) => [member]
    case ListCell(items) => items
    case TupleCell(items) => items
    case RecordCell(_, values) => values
    case DictCell(_, values) => values
  }

  predicate IsLeaf(v: Value) {
    match v
    case PyEnum(_) => false
    case PyList(_) => false
    case PyTuple(_) => false
    case PyRecord(_) => false
    case PyDict(_) => false
    case _ => true
  }

  /** What Python itself guarantees of one object. */
  ghost predicate PythonCell(heap: Heap, c: Cell) {
    && (forall i | 0 <= i < |Members(c)| :: Members(c)[i] < |heap|)
    && (c.LeafCell? ==> IsLeaf(c.leaf) && PythonValue(c.leaf))
    && (c.RecordCell? || c.DictCell? ==>
          && |c.keys| == |c.values|
          && forall i, j | 0 <= i < j < |c.keys| && c.keys[i].Name? :: c.keys[i] != c.keys[j])
    && (c.RecordCell? ==> forall i | 0 <= i < |c.keys| :: c.keys[i].Name? && c.keys[i].name != DECIMAL_TAG)
  }

  ghost predicate PythonHeap(heap: Heap) {
    forall r | 0 <= r < |heap| :: PythonCell(heap, heap[r])
  }

  function EntryValues(entries: seq<Entry>): (vs: seq<Value>)
    ensures |vs| == |entries| && forall i | 0 <= i < |entries| :: vs[i] == entries[i].value
  {
    seq(|entries|, i requires 0 <= i < |entries| => entries[i].value)
  }

  function EntryKeys(entries: seq<Entry>): (ks: seq<Key>)
    ensures |ks| == |entries| && forall i | 0 <= i < |entries| :: ks[i] == entries[i].key
  {
    seq(|entries|, i requires 0 <= i < |entries| => entries[i].key)
  }

  function Pairs(keys: seq<Key>, vs: seq<Value>): (entries: seq<Entry>)
    requires |keys| == |vs|
    ensures EntryKeys(entries) == keys && EntryValues(entries) == vs
  {
    seq(|vs|, i requires 0 <= i < |vs| => Entry(keys[i], vs[i]))
  }

  /** The values directly inside a value. */
  ghost function Kids(v: Value): (vs: seq<Value>)
    ensures forall i | 0 <= i < |vs| :: vs[i] < v
  {
    match v
    case PyEnum(member) => [member]
    case PyList(items) => items
    case PyTuple(items) => items
    case PyRecord(fields) => EntryValues(fields)
    case PyDict(entries) => EntryValues(entries)
    case _ => []
  }

  /** The value is of the kind of the object, with its keys. */
  ghost predicate Matches(c: Cell, v: Value) {
    && |Kids(v)| == |Members(c)|
    && match v
       case PyEnum(_) => c.EnumCell?
       case PyList(_) => c.ListCell?
       case PyTuple(_) => c.TupleCell?
       case PyRecord(fields) => c.RecordCell? && EntryKeys(fields) == c.keys
       case PyDict(entries) => c.DictCell? && EntryKeys(entries) == c.keys
       case _ => c == LeafCell(v)
  }

  /** `v` is the whole of what is reachable from `r`, written out as a finite value. */
  ghost predicate Unfolds(heap: Heap, r: Ref, v: Value)
    decreases v
  {
    && r < |heap| && Matches(heap[r], v)
    && forall i | 0 <= i < |Kids(v)| :: Unfolds(heap, Members(heap[r])[i], Kids(v)[i])
  }

  lemma SameKids(c: Cell, v: Value, w: Value)
    requires Matches(c, v) && Matches(c, w) && Kids(v) == Kids(w)
    ensures v == w
  {
    match v {
      case PyRecord(fields) => SameEntries(fields, w.fields);
      case PyDict(entries) => SameEntries(entries, w.entries);
      case PyEnum(_) => assert Kids(v)[0] == Kids(w)[0];
      case _ =>
    }
  }

  lemma SameEntries(a: seq<Entry>, b: seq<Entry>)
    requires EntryKeys(a) == EntryKeys(b) && EntryValues(a) == EntryValues(b)
    ensures a == b
  {
    assert |EntryKeys(a)| == |EntryKeys(b)|;
    forall i | 0 <= i < |a| ensures a[i] == b[i] {
      assert EntryKeys(a)[i] == EntryKeys(b)[i] && EntryValues(a)[i] == EntryValues(b)[i];
    }
  }

  /** An object has one unfolding at most. */
  lemma {:induction false} UnfoldsUnique(heap: Heap, r: Ref, v: Value, w: Value)
    requires Unfolds(heap, r, v) && Unfolds(heap, r, w)
    ensures v == w
    decreases v
  {
    forall i | 0 <= i < |Kids(v)| ensures Kids(v)[i] == Kids(w)[i] {
      UnfoldsUnique(heap, Members(heap[r])[i], Kids(v)[i], Kids(w)[i]);
    }
    SameKids(heap[r], v, w);
  }

  // ---------- Cycles ----------

  /** `b` is reached from `a` in exactly `n` steps. */
  ghost predicate Descends(heap: Heap, a: Ref, b: Ref, n: nat)
    decreases n
  {
    if n == 0 then a == b
    else a < |heap| && exists i :: 0 <= i < |Members(heap[a])| && Descends(heap, Members(heap[a])[i], b, n - 1)
  }

  lemma {:induction false} DescendsFurther(heap: Heap, a: Ref, b: Ref, n: nat, i: nat)
    requires b < |heap| && Descends(heap, a, b, n) && i < |Members(heap[b])|
    ensures Descends(heap, a, Members(heap[b])[i], n + 1)
    decreases n
  {
    if n == 0 {
      assert Descends(heap, Members(heap[a])[i], Members(heap[b])[i], 0);
    } else {
      var j :| 0 <= j < |Members(heap[a])| && Descends(heap, Members(heap[a])[j], b, n - 1);
      DescendsFurther(heap, Members(heap[a])[j], b, n - 1, i);
    }
  }

  lemma {:induction false} UnfoldingBelow(heap: Heap, a: Ref, b: Ref, n: nat, v: Value) returns (w: Value)
    requires Unfolds(heap, a, v) && Descends(heap, a, b, n)
    ensures Unfolds(heap, b, w) && (w == v || w < v) && (n > 0 ==> w < v)
    decreases n
  {
    if n == 0 {
      w := v;
    } else {
      var i :| 0 <= i < |Members(heap[a])| && Descends(heap, Members(heap[a])[i], b, n - 1);
      w := UnfoldingBelow(heap, Members(heap[a])[i], b, n - 1, Kids(v)[i]);
    }
  }

  /** An object that reaches itself has no finite unfolding. */
  lemma CycleHasNoUnfolding(heap: Heap, r: Ref, n: nat)
    requires n > 0 && Descends(heap, r, r, n)
    ensures !exists v :: Unfolds(heap, r, v)
  {
    hide Unfolds, Descends;
    forall v | Unfolds(heap, r, v) ensures false {
      var w := UnfoldingBelow(heap, r, r, n, v);
      UnfoldsUnique(heap, r, v, w);
    }
  }

  /** Nor has one from which such an object can be reached. */
  lemma ReachedCycleHasNoUnfolding(heap: Heap, r: Ref, b: Ref, m: nat, n: nat)
    requires Descends(heap, r, b, m) && n > 0 && Descends(heap, b, b, n)
    ensures !exists v :: Unfolds(heap, r, v)
  {
    hide Unfolds, Descends;
    CycleHasNoUnfolding(heap, b, n);
    forall v | Unfolds(heap, r, v) ensures false {
      var w := UnfoldingBelow(heap, r, b, m, v);
    }
  }

  // ---------- The value-level conditions, one object at a time ----------

  /** A leaf that can be encoded, or keys that can. */
  predicate OwnOk(v: Value) {
    if v.PyDict? then EncodableKeys(v.entries) else IsLeaf(v) ==> Encodable(v, 0)
  }

  lemma EncodableParts(v: Value, depth: nat)
    ensures Encodable(v, depth) <==>
      depth <= MAX_DEPTH && OwnOk(v) && forall i | 0 <= i < |Kids(v)| :: Encodable(Kids(v)[i], depth + 1)
  {
    hide EncodableKeys, IsNatText, NormalDecimal, IntText, Utf8Length, Pow2;
    match v {
      case PyEnum(member) => assert Kids(v)[0] == member;
      case PyRecord(fields) =>
        EncodableValues(fields, depth + 1);
        assert Kids(v) == EntryValues(fields);
        assert Encodable(v, depth) <==>
          depth <= MAX_DEPTH && forall i | 0 <= i < |fields| :: Encodable(fields[i].value, depth + 1);
      case PyDict(entries) =>
        EncodableValues(entries, depth + 1);
        assert Kids(v) == EntryValues(entries);
      case PyList(items) =>
        assert Kids(v) == items;
        assert Encodable(v, depth) <==>
          depth <= MAX_DEPTH && forall i | 0 <= i < |items| :: Encodable(items[i], depth + 1);
      case PyTuple(items) =>
        assert Kids(v) == items;
        assert Encodable(v, depth) <==>
          depth <= MAX_DEPTH && forall i | 0 <= i < |items| :: Encodable(items[i], depth + 1);
      case _ => LeafDepth(v, depth);
    }
  }

  lemma LeafDepth(v: Value, depth: nat)
    requires IsLeaf(v)
    ensures Encodable(v, depth) <==> depth <= MAX_DEPTH && Encodable(v, 0)
  {
  }

  lemma EncodableValues(entries: seq<Entry>, depth: nat)
    ensures (forall i | 0 <= i < |entries| :: Encodable(entries[i].value, depth))
       <==> (forall i | 0 <= i < |entries| :: Encodable(EntryValues(entries)[i], depth))
  {
    hide Encodable;
    if forall i | 0 <= i < |entries| :: Encodable(EntryValues(entries)[i], depth) {
      forall i | 0 <= i < |entries| ensures Encodable(entries[i].value, depth) {
        assert Encodable(EntryValues(entries)[i], depth);
      }
    }
  }

  lemma {:induction false} ItemsOfValues(entries: seq<Entry>)
    ensures ItemsOfEntries(entries) == ItemsOf(EntryValues(entries))
  {
    hide Items;
    if entries != [] {
      ItemsOfValues(entries[..|entries| - 1]);
      assert EntryValues(entries)[..|entries| - 1] == EntryValues(entries[..|entries| - 1]);
    }
  }

  lemma ItemsParts(v: Value)
    ensures Items(v) == 1 + ItemsOf(Kids(v))
  {
    match v {
      case PyEnum(member) => assert ItemsOf([member]) == ItemsOf([member][..0]) + Items(member);
      case PyRecord(fields) => ItemsOfValues(fields);
      case PyDict(entries) => ItemsOfValues(entries);
      case _ =>
    }
  }

  function KeyName(k: Key): string {
    if k.Name? then k.name else ""
  }

  function Named(keys: seq<Key>, js: seq<Json>): seq<Member>
    requires |keys| == |js|
  {
    seq(|js|, i requires 0 <= i < |js| => Member(KeyName(keys[i]), js[i]))
  }

  lemma NormalMembersAre(entries: seq<Entry>)
    ensures NormalMembers(entries) == Named(EntryKeys(entries), NormalItems(EntryValues(entries)))
  {
    hide Normal;
    assert forall i | 0 <= i < |entries| :: NormalMembers(entries)[i] == NormalMember(entries[i]);
  }

  // ---------- The walk ----------

  /** Every open container stands above `r`. */
  ghost predicate OpenAbove(heap: Heap, active: set<Ref>, r: Ref) {
    forall a | a in active :: exists n: nat :: n > 0 && Descends(heap, a, r, n)
  }

  lemma OpenBelow(heap: Heap, active: set<Ref>, r: Ref, i: nat, own: bool)
    requires r < |heap| && OpenAbove(heap, active, r) && i < |Members(heap[r])|
    ensures OpenAbove(heap, if own then active + {r} else active, Members(heap[r])[i])
  {
    hide Descends, Members;
    var more := if own then active + {r} else active;
    forall a | a in more ensures exists n: nat :: n > 0 && Descends(heap, a, Members(heap[r])[i], n) {
      if a in active {
        var n: nat :| n > 0 && Descends(heap, a, r, n);
        DescendsFurther(heap, a, r, n, i);
      } else {
        SelfDescends(heap, r);
        DescendsFurther(heap, r, r, 0, i);
      }
    }
  }

  lemma SelfDescends(heap: Heap, r: Ref)
    ensures Descends(heap, r, r, 0)
  {
  }

  lemma OpenIsCyclic(heap: Heap, active: set<Ref>, r: Ref)
    requires OpenAbove(heap, active, r) && r in active
    ensures !exists v :: Unfolds(heap, r, v)
  {
    var n: nat :| n > 0 && Descends(heap, r, r, n);
    CycleHasNoUnfolding(heap, r, n);
  }

  /** `v` is an acceptable unfolding of `r` that costs at most `budget` items. */
  ghost predicate Fits(heap: Heap, r: Ref, depth: nat, budget: int, v: Value) {
    Unfolds(heap, r, v) && Encodable(v, depth) && Items(v) <= budget
  }

  ghost predicate AllFit(heap: Heap, refs: seq<Ref>, depth: nat, budget: int, vs: seq<Value>) {
    && |vs| == |refs|
    && (forall i | 0 <= i < |refs| :: Unfolds(heap, refs[i], vs[i]) && Encodable(vs[i], depth))
    && ItemsOf(vs) <= budget
  }

  ghost predicate CanFit(heap: Heap, r: Ref, depth: nat, budget: int) {
    exists v :: Fits(heap, r, depth, budget, v)
  }

  ghost predicate CanAllFit(heap: Heap, refs: seq<Ref>, depth: nat, budget: int) {
    exists vs :: AllFit(heap, refs, depth, budget, vs)
  }

  ghost function Assembled(c: Cell, vs: seq<Value>): (v: Value)
    requires |vs| == |Members(c)| && (c.RecordCell? || c.DictCell? ==> |c.keys| == |c.values|)
    requires c.LeafCell? ==> IsLeaf(c.leaf)
    ensures Matches(c, v) && Kids(v) == vs
  {
    match c
    case LeafCell(leaf) => leaf
    case EnumCell(_) => PyEnum(vs[0])
    case ListCell(_) => PyList(vs)
    case TupleCell(_) => PyTuple(vs)
    case RecordCell(keys, _) => PyRecord(Pairs(keys, vs))
    case DictCell(keys, _) => PyDict(Pairs(keys, vs))
  }

  /** What an acceptable unfolding of an object is in terms of its members. */
  lemma FitsParts(heap: Heap, r: Ref, depth: nat, budget: int, v: Value)
    requires r < |heap|
    ensures Fits(heap, r, depth, budget, v) <==>
      Matches(heap[r], v) && depth <= MAX_DEPTH && OwnOk(v) && AllFit(heap, Members(heap[r]), depth + 1, budget - 1, Kids(v))
  {
    EncodableParts(v, depth);
    ItemsParts(v);
    hide Encodable, Items, ItemsOf, OwnOk, Kids, Members;
    assert Matches(heap[r], v) ==> |Kids(v)| == |Members(heap[r])|;
    hide Matches;
  }

  predicate KeysOk(keys: seq<Key>) {
    forall i | 0 <= i < |keys| ::
      keys[i].Name? && keys[i].name != DECIMAL_TAG && Utf8Length(keys[i].name) <= MAX_OUTPUT_BYTES
  }

  /** Whether an object's own part can be encoded. */
  predicate CellOk(c: Cell) {
    match c
    case LeafCell(leaf) => Encodable(leaf, 0)
    case DictCell(keys, _) => KeysOk(keys)
    case _ => true
  }

  lemma OwnIsCell(c: Cell, v: Value)
    requires Matches(c, v) && (c.LeafCell? ==> IsLeaf(c.leaf))
    ensures OwnOk(v) <==> CellOk(c)
  {
    hide Encodable, Utf8Length;
    if v.PyDict? {
      assert forall i | 0 <= i < |v.entries| :: EntryKeys(v.entries)[i] == v.entries[i].key;
    }
  }

  lemma NormalOfAssembled(c: Cell, vs: seq<Value>)
    requires |vs| == |Members(c)| && (c.RecordCell? || c.DictCell? ==> |c.keys| == |c.values|)
    requires c.LeafCell? ==> IsLeaf(c.leaf)
    ensures Normal(Assembled(c, vs)) == Printed(c, NormalItems(vs))
  {
    var v := Assembled(c, vs);
    if c.RecordCell? {
      NormalMembersAre(v.fields);
    } else if c.DictCell? {
      NormalMembersAre(v.entries);
    }
    hide NormalDecimal, IsNatText;
  }

  /** The normal form of an object from those of its members. */
  function Printed(c: Cell, js: seq<Json>): Json
    requires |js| == |Members(c)| && (c.RecordCell? || c.DictCell? ==> |c.keys| == |c.values|)
  {
    match c
    case LeafCell(leaf) => Normal(leaf)
    case EnumCell(_) => js[0]
    case ListCell(_) => List(js)
    case TupleCell(_) => List(js)
    case RecordCell(keys, _) => Obj(Named(keys, js))
    case DictCell(keys, _) => Obj(Named(keys, js))
  }

  lemma CellIsPython(heap: Heap, r: Ref)
    requires PythonHeap(heap) && r < |heap|
    ensures var c := heap[r];
      && (forall i | 0 <= i < |Members(c)| :: Members(c)[i] < |heap|)
      && (c.LeafCell? ==> IsLeaf(c.leaf) && PythonValue(c.leaf))
      && (c.RecordCell? || c.DictCell? ==> |c.keys| == |c.values|)
  {
    hide PythonValue, Members;
    assert PythonCell(heap, heap[r]);
  }

  /** An object is acceptable exactly when its own part is and its members fit what the item itself leaves. */
  lemma FitsExactly(heap: Heap, r: Ref, depth: nat, budget: int)
    requires PythonHeap(heap) && r < |heap|
    ensures CanFit(heap, r, depth, budget) <==>
      depth <= MAX_DEPTH && CellOk(heap[r]) && CanAllFit(heap, Members(heap[r]), depth + 1, budget - 1)
  {
    hide *;
    CellIsPython(heap, r);
    var c := heap[r];
    CanFitIs(heap, r, depth, budget);
    CanAllFitIs(heap, Members(c), depth + 1, budget - 1);
    var below, left := depth + 1, budget - 1;
    if depth <= MAX_DEPTH && CellOk(c) && CanAllFit(heap, Members(c), below, left) {
      var vs :| AllFit(heap, Members(c), below, left, vs);
      AssembledFits(heap, r, depth, budget, vs);
    }
    if w :| Fits(heap, r, depth, budget, w) {
      FitsParts(heap, r, depth, budget, w);
      OwnIsCell(c, w);
    }
  }

  lemma CanFitIs(heap: Heap, r: Ref, depth: nat, budget: int)
    ensures CanFit(heap, r, depth, budget) <==> exists v :: Fits(heap, r, depth, budget, v)
  {
    hide Fits;
  }

  lemma CanAllFitIs(heap: Heap, refs: seq<Ref>, depth: nat, budget: int)
    ensures CanAllFit(heap, refs, depth, budget) <==> exists vs :: AllFit(heap, refs, depth, budget, vs)
  {
    hide AllFit;
  }

  lemma AssembledFits(heap: Heap, r: Ref, depth: nat, budget: int, vs: seq<Value>)
    requires PythonHeap(heap) && r < |heap| && depth <= MAX_DEPTH && CellOk(heap[r])
    requires AllFit(heap, Members(heap[r]), depth + 1, budget - 1, vs)
    ensures var c := heap[r];
      && |vs| == |Members(c)| && (c.RecordCell? || c.DictCell? ==> |c.keys| == |c.values|) && (c.LeafCell? ==> IsLeaf(c.leaf))
      && Fits(heap, r, depth, budget, Assembled(c, vs)) && Items(Assembled(c, vs)) == 1 + ItemsOf(vs)
      && Normal(Assembled(c, vs)) == Printed(c, NormalItems(vs))
  {
    hide *;
    CellIsPython(heap, r);
    var c := heap[r];
    AllFitLength(heap, Members(c), depth + 1, budget - 1, vs);
    OwnIsCell(c, Assembled(c, vs));
    FitsParts(heap, r, depth, budget, Assembled(c, vs));
    ItemsParts(Assembled(c, vs));
    NormalOfAssembled(c, vs);
  }

  lemma AllFitLength(heap: Heap, refs: seq<Ref>, depth: nat, budget: int, vs: seq<Value>)
    requires AllFit(heap, refs, depth, budget, vs)
    ensures |vs| == |refs| && ItemsOf(vs) <= budget && budget >= 0
  {
    hide Unfolds, Encodable, ItemsOf;
  }

  lemma NoUnfoldingNoFit(heap: Heap, r: Ref, depth: nat, budget: int)
    requires !exists v :: Unfolds(heap, r, v)
    ensures !CanFit(heap, r, depth, budget)
  {
    hide Unfolds, Encodable, Items;
  }

  lemma OneFits(heap: Heap, r: Ref, depth: nat, budget: int)
    ensures forall v :: Fits(heap, r, depth, budget, v) <==> AllFit(heap, [r], depth, budget, [v])
    ensures CanFit(heap, r, depth, budget) <==> CanAllFit(heap, [r], depth, budget)
    ensures forall v :: ItemsOf([v]) == Items(v)
  {
    hide Unfolds, Encodable, Items;
    forall v ensures ItemsOf([v]) == Items(v) {
      assert [v][..0] == [];
      assert ItemsOf([v]) == ItemsOf([v][..0]) + Items([v][0]);
    }
    forall vs | AllFit(heap, [r], depth, budget, vs) ensures Fits(heap, r, depth, budget, vs[0]) {
      assert vs == [vs[0]];
    }
  }

  /** Members that fit in front of one more. */
  lemma AllFitStep(heap: Heap, refs: seq<Ref>, n: nat, depth: nat, budget: int, front: seq<Value>)
    requires n < |refs| && AllFit(heap, refs[..n], depth, budget, front)
    ensures forall v | Fits(heap, refs[n], depth, budget - ItemsOf(front), v) ::
      AllFit(heap, refs[..n + 1], depth, budget, front + [v]) && ItemsOf(front + [v]) == ItemsOf(front) + Items(v)
    ensures CanAllFit(heap, refs, depth, budget) ==> CanFit(heap, refs[n], depth, budget - ItemsOf(front))
  {
    hide Unfolds, Encodable, Items;
    forall v | Fits(heap, refs[n], depth, budget - ItemsOf(front), v)
      ensures AllFit(heap, refs[..n + 1], depth, budget, front + [v]) && ItemsOf(front + [v]) == ItemsOf(front) + Items(v)
    {
      assert (front + [v])[..n] == front;
    }
    if vs :| AllFit(heap, refs, depth, budget, vs) {
      forall i | 0 <= i < n ensures vs[i] == front[i] {
        assert refs[..n][i] == refs[i];
        UnfoldsUnique(heap, refs[i], vs[i], front[i]);
      }
      assert vs[..n + 1][..n] == vs[..n] == front;
      ItemsOfPrefix(vs, n + 1);
      assert Fits(heap, refs[n], depth, budget - ItemsOf(front), vs[n]);
    }
  }

  lemma LeafFits(heap: Heap, r: Ref, depth: nat, budget: int)
    requires PythonHeap(heap) && r < |heap| && heap[r].LeafCell? && depth <= MAX_DEPTH && budget > 0
    ensures Encodable(heap[r].leaf, 0) <==> CanFit(heap, r, depth, budget)
    ensures Encodable(heap[r].leaf, 0) ==> Fits(heap, r, depth, budget, heap[r].leaf)
    ensures Items(heap[r].leaf) == 1
  {
    hide *;
    CellIsPython(heap, r);
    NothingInside(heap, depth + 1, budget - 1);
    MembersOf(heap[r]);
    FitsExactly(heap, r, depth, budget);
    AssembledOfLeaf(heap[r]);
    if CellOk(heap[r]) {
      AssembledFits(heap, r, depth, budget, []);
    }
  }

  lemma AssembledOfLeaf(c: Cell)
    requires c.LeafCell? && IsLeaf(c.leaf)
    ensures Members(c) == [] && Assembled(c, []) == c.leaf && Items(c.leaf) == 1 && CellOk(c) == Encodable(c.leaf, 0)
  {
    hide Encodable;
  }

  lemma MembersOf(c: Cell)
    ensures c.LeafCell? ==> Members(c) == []
    ensures c.EnumCell? ==> Members(c) == [c.member]
    ensures IsCollection(c) <==> !c.LeafCell? && !c.EnumCell?
  {
  }

  lemma NothingInside(heap: Heap, depth: nat, budget: int)
    requires budget >= 0
    ensures AllFit(heap, [], depth, budget, []) && CanAllFit(heap, [], depth, budget) && NormalItems([]) == [] && ItemsOf([]) == 0
  {
    assert AllFit(heap, [], depth, budget, []);
  }

  /** No budget is left for the object itself. */
  lemma NoBudget(heap: Heap, r: Ref, depth: nat, budget: int)
    requires budget <= 0
    ensures !CanFit(heap, r, depth, budget)
  {
    hide Unfolds, Encodable, Items;
  }

  /** A leaf by itself, whatever its depth. */
  method NormalizeLeaf(leaf: Value) returns (out: Option<Json>)
    requires IsLeaf(leaf) && PythonValue(leaf)
    ensures out == if Encodable(leaf, 0) then Some(Normal(leaf)) else None
  {
    match leaf {
      case PyDecimal(negative, digits, exponent) => out := NormalizeDecimal(negative, digits, exponent);
      case PyStr(s) => out := if Utf8Length(s) > MAX_OUTPUT_BYTES then None else Some(Str(s));
      case PyNone => out := Some(Null);
      case PyBool(b) => out := Some(Bool(b));
      case PyInt(i) =>
        out := if 0 - Pow2(MAX_INTEGER_BITS) < i < Pow2(MAX_INTEGER_BITS) then Some(Int(i)) else None;
      case _ => out := None;
    }
  }

  lemma CellOkIs(c: Cell)
    ensures c.EnumCell? || c.ListCell? || c.TupleCell? || c.RecordCell? ==> CellOk(c)
    ensures c.DictCell? ==> CellOk(c) == KeysOk(c.keys)
  {
    hide KeysOk, Encodable;
  }

  lemma AssembledOfEnum(heap: Heap, r: Ref, depth: nat, budget: int, v: Value)
    requires PythonHeap(heap) && r < |heap| && heap[r].EnumCell? && depth <= MAX_DEPTH
    requires Fits(heap, heap[r].member, depth + 1, budget - 1, v)
    ensures Fits(heap, r, depth, budget, PyEnum(v)) && Items(PyEnum(v)) == 1 + Items(v) && Normal(PyEnum(v)) == Normal(v)
  {
    hide *;
    MembersOf(heap[r]);
    CellOkIs(heap[r]);
    OneFits(heap, heap[r].member, depth + 1, budget - 1);
    AssembledFits(heap, r, depth, budget, [v]);
    EnumIs(heap[r], v);
  }

  lemma EnumIs(c: Cell, v: Value)
    requires c.EnumCell?
    ensures Assembled(c, [v]) == PyEnum(v) && Normal(PyEnum(v)) == Normal(v)
  {
  }

  lemma CollectionIs(c: Cell)
    requires IsCollection(c)
    ensures c.ListCell? || c.TupleCell? || c.RecordCell? || c.DictCell?
    ensures c.RecordCell? || c.DictCell? ==> Members(c) == c.values
  {
  }

  lemma PrintedIs(c: Cell, js: seq<Json>)
    requires |js| == |Members(c)| && IsCollection(c) && (c.RecordCell? || c.DictCell? ==> |c.keys| == |c.values| == |js|)
    ensures Printed(c, js) == if c.ListCell? || c.TupleCell? then List(js) else Obj(Named(c.keys, js))
  {
    hide Named;
  }

  lemma OpenBelowAll(heap: Heap, active: set<Ref>, r: Ref)
    requires r < |heap| && r in active && OpenAbove(heap, active - {r}, r)
    ensures forall i | 0 <= i < |Members(heap[r])| :: OpenAbove(heap, active, Members(heap[r])[i])
  {
    hide OpenAbove, Members;
    assert (active - {r}) + {r} == active;
    forall i | 0 <= i < |Members(heap[r])| ensures OpenAbove(heap, active, Members(heap[r])[i]) {
      OpenBelow(heap, active - {r}, r, i, true);
    }
  }

  lemma NormalItemsAppend(vs: seq<Value>, v: Value)
    ensures NormalItems(vs + [v]) == NormalItems(vs) + [Normal(v)]
  {
    hide Normal;
  }

  class Traversal {
    var active: set<Ref>
    var items: nat

    constructor ()
      ensures active == {} && items == 0
    {
      active, items := {}, 0;
    }

    /** `_normalize`, with the unfolding it finds: it succeeds exactly when there is one that is finite, encodable and
        within the items left. */
    method Normalize(heap: Heap, r: Ref, depth: nat) returns (out: Option<Json>, ghost v: Value)
      requires PythonHeap(heap) && r < |heap| && depth <= MAX_DEPTH + 1 && items <= MAX_ITEMS
      requires OpenAbove(heap, active, r)
      modifies this
      ensures active == old(active)
      ensures out.Some? <==> CanFit(heap, r, depth, MAX_ITEMS - old(items))
      ensures out.Some? ==> Fits(heap, r, depth, MAX_ITEMS - old(items), v) && out.value == Normal(v)
      ensures out.Some? ==> items == old(items) + Items(v) <= MAX_ITEMS
      decreases MAX_DEPTH + 1 - depth, 1
    {
      hide *;
      v := PyNone;
      ghost var budget := MAX_ITEMS - items;
      FitsExactly(heap, r, depth, budget);
      if depth > MAX_DEPTH {
        return None, v;
      }
      items := items + 1;
      if items > MAX_ITEMS {
        NoBudget(heap, r, depth, budget);
        return None, v;
      }
      CellIsPython(heap, r);
      MembersOf(heap[r]);
      match heap[r] {
        case LeafCell(leaf) =>
          LeafFits(heap, r, depth, budget);
          out := NormalizeLeaf(leaf);
          v := leaf;
        case EnumCell(member) =>
          CellOkIs(heap[r]);
          OpenBelow(heap, active, r, 0, false);
          OneFits(heap, member, depth + 1, budget - 1);
          out, v := Normalize(heap, member, depth + 1);
          if out.Some? {
            AssembledOfEnum(heap, r, depth, budget, v);
            v := PyEnum(v);
          }
        case _ =>
          if r in active {
            OpenIsCyclic(heap, active, r);
            NoUnfoldingNoFit(heap, r, depth, budget);
            return None, v;
          }
          active := active + {r};
          out, v := NormalizeCollection(heap, r, depth, budget);
          active := active - {r};
      }
    }

    /** An open collection, whose own item has been counted. */
    method NormalizeCollection(heap: Heap, r: Ref, depth: nat, ghost budget: int)
      returns (out: Option<Json>, ghost v: Value)
      requires PythonHeap(heap) && r < |heap| && depth <= MAX_DEPTH && items <= MAX_ITEMS && IsCollection(heap[r])
      requires r in active && OpenAbove(heap, active - {r}, r) && budget == MAX_ITEMS - items + 1
      modifies this
      ensures active == old(active)
      ensures out.Some? <==> CanFit(heap, r, depth, budget)
      ensures out.Some? ==> Fits(heap, r, depth, budget, v) && out.value == Normal(v)
      ensures out.Some? ==> items + 1 == old(items) + Items(v) && items <= MAX_ITEMS
      decreases MAX_DEPTH + 1 - depth, 0
    {
      hide *;
      v := PyNone;
      var c := heap[r];
      CellIsPython(heap, r);
      CollectionIs(c);
      CellOkIs(c);
      FitsExactly(heap, r, depth, budget);
      if c.DictCell? && !KeysOk(c.keys) {
        return None, v;
      }
      OpenBelowAll(heap, active, r);
      var members, vs := NormalizeMembers(heap, Members(c), depth + 1);
      if members.None? {
        return None, v;
      }
      AssembledFits(heap, r, depth, budget, vs);
      v := Assembled(c, vs);
      PrintedIs(c, members.value);
      out := Some(if c.ListCell? || c.TupleCell? then List(members.value) else Obj(Named(c.keys, members.value)));
    }

    method NormalizeMembers(heap: Heap, refs: seq<Ref>, depth: nat) returns (out: Option<seq<Json>>, ghost vs: seq<Value>)
      requires PythonHeap(heap) && depth <= MAX_DEPTH + 1 && items <= MAX_ITEMS
      requires forall i | 0 <= i < |refs| :: refs[i] < |heap| && OpenAbove(heap, active, refs[i])
      modifies this
      ensures active == old(active)
      ensures out.Some? <==> CanAllFit(heap, refs, depth, MAX_ITEMS - old(items))
      ensures out.Some? ==> AllFit(heap, refs, depth, MAX_ITEMS - old(items), vs) && out.value == NormalItems(vs)
      ensures out.Some? ==> items == old(items) + ItemsOf(vs) <= MAX_ITEMS
      decreases MAX_DEPTH + 1 - depth, 2
    {
      hide *;
      ghost var budget := MAX_ITEMS - items;
      var js: seq<Json> := [];
      vs := [];
      NothingInside(heap, depth, budget);
      assert refs[..0] == [];
      for n := 0 to |refs|
        invariant active == old(active) && js == NormalItems(vs)
        invariant AllFit(heap, refs[..n], depth, budget, vs)
        invariant items == old(items) + ItemsOf(vs) <= MAX_ITEMS
      {
        AllFitStep(heap, refs, n, depth, budget, vs);
        var j, v := Normalize(heap, refs[n], depth);
        if j.None? {
          return None, vs;
        }
        NormalItemsAppend(vs, v);
        js := js + [j.value];
        vs := vs + [v];
      }
      assert refs[..|refs|] == refs;
      CanAllFitIs(heap, refs, depth, budget);
      out := Some(js);
    }
  }

  /** `canonical_json` of an object: its text exactly when it unfolds to a value within every limit. */
  method CanonicalJson(heap: Heap, r: Ref) returns (out: Option<string>)
    requires PythonHeap(heap) && r < |heap|
    ensures out.Some? <==> exists v :: Unfolds(heap, r, v) && Accepted(v)
    ensures forall v | Unfolds(heap, r, v) && Accepted(v) :: out == Some(CanonicalText(v))
  {
    hide Unfolds, Encodable, Items, Text, SortKeys, Normal, Utf8Length, PythonHeap, Descends;
    var state := new Traversal();
    var normal, v := state.Normalize(heap, r, 0);
    forall w | Unfolds(heap, r, w) && Accepted(w) ensures normal.Some? && w == v {
      assert Fits(heap, r, 0, MAX_ITEMS, w);
      UnfoldsUnique(heap, r, w, v);
    }
    if normal.None? {
      return None;
    }
    var text := Text(SortKeys(normal.value));
    if Utf8Length(text) > MAX_OUTPUT_BYTES {
      return None;
    }
    return Some(text);
  }

  lemma {:induction false} UnfoldingIsPython(heap: Heap, r: Ref, v: Value)
    requires PythonHeap(heap) && Unfolds(heap, r, v)
    ensures PythonValue(v)
    decreases v
  {
    hide PythonHeap;
    CellIsPython(heap, r);
    forall i | 0 <= i < |Kids(v)| ensures PythonValue(Kids(v)[i]) {
      UnfoldingIsPython(heap, Members(heap[r])[i], Kids(v)[i]);
    }
    KeysArePython(heap, r);
    PythonParts(heap[r], v);
  }

  lemma KeysArePython(heap: Heap, r: Ref)
    requires PythonHeap(heap) && r < |heap|
    ensures PythonKeys(heap[r])
  {
    hide PythonValue, Members;
    assert PythonCell(heap, heap[r]);
  }

  ghost predicate PythonKeys(c: Cell) {
    && (c.RecordCell? || c.DictCell? ==>
          forall i, j | 0 <= i < j < |c.keys| && c.keys[i].Name? :: c.keys[i] != c.keys[j])
    && (c.RecordCell? ==> forall i | 0 <= i < |c.keys| :: c.keys[i].Name? && c.keys[i].name != DECIMAL_TAG)
    && (c.LeafCell? ==> PythonValue(c.leaf))
  }

  lemma PythonParts(c: Cell, v: Value)
    requires Matches(c, v) && PythonKeys(c) && forall i | 0 <= i < |Kids(v)| :: PythonValue(Kids(v)[i])
    ensures PythonValue(v)
  {
    match v {
      case PyEnum(member) => assert Kids(v)[0] == member;
      case PyList(items) => assert Kids(v) == items;
      case PyTuple(items) => assert Kids(v) == items;
      case PyRecord(fields) => PythonEntries(c.keys, fields);
      case PyDict(entries) => PythonEntries(c.keys, entries);
      case _ =>
    }
  }

  lemma PythonEntries(keys: seq<Key>, entries: seq<Entry>)
    requires EntryKeys(entries) == keys && forall i, j | 0 <= i < j < |keys| && keys[i].Name? :: keys[i] != keys[j]
    requires forall i | 0 <= i < |entries| :: PythonValue(EntryValues(entries)[i])
    ensures DistinctKeys(entries) && forall i | 0 <= i < |entries| :: entries[i].key == keys[i] && PythonValue(entries[i].value)
  {
    hide PythonValue;
    forall i | 0 <= i < |entries| ensures entries[i].key == keys[i] && PythonValue(entries[i].value) {
      assert EntryKeys(entries)[i] == entries[i].key && EntryValues(entries)[i] == entries[i].value;
    }
  }

  /** Two objects have one canonical text exactly when what they unfold to means the same. */
  lemma ObjectsOfOneText(heap: Heap, a: Ref, b: Ref, v: Value, w: Value)
    requires PythonHeap(heap) && Unfolds(heap, a, v) && Accepted(v) && Unfolds(heap, b, w) && Accepted(w)
    ensures CanonicalText(v) == CanonicalText(w) <==> MeaningOf(v) == MeaningOf(w)
  {
    hide *;
    UnfoldingIsPython(heap, a, v);
    UnfoldingIsPython(heap, b, w);
    CanonicalTextIsMeaning(v, w);
  }
}
