/** The explicit-stack walk over a decoded JSON object graph, against the graph's finite unfolding. */
module TreeWalk {
  import opened Basics
  import opened Digits

  const MAX_TREE_BYTES := 2 * 1024 * 1024
  const MAX_TREE_ITEMS := 32_768
  const MAX_DEPTH := 64
  const MAX_INTEGER_BITS := 4096

  /** An object's identity, as `id()` gives it: an index into the heap. */
  type Ref = nat

  /** Objects may share children and may contain themselves. A key that is not a string is `None`. */
  datatype Cell =
    | StrCell(s: string)
    | NoneCell
    | BoolCell(b: bool)
    | IntCell(i: int)
    | ListCell(items: seq<Ref>)
    | DictCell(keys: seq<Option<string>>, values: seq<Ref>)
    | OtherCell

  type Heap = seq<Cell>

  ghost predicate Closed(heap: Heap) {
    && (forall r, k | 0 <= r < |heap| && heap[r].ListCell? && 0 <= k < |heap[r].items| :: heap[r].items[k] < |heap|)
    && (forall r, k | 0 <= r < |heap| && heap[r].DictCell? && 0 <= k < |heap[r].values| :: heap[r].values[k] < |heap|)
    && (forall r | 0 <= r < |heap| && heap[r].DictCell? :: |heap[r].keys| == |heap[r].values|)
  }

  predicate BoundedInt(i: int) {
    0 - Pow2(MAX_INTEGER_BITS) < i < Pow2(MAX_INTEGER_BITS)
  }

  // ---------- The finite unfolding ----------

  datatype Tree =
    | StrTree(s: string)
    | NoneTree
    | BoolTree(b: bool)
    | IntTree(i: int)
    | ListTree(items: seq<Tree>)
    | DictTree(keys: seq<Option<string>>, values: seq<Tree>)

  /** `t` is the whole of what is reachable from `r`, written out as a finite tree. */
  ghost predicate Unfolds(heap: Heap, r: Ref, t: Tree)
    decreases t
  {
    && r < |heap|
    && match t
       case StrTree(s) => heap[r] == StrCell(s)
       case NoneTree => heap[r] == NoneCell
       case BoolTree(b) => heap[r] == BoolCell(b)
       case IntTree(i) => heap[r] == IntCell(i)
       case ListTree(items) =>
         && heap[r].ListCell? && |items| == |heap[r].items|
         && forall k | 0 <= k < |items| :: Unfolds(heap, heap[r].items[k], items[k])
       case DictTree(keys, values) =>
         && heap[r].DictCell? && keys == heap[r].keys && |values| == |heap[r].values|
         && forall k | 0 <= k < |values| :: Unfolds(heap, heap[r].values[k], values[k])
  }

  /** Leaves are exact JSON, keys are strings, and no object lies deeper than the depth bound. */
  ghost predicate Within(t: Tree, depth: nat)
    decreases t
  {
    && depth <= MAX_DEPTH
    && match t
       case IntTree(i) => BoundedInt(i)
       case ListTree(items) => forall k | 0 <= k < |items| :: Within(items[k], depth + 1)
       case DictTree(keys, values) =>
         && (forall k | 0 <= k < |keys| :: keys[k].Some?)
         && |keys| == |values|
         && forall k | 0 <= k < |values| :: Within(values[k], depth + 1)
       case _ => true
  }

  /** Items below the root, and bytes. */
  datatype Cost = Cost(items: nat, bytes: nat)

  function Plus(a: Cost, b: Cost): Cost {
    Cost(a.items + b.items, a.bytes + b.bytes)
  }

  function KeyBytes(keys: seq<Option<string>>): nat {
    if keys == [] then 0
    else
      var last := keys[|keys| - 1];
      KeyBytes(keys[..|keys| - 1]) + (if last.Some? then Utf8Length(last.value) + 3 else 0)
  }

  ghost function TreeCost(t: Tree): Cost
    decreases t, 0
  {
    match t
    case StrTree(s) => Cost(0, Utf8Length(s) + 2)
    case NoneTree => Cost(0, 5)
    case BoolTree(_) => Cost(0, 5)
    case IntTree(i) => Cost(0, |IntText(i)|)
    case ListTree(items) => Plus(Cost(|items|, 2), TreesCost(items))
    case DictTree(keys, values) => Plus(Cost(2 * |values|, 2 + KeyBytes(keys)), TreesCost(values))
  }

  ghost function TreesCost(ts: seq<Tree>): Cost
    decreases ts, 1
  {
    if ts == [] then Cost(0, 0) else Plus(TreesCost(ts[..|ts| - 1]), TreeCost(ts[|ts| - 1]))
  }

  /** Acceptance: a finite unfolding of every root, within the depth, item and byte bounds. */
  ghost predicate Acceptable(heap: Heap, roots: seq<Ref>, trees: seq<Tree>) {
    && |trees| == |roots|
    && (forall k | 0 <= k < |roots| :: Unfolds(heap, roots[k], trees[k]) && Within(trees[k], 0))
    && |roots| + TreesCost(trees).items <= MAX_TREE_ITEMS
    && TreesCost(trees).bytes <= MAX_TREE_BYTES
  }

  // ---------- The recursive check, cut off at the depth bound ----------

  ghost function Add(a: Option<Cost>, b: Option<Cost>): Option<Cost> {
    if a.None? || b.None? then None else Some(Plus(a.value, b.value))
  }

  ghost predicate AllStrings(keys: seq<Option<string>>) {
    forall k | 0 <= k < |keys| :: keys[k].Some?
  }

  ghost function Children(heap: Heap, r: Ref): seq<Ref> {
    if r >= |heap| then []
    else if heap[r].ListCell? then heap[r].items
    else if heap[r].DictCell? then heap[r].values
    else []
  }

  /** What one object costs apart from its children; `None` when it is not acceptable at this depth. */
  ghost function OwnCost(heap: Heap, r: Ref, depth: nat): Option<Cost>
    requires r < |heap|
  {
    if depth > MAX_DEPTH || (Children(heap, r) != [] && depth >= MAX_DEPTH) then None
    else
      match heap[r]
      case StrCell(s) => Some(Cost(0, Utf8Length(s) + 2))
      case NoneCell => Some(Cost(0, 5))
      case BoolCell(_) => Some(Cost(0, 5))
      case IntCell(i) => if BoundedInt(i) then Some(Cost(0, |IntText(i)|)) else None
      case ListCell(items) => Some(Cost(|items|, 2))
      case DictCell(keys, values) =>
        if AllStrings(keys) then Some(Cost(2 * |values|, 2 + KeyBytes(keys))) else None
      case OtherCell => None
  }

  ghost function Measure(heap: Heap, r: Ref, depth: nat): Option<Cost>
    requires Closed(heap) && r < |heap| && depth <= MAX_DEPTH + 1
    decreases MAX_DEPTH + 1 - depth, 0, 0
  {
    var own := OwnCost(heap, r, depth);
    if own.None? || Children(heap, r) == [] then own
    else Add(own, MeasureAll(heap, Children(heap, r), depth + 1))
  }

  ghost predicate InHeap(heap: Heap, refs: seq<Ref>) {
    forall k | 0 <= k < |refs| :: refs[k] < |heap|
  }

  ghost function MeasureAll(heap: Heap, refs: seq<Ref>, depth: nat): Option<Cost>
    requires Closed(heap) && InHeap(heap, refs) && depth <= MAX_DEPTH + 1
    decreases MAX_DEPTH + 1 - depth, 1, |refs|
  {
    if refs == [] then Some(Cost(0, 0))
    else Add(MeasureAll(heap, refs[..|refs| - 1], depth), Measure(heap, refs[|refs| - 1], depth))
  }

  // ---------- The recursive check decides the unfolding ----------

  lemma ChildrenAreInHeap(heap: Heap, r: Ref)
    requires Closed(heap) && r < |heap|
    ensures InHeap(heap, Children(heap, r))
  {
  }

  lemma {:induction false} MeasureUnfolds(heap: Heap, r: Ref, depth: nat) returns (t: Tree)
    requires Closed(heap) && r < |heap| && depth <= MAX_DEPTH + 1 && Measure(heap, r, depth).Some?
    ensures Unfolds(heap, r, t) && Within(t, depth) && Measure(heap, r, depth) == Some(TreeCost(t))
    decreases MAX_DEPTH + 1 - depth, 0, 0
  {
    hide Measure, MeasureAll, Closed, KeyBytes, Utf8Length, BoundedInt, IntText, TreesCost, InHeap;
    if depth > MAX_DEPTH {
      TooDeep(heap, r, depth);
    }
    match heap[r] {
      case StrCell(s) => MeasureLeaf(heap, r, depth); t := StrTree(s);
      case NoneCell => MeasureLeaf(heap, r, depth); t := NoneTree;
      case BoolCell(b) => MeasureLeaf(heap, r, depth); t := BoolTree(b);
      case IntCell(i) => MeasureLeaf(heap, r, depth); t := IntTree(i);
      case OtherCell => MeasureLeaf(heap, r, depth); t := NoneTree;
      case ListCell(items) =>
        MeasureContainer(heap, r, depth);
        var ts := MeasureAllUnfolds(heap, items, depth + 1);
        t := ListTree(ts);
      case DictCell(keys, values) =>
        MeasureContainer(heap, r, depth);
        var ts := MeasureAllUnfolds(heap, values, depth + 1);
        t := DictTree(keys, ts);
    }
  }

  lemma {:induction false} MeasureAllUnfolds(heap: Heap, refs: seq<Ref>, depth: nat) returns (ts: seq<Tree>)
    requires Closed(heap) && InHeap(heap, refs) && depth <= MAX_DEPTH + 1 && MeasureAll(heap, refs, depth).Some?
    ensures |ts| == |refs|
    ensures forall k | 0 <= k < |refs| :: Unfolds(heap, refs[k], ts[k]) && Within(ts[k], depth)
    ensures MeasureAll(heap, refs, depth) == Some(TreesCost(ts))
    decreases MAX_DEPTH + 1 - depth, 1, |refs|
  {
    hide Measure, Unfolds, Within, TreeCost;
    if refs == [] {
      ts := [];
    } else {
      var front := MeasureAllUnfolds(heap, refs[..|refs| - 1], depth);
      var last := MeasureUnfolds(heap, refs[|refs| - 1], depth);
      ts := front + [last];
      assert ts[..|ts| - 1] == front;
    }
  }

  lemma {:induction false} UnfoldingMeasures(heap: Heap, r: Ref, t: Tree, depth: nat)
    requires Closed(heap) && depth <= MAX_DEPTH + 1
    requires Unfolds(heap, r, t) && Within(t, depth)
    ensures Measure(heap, r, depth) == Some(TreeCost(t))
    decreases t, 0
  {
    hide Measure, MeasureAll, Closed, KeyBytes, Utf8Length, BoundedInt, IntText, TreesCost, InHeap;
    match t {
      case ListTree(items) =>
        MeasureContainer(heap, r, depth);
        assert items != [] ==> Within(items[0], depth + 1);
        UnfoldingsMeasure(heap, heap[r].items, items, depth + 1);
      case DictTree(keys, values) =>
        MeasureContainer(heap, r, depth);
        assert values != [] ==> Within(values[0], depth + 1);
        UnfoldingsMeasure(heap, heap[r].values, values, depth + 1);
      case _ =>
        MeasureLeaf(heap, r, depth);
    }
  }

  lemma {:induction false} UnfoldingsMeasure(heap: Heap, refs: seq<Ref>, ts: seq<Tree>, depth: nat)
    requires Closed(heap) && depth <= MAX_DEPTH + 1 && |refs| == |ts|
    requires forall k | 0 <= k < |refs| :: Unfolds(heap, refs[k], ts[k]) && Within(ts[k], depth)
    ensures InHeap(heap, refs) && MeasureAll(heap, refs, depth) == Some(TreesCost(ts))
    decreases ts, 1
  {
    hide Measure, Within, TreeCost;
    if refs != [] {
      UnfoldingsMeasure(heap, refs[..|refs| - 1], ts[..|ts| - 1], depth);
      UnfoldingMeasures(heap, refs[|refs| - 1], ts[|ts| - 1], depth);
    }
  }

  ghost predicate MeasuresWell(heap: Heap, roots: seq<Ref>)
    requires Closed(heap) && InHeap(heap, roots)
  {
    var c := MeasureAll(heap, roots, 0);
    c.Some? && |roots| + c.value.items <= MAX_TREE_ITEMS && c.value.bytes <= MAX_TREE_BYTES
  }

  /** A graph passes the recursive check exactly when its unfolding is finite and within every bound. */
  lemma MeasureDecidesUnfolding(heap: Heap, roots: seq<Ref>)
    requires Closed(heap) && InHeap(heap, roots)
    ensures MeasuresWell(heap, roots) <==> exists trees :: Acceptable(heap, roots, trees)
  {
    if MeasuresWell(heap, roots) {
      var trees := MeasureAllUnfolds(heap, roots, 0);
      assert Acceptable(heap, roots, trees);
    }
    if exists trees :: Acceptable(heap, roots, trees) {
      var trees :| Acceptable(heap, roots, trees);
      UnfoldingsMeasure(heap, roots, trees, 0);
    }
  }

  // ---------- Cycles ----------

  /** `b` is reached from `a` in exactly `n` steps. */
  ghost predicate Descends(heap: Heap, a: Ref, b: Ref, n: nat)
    decreases n
  {
    if n == 0 then a == b
    else exists k :: 0 <= k < |Children(heap, a)| && Descends(heap, Children(heap, a)[k], b, n - 1)
  }

  lemma {:induction false} DescendsFurther(heap: Heap, a: Ref, b: Ref, n: nat, k: nat)
    requires Descends(heap, a, b, n) && k < |Children(heap, b)|
    ensures Descends(heap, a, Children(heap, b)[k], n + 1)
    decreases n
  {
    if n == 0 {
      assert Descends(heap, Children(heap, a)[k], Children(heap, b)[k], 0);
    } else {
      var j :| 0 <= j < |Children(heap, a)| && Descends(heap, Children(heap, a)[j], b, n - 1);
      DescendsFurther(heap, Children(heap, a)[j], b, n - 1, k);
    }
  }

  lemma {:induction false} MeasureAllEach(heap: Heap, refs: seq<Ref>, depth: nat, k: nat)
    requires Closed(heap) && InHeap(heap, refs) && depth <= MAX_DEPTH + 1 && k < |refs|
    requires MeasureAll(heap, refs, depth).Some?
    ensures Measure(heap, refs[k], depth).Some?
    decreases |refs|
  {
    hide Measure;
    if k < |refs| - 1 {
      MeasureAllEach(heap, refs[..|refs| - 1], depth, k);
    }
  }

  lemma MeasureParts(heap: Heap, r: Ref, depth: nat)
    requires Closed(heap) && r < |heap| && depth <= MAX_DEPTH + 1 && Measure(heap, r, depth).Some?
    ensures depth <= MAX_DEPTH && InHeap(heap, Children(heap, r))
    ensures Children(heap, r) != [] ==> depth < MAX_DEPTH && MeasureAll(heap, Children(heap, r), depth + 1).Some?
  {
    MeasureIs(heap, r, depth);
    hide Measure, MeasureAll;
  }

  lemma {:induction false} MeasureDescends(heap: Heap, a: Ref, b: Ref, n: nat, depth: nat)
    requires Closed(heap) && a < |heap| && depth <= MAX_DEPTH + 1
    requires Descends(heap, a, b, n) && Measure(heap, a, depth).Some?
    ensures b < |heap| && depth + n <= MAX_DEPTH && Measure(heap, b, depth + n).Some?
    decreases n
  {
    hide Closed, Measure, MeasureAll, Children;
    MeasureParts(heap, a, depth);
    if n > 0 {
      var k :| 0 <= k < |Children(heap, a)| && Descends(heap, Children(heap, a)[k], b, n - 1);
      MeasureAllEach(heap, Children(heap, a), depth + 1, k);
      MeasureDescends(heap, Children(heap, a)[k], b, n - 1, depth + 1);
    }
  }

  /** An object that contains itself passes the recursive check at no depth. */
  lemma {:induction false} CycleIsRefused(heap: Heap, r: Ref, n: nat, depth: nat)
    requires Closed(heap) && r < |heap| && depth <= MAX_DEPTH + 1
    requires n > 0 && Descends(heap, r, r, n)
    ensures Measure(heap, r, depth).None?
    decreases MAX_DEPTH + 1 - depth
  {
    if Measure(heap, r, depth).Some? {
      MeasureDescends(heap, r, r, n, depth);
      CycleIsRefused(heap, r, n, depth + n);
    }
  }

  /** A graph with a cycle below any of its roots, however far down, is not acceptable. */
  lemma ReachedCycleIsRefused(heap: Heap, roots: seq<Ref>, i: nat, b: Ref, m: nat, n: nat)
    requires Closed(heap) && InHeap(heap, roots) && i < |roots|
    requires Descends(heap, roots[i], b, m) && n > 0 && Descends(heap, b, b, n)
    ensures !exists trees :: Acceptable(heap, roots, trees)
  {
    hide Closed, Measure, MeasureAll, Acceptable, Descends;
    MeasureDecidesUnfolding(heap, roots);
    if MeasuresWell(heap, roots) {
      MeasureAllEach(heap, roots, 0, i);
      MeasureDescends(heap, roots[i], b, m, 0);
      CycleIsRefused(heap, b, n, m);
    }
  }

  // ---------- The walk ----------

  datatype Frame = Frame(exiting: bool, ref: Ref, depth: nat)

  ghost predicate ValidStack(heap: Heap, stack: seq<Frame>) {
    forall k | 0 <= k < |stack| :: stack[k].ref < |heap| && stack[k].depth <= MAX_DEPTH + 1
  }

  ghost function FrameCost(heap: Heap, f: Frame): Option<Cost>
    requires Closed(heap) && f.ref < |heap| && f.depth <= MAX_DEPTH + 1
  {
    if f.exiting then Some(Cost(0, 0)) else Measure(heap, f.ref, f.depth)
  }

  ghost function StackCost(heap: Heap, stack: seq<Frame>): Option<Cost>
    requires Closed(heap) && ValidStack(heap, stack)
  {
    if stack == [] then Some(Cost(0, 0))
    else Add(StackCost(heap, stack[..|stack| - 1]), FrameCost(heap, stack[|stack| - 1]))
  }

  ghost predicate Verdict(heap: Heap, stack: seq<Frame>, remaining: int, size: int)
    requires Closed(heap) && ValidStack(heap, stack)
  {
    var c := StackCost(heap, stack);
    c.Some? && c.value.items <= remaining && size + c.value.bytes <= MAX_TREE_BYTES
  }

  function Entering(refs: seq<Ref>, depth: nat): (fs: seq<Frame>)
    ensures |fs| == |refs|
  {
    seq(|refs|, k requires 0 <= k < |refs| => Frame(false, refs[k], depth))
  }

  lemma StackStep(heap: Heap, stack: seq<Frame>, f: Frame)
    requires Closed(heap) && ValidStack(heap, stack) && f.ref < |heap| && f.depth <= MAX_DEPTH + 1
    ensures ValidStack(heap, stack + [f])
    ensures StackCost(heap, stack + [f]) == Add(StackCost(heap, stack), FrameCost(heap, f))
  {
    hide FrameCost, Closed;
    assert (stack + [f])[..|stack|] == stack;
  }

  lemma MeasureAllStep(heap: Heap, refs: seq<Ref>, depth: nat)
    requires Closed(heap) && InHeap(heap, refs) && depth <= MAX_DEPTH + 1 && refs != []
    ensures var n := |refs| - 1;
      && InHeap(heap, refs[..n]) && refs[n] < |heap|
      && MeasureAll(heap, refs, depth) == Add(MeasureAll(heap, refs[..n], depth), Measure(heap, refs[n], depth))
  {
    hide Measure, Closed;
  }

  lemma NoCost(heap: Heap, depth: nat)
    requires Closed(heap) && depth <= MAX_DEPTH + 1
    ensures ValidStack(heap, []) && StackCost(heap, []) == Some(Cost(0, 0))
    ensures InHeap(heap, []) && MeasureAll(heap, [], depth) == Some(Cost(0, 0)) && Entering([], depth) == []
  {
  }

  lemma EnteringCost(heap: Heap, r: Ref, depth: nat)
    requires Closed(heap) && r < |heap| && depth <= MAX_DEPTH + 1
    ensures FrameCost(heap, Frame(false, r, depth)) == Measure(heap, r, depth)
    ensures FrameCost(heap, Frame(true, r, depth)) == Some(Cost(0, 0))
  {
    hide Measure, Closed;
  }

  lemma {:induction false} StackCostAppend(heap: Heap, stack: seq<Frame>, refs: seq<Ref>, depth: nat)
    requires Closed(heap) && ValidStack(heap, stack) && InHeap(heap, refs) && depth <= MAX_DEPTH + 1
    ensures ValidStack(heap, stack + Entering(refs, depth))
    ensures StackCost(heap, stack + Entering(refs, depth))
         == Add(StackCost(heap, stack), MeasureAll(heap, refs, depth))
    decreases |refs|
  {
    hide Closed, ValidStack, InHeap, StackCost, MeasureAll, FrameCost, Measure, Entering;
    if refs == [] {
      NoCost(heap, depth);
      assert stack + [] == stack;
    } else {
      var n := |refs| - 1;
      MeasureAllStep(heap, refs, depth);
      StackCostAppend(heap, stack, refs[..n], depth);
      EnteringStep(refs, n, depth);
      assert refs[..n + 1] == refs;
      EnteringCost(heap, refs[n], depth);
      StackStep(heap, stack + Entering(refs[..n], depth), Frame(false, refs[n], depth));
      assert stack + Entering(refs[..n], depth) + [Frame(false, refs[n], depth)] == stack + Entering(refs, depth);
    }
  }

  /** Two units for an object still to be entered, one for one still to be left. */
  ghost function Weight(stack: seq<Frame>): nat {
    if stack == [] then 0
    else Weight(stack[..|stack| - 1]) + (if stack[|stack| - 1].exiting then 1 else 2)
  }

  lemma {:induction false} WeightAppend(stack: seq<Frame>, refs: seq<Ref>, depth: nat)
    ensures Weight(stack + Entering(refs, depth)) == Weight(stack) + 2 * |refs|
    decreases |refs|
  {
    var fs := Entering(refs, depth);
    if refs == [] {
      assert stack + fs == stack;
    } else {
      var n := |refs| - 1;
      var all := stack + fs;
      assert all[..|all| - 1] == stack + Entering(refs[..n], depth);
      WeightAppend(stack, refs[..n], depth);
    }
  }

  /** Everything above an object still to be left lies inside that object. */
  ghost predicate Nested(heap: Heap, stack: seq<Frame>) {
    forall j, k | 0 <= j < k < |stack| && stack[j].exiting ::
      stack[j].depth < stack[k].depth && Descends(heap, stack[j].ref, stack[k].ref, stack[k].depth - stack[j].depth)
  }

  /** `active` holds exactly the identities of the objects still to be left, each once. */
  ghost predicate ActiveIs(stack: seq<Frame>, active: set<Ref>) {
    && (forall k | 0 <= k < |stack| && stack[k].exiting :: stack[k].ref in active)
    && (forall r | r in active :: exists k :: 0 <= k < |stack| && stack[k].exiting && stack[k].ref == r)
    && (forall j, k | 0 <= j < k < |stack| && stack[j].exiting && stack[k].exiting :: stack[j].ref != stack[k].ref)
  }

  method ValidateTree(heap: Heap, roots: seq<Ref>) returns (ok: bool)
    requires Closed(heap) && InHeap(heap, roots)
    ensures ok <==> exists trees :: Acceptable(heap, roots, trees)
  {
    hide Closed, InHeap, Verdict, MeasuresWell, Measure, MeasureAll, StackCost, Weight, Walking, ValidStack, Acceptable;
    hide KeyBytes, Utf8Length, BoundedInt, IntText, AllStrings, Children, Entering;
    MeasureDecidesUnfolding(heap, roots);
    StartWalk(heap, roots);
    if |roots| > MAX_TREE_ITEMS {
      return false;
    }
    var pending := Entering(roots, 0);
    var active: set<Ref> := {};
    var remaining: int := MAX_TREE_ITEMS - |roots|;
    var size := 0;
    while pending != []
      invariant Walking(heap, pending, active) && ValidStack(heap, pending)
      invariant remaining >= 0 && 0 <= size <= MAX_TREE_BYTES
      invariant Verdict(heap, pending, remaining, size) <==> MeasuresWell(heap, roots)
      decreases 2 * remaining + Weight(pending)
    {
      var top := pending[|pending| - 1];
      ghost var stack := pending;
      pending := pending[..|pending| - 1];
      PopFrame(heap, stack, active, remaining, size);
      var current, depth := top.ref, top.depth;
      if top.exiting {
        active := active - {current};
        continue;
      }
      if depth > MAX_DEPTH {
        TooDeep(heap, current, depth);
        return false;
      }
      match heap[current] {
        case StrCell(s) =>
          MeasureLeaf(heap, current, depth);
          VerdictBounds(heap, pending, remaining, size + Utf8Length(s) + 2);
          if Utf8Length(s) > MAX_TREE_BYTES - size {
            return false;
          }
          size := size + Utf8Length(s) + 2;
        case NoneCell =>
          MeasureLeaf(heap, current, depth);
          VerdictBounds(heap, pending, remaining, size + 5);
          size := size + 5;
        case BoolCell(_) =>
          MeasureLeaf(heap, current, depth);
          VerdictBounds(heap, pending, remaining, size + 5);
          size := size + 5;
        case IntCell(i) =>
          MeasureLeaf(heap, current, depth);
          if !BoundedInt(i) {
            return false;
          }
          VerdictBounds(heap, pending, remaining, size + |IntText(i)|);
          size := size + |IntText(i)|;
        case ListCell(items) =>
          MeasureContainer(heap, current, depth);
          if current in active {
            ActiveIsAncestor(heap, stack, active);
            return false;
          }
          PushFrames(heap, stack, active, remaining - |items|, size + 2);
          VerdictBounds(heap, pending + [Frame(true, current, depth)] + Entering(items, depth + 1),
                        remaining - |items|, size + 2);
          if |items| > remaining || (items != [] && depth >= MAX_DEPTH) {
            return false;
          }
          remaining := remaining - |items|;
          active := active + {current};
          pending := pending + [Frame(true, current, depth)];
          pending := pending + Entering(items, depth + 1);
          size := size + 2;
        case DictCell(keys, values) =>
          MeasureContainer(heap, current, depth);
          if current in active {
            ActiveIsAncestor(heap, stack, active);
            return false;
          }
          ghost var total := size + 2 + KeyBytes(keys);
          PushFrames(heap, stack, active, remaining - 2 * |values|, total);
          VerdictBounds(heap, pending + [Frame(true, current, depth)] + Entering(values, depth + 1),
                        remaining - 2 * |values|, total);
          if 2 * |values| > remaining || (values != [] && depth >= MAX_DEPTH) {
            return false;
          }
          remaining := remaining - 2 * |values|;
          active := active + {current};
          var base := pending + [Frame(true, current, depth)];
          pending := base;
          size := size + 2;
          ghost var before := size;
          NoKeyBytes(keys);
          assert values[..0] == [] && Entering(values[..0], depth + 1) == [];
          for k := 0 to |values|
            invariant pending == base + Entering(values[..k], depth + 1)
            invariant size == before + KeyBytes(keys[..k])
            invariant forall j | 0 <= j < k :: keys[j].Some?
          {
            KeyBytesPrefix(keys, k + 1);
            if keys[k].None? {
              SomeKeyMissing(keys, k);
              return false;
            }
            if Utf8Length(keys[k].value) > MAX_TREE_BYTES - size {
              return false;
            }
            size := size + Utf8Length(keys[k].value) + 3;
            EnteringStep(values, k, depth + 1);
            pending := pending + [Frame(false, values[k], depth + 1)];
          }
          assert values[..|values|] == values && keys[..|values|] == keys;
          NoKeyMissing(keys);
        case OtherCell =>
          MeasureLeaf(heap, current, depth);
          return false;
      }
      if size > MAX_TREE_BYTES {
        return false;
      }
    }
    WalkEnds(heap, remaining, size);
    return true;
  }

  ghost predicate Walking(heap: Heap, stack: seq<Frame>, active: set<Ref>) {
    && Closed(heap) && ValidStack(heap, stack)
    && Nested(heap, stack) && ActiveIs(stack, active)
  }

  lemma NoKeyBytes(keys: seq<Option<string>>)
    ensures KeyBytes(keys[..0]) == 0
  {
  }

  lemma SomeKeyMissing(keys: seq<Option<string>>, k: nat)
    requires k < |keys| && keys[k].None?
    ensures !AllStrings(keys)
  {
  }

  lemma NoKeyMissing(keys: seq<Option<string>>)
    requires forall k | 0 <= k < |keys| :: keys[k].Some?
    ensures AllStrings(keys)
  {
  }

  lemma EnteringStep(refs: seq<Ref>, k: nat, depth: nat)
    requires k < |refs|
    ensures Entering(refs[..k + 1], depth) == Entering(refs[..k], depth) + [Frame(false, refs[k], depth)]
  {
  }

  lemma WalkEnds(heap: Heap, remaining: int, size: int)
    requires Closed(heap) && remaining >= 0 && size <= MAX_TREE_BYTES
    ensures ValidStack(heap, []) && Verdict(heap, [], remaining, size)
  {
  }

  lemma StartWalk(heap: Heap, roots: seq<Ref>)
    requires Closed(heap) && InHeap(heap, roots)
    ensures Walking(heap, Entering(roots, 0), {}) && ValidStack(heap, Entering(roots, 0))
    ensures Verdict(heap, Entering(roots, 0), MAX_TREE_ITEMS - |roots|, 0) <==> MeasuresWell(heap, roots)
    ensures |roots| > MAX_TREE_ITEMS ==> !MeasuresWell(heap, roots)
  {
    hide MeasureAll, Closed, StackCost;
    NoCost(heap, 0);
    StackCostAppend(heap, [], roots, 0);
    assert [] + Entering(roots, 0) == Entering(roots, 0);
  }

  lemma VerdictBounds(heap: Heap, stack: seq<Frame>, remaining: int, size: int)
    requires Closed(heap) && ValidStack(heap, stack)
    ensures Verdict(heap, stack, remaining, size) ==> remaining >= 0 && size <= MAX_TREE_BYTES
  {
    hide StackCost, Closed;
  }

  lemma VerdictOfSum(heap: Heap, whole: seq<Frame>, part: seq<Frame>, more: Option<Cost>, remaining: int, size: int)
    requires Closed(heap) && ValidStack(heap, whole) && ValidStack(heap, part)
    requires StackCost(heap, whole) == Add(StackCost(heap, part), more)
    ensures Verdict(heap, whole, remaining, size)
       <==> more.Some? && Verdict(heap, part, remaining - more.value.items, size + more.value.bytes)
  {
    hide StackCost, Closed, ValidStack;
  }

  /** Taking the top frame off. */
  lemma PopFrame(heap: Heap, stack: seq<Frame>, active: set<Ref>, remaining: int, size: int)
    requires Walking(heap, stack, active) && stack != []
    ensures var rest, top := stack[..|stack| - 1], stack[|stack| - 1];
      && Closed(heap) && ValidStack(heap, stack) && top.ref < |heap| && top.depth <= MAX_DEPTH + 1
      && Walking(heap, rest, if top.exiting then active - {top.ref} else active)
      && ValidStack(heap, rest)
      && Weight(stack) == Weight(rest) + (if top.exiting then 1 else 2)
      && (top.exiting ==> (Verdict(heap, stack, remaining, size) <==> Verdict(heap, rest, remaining, size)))
      && (!top.exiting ==>
            (Verdict(heap, stack, remaining, size)
             <==> var c := Measure(heap, top.ref, top.depth);
                  c.Some? && Verdict(heap, rest, remaining - c.value.items, size + c.value.bytes)))
  {
    hide Measure, Closed, Descends, Verdict;
    var rest, top := stack[..|stack| - 1], stack[|stack| - 1];
    VerdictOfSum(heap, stack, rest, FrameCost(heap, top), remaining, size);
  }

  lemma TooDeep(heap: Heap, r: Ref, depth: nat)
    requires Closed(heap) && r < |heap| && depth == MAX_DEPTH + 1
    ensures Measure(heap, r, depth).None?
  {
    hide MeasureAll, Closed;
  }

  lemma MeasureLeaf(heap: Heap, r: Ref, depth: nat)
    requires Closed(heap) && r < |heap| && depth <= MAX_DEPTH
    ensures match heap[r]
      case StrCell(s) => Measure(heap, r, depth) == Some(Cost(0, Utf8Length(s) + 2))
      case NoneCell => Measure(heap, r, depth) == Some(Cost(0, 5))
      case BoolCell(_) => Measure(heap, r, depth) == Some(Cost(0, 5))
      case IntCell(i) => Measure(heap, r, depth) == if BoundedInt(i) then Some(Cost(0, |IntText(i)|)) else None
      case OtherCell => Measure(heap, r, depth) == None
      case _ => true
  {
    hide MeasureAll, Closed, BoundedInt, Utf8Length;
  }

  /** A container costs itself and its children; without children the deepest level is allowed. */
  lemma MeasureContainer(heap: Heap, r: Ref, depth: nat)
    requires Closed(heap) && r < |heap| && depth <= MAX_DEPTH
    requires heap[r].ListCell? || heap[r].DictCell?
    ensures var c := Children(heap, r);
      && InHeap(heap, c)
      && (heap[r].ListCell? ==> c == heap[r].items)
      && (heap[r].DictCell? ==> c == heap[r].values && |heap[r].keys| == |c|)
      && (c != [] && depth >= MAX_DEPTH ==> Measure(heap, r, depth).None?)
      && (heap[r].DictCell? && !AllStrings(heap[r].keys) ==> Measure(heap, r, depth).None?)
      && (c == [] || depth < MAX_DEPTH ==>
            && (heap[r].ListCell? ==>
                  Measure(heap, r, depth) == Add(Some(Cost(|c|, 2)), MeasureAll(heap, c, depth + 1)))
            && (heap[r].DictCell? && AllStrings(heap[r].keys) ==>
                  Measure(heap, r, depth)
                  == Add(Some(Cost(2 * |c|, 2 + KeyBytes(heap[r].keys))), MeasureAll(heap, c, depth + 1))))
  {
    MeasureIs(heap, r, depth);
    hide Measure, KeyBytes;
  }

  lemma MeasureIs(heap: Heap, r: Ref, depth: nat)
    requires Closed(heap) && r < |heap| && depth <= MAX_DEPTH + 1
    ensures InHeap(heap, Children(heap, r))
    ensures var own := OwnCost(heap, r, depth);
      Measure(heap, r, depth)
      == if own.None? || Children(heap, r) == [] then own
         else Add(own, MeasureAll(heap, Children(heap, r), depth + 1))
  {
    hide MeasureAll;
  }

  /** Replacing an object by its exit frame and its children. */
  lemma PushFrames(heap: Heap, stack: seq<Frame>, active: set<Ref>, remaining: int, size: int)
    requires Walking(heap, stack, active) && stack != []
    requires var top := stack[|stack| - 1]; !top.exiting && top.depth <= MAX_DEPTH && top.ref !in active
    ensures var rest, top := stack[..|stack| - 1], stack[|stack| - 1];
      var c, d := Children(heap, top.ref), top.depth;
      var stack' := rest + [Frame(true, top.ref, d)] + Entering(c, d + 1);
      && Walking(heap, stack', active + {top.ref})
      && ValidStack(heap, stack') && ValidStack(heap, rest) && InHeap(heap, c)
      && Weight(stack') == Weight(rest) + 1 + 2 * |c|
      && (Verdict(heap, stack', remaining, size)
          <==> var m := MeasureAll(heap, c, d + 1);
               m.Some? && Verdict(heap, rest, remaining - m.value.items, size + m.value.bytes))
  {
    hide Measure, MeasureAll, Closed, Verdict, Nested, ActiveIs, ValidStack, StackCost, FrameCost, Weight, InHeap;
    hide Children;
    var rest, top := stack[..|stack| - 1], stack[|stack| - 1];
    ValidPop(heap, stack);
    var c, d := Children(heap, top.ref), top.depth;
    var exit := Frame(true, top.ref, d);
    ChildrenAreInHeap(heap, top.ref);
    EnteringCost(heap, top.ref, d);
    StackStep(heap, rest, exit);
    WeightStep(rest, exit);
    StackCostAppend(heap, rest + [exit], c, d + 1);
    WeightAppend(rest + [exit], c, d + 1);
    NestedPush(heap, stack);
    ActivePush(stack, active, Entering(c, d + 1));
    VerdictOfSum(heap, rest + [exit] + Entering(c, d + 1), rest, MeasureAll(heap, c, d + 1), remaining, size);
  }

  lemma ValidPop(heap: Heap, stack: seq<Frame>)
    requires ValidStack(heap, stack) && stack != []
    ensures ValidStack(heap, stack[..|stack| - 1]) && stack[|stack| - 1].ref < |heap|
  {
  }

  lemma WeightStep(stack: seq<Frame>, f: Frame)
    ensures Weight(stack + [f]) == Weight(stack) + if f.exiting then 1 else 2
  {
    assert (stack + [f])[..|stack|] == stack;
  }

  lemma ActivePush(stack: seq<Frame>, active: set<Ref>, more: seq<Frame>)
    requires stack != [] && ActiveIs(stack, active)
    requires var top := stack[|stack| - 1]; !top.exiting && top.ref !in active
    requires forall k | 0 <= k < |more| :: !more[k].exiting
    ensures var top := stack[|stack| - 1];
      ActiveIs(stack[..|stack| - 1] + [Frame(true, top.ref, top.depth)] + more, active + {top.ref})
  {
    var n, top := |stack| - 1, stack[|stack| - 1];
    var stack' := stack[..n] + [Frame(true, top.ref, top.depth)] + more;
    assert stack'[n] == Frame(true, top.ref, top.depth);
    forall r | r in active + {top.ref} ensures exists k :: 0 <= k < |stack'| && stack'[k].exiting && stack'[k].ref == r {
      if r in active {
        var k :| 0 <= k < |stack| && stack[k].exiting && stack[k].ref == r;
        assert stack'[k] == stack[k];
      }
    }
  }

  lemma NestedPush(heap: Heap, stack: seq<Frame>)
    requires Nested(heap, stack) && stack != [] && !stack[|stack| - 1].exiting
    ensures var top := stack[|stack| - 1];
      Nested(heap, stack[..|stack| - 1] + [Frame(true, top.ref, top.depth)]
                   + Entering(Children(heap, top.ref), top.depth + 1))
  {
    hide Descends;
    var n, top := |stack| - 1, stack[|stack| - 1];
    var c, d := Children(heap, top.ref), top.depth;
    var stack' := stack[..n] + [Frame(true, top.ref, d)] + Entering(c, d + 1);
    forall j, k | 0 <= j < k < |stack'| && stack'[j].exiting
      ensures stack'[j].depth < stack'[k].depth
      ensures Descends(heap, stack'[j].ref, stack'[k].ref, stack'[k].depth - stack'[j].depth)
    {
      assert j <= n;
      if k > n {
        if j < n {
          DescendsFurther(heap, stack[j].ref, top.ref, d - stack[j].depth, k - n - 1);
        } else {
          DescendsNowhere(heap, top.ref);
          DescendsFurther(heap, top.ref, top.ref, 0, k - n - 1);
        }
      }
    }
  }

  lemma DescendsNowhere(heap: Heap, r: Ref)
    ensures Descends(heap, r, r, 0)
  {
  }

  /** Meeting an object still to be left means it contains itself, so the graph is refused. */
  lemma ActiveIsAncestor(heap: Heap, stack: seq<Frame>, active: set<Ref>)
    requires Walking(heap, stack, active) && stack != []
    requires var top := stack[|stack| - 1];
      !top.exiting && top.ref in active && top.ref < |heap| && top.depth <= MAX_DEPTH + 1
    ensures Closed(heap) && Measure(heap, stack[|stack| - 1].ref, stack[|stack| - 1].depth).None?
  {
    hide Measure, Descends, Closed;
    var top := stack[|stack| - 1];
    var k :| 0 <= k < |stack| && stack[k].exiting && stack[k].ref == top.ref;
    CycleIsRefused(heap, top.ref, top.depth - stack[k].depth, top.depth);
  }

  lemma {:induction false} KeyBytesPrefix(keys: seq<Option<string>>, n: nat)
    requires 0 < n <= |keys|
    ensures KeyBytes(keys[..n]) <= KeyBytes(keys)
    ensures KeyBytes(keys[..n])
         == KeyBytes(keys[..n - 1]) + if keys[n - 1].Some? then Utf8Length(keys[n - 1].value) + 3 else 0
  {
    assert keys[..n][..n - 1] == keys[..n - 1];
    if n < |keys| {
      KeyBytesPrefix(keys[..|keys| - 1], n);
      assert keys[..|keys| - 1][..n] == keys[..n] && keys[..|keys| - 1][..n - 1] == keys[..n - 1];
    } else {
      assert keys[..n] == keys;
    }
  }
}
