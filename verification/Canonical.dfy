/** Canonical JSON: equal texts exactly for values of equal meaning. */
module Canonical {
  import opened Basics
  import opened Digits
  import opened Json
  import opened Ordering

  const MAX_DEPTH := 64
  const MAX_ITEMS := 10_000
  const MAX_OUTPUT_BYTES := 1_000_000
  const MAX_INTEGER_BITS := 4096
  const DECIMAL_TAG := "$kil.decimal"

  /** The Python values the encoder distinguishes. A decimal carries the digits of `as_tuple()`. */
  datatype Value =
    | PyNone
    | PyBool(b: bool)
    | PyInt(i: int)
    | PyStr(s: string)
    | PyDecimal(negative: bool, digits: string, exponent: int)
    | PyNonFinite
    | PyEnum(member: Value)
    | PyList(items: seq<Value>)
    | PyTuple(items: seq<Value>)
    | PyRecord(fields: seq<Entry>)
    | PyDict(entries: seq<Entry>)
    | PyOther

  datatype Entry = Entry(key: Key, value: Value)
  datatype Key = Name(name: string) | Foreign

  /** What Python itself guarantees: decimal digits carry no superfluous zero, keys are distinct,
      and a dataclass field name is an identifier (so never the reserved tag). */
  ghost predicate PythonValue(v: Value) {
    match v
    case PyDecimal(_, digits, _) => IsNatText(digits)
    case PyEnum(member) => PythonValue(member)
    case PyList(items) => forall i | 0 <= i < |items| :: PythonValue(items[i])
    case PyTuple(items) => forall i | 0 <= i < |items| :: PythonValue(items[i])
    case PyRecord(fields) =>
      && DistinctKeys(fields)
      && (forall i | 0 <= i < |fields| :: fields[i].key.Name? && fields[i].key.name != DECIMAL_TAG)
      && forall i | 0 <= i < |fields| :: PythonValue(fields[i].value)
    case PyDict(entries) =>
      && DistinctKeys(entries)
      && forall i | 0 <= i < |entries| :: PythonValue(entries[i].value)
    case _ => true
  }

  ghost predicate DistinctKeys(entries: seq<Entry>) {
    forall i, j | 0 <= i < j < |entries| && entries[i].key.Name? :: entries[i].key != entries[j].key
  }

  // ---------- Decimals ----------

  /** The coefficient and exponent left after trailing zeros are dropped. */
  datatype Scaled = Scaled(coefficient: int, exponent: int)

  function StripZeros(n: nat, exponent: int): (s: Scaled)
    requires n > 0
    ensures s.coefficient > 0 && s.coefficient % 10 != 0
  {
    if n % 10 == 0 then StripZeros(n / 10, exponent + 1) else Scaled(n, exponent)
  }

  function NormalDecimal(negative: bool, digits: string, exponent: int): (s: Scaled)
    requires IsNatText(digits)
    ensures s.coefficient == 0 ==> s.exponent == 0
    ensures s.coefficient % 10 == 0 ==> s.coefficient == 0
  {
    var n := NatValue(digits);
    if n == 0 then Scaled(0, 0)
    else
      var s := StripZeros(n, exponent);
      if negative then Scaled(-s.coefficient, s.exponent) else s
  }

  function DecimalJson(s: Scaled): Json {
    Obj([Member(DECIMAL_TAG, List([Str(IntText(s.coefficient)), Int(s.exponent)]))])
  }

  function RealPow10(e: int): (r: real)
    ensures r > 0.0
  {
    if e >= 0 then Pow10(e) as real else 1.0 / (Pow10(-e) as real)
  }

  /** The number a decimal denotes. */
  function DecimalValue(negative: bool, digits: string, exponent: int): real
    requires AllDigits(digits)
  {
    Scale(if negative then 0 - NatValue(digits) else NatValue(digits), exponent)
  }

  function Scale(n: int, exponent: int): real {
    (n as real) * RealPow10(exponent)
  }

  function ScaledValue(s: Scaled): real {
    Scale(s.coefficient, s.exponent)
  }

  // ---------- Normal form, ignoring the limits ----------

  function Normal(v: Value): Json
    decreases v, 0
  {
    match v
    case PyBool(b) => Bool(b)
    case PyInt(i) => Int(i)
    case PyStr(s) => Str(s)
    case PyDecimal(negative, digits, exponent) =>
      if IsNatText(digits) then DecimalJson(NormalDecimal(negative, digits, exponent)) else Null
    case PyEnum(member) => Normal(member)
    case PyList(items) => List(NormalItems(items))
    case PyTuple(items) => List(NormalItems(items))
    case PyRecord(fields) => Obj(NormalMembers(fields))
    case PyDict(entries) => Obj(NormalMembers(entries))
    case _ => Null
  }

  function NormalItems(items: seq<Value>): (r: seq<Json>)
    ensures |r| == |items|
    ensures forall i | 0 <= i < |items| :: r[i] == Normal(items[i])
    decreases items, 1
  {
    if items == [] then [] else [Normal(items[0])] + NormalItems(items[1..])
  }

  function NormalMember(e: Entry): Member
    decreases e, 1
  {
    Member(if e.key.Name? then e.key.name else "", Normal(e.value))
  }

  function NormalMembers(entries: seq<Entry>): (r: seq<Member>)
    ensures |r| == |entries|
    ensures forall i | 0 <= i < |entries| :: r[i] == NormalMember(entries[i])
    decreases entries, 2
  {
    if entries == [] then [] else [NormalMember(entries[0])] + NormalMembers(entries[1..])
  }

  /** Traversal steps one value costs. */
  function Items(v: Value): (n: nat)
    ensures n > 0
    decreases v, 0
  {
    match v
    case PyEnum(member) => 1 + Items(member)
    case PyList(items) => 1 + ItemsOf(items)
    case PyTuple(items) => 1 + ItemsOf(items)
    case PyRecord(fields) => 1 + ItemsOfEntries(fields)
    case PyDict(entries) => 1 + ItemsOfEntries(entries)
    case _ => 1
  }

  function ItemsOf(items: seq<Value>): nat
    decreases items, 1
  {
    if items == [] then 0 else ItemsOf(items[..|items| - 1]) + Items(items[|items| - 1])
  }

  function ItemsOfEntries(entries: seq<Entry>): nat
    decreases entries, 2
  {
    if entries == [] then 0
    else ItemsOfEntries(entries[..|entries| - 1]) + ItemsOfEntry(entries[|entries| - 1])
  }

  function ItemsOfEntry(e: Entry): nat
    decreases e, 1
  {
    Items(e.value)
  }

  /** Whether a value found at `depth` stays within the depth limit and holds only encodable leaves. */
  predicate Encodable(v: Value, depth: nat)
    decreases v
  {
    && depth <= MAX_DEPTH
    && match v
       case PyNone => true
       case PyBool(_) => true
       case PyInt(i) => 0 - Pow2(MAX_INTEGER_BITS) < i < Pow2(MAX_INTEGER_BITS)
       case PyStr(s) => Utf8Length(s) <= MAX_OUTPUT_BYTES
       case PyDecimal(negative, digits, exponent) =>
         && IsNatText(digits)
         && |IntText(NormalDecimal(negative, digits, exponent).coefficient)| <= MAX_OUTPUT_BYTES
       case PyNonFinite => false
       case PyEnum(member) => Encodable(member, depth + 1)
       case PyList(items) => forall i | 0 <= i < |items| :: Encodable(items[i], depth + 1)
       case PyTuple(items) => forall i | 0 <= i < |items| :: Encodable(items[i], depth + 1)
       case PyRecord(fields) => forall i | 0 <= i < |fields| :: Encodable(fields[i].value, depth + 1)
       case PyDict(entries) =>
         && EncodableKeys(entries)
         && forall i | 0 <= i < |entries| :: Encodable(entries[i].value, depth + 1)
       case PyOther => false
  }

  predicate EncodableKeys(entries: seq<Entry>) {
    forall i | 0 <= i < |entries| ::
      && entries[i].key.Name?
      && entries[i].key.name != DECIMAL_TAG
      && Utf8Length(entries[i].key.name) <= MAX_OUTPUT_BYTES
  }

  /** The whole text, keys sorted at every level. */
  function CanonicalText(v: Value): string {
    Text(SortKeys(Normal(v)))
  }

  predicate Accepted(v: Value) {
    && Encodable(v, 0)
    && Items(v) <= MAX_ITEMS
    && Utf8Length(CanonicalText(v)) <= MAX_OUTPUT_BYTES
  }

  function SortKeys(j: Json): Json
    decreases j, 0
  {
    match j
    case List(items) => List(SortKeysOfItems(items))
    case Obj(members) => Obj(SortMembers(SortKeysOfMembers(members)))
    case _ => j
  }

  function SortKeysOfItems(items: seq<Json>): (r: seq<Json>)
    ensures |r| == |items|
    ensures forall i | 0 <= i < |items| :: r[i] == SortKeys(items[i])
    decreases items, 1
  {
    if items == [] then [] else [SortKeys(items[0])] + SortKeysOfItems(items[1..])
  }

  function SortKeysOfMember(m: Member): Member
    decreases m, 1
  {
    Member(m.key, SortKeys(m.value))
  }

  function SortKeysOfMembers(members: seq<Member>): (r: seq<Member>)
    ensures |r| == |members|
    ensures forall i | 0 <= i < |members| :: r[i] == SortKeysOfMember(members[i])
    decreases members, 2
  {
    if members == [] then [] else [SortKeysOfMember(members[0])] + SortKeysOfMembers(members[1..])
  }

  // ---------- Decimals, digit by digit ----------

  method NormalizeDecimal(negative: bool, digits: string, exponent: int) returns (r: Option<Json>)
    requires IsNatText(digits)
    ensures r.Some? <==> |IntText(NormalDecimal(negative, digits, exponent).coefficient)| <= MAX_OUTPUT_BYTES
    ensures r.Some? ==> r.value == DecimalJson(NormalDecimal(negative, digits, exponent))
  {
    assert |digits| > 0;
    ghost var target := NormalDecimal(negative, digits, exponent);
    NormalDecimalCases(negative, digits, exponent);
    hide *;
    var coefficient, normalized := "0", 0;
    if exists i :: 0 <= i < |digits| && digits[i] != '0' {
      DigitsNotZero(digits);
      var significant := digits;
      normalized := exponent;
      while significant[|significant| - 1] == '0'
        invariant |significant| > 0 && IsNatText(significant) && AllDigits(significant)
        invariant NatValue(significant) > 0
        invariant StripZeros(NatValue(significant), normalized) == StripZeros(NatValue(digits), exponent)
        decreases |significant|
      {
        StripZerosStep(significant, normalized);
        significant := significant[..|significant| - 1];
        normalized := normalized + 1;
      }
      StripZerosDone(significant, normalized);
      coefficient := if negative then "-" + significant else significant;
    } else {
      AllZeros(digits);
    }
    assert coefficient == IntText(target.coefficient) && normalized == target.exponent;
    if |coefficient| > MAX_OUTPUT_BYTES {
      return None;
    }
    r := Some(Obj([Member(DECIMAL_TAG, List([Str(coefficient), Int(normalized)]))]));
    DecimalJsonIs(target);
  }

  lemma DecimalJsonIs(s: Scaled)
    ensures DecimalJson(s) == Obj([Member(DECIMAL_TAG, List([Str(IntText(s.coefficient)), Int(s.exponent)]))])
  {
  }

  lemma NormalDecimalCases(negative: bool, digits: string, exponent: int)
    requires IsNatText(digits)
    ensures AllDigits(digits)
    ensures NatValue(digits) == 0 ==> NormalDecimal(negative, digits, exponent) == Scaled(0, 0)
    ensures NatValue(digits) > 0 ==>
      var s := StripZeros(NatValue(digits), exponent);
      NormalDecimal(negative, digits, exponent) == if negative then Scaled(0 - s.coefficient, s.exponent) else s
  {
  }

  lemma StripZerosStep(digits: string, exponent: int)
    requires |digits| > 0 && IsNatText(digits) && AllDigits(digits) && NatValue(digits) > 0
    requires digits[|digits| - 1] == '0'
    ensures |digits| > 1
    ensures IsNatText(digits[..|digits| - 1]) && AllDigits(digits[..|digits| - 1]) && NatValue(digits[..|digits| - 1]) > 0
    ensures StripZeros(NatValue(digits), exponent) == StripZeros(NatValue(digits[..|digits| - 1]), exponent + 1)
  {
  }

  lemma StripZerosDone(digits: string, exponent: int)
    requires |digits| > 0 && IsNatText(digits) && AllDigits(digits) && NatValue(digits) > 0
    requires digits[|digits| - 1] != '0'
    ensures StripZeros(NatValue(digits), exponent) == Scaled(NatValue(digits), exponent)
    ensures IntText(NatValue(digits)) == digits && IntText(0 - NatValue(digits)) == "-" + digits
  {
    NatTextOfValue(digits);
  }

  lemma AllZeros(digits: string)
    requires IsNatText(digits) && forall i | 0 <= i < |digits| :: digits[i] == '0'
    ensures NatValue(digits) == 0 && IntText(0) == "0"
  {
    assert digits == "0";
  }

  lemma {:induction false} DigitsNotZero(digits: string)
    requires AllDigits(digits) && exists i :: 0 <= i < |digits| && digits[i] != '0'
    ensures |digits| > 0 && NatValue(digits) > 0
  {
    var i :| 0 <= i < |digits| && digits[i] != '0';
    if i < |digits| - 1 {
      assert digits[..|digits| - 1][i] != '0';
      DigitsNotZero(digits[..|digits| - 1]);
    }
  }

  lemma {:induction false} ItemsOfPrefix(items: seq<Value>, n: nat)
    requires n <= |items|
    ensures ItemsOf(items[..n]) <= ItemsOf(items)
  {
    if n < |items| {
      ItemsOfPrefix(items[..|items| - 1], n);
      assert items[..|items| - 1][..n] == items[..n];
    } else {
      assert items[..n] == items;
    }
  }

  // ---------- Meaning ----------

  datatype Meaning =
    | MNull
    | MBool(b: bool)
    | MInt(i: int)
    | MStr(s: string)
    | MNumber(n: real)
    | MList(items: seq<Meaning>)
    | MObject(members: map<string, Meaning>)

  /** What a value says: the numeric value of a decimal, the elements of a list or tuple in order,
      the fields of a record or dictionary by name, and the value of an enumeration member. */
  ghost function MeaningOf(v: Value): Meaning
    decreases v, 0
  {
    match v
    case PyBool(b) => MBool(b)
    case PyInt(i) => MInt(i)
    case PyStr(s) => MStr(s)
    case PyDecimal(negative, digits, exponent) =>
      if AllDigits(digits) then MNumber(DecimalValue(negative, digits, exponent)) else MNull
    case PyEnum(member) => MeaningOf(member)
    case PyList(items) => MList(MeaningOfItems(items))
    case PyTuple(items) => MList(MeaningOfItems(items))
    case PyRecord(fields) => MObject(MeaningOfEntries(fields))
    case PyDict(entries) => MObject(MeaningOfEntries(entries))
    case _ => MNull
  }

  ghost function MeaningOfItems(items: seq<Value>): (r: seq<Meaning>)
    ensures |r| == |items|
    ensures forall i | 0 <= i < |items| :: r[i] == MeaningOf(items[i])
    decreases items, 1
  {
    if items == [] then [] else [MeaningOf(items[0])] + MeaningOfItems(items[1..])
  }

  ghost function MeaningOfEntries(entries: seq<Entry>): map<string, Meaning>
    decreases entries, 2
  {
    if entries == [] then map[]
    else if entries[0].key.Name? then
      MeaningOfEntries(entries[1..])[entries[0].key.name := MeaningOfEntry(entries[0])]
    else MeaningOfEntries(entries[1..])
  }

  ghost function MeaningOfEntry(e: Entry): Meaning
    decreases e, 1
  {
    MeaningOf(e.value)
  }

  // ---------- Decimals: equal normal form exactly for equal value ----------

  lemma RealPow10Step(e: int)
    ensures RealPow10(e + 1) == 10.0 * RealPow10(e)
  {
    if e < 0 {
      assert Pow10(-e) == 10 * Pow10(-e - 1);
      var p := Pow10(-e - 1) as real;
      assert RealPow10(e) == 1.0 / (10.0 * p);
      assert e + 1 < 0 ==> RealPow10(e + 1) == 1.0 / p;
      assert e + 1 == 0 ==> p == 1.0;
      assert 1.0 / p == 10.0 * (1.0 / (10.0 * p));
    }
  }

  lemma ScaleShift(n: int, e: int)
    ensures Scale(10 * n, e) == Scale(n, e + 1)
  {
    RealPow10Step(e);
    hide RealPow10;
    var unit, m := RealPow10(e), n as real;
    assert (10 * n) as real == 10.0 * m;
    assert (10.0 * m) * unit == m * (10.0 * unit);
  }

  lemma ScaleNegates(n: int, e: int)
    ensures Scale(0 - n, e) == 0.0 - Scale(n, e)
  {
    hide RealPow10;
    var unit, m := RealPow10(e), n as real;
    assert (0 - n) as real == 0.0 - m;
    assert (0.0 - m) * unit == 0.0 - m * unit;
  }

  lemma ScaleInjective(m: int, n: int, e: int)
    requires Scale(m, e) == Scale(n, e)
    ensures m == n
  {
    hide RealPow10;
    var unit, d := RealPow10(e), (m - n) as real;
    assert d == m as real - n as real;
    assert d * unit == (m as real) * unit - (n as real) * unit == 0.0;
  }

  lemma {:induction false} ScaleShiftMany(n: int, e: int, k: nat)
    ensures Scale(n, e + k) == Scale(n * Pow10(k), e)
    decreases k
  {
    hide Scale;
    if k > 0 {
      ScaleShiftMany(n, e + 1, k - 1);
      ScaleShift(n * Pow10(k - 1), e);
      TimesPow10(n, k);
    }
  }

  lemma TimesPow10(n: int, k: nat)
    requires k > 0
    ensures n * Pow10(k) == 10 * (n * Pow10(k - 1))
  {
    var p := Pow10(k - 1);
    assert n * (10 * p) == 10 * (n * p);
  }

  lemma {:induction false} StripZerosKeepsValue(n: nat, exponent: int)
    requires n > 0
    ensures ScaledValue(StripZeros(n, exponent)) == Scale(n, exponent)
  {
    hide Scale;
    if n % 10 == 0 {
      StripZerosKeepsValue(n / 10, exponent + 1);
      ScaleShift(n / 10, exponent);
    }
  }

  lemma NormalDecimalKeepsValue(negative: bool, digits: string, exponent: int)
    requires IsNatText(digits)
    ensures ScaledValue(NormalDecimal(negative, digits, exponent)) == DecimalValue(negative, digits, exponent)
  {
    hide RealPow10;
    var n := NatValue(digits);
    if n > 0 {
      hide Scale;
      var s := StripZeros(n, exponent);
      StripZerosKeepsValue(n, exponent);
      ScaleNegates(n, exponent);
      ScaleNegates(s.coefficient, s.exponent);
    }
  }

  ghost predicate Reduced(s: Scaled) {
    if s.coefficient == 0 then s.exponent == 0 else s.coefficient % 10 != 0
  }

  lemma ReducedUnique(a: Scaled, b: Scaled)
    requires Reduced(a) && Reduced(b) && ScaledValue(a) == ScaledValue(b)
    requires a.exponent >= b.exponent
    ensures a == b
  {
    hide Scale;
    var k := a.exponent - b.exponent;
    ScaleShiftMany(a.coefficient, b.exponent, k);
    ScaleInjective(a.coefficient * Pow10(k), b.coefficient, b.exponent);
    if k > 0 {
      if a.coefficient != 0 {
        ProductNonzero(a.coefficient, Pow10(k));
      }
      TimesPow10(a.coefficient, k);
    }
  }

  lemma ProductNonzero(m: int, p: nat)
    requires m != 0 && p > 0
    ensures m * p != 0
  {
  }

  /** Negative zero and trailing zeros are collapsed, and nothing else is. */
  lemma DecimalNormalFormIsValue(n1: bool, d1: string, e1: int, n2: bool, d2: string, e2: int)
    requires IsNatText(d1) && IsNatText(d2)
    ensures NormalDecimal(n1, d1, e1) == NormalDecimal(n2, d2, e2)
       <==> DecimalValue(n1, d1, e1) == DecimalValue(n2, d2, e2)
  {
    NormalDecimalKeepsValue(n1, d1, e1);
    NormalDecimalKeepsValue(n2, d2, e2);
    var a, b := NormalDecimal(n1, d1, e1), NormalDecimal(n2, d2, e2);
    if ScaledValue(a) == ScaledValue(b) {
      if a.exponent >= b.exponent { ReducedUnique(a, b); } else { ReducedUnique(b, a); }
    }
  }

  // ---------- Equal text exactly for equal meaning ----------

  function Form(v: Value): Json {
    SortKeys(Normal(v))
  }

  function FormMembers(entries: seq<Entry>): seq<Member> {
    SortKeysOfMembers(NormalMembers(entries))
  }

  predicate AllNamed(entries: seq<Entry>) {
    forall i | 0 <= i < |entries| :: entries[i].key.Name? && entries[i].key.name != DECIMAL_TAG
  }

  predicate IsObject(v: Value) {
    v.PyRecord? || v.PyDict?
  }

  function EntriesOf(v: Value): seq<Entry>
    requires IsObject(v)
  {
    if v.PyRecord? then v.fields else v.entries
  }

  predicate IsArray(v: Value) {
    v.PyList? || v.PyTuple?
  }

  lemma {:induction false} MeaningLookup(entries: seq<Entry>)
    requires DistinctKeys(entries) && AllNamed(entries)
    ensures forall i | 0 <= i < |entries| ::
      && entries[i].key.name in MeaningOfEntries(entries)
      && MeaningOfEntries(entries)[entries[i].key.name] == MeaningOf(entries[i].value)
    ensures forall k | k in MeaningOfEntries(entries) :: exists i :: 0 <= i < |entries| && entries[i].key.name == k
  {
    if entries != [] {
      var tail := entries[1..];
      MeaningLookup(tail);
      forall i | 0 <= i < |entries|
        ensures entries[i].key.name in MeaningOfEntries(entries)
        ensures MeaningOfEntries(entries)[entries[i].key.name] == MeaningOf(entries[i].value)
      {
        if i > 0 { assert tail[i - 1] == entries[i]; }
      }
      forall k | k in MeaningOfEntries(entries)
        ensures exists i :: 0 <= i < |entries| && entries[i].key.name == k
      {
        if k == entries[0].key.name {
        } else {
          var i :| 0 <= i < |tail| && tail[i].key.name == k;
          assert entries[i + 1] == tail[i];
        }
      }
    }
  }

  lemma FormMemberAt(entries: seq<Entry>)
    requires AllNamed(entries)
    ensures |FormMembers(entries)| == |entries|
    ensures forall i | 0 <= i < |entries| ::
      FormMembers(entries)[i] == Member(entries[i].key.name, Form(entries[i].value))
    ensures DistinctKeys(entries) ==> DistinctNames(FormMembers(entries))
  {
  }

  ghost predicate SameValues(xs: seq<Entry>, ys: seq<Entry>) {
    forall i, j | 0 <= i < |xs| && 0 <= j < |ys| ::
      Form(xs[i].value) == Form(ys[j].value) <==> MeaningOf(xs[i].value) == MeaningOf(ys[j].value)
  }

  lemma SameMembersOneWay(xs: seq<Entry>, ys: seq<Entry>)
    requires DistinctKeys(xs) && DistinctKeys(ys) && AllNamed(xs) && AllNamed(ys) && SameValues(xs, ys)
    requires MeaningOfEntries(xs) == MeaningOfEntries(ys)
    ensures forall m | m in FormMembers(xs) :: m in FormMembers(ys)
  {
    FormMemberAt(xs);
    FormMemberAt(ys);
    MeaningLookup(xs);
    MeaningLookup(ys);
    forall m | m in FormMembers(xs) ensures m in FormMembers(ys) {
      var i :| 0 <= i < |xs| && FormMembers(xs)[i] == m;
      var j :| 0 <= j < |ys| && ys[j].key.name == xs[i].key.name;
      assert FormMembers(ys)[j] == m;
    }
  }

  lemma SameMeaningOneWay(xs: seq<Entry>, ys: seq<Entry>)
    requires DistinctKeys(xs) && DistinctKeys(ys) && AllNamed(xs) && AllNamed(ys) && SameValues(xs, ys)
    requires forall m | m in FormMembers(xs) :: m in FormMembers(ys)
    ensures forall k | k in MeaningOfEntries(xs) ::
      k in MeaningOfEntries(ys) && MeaningOfEntries(xs)[k] == MeaningOfEntries(ys)[k]
  {
    FormMemberAt(xs);
    FormMemberAt(ys);
    MeaningLookup(xs);
    MeaningLookup(ys);
    forall k | k in MeaningOfEntries(xs)
      ensures k in MeaningOfEntries(ys) && MeaningOfEntries(xs)[k] == MeaningOfEntries(ys)[k]
    {
      var i :| 0 <= i < |xs| && xs[i].key.name == k;
      assert FormMembers(xs)[i] in FormMembers(ys);
      var j :| 0 <= j < |ys| && FormMembers(ys)[j] == FormMembers(xs)[i];
    }
  }

  lemma SameObjects(xs: seq<Entry>, ys: seq<Entry>)
    requires DistinctKeys(xs) && DistinctKeys(ys) && AllNamed(xs) && AllNamed(ys)
    requires SameValues(xs, ys)
    ensures SortMembers(FormMembers(xs)) == SortMembers(FormMembers(ys))
       <==> MeaningOfEntries(xs) == MeaningOfEntries(ys)
  {
    FormMemberAt(xs);
    FormMemberAt(ys);
    SortForgetsOrder(FormMembers(xs), FormMembers(ys));
    assert SameValues(ys, xs);
    if MeaningOfEntries(xs) == MeaningOfEntries(ys) {
      SameMembersOneWay(xs, ys);
      SameMembersOneWay(ys, xs);
    }
    if forall m :: m in FormMembers(xs) <==> m in FormMembers(ys) {
      SameMeaningOneWay(xs, ys);
      SameMeaningOneWay(ys, xs);
    }
  }

  lemma FormOfDecimal(s: Scaled)
    ensures SortKeys(DecimalJson(s)) == DecimalJson(s)
  {
    var payload := List([Str(IntText(s.coefficient)), Int(s.exponent)]);
    var m := Member(DECIMAL_TAG, payload);
    assert SortKeys(payload) == payload by {
      assert SortKeysOfItems(payload.items)[0] == payload.items[0];
      assert SortKeysOfItems(payload.items)[1] == payload.items[1];
    }
    assert SortKeysOfMembers([m]) == [m];
    assert SortMembers([m]) == [m];
  }

  /** A dictionary or record never spells a decimal, because the tag is reserved. */
  lemma TagIsReserved(entries: seq<Entry>, s: Scaled)
    requires AllNamed(entries)
    ensures Obj(SortMembers(FormMembers(entries))) != DecimalJson(s)
  {
    FormMemberAt(entries);
    var sorted, members := SortMembers(FormMembers(entries)), FormMembers(entries);
    forall i | 0 <= i < |sorted| ensures sorted[i].key != DECIMAL_TAG {
      assert sorted[i] in multiset(sorted);
      assert sorted[i] in members;
    }
    assert DecimalJson(s).members[0].key == DECIMAL_TAG;
  }

  lemma FormOfArray(v: Value)
    requires IsArray(v)
    ensures Form(v) == List(SortKeysOfItems(NormalItems(v.items)))
    ensures MeaningOf(v) == MList(MeaningOfItems(v.items))
  {
    hide SortKeysOfItems, NormalItems, MeaningOfItems;
    assert Normal(v) == List(NormalItems(v.items));
  }

  lemma FormOfObject(v: Value)
    requires IsObject(v)
    ensures Form(v) == Obj(SortMembers(FormMembers(EntriesOf(v))))
    ensures MeaningOf(v) == MObject(MeaningOfEntries(EntriesOf(v)))
  {
    hide SortMembers, SortKeysOfMembers, NormalMembers, MeaningOfEntries;
    assert Normal(v) == Obj(NormalMembers(EntriesOf(v)));
  }

  lemma FormOfEnum(v: Value)
    requires v.PyEnum?
    ensures Form(v) == Form(v.member) && MeaningOf(v) == MeaningOf(v.member)
  {
  }

  predicate IsScalar(v: Value) {
    v.PyNone? || v.PyBool? || v.PyInt? || v.PyStr?
  }

  lemma ScalarAgainstAny(a: Value, b: Value)
    requires IsScalar(a) && (IsScalar(b) || IsArray(b) || IsObject(b))
    ensures Form(a) == Form(b) <==> MeaningOf(a) == MeaningOf(b)
  {
    if IsArray(b) { FormOfArray(b); }
    if IsObject(b) { FormOfObject(b); }
  }

  lemma {:induction false} SameFormOfArrays(a: Value, da: nat, b: Value, db: nat)
    requires PythonValue(a) && Encodable(a, da) && PythonValue(b) && Encodable(b, db)
    requires IsArray(a) && IsArray(b)
    ensures Form(a) == Form(b) <==> MeaningOf(a) == MeaningOf(b)
    decreases a, b, 0
  {
    FormOfArray(a);
    FormOfArray(b);
    if |a.items| == |b.items| {
      forall i | 0 <= i < |a.items|
        ensures Form(a.items[i]) == Form(b.items[i]) <==> MeaningOf(a.items[i]) == MeaningOf(b.items[i])
      {
        SameFormSameMeaning(a.items[i], da + 1, b.items[i], db + 1);
      }
      SameArrays(a.items, b.items);
    }
  }

  lemma {:induction false} SameFormOfObjects(a: Value, da: nat, b: Value, db: nat)
    requires PythonValue(a) && Encodable(a, da) && PythonValue(b) && Encodable(b, db)
    requires IsObject(a) && IsObject(b)
    ensures Form(a) == Form(b) <==> MeaningOf(a) == MeaningOf(b)
    decreases a, b, 0
  {
    hide *;
    FormOfObject(a);
    FormOfObject(b);
    ObjectParts(a, da);
    ObjectParts(b, db);
    var xs, ys := EntriesOf(a), EntriesOf(b);
    forall i, j | 0 <= i < |xs| && 0 <= j < |ys|
      ensures Form(xs[i].value) == Form(ys[j].value) <==> MeaningOf(xs[i].value) == MeaningOf(ys[j].value)
    {
      SameFormSameMeaning(xs[i].value, da + 1, ys[j].value, db + 1);
    }
    SameValuesIntro(xs, ys);
    SameObjects(xs, ys);
  }

  lemma SameValuesIntro(xs: seq<Entry>, ys: seq<Entry>)
    requires forall i, j | 0 <= i < |xs| && 0 <= j < |ys| ::
      Form(xs[i].value) == Form(ys[j].value) <==> MeaningOf(xs[i].value) == MeaningOf(ys[j].value)
    ensures SameValues(xs, ys)
  {
    hide Form, MeaningOf;
  }

  lemma ObjectParts(v: Value, d: nat)
    requires PythonValue(v) && Encodable(v, d) && IsObject(v)
    ensures DistinctKeys(EntriesOf(v)) && AllNamed(EntriesOf(v))
    ensures forall i | 0 <= i < |EntriesOf(v)| ::
      && PythonValue(EntriesOf(v)[i].value)
      && Encodable(EntriesOf(v)[i].value, d + 1)
      && EntriesOf(v)[i].value < v
  {
  }

  /** Equal normal form exactly for equal meaning, at whatever depths the two values stand. */
  lemma {:induction false} SameFormSameMeaning(a: Value, da: nat, b: Value, db: nat)
    requires PythonValue(a) && Encodable(a, da) && PythonValue(b) && Encodable(b, db)
    ensures Form(a) == Form(b) <==> MeaningOf(a) == MeaningOf(b)
    decreases a, b, 1
  {
    hide Form, MeaningOf;
    if a.PyEnum? {
      SameFormSameMeaning(a.member, da + 1, b, db);
      FormOfEnum(a);
    } else if b.PyEnum? {
      SameFormSameMeaning(a, da, b.member, db + 1);
      FormOfEnum(b);
    } else if IsArray(a) && IsArray(b) {
      SameFormOfArrays(a, da, b, db);
    } else if IsObject(a) && IsObject(b) {
      SameFormOfObjects(a, da, b, db);
    } else if a.PyDecimal? && b.PyDecimal? {
      SameDecimals(a, b);
    } else if a.PyDecimal? {
      DecimalAgainstOther(a, b);
    } else if b.PyDecimal? {
      DecimalAgainstOther(b, a);
    } else if IsScalar(a) {
      ScalarAgainstAny(a, b);
    } else if IsScalar(b) {
      ScalarAgainstAny(b, a);
    } else {
      ArrayAgainstObject(a, b);
    }
  }

  lemma ArrayAgainstObject(a: Value, b: Value)
    requires (IsArray(a) && IsObject(b)) || (IsObject(a) && IsArray(b))
    ensures Form(a) != Form(b) && MeaningOf(a) != MeaningOf(b)
  {
    if IsArray(a) {
      FormOfArray(a);
      FormOfObject(b);
    } else {
      FormOfArray(b);
      FormOfObject(a);
    }
  }

  lemma SameArrays(xs: seq<Value>, ys: seq<Value>)
    requires |xs| == |ys|
    requires forall i | 0 <= i < |xs| :: Form(xs[i]) == Form(ys[i]) <==> MeaningOf(xs[i]) == MeaningOf(ys[i])
    ensures SortKeysOfItems(NormalItems(xs)) == SortKeysOfItems(NormalItems(ys))
       <==> MeaningOfItems(xs) == MeaningOfItems(ys)
  {
    var fx, fy := SortKeysOfItems(NormalItems(xs)), SortKeysOfItems(NormalItems(ys));
    var mx, my := MeaningOfItems(xs), MeaningOfItems(ys);
    assert forall i | 0 <= i < |xs| :: fx[i] == Form(xs[i]) && fy[i] == Form(ys[i]);
    assert forall i | 0 <= i < |xs| :: mx[i] == MeaningOf(xs[i]) && my[i] == MeaningOf(ys[i]);
  }

  lemma SameDecimals(a: Value, b: Value)
    requires a.PyDecimal? && b.PyDecimal? && IsNatText(a.digits) && IsNatText(b.digits)
    ensures Form(a) == Form(b) <==> MeaningOf(a) == MeaningOf(b)
  {
    var x := NormalDecimal(a.negative, a.digits, a.exponent);
    var y := NormalDecimal(b.negative, b.digits, b.exponent);
    FormOfDecimal(x);
    FormOfDecimal(y);
    DecimalNormalFormIsValue(a.negative, a.digits, a.exponent, b.negative, b.digits, b.exponent);
    if DecimalJson(x) == DecimalJson(y) {
      var px, py := DecimalJson(x).members[0].value, DecimalJson(y).members[0].value;
      assert px.items[0] == py.items[0] && px.items[1] == py.items[1];
      IntTextInjective(x.coefficient, y.coefficient);
    }
  }

  lemma DecimalAgainstOther(a: Value, b: Value)
    requires a.PyDecimal? && IsNatText(a.digits)
    requires IsScalar(b) || IsArray(b) || IsObject(b)
    requires IsObject(b) ==> AllNamed(EntriesOf(b))
    ensures Form(a) != Form(b) && MeaningOf(a) != MeaningOf(b)
  {
    var x := NormalDecimal(a.negative, a.digits, a.exponent);
    FormOfDecimal(x);
    assert Form(a) == DecimalJson(x);
    hide NormalDecimal, DecimalValue, SortKeysOfItems, NormalItems, MeaningOfItems, SortMembers, FormMembers;
    if IsArray(b) {
      FormOfArray(b);
    } else if IsObject(b) {
      FormOfObject(b);
      TagIsReserved(EntriesOf(b), x);
    }
  }

  /** Two accepted values have the same canonical text exactly when they mean the same. */
  lemma CanonicalTextIsMeaning(a: Value, b: Value)
    requires PythonValue(a) && Accepted(a) && PythonValue(b) && Accepted(b)
    ensures CanonicalText(a) == CanonicalText(b) <==> MeaningOf(a) == MeaningOf(b)
  {
    SameFormSameMeaning(a, 0, b, 0);
    if CanonicalText(a) == CanonicalText(b) {
      TextInjective(Form(a), Form(b));
    }
  }

  /** Reading canonical text gives back the normal form it was printed from. */
  lemma CanonicalTextReads(v: Value)
    ensures Loads(CanonicalText(v)) == Done(SortKeys(Normal(v)), "")
  {
    LoadsOfText(SortKeys(Normal(v)));
  }
}
