/** The claims of a signed state and the payload they travel as. */
module QClaims {
  import opened Basics
  import opened Digits
  import opened Json
  import opened QDecimal
  import C = Canonical
  import D = Decision

  const Q_STATE_SCHEMA_VERSION := "kil.q-state.v0"
  const MAX_VALIDITY_SECONDS := 10
  const MAX_DECIMAL_WIRE_LENGTH := 64

  datatype Kind = SchemaKind | TextKind | IntegerKind | FlagKind | DecimalKind | DigestKind

  const FIELDS: map<string, Kind> := map[
    "schema_version" := SchemaKind, "state_id" := TextKind, "issuer" := TextKind, "subject" := TextKind,
    "audience" := TextKind, "authority_class" := TextKind, "action_class" := TextKind,
    "issued_at_s" := IntegerKind, "not_before_s" := IntegerKind, "expires_at_s" := IntegerKind,
    "evidence_horizon_s" := IntegerKind, "trust_proof_id" := TextKind, "trust_proof_digest" := DigestKind,
    "envelope_result_id" := TextKind, "envelope_result_digest" := DigestKind, "deployment_profile" := TextKind,
    "charge" := DecimalKind, "threshold" := DecimalKind, "history_count" := IntegerKind,
    "minimum_history" := IntegerKind, "veto_clear" := FlagKind, "envelope_allows" := FlagKind,
    "decay_rate" := DecimalKind, "maximum_charge" := DecimalKind, "model_version" := TextKind,
    "parameter_version" := TextKind]

  /** The fields in the order of their declaration. */
  const FIELD_NAMES := [
    "schema_version", "state_id", "issuer", "subject", "audience", "authority_class", "action_class",
    "issued_at_s", "not_before_s", "expires_at_s", "evidence_horizon_s", "trust_proof_id", "trust_proof_digest",
    "envelope_result_id", "envelope_result_digest", "deployment_profile", "charge", "threshold", "history_count",
    "minimum_history", "veto_clear", "envelope_allows", "decay_rate", "maximum_charge", "model_version",
    "parameter_version"]

  datatype ClaimValue = Words(s: string) | Whole(i: int) | Flag(b: bool) | Amount(d: Dec)

  type Claims = map<string, ClaimValue>

  predicate IsDigest(s: string) {
    |s| == 71 && s[..7] == "sha256:" && forall k | 7 <= k < 71 :: '0' <= s[k] <= '9' || 'a' <= s[k] <= 'f'
  }

  /** The check `__post_init__` makes on one field. */
  predicate Fits(v: ClaimValue, kind: Kind) {
    match kind
    case SchemaKind => v == Words(Q_STATE_SCHEMA_VERSION)
    case TextKind => v.Words? && D.Nonblank(v.s)
    case IntegerKind => v.Whole?
    case FlagKind => v.Flag?
    case DecimalKind => v.Amount? && IsDec(v.d) && |Wire(v.d)| <= MAX_DECIMAL_WIRE_LENGTH
    case DigestKind => v.Words? && IsDigest(v.s)
  }

  function WordsIn(c: Claims, name: string): string {
    if name in c && c[name].Words? then c[name].s else ""
  }

  function WholeIn(c: Claims, name: string): int {
    if name in c && c[name].Whole? then c[name].i else 0
  }

  function FlagIn(c: Claims, name: string): bool {
    name in c && c[name].Flag? && c[name].b
  }

  function AmountIn(c: Claims, name: string): real {
    if name in c && c[name].Amount? && IsDec(c[name].d) then Amounts(c[name].d) else 0.0
  }

  function Amounts(d: Dec): real
    requires IsDec(d)
  {
    C.DecimalValue(false, d.digits, d.exponent)
  }

  predicate FieldsFit(c: Claims) {
    c.Keys == FIELDS.Keys && forall name | name in c :: Fits(c[name], FIELDS[name])
  }

  /** The checks across fields. */
  predicate Consistent(c: Claims) {
    && WholeIn(c, "issued_at_s") <= WholeIn(c, "not_before_s") < WholeIn(c, "expires_at_s")
    && WholeIn(c, "expires_at_s") - WholeIn(c, "issued_at_s") <= MAX_VALIDITY_SECONDS
    && WholeIn(c, "evidence_horizon_s") <= WholeIn(c, "issued_at_s")
    && WholeIn(c, "history_count") >= 0 && WholeIn(c, "minimum_history") >= 0
    && AmountIn(c, "charge") <= AmountIn(c, "maximum_charge")
    && AmountIn(c, "threshold") <= AmountIn(c, "maximum_charge")
  }

  /** `QStateClaims.__post_init__`. */
  predicate ValidClaims(c: Claims) {
    FieldsFit(c) && Consistent(c)
  }

  // ---------- Payloads ----------

  function PayloadValue(v: ClaimValue): Json {
    match v
    case Words(s) => Str(s)
    case Whole(i) => Int(i)
    case Flag(b) => Bool(b)
    case Amount(d) => Str(Wire(d))
  }

  function Payload(c: Claims): map<string, Json> {
    map name | name in c :: PayloadValue(c[name])
  }

  /** `to_payload`. */
  method ToPayload(c: Claims) returns (payload: map<string, Json>)
    requires ValidClaims(c)
    ensures payload == Payload(c)
  {
    NamesAreFields();
    hide *;
    FieldsOf(c);
    payload := map[];
    for i := 0 to |FIELD_NAMES|
      invariant forall name :: name in payload <==> name in FIELD_NAMES[..i]
      invariant forall name | name in payload :: payload[name] == PayloadValue(c[name])
    {
      var name := FIELD_NAMES[i];
      assert FIELD_NAMES[..i + 1] == FIELD_NAMES[..i] + [name];
      assert name in FIELD_NAMES;
      payload := payload[name := PayloadValue(c[name])];
    }
    assert FIELD_NAMES[..|FIELD_NAMES|] == FIELD_NAMES;
    PayloadIs(c);
  }

  lemma FieldsOf(c: Claims)
    requires ValidClaims(c)
    ensures c.Keys == FIELDS.Keys
  {
  }

  lemma PayloadIs(c: Claims)
    ensures Payload(c).Keys == c.Keys && forall name | name in c :: Payload(c)[name] == PayloadValue(c[name])
  {
  }

  lemma NamesAreFields()
    ensures forall name :: name in FIELD_NAMES <==> name in FIELDS
  {
  }

  /** One payload value as a field of its kind, as far as JSON types tell. */
  function ReadValue(j: Json, kind: Kind): Option<ClaimValue> {
    if kind.DecimalKind? then
      if j.Str? && |j.s| <= MAX_DECIMAL_WIRE_LENGTH && IsWire(j.s) then Some(Amount(Parse(j.s))) else None
    else
      match j
      case Str(s) => Some(Words(s))
      case Int(i) => Some(Whole(i))
      case Bool(b) => Some(Flag(b))
      case _ => None
  }

  /** `from_payload`. */
  function FromPayload(payload: map<string, Json>): Option<Claims> {
    if payload.Keys != FIELDS.Keys || exists name :: name in payload && ReadValue(payload[name], FIELDS[name]).None? then None
    else
      var c := map name | name in payload :: ReadValue(payload[name], FIELDS[name]).value;
      if ValidClaims(c) then Some(c) else None
  }

  /** Equal claims, as the dataclass compares them: decimals by value. */
  predicate SameValue(a: ClaimValue, b: ClaimValue) {
    a == b || (a.Amount? && b.Amount? && IsDec(a.d) && IsDec(b.d) && Number(a.d) == Number(b.d))
  }

  predicate SameClaims(a: Claims, b: Claims) {
    a.Keys == b.Keys && forall name | name in a :: SameValue(a[name], b[name])
  }

  lemma ValueReadsBack(v: ClaimValue, kind: Kind)
    requires Fits(v, kind)
    ensures var r := ReadValue(PayloadValue(v), kind); r.Some? && SameValue(v, r.value) && Fits(r.value, kind)
  {
    hide Wire, Parse, Number, IsWire, D.Nonblank, IsDigest;
    if v.Amount? {
      WireReadsBack(v.d);
      ParsedSpelling(Wire(v.d));
    }
  }

  lemma ReadValuePrints(j: Json, kind: Kind)
    requires ReadValue(j, kind).Some?
    ensures PayloadValue(ReadValue(j, kind).value) == j
  {
    hide Wire, Parse, IsWire;
    if kind.DecimalKind? {
      ParsedSpelling(j.s);
    }
  }

  /** Fields of equal value agree on everything the checks look at. */
  lemma SameLooks(a: Claims, b: Claims, name: string)
    requires SameClaims(a, b)
    ensures WordsIn(a, name) == WordsIn(b, name) && WholeIn(a, name) == WholeIn(b, name) && FlagIn(a, name) == FlagIn(b, name)
    ensures AmountIn(a, name) == AmountIn(b, name)
  {
    hide C.DecimalValue, C.NormalDecimal;
    if name in a && a[name].Amount? && b[name].Amount? && IsDec(a[name].d) && IsDec(b[name].d) {
      var x, y := a[name].d, b[name].d;
      C.DecimalNormalFormIsValue(false, x.digits, x.exponent, false, y.digits, y.exponent);
    }
  }

  lemma SameAreConsistent(a: Claims, b: Claims)
    requires SameClaims(a, b) && Consistent(a)
    ensures Consistent(b)
  {
    hide SameClaims, WholeIn, AmountIn;
    SameLooks(a, b, "issued_at_s");
    SameLooks(a, b, "not_before_s");
    SameLooks(a, b, "expires_at_s");
    SameLooks(a, b, "evidence_horizon_s");
    SameLooks(a, b, "history_count");
    SameLooks(a, b, "minimum_history");
    SameLooks(a, b, "charge");
    SameLooks(a, b, "threshold");
    SameLooks(a, b, "maximum_charge");
  }

  /** Claims come back from their payload with every value equal. */
  lemma ClaimsReadBack(c: Claims)
    requires ValidClaims(c)
    ensures FromPayload(Payload(c)).Some? && SameClaims(c, FromPayload(Payload(c)).value)
  {
    hide FIELDS, Fits, ReadValue, PayloadValue, SameValue, Consistent;
    var p := Payload(c);
    forall name | name in p
      ensures ReadValue(p[name], FIELDS[name]).Some?
      ensures SameValue(c[name], ReadValue(p[name], FIELDS[name]).value) && Fits(ReadValue(p[name], FIELDS[name]).value, FIELDS[name])
    {
      ValueReadsBack(c[name], FIELDS[name]);
    }
    var back := map name | name in p :: ReadValue(p[name], FIELDS[name]).value;
    assert FieldsFit(back) && SameClaims(c, back);
    SameAreConsistent(c, back);
  }

  /** A payload is accepted exactly when it is the payload of some valid claims, and then of those it gives. */
  lemma AcceptsExactlyPayloads(p: map<string, Json>)
    ensures FromPayload(p).Some? <==> exists c :: ValidClaims(c) && p == Payload(c)
    ensures FromPayload(p).Some? ==> ValidClaims(FromPayload(p).value) && Payload(FromPayload(p).value) == p
  {
    hide ReadValue, PayloadValue, ValidClaims, FIELDS;
    if FromPayload(p).Some? {
      var c := FromPayload(p).value;
      forall name | name in p ensures PayloadValue(c[name]) == p[name] {
        ReadValuePrints(p[name], FIELDS[name]);
      }
      assert Payload(c) == p;
    }
    forall c | ValidClaims(c) && p == Payload(c) ensures FromPayload(p).Some? {
      ClaimsReadBack(c);
    }
  }

  // ---------- The state the kernel decides on ----------

  /** `to_composite_state`, before that record's own checks. */
  function ToState(c: Claims): D.CompositeState {
    D.CompositeState(
      WordsIn(c, "state_id"), WordsIn(c, "subject"), WordsIn(c, "authority_class"),
      WholeIn(c, "issued_at_s"), WholeIn(c, "not_before_s"), WholeIn(c, "expires_at_s"),
      AmountIn(c, "charge"), AmountIn(c, "threshold"),
      WholeIn(c, "history_count"), WholeIn(c, "minimum_history"),
      true, FlagIn(c, "veto_clear"), FlagIn(c, "envelope_allows"),
      AmountIn(c, "decay_rate"), AmountIn(c, "maximum_charge"))
  }

  lemma AmountsAreNonnegative(d: Dec)
    requires IsDec(d)
    ensures Amounts(d) >= 0.0
  {
    hide NatValue, C.RealPow10;
    Product(NatValue(d.digits) as real, C.RealPow10(d.exponent));
  }

  lemma Product(x: real, y: real)
    requires x >= 0.0 && y > 0.0
    ensures x * y >= 0.0
  {
  }

  lemma AmountInIsNonnegative(c: Claims, name: string)
    ensures AmountIn(c, name) >= 0.0
  {
    hide Amounts;
    if name in c && c[name].Amount? && IsDec(c[name].d) {
      AmountsAreNonnegative(c[name].d);
    }
  }

  lemma TextFields()
    ensures "state_id" in FIELDS && FIELDS["state_id"] == TextKind
    ensures "subject" in FIELDS && FIELDS["subject"] == TextKind
    ensures "authority_class" in FIELDS && FIELDS["authority_class"] == TextKind
  {
  }

  lemma TextIsNonblank(c: Claims, name: string)
    requires FieldsFit(c) && name in FIELDS && FIELDS[name] == TextKind
    ensures D.Nonblank(WordsIn(c, name))
  {
    hide FIELDS, D.Nonblank, Wire;
    assert Fits(c[name], FIELDS[name]);
  }

  lemma StateParts(c: Claims)
    ensures ToState(c).Valid() <==>
      && D.Nonblank(WordsIn(c, "state_id")) && D.Nonblank(WordsIn(c, "subject")) && D.Nonblank(WordsIn(c, "authority_class"))
      && (D.MIN_TIMESTAMP_S <= WholeIn(c, "issued_at_s") <= D.MAX_TIMESTAMP_S)
      && (D.MIN_TIMESTAMP_S <= WholeIn(c, "not_before_s") <= D.MAX_TIMESTAMP_S)
      && (D.MIN_TIMESTAMP_S <= WholeIn(c, "expires_at_s") <= D.MAX_TIMESTAMP_S)
      && WholeIn(c, "issued_at_s") <= WholeIn(c, "not_before_s") < WholeIn(c, "expires_at_s")
      && AmountIn(c, "charge") >= 0.0 && AmountIn(c, "threshold") >= 0.0
      && AmountIn(c, "decay_rate") >= 0.0 && AmountIn(c, "maximum_charge") >= 0.0
      && AmountIn(c, "charge") <= AmountIn(c, "maximum_charge")
      && WholeIn(c, "history_count") >= 0 && WholeIn(c, "minimum_history") >= 0
  {
    hide D.Nonblank, AmountIn, WholeIn, WordsIn, FlagIn;
  }

  lemma ConsistentParts(c: Claims)
    requires ValidClaims(c)
    ensures WholeIn(c, "issued_at_s") <= WholeIn(c, "not_before_s") < WholeIn(c, "expires_at_s")
    ensures AmountIn(c, "charge") <= AmountIn(c, "maximum_charge")
    ensures WholeIn(c, "history_count") >= 0 && WholeIn(c, "minimum_history") >= 0 && FieldsFit(c)
  {
    hide FieldsFit, WholeIn, AmountIn;
  }

  /** Valid claims make a valid state exactly when their window lies within signed 64-bit time: the claims
      themselves put no bound on it. */
  lemma StateIsValid(c: Claims)
    requires ValidClaims(c)
    ensures ToState(c).Valid() <==>
      D.MIN_TIMESTAMP_S <= WholeIn(c, "issued_at_s") && WholeIn(c, "expires_at_s") <= D.MAX_TIMESTAMP_S
  {
    hide *;
    ConsistentParts(c);
    StateParts(c);
    TextFields();
    TextIsNonblank(c, "state_id");
    TextIsNonblank(c, "subject");
    TextIsNonblank(c, "authority_class");
    AmountInIsNonnegative(c, "charge");
    AmountInIsNonnegative(c, "threshold");
    AmountInIsNonnegative(c, "decay_rate");
    AmountInIsNonnegative(c, "maximum_charge");
  }

  function PlainValue(name: string, kind: Kind, at: nat): ClaimValue {
    match kind
    case SchemaKind => Words(Q_STATE_SCHEMA_VERSION)
    case TextKind => Words("x")
    case IntegerKind => Whole(if name == "expires_at_s" then at + 1 else at)
    case FlagKind => Flag(true)
    case DecimalKind => Amount(Dec("0", 0))
    case DigestKind => Words("sha256:" + seq(64, k => '0'))
  }

  /** Plain claims valid for the one second from `at`. */
  function PlainClaims(at: nat): Claims {
    map name | name in FIELDS :: PlainValue(name, FIELDS[name], at)
  }

  lemma PlainValueFits(name: string, kind: Kind, at: nat)
    ensures Fits(PlainValue(name, kind, at), kind)
  {
    var digest := "sha256:" + seq(64, k => '0');
    assert digest[..7] == "sha256:" && forall k | 7 <= k < 71 :: digest[k] == '0';
    assert !D.IsSpace("x"[0]);
  }

  lemma PlainFits(at: nat)
    ensures FieldsFit(PlainClaims(at))
  {
    hide FIELDS, Fits, PlainValue;
    forall name | name in FIELDS ensures Fits(PlainValue(name, FIELDS[name], at), FIELDS[name]) {
      PlainValueFits(name, FIELDS[name], at);
    }
  }

  lemma PlainKinds()
    ensures forall name | name in {"issued_at_s", "not_before_s", "expires_at_s", "evidence_horizon_s",
                                   "history_count", "minimum_history"} :: name in FIELDS && FIELDS[name] == IntegerKind
    ensures forall name | name in {"charge", "threshold", "maximum_charge"} :: name in FIELDS && FIELDS[name] == DecimalKind
  {
  }

  lemma PlainIsConsistent(at: nat)
    ensures var c := PlainClaims(at);
      Consistent(c) && WholeIn(c, "issued_at_s") == at && WholeIn(c, "expires_at_s") == at + 1
  {
    PlainKinds();
    hide FIELDS, Amounts, PlainClaims;
    var c := PlainClaims(at);
    forall name | name in FIELDS ensures name in c && c[name] == PlainValue(name, FIELDS[name], at) {
      PlainIs(name, at);
    }
    var names := {"issued_at_s", "not_before_s", "expires_at_s", "evidence_horizon_s", "history_count", "minimum_history"};
    forall name | name in names ensures WholeIn(c, name) == if name == "expires_at_s" then at + 1 else at {
    }
    forall name | name in {"charge", "threshold", "maximum_charge"} ensures AmountIn(c, name) == Amounts(Dec("0", 0)) {
    }
  }

  lemma PlainIs(name: string, at: nat)
    requires name in FIELDS
    ensures name in PlainClaims(at) && PlainClaims(at)[name] == PlainValue(name, FIELDS[name], at)
  {
    hide FIELDS, PlainValue;
  }

  /** Valid claims with a valid state exactly when they expire within 64-bit time: from the last such second on, the
      state they make is refused. */
  lemma PlainClaimsOutsideTime(at: nat)
    ensures ValidClaims(PlainClaims(at))
    ensures ToState(PlainClaims(at)).Valid() <==> at < D.MAX_TIMESTAMP_S
  {
    hide FieldsFit, Consistent, PlainClaims, ToState, WholeIn;
    PlainFits(at);
    PlainIsConsistent(at);
    StateIsValid(PlainClaims(at));
  }

  // ---------- Claims, field by field ----------

  const TEXTS := {
    "state_id", "issuer", "subject", "audience", "authority_class", "action_class", "trust_proof_id", "envelope_result_id",
    "deployment_profile", "model_version", "parameter_version"}
  const INTEGERS := {"issued_at_s", "not_before_s", "expires_at_s", "evidence_horizon_s", "history_count", "minimum_history"}
  const FLAGS := {"veto_clear", "envelope_allows"}
  const DECIMALS := {"charge", "threshold", "decay_rate", "maximum_charge"}
  const DIGESTS := {"trust_proof_digest", "envelope_result_digest"}

  lemma KindsOf(name: string)
    ensures name in TEXTS ==> name in FIELDS && FIELDS[name] == TextKind
    ensures name in INTEGERS ==> name in FIELDS && FIELDS[name] == IntegerKind
    ensures name in FLAGS ==> name in FIELDS && FIELDS[name] == FlagKind
    ensures name in DECIMALS ==> name in FIELDS && FIELDS[name] == DecimalKind
    ensures name in DIGESTS ==> name in FIELDS && FIELDS[name] == DigestKind
    ensures "schema_version" in FIELDS && FIELDS["schema_version"] == SchemaKind
    ensures name in FIELDS ==> name == "schema_version" || name in TEXTS || name in INTEGERS || name in FLAGS || name in DECIMALS || name in DIGESTS
  {
  }

  /** The fields and their kinds, kind by kind. */
  ghost predicate FieldsMean(c: Claims) {
    && c.Keys == {"schema_version"} + TEXTS + INTEGERS + FLAGS + DECIMALS + DIGESTS
    && c["schema_version"] == Words("kil.q-state.v0")
    && (forall n | n in TEXTS :: c[n].Words? && D.Nonblank(c[n].s)) && (forall n | n in INTEGERS :: c[n].Whole?)
    && (forall n | n in FLAGS :: c[n].Flag?)
    && (forall n | n in DECIMALS :: c[n].Amount? && IsDec(c[n].d) && |Wire(c[n].d)| <= 64)
    && (forall n | n in DIGESTS :: c[n].Words? && IsDigest(c[n].s))
  }

  lemma KeysAre()
    ensures FIELDS.Keys == {"schema_version"} + TEXTS + INTEGERS + FLAGS + DECIMALS + DIGESTS
  {
    hide *;
    forall name ensures name in FIELDS <==> name in {"schema_version"} + TEXTS + INTEGERS + FLAGS + DECIMALS + DIGESTS {
      KindsOf(name);
    }
  }

  lemma {:induction false} FitFields(c: Claims)
    requires FieldsFit(c)
    ensures FieldsMean(c)
  {
    KeysAre();
    KindsOf("schema_version");
    hide FIELDS, TEXTS, INTEGERS, FLAGS, DECIMALS, DIGESTS, Wire, IsDigest, D.Nonblank, IsDec;
    assert Fits(c["schema_version"], SchemaKind);
    forall n | n in TEXTS ensures Fits(c[n], TextKind) { KindsOf(n); }
    forall n | n in INTEGERS ensures Fits(c[n], IntegerKind) { KindsOf(n); }
    forall n | n in FLAGS ensures Fits(c[n], FlagKind) { KindsOf(n); }
    forall n | n in DECIMALS ensures Fits(c[n], DecimalKind) { KindsOf(n); }
    forall n | n in DIGESTS ensures Fits(c[n], DigestKind) { KindsOf(n); }
  }

  lemma {:induction false} MeantFields(c: Claims)
    requires FieldsMean(c)
    ensures FieldsFit(c)
  {
    KeysAre();
    hide FIELDS, TEXTS, INTEGERS, FLAGS, DECIMALS, DIGESTS, Wire, IsDigest, D.Nonblank, IsDec;
    forall n | n in c ensures Fits(c[n], FIELDS[n]) {
      KindsOf(n);
    }
  }

  /** Claims are valid exactly when they have the 26 fields, each of its own kind, and satisfy the window, horizon, history
      and charge conditions. */
  lemma {:induction false} ClaimsMean(c: Claims)
    ensures ValidClaims(c) <==>
      && FieldsMean(c)
      && WholeIn(c, "issued_at_s") <= WholeIn(c, "not_before_s") < WholeIn(c, "expires_at_s") <= WholeIn(c, "issued_at_s") + 10
      && WholeIn(c, "evidence_horizon_s") <= WholeIn(c, "issued_at_s")
      && WholeIn(c, "history_count") >= 0 && WholeIn(c, "minimum_history") >= 0
      && AmountIn(c, "charge") <= AmountIn(c, "maximum_charge") && AmountIn(c, "threshold") <= AmountIn(c, "maximum_charge")
  {
    hide FieldsFit, FieldsMean, WholeIn, AmountIn;
    if FieldsFit(c) {
      FitFields(c);
    }
    if FieldsMean(c) {
      MeantFields(c);
    }
  }
}
