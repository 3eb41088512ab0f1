/** Signed states as compact tokens (section 7.1 of RFC 7515): issue and verify. */
module QState {
  import opened Basics
  import opened Utf8
  import opened Json
  import opened Ordering
  import opened Base64Url
  import opened QClaims
  import D = Decision
  import W = DecisionLaws
  import F = CanonicalForm

  /** Cryptography and the JSON reader, as far as tokens need them. */
  datatype Scheme = Scheme(
    publicOf: seq<Byte> -> seq<Byte>,
    keyId: seq<Byte> -> string,
    sign: (seq<Byte>, seq<Byte>) -> seq<Byte>,
    verify: (seq<Byte>, seq<Byte>, seq<Byte>) -> bool,
    readObject: seq<Byte> -> Option<map<string, Json>>)

  /** A dictionary built from members in order: a repeated key keeps its last value. */
  function MapOf(ms: seq<Member>): map<string, Json> {
    if ms == [] then map[] else
    var last := ms[|ms| - 1];
    MapOf(ms[..|ms| - 1])[last.key := last.value]
  }

  function ObjectBytes(ms: seq<Member>): seq<Byte> {
    Encode(Text(Obj(ms)))
  }

  /** A signature of one's own verifies, and compact JSON reads back. */
  ghost predicate Ideal(s: Scheme) {
    && (forall key, m :: s.sign(key, m) != [] && s.verify(s.publicOf(key), s.sign(key, m), m))
    && (forall key :: s.keyId(key) != "")
    && (forall ms :: s.readObject(ObjectBytes(ms)) == Some(MapOf(ms)))
  }

  /** The reader this project defines is such a reader. */
  function ReadObject(bytes: seq<Byte>): Option<map<string, Json>> {
    var text := Decode(bytes);
    if text.None? then None else
    var j := Loads(text.value);
    if j.Done? && j.value.Obj? then Some(MapOf(j.value.members)) else None
  }

  lemma ReadObjectReadsBack(ms: seq<Member>)
    ensures ReadObject(ObjectBytes(ms)) == Some(MapOf(ms))
  {
    DecodeOfEncoded(Text(Obj(ms)));
    LoadsOfText(Obj(ms));
  }

  // ---------- Issuing ----------

  function PayloadMembers(payload: map<string, Json>, names: seq<string>): seq<Member>
    requires forall name | name in names :: name in payload
  {
    if names == [] then [] else
    [Member(names[0], payload[names[0]])] + PayloadMembers(payload, names[1..])
  }

  function HeaderMembers(kid: string): seq<Member> {
    [Member("alg", Str("EdDSA")), Member("kid", Str(kid)), Member("typ", Str("KIL-Q+JWT"))]
  }

  /** The payload members as they are printed. */
  function SortedPayload(c: Claims): seq<Member>
    requires ValidClaims(c)
  {
    NamesAreFields();
    SortMembers(PayloadMembers(Payload(c), FIELD_NAMES))
  }

  /** `_json_bytes` of the payload: sorted keys. */
  function PayloadBytes(c: Claims): seq<Byte>
    requires ValidClaims(c)
  {
    ObjectBytes(SortedPayload(c))
  }

  function SigningInput(headerPart: string, payloadPart: string): seq<Byte> {
    Encode(headerPart + "." + payloadPart)
  }

  /** `issue_q_state`. */
  function Issue(c: Claims, privateKey: seq<Byte>, s: Scheme): string
    requires ValidClaims(c)
  {
    var headerPart := B64Encode(ObjectBytes(HeaderMembers(s.keyId(s.publicOf(privateKey)))));
    var payloadPart := B64Encode(PayloadBytes(c));
    Token(headerPart, payloadPart, B64Encode(s.sign(privateKey, SigningInput(headerPart, payloadPart))))
  }

  function Token(a: string, b: string, c: string): string {
    a + "." + b + "." + c
  }

  // ---------- Verifying ----------

  function SplitDots(s: string): (r: seq<string>)
    ensures |r| > 0
  {
    if s == "" then [""] else
    var r := SplitDots(s[1..]);
    if s[0] == '.' then [""] + r else [[s[0]] + r[0]] + r[1..]
  }

  datatype Reason =
    | MalformedToken | MalformedJws | MalformedBase64 | MalformedHeader | InvalidHeader | InvalidKeyId | KeyUnavailable
    | BadSignature | MalformedPayload | InvalidClaims | Revoked | NotYetValid | Expired
    | SubjectMismatch | AudienceMismatch | AuthorityMismatch | ActionMismatch

  /** `Misused` is a plain error: an argument of the wrong kind, or a state the kernel's own record refuses. */
  datatype Verdict =
    | Verified(claims: Claims, state: D.CompositeState, keyId: string)
    | Refused(reason: Reason)
    | Misused

  /** What the caller expects of the state. */
  datatype Expectation = Expectation(
    nowS: int, subject: string, audience: string, authorityClass: string, actionClass: string, revoked: set<string>)

  predicate Proper(e: Expectation) {
    && D.Nonblank(e.subject) && D.Nonblank(e.audience) && D.Nonblank(e.authorityClass) && D.Nonblank(e.actionClass)
    && "" !in e.revoked
  }

  datatype Opened = Opened(claims: Claims, kid: string) | Closed(reason: Reason)

  function KeyOf(header: map<string, Json>): Option<string> {
    if "kid" in header && header["kid"].Str? && header["kid"].s != "" then Some(header["kid"].s) else None
  }

  /** Everything up to the claims: framing, header, key, signature, payload. */
  function Open(token: string, keys: map<string, seq<Byte>>, s: Scheme): Opened {
    if token == "" then Closed(MalformedToken) else
    var parts := SplitDots(token);
    if |parts| != 3 || "" in parts then Closed(MalformedJws) else
    var header, payload, signature := B64Decode(parts[0]), B64Decode(parts[1]), B64Decode(parts[2]);
    if header.None? || payload.None? || signature.None? then Closed(MalformedBase64) else
    var fields := s.readObject(header.value);
    if fields.None? then Closed(MalformedHeader)
    else if fields.value.Keys != {"alg", "kid", "typ"} || fields.value["alg"] != Str("EdDSA")
         || fields.value["typ"] != Str("KIL-Q+JWT") then Closed(InvalidHeader)
    else OpenSigned(parts[0], parts[1], payload.value, signature.value, KeyOf(fields.value), keys, s)
  }

  function OpenSigned(headerPart: string, payloadPart: string, payload: seq<Byte>, signature: seq<Byte>,
                      kid: Option<string>, keys: map<string, seq<Byte>>, s: Scheme): Opened {
    if kid.None? then Closed(InvalidKeyId)
    else if kid.value !in keys then Closed(KeyUnavailable)
    else if !s.verify(keys[kid.value], signature, SigningInput(headerPart, payloadPart)) then Closed(BadSignature)
    else
      var body := s.readObject(payload);
      if body.None? then Closed(MalformedPayload) else
      var claims := FromPayload(body.value);
      if claims.None? then Closed(InvalidClaims) else Opened(claims.value, kid.value)
  }

  /** Why claims do not fit an expectation, if they do not. */
  function Mismatch(c: Claims, e: Expectation): Option<Reason> {
    if WordsIn(c, "state_id") in e.revoked then Some(Revoked)
    else if e.nowS < WholeIn(c, "not_before_s") then Some(NotYetValid)
    else if e.nowS >= WholeIn(c, "expires_at_s") then Some(Expired)
    else if WordsIn(c, "subject") != e.subject then Some(SubjectMismatch)
    else if WordsIn(c, "audience") != e.audience then Some(AudienceMismatch)
    else if WordsIn(c, "authority_class") != e.authorityClass then Some(AuthorityMismatch)
    else if WordsIn(c, "action_class") != e.actionClass then Some(ActionMismatch)
    else None
  }

  /** `verify_q_state`. */
  function Verify(token: string, keys: map<string, seq<Byte>>, e: Expectation, s: Scheme): Verdict {
    if token == "" then Refused(MalformedToken)
    else if !Proper(e) then Misused
    else
      var found := Open(token, keys, s);
      if found.Closed? then Refused(found.reason) else
      var mismatch := Mismatch(found.claims, e);
      if mismatch.Some? then Refused(mismatch.value)
      else if !ToState(found.claims).Valid() then Misused
      else Verified(found.claims, ToState(found.claims), found.kid)
  }

  // ---------- Round trip ----------

  lemma {:induction false} MapOfConsistent(ms: seq<Member>, p: map<string, Json>)
    requires forall m | m in ms :: m.key in p && p[m.key] == m.value
    ensures forall k :: k in MapOf(ms) <==> exists m :: m in ms && m.key == k
    ensures forall k | k in MapOf(ms) :: k in p && MapOf(ms)[k] == p[k]
  {
    if ms != [] {
      var front, last := ms[..|ms| - 1], ms[|ms| - 1];
      assert ms == front + [last];
      MapOfConsistent(front, p);
    }
  }

  lemma {:induction false} PayloadMembersAre(payload: map<string, Json>, names: seq<string>)
    requires forall name | name in names :: name in payload
    ensures forall m | m in PayloadMembers(payload, names) :: m.key in names && payload[m.key] == m.value
    ensures forall name | name in names :: Member(name, payload[name]) in PayloadMembers(payload, names)
  {
    if names != [] {
      PayloadMembersAre(payload, names[1..]);
    }
  }

  lemma SortedMembersAre(ms: seq<Member>, m: Member)
    ensures m in SortMembers(ms) <==> m in ms
  {
    hide SortMembers;
    assert m in SortMembers(ms) <==> m in multiset(SortMembers(ms));
    assert m in ms <==> m in multiset(ms);
  }

  lemma MembersSurvive(p: map<string, Json>, names: seq<string>)
    requires forall name :: name in names <==> name in p
    ensures MapOf(SortMembers(PayloadMembers(p, names))) == p
  {
    hide *;
    var ms := PayloadMembers(p, names);
    PayloadMembersAre(p, names);
    var sorted := SortMembers(ms);
    forall m | m in sorted ensures m.key in p && p[m.key] == m.value {
      SortedMembersAre(ms, m);
    }
    MapOfConsistent(sorted, p);
    forall k | k in p ensures k in MapOf(sorted) {
      SortedMembersAre(ms, Member(k, p[k]));
    }
  }

  /** Sorting and printing a payload loses nothing of it. */
  lemma PayloadSurvives(c: Claims)
    requires ValidClaims(c)
    ensures forall name | name in FIELD_NAMES :: name in Payload(c)
    ensures MapOf(SortMembers(PayloadMembers(Payload(c), FIELD_NAMES))) == Payload(c)
  {
    hide *;
    NamesAreFields();
    FieldsOf(c);
    PayloadIs(c);
    MembersSurvive(Payload(c), FIELD_NAMES);
  }

  lemma {:induction false} SplitPlain(a: string)
    requires '.' !in a
    ensures SplitDots(a) == [a]
  {
    if a != "" {
      SplitPlain(a[1..]);
      assert a == [a[0]] + a[1..];
    }
  }

  lemma {:induction false} SplitFirst(a: string, rest: string)
    requires '.' !in a
    ensures SplitDots(a + "." + rest) == [a] + SplitDots(rest)
  {
    var s := a + "." + rest;
    if a == "" {
      assert s[1..] == rest;
    } else {
      SplitFirst(a[1..], rest);
      assert s[1..] == a[1..] + "." + rest;
      assert a == [a[0]] + a[1..];
    }
  }

  lemma SplitToken(a: string, b: string, c: string)
    requires '.' !in a && '.' !in b && '.' !in c
    ensures SplitDots(Token(a, b, c)) == [a, b, c] && Token(a, b, c) != ""
  {
    SplitFirst(a, b + "." + c);
    assert Token(a, b, c) == a + "." + (b + "." + c);
    SplitFirst(b, c);
    SplitPlain(c);
  }

  lemma ObjectBytesNonempty(ms: seq<Member>)
    ensures ObjectBytes(ms) != []
  {
  }

  lemma EncodedPart(b: seq<Byte>)
    requires b != []
    ensures B64Decode(B64Encode(b)) == Some(b) && B64Encode(b) != "" && '.' !in B64Encode(b)
  {
    NoDots(b);
    DecodesExactlyEncoded(B64Encode(b), b);
  }

  lemma HeaderIs(kid: string)
    ensures var h := MapOf(HeaderMembers(kid));
      h.Keys == {"alg", "kid", "typ"} && h["alg"] == Str("EdDSA") && h["typ"] == Str("KIL-Q+JWT") && h["kid"] == Str(kid)
  {
    var ms := HeaderMembers(kid);
    assert ms[..2] == [ms[0], ms[1]] && ms[..2][..1] == [ms[0]] && ms[..2][..1][..0] == [];
    assert MapOf(ms[..2][..1]) == map["alg" := Str("EdDSA")];
    assert MapOf(ms[..2]) == map["alg" := Str("EdDSA"), "kid" := Str(kid)];
    assert MapOf(ms) == map["alg" := Str("EdDSA"), "kid" := Str(kid), "typ" := Str("KIL-Q+JWT")];
  }

  lemma OpenParts(token: string, a: string, b: string, c: string, header: seq<Byte>, payload: seq<Byte>, signature: seq<Byte>,
                  fields: map<string, Json>, kid: string, keys: map<string, seq<Byte>>, s: Scheme)
    requires token != "" && SplitDots(token) == [a, b, c] && a != "" && b != "" && c != ""
    requires B64Decode(a) == Some(header) && B64Decode(b) == Some(payload) && B64Decode(c) == Some(signature)
    requires s.readObject(header) == Some(fields) && fields.Keys == {"alg", "kid", "typ"}
    requires fields["alg"] == Str("EdDSA") && fields["typ"] == Str("KIL-Q+JWT") && fields["kid"] == Str(kid) && kid != ""
    ensures Open(token, keys, s) == OpenSigned(a, b, payload, signature, Some(kid), keys, s)
  {
    hide SplitDots, B64Decode, OpenSigned;
    assert "" !in [a, b, c];
    assert KeyOf(fields) == Some(kid);
  }

  lemma OpenSignedParts(a: string, b: string, payload: seq<Byte>, signature: seq<Byte>, kid: string, body: map<string, Json>,
                        keys: map<string, seq<Byte>>, s: Scheme)
    requires kid in keys && s.verify(keys[kid], signature, SigningInput(a, b))
    requires s.readObject(payload) == Some(body) && FromPayload(body).Some?
    ensures OpenSigned(a, b, payload, signature, Some(kid), keys, s) == Opened(FromPayload(body).value, kid)
  {
    hide FromPayload, SigningInput;
  }

  lemma IdealKey(s: Scheme, key: seq<Byte>, m: seq<Byte>)
    requires Ideal(s)
    ensures s.sign(key, m) != [] && s.verify(s.publicOf(key), s.sign(key, m), m) && s.keyId(s.publicOf(key)) != ""
  {
    hide ObjectBytes, MapOf;
  }

  lemma IdealReader(s: Scheme, ms: seq<Member>)
    requires Ideal(s)
    ensures s.readObject(ObjectBytes(ms)) == Some(MapOf(ms))
  {
    hide ObjectBytes, MapOf;
  }

  lemma IssueIs(c: Claims, privateKey: seq<Byte>, s: Scheme)
    requires ValidClaims(c)
    ensures
      var headerPart := B64Encode(ObjectBytes(HeaderMembers(s.keyId(s.publicOf(privateKey)))));
      var payloadPart := B64Encode(ObjectBytes(SortedPayload(c)));
      Issue(c, privateKey, s) == Token(headerPart, payloadPart, B64Encode(s.sign(privateKey, SigningInput(headerPart, payloadPart))))
  {
    hide ObjectBytes, B64Encode, SigningInput, Token, HeaderMembers, SortMembers, PayloadMembers, ValidClaims, FIELD_NAMES, Payload;
  }

  lemma SortedPayloadSurvives(c: Claims)
    requires ValidClaims(c)
    ensures MapOf(SortedPayload(c)) == Payload(c)
  {
    PayloadSurvives(c);
  }

  /** A token opens to the claims it was issued for, under the key it was signed with. */
  lemma OpenOfIssued(c: Claims, privateKey: seq<Byte>, keys: map<string, seq<Byte>>, s: Scheme)
    requires ValidClaims(c) && Ideal(s)
    requires var pub := s.publicOf(privateKey); s.keyId(pub) in keys && keys[s.keyId(pub)] == pub
    ensures FromPayload(Payload(c)).Some? && SameClaims(c, FromPayload(Payload(c)).value)
    ensures Open(Issue(c, privateKey, s), keys, s) == Opened(FromPayload(Payload(c)).value, s.keyId(s.publicOf(privateKey)))
  {
    hide *;
    ClaimsReadBack(c);
    SortedPayloadSurvives(c);
    var kid := s.keyId(s.publicOf(privateKey));
    HeaderIs(kid);
    var header, payload := HeaderMembers(kid), SortedPayload(c);
    var headerPart, payloadPart := B64Encode(ObjectBytes(header)), B64Encode(ObjectBytes(payload));
    var signature := s.sign(privateKey, SigningInput(headerPart, payloadPart));
    IssueIs(c, privateKey, s);
    IdealKey(s, privateKey, SigningInput(headerPart, payloadPart));
    IdealReader(s, header);
    IdealReader(s, payload);
    ObjectBytesNonempty(header);
    ObjectBytesNonempty(payload);
    EncodedPart(ObjectBytes(header));
    EncodedPart(ObjectBytes(payload));
    EncodedPart(signature);
    SplitToken(headerPart, payloadPart, B64Encode(signature));
    OpenParts(Issue(c, privateKey, s), headerPart, payloadPart, B64Encode(signature), ObjectBytes(header), ObjectBytes(payload),
              signature, MapOf(header), kid, keys, s);
    OpenSignedParts(headerPart, payloadPart, ObjectBytes(payload), signature, kid, Payload(c), keys, s);
  }

  /** Verifying an issued token, with its key registered, succeeds exactly for an expectation its claims fit within
      64-bit time; it then returns the claims, and otherwise the first mismatch. */
  lemma VerifyOfIssued(c: Claims, privateKey: seq<Byte>, keys: map<string, seq<Byte>>, e: Expectation, s: Scheme)
    requires ValidClaims(c) && Ideal(s) && Proper(e)
    requires var pub := s.publicOf(privateKey); s.keyId(pub) in keys && keys[s.keyId(pub)] == pub
    ensures var v := Verify(Issue(c, privateKey, s), keys, e, s);
      var inTime := D.MIN_TIMESTAMP_S <= WholeIn(c, "issued_at_s") && WholeIn(c, "expires_at_s") <= D.MAX_TIMESTAMP_S;
      && (v.Verified? <==> Mismatch(c, e).None? && inTime)
      && (v.Verified? ==> SameClaims(c, v.claims) && v.state == ToState(c) && v.keyId == s.keyId(s.publicOf(privateKey)))
      && (Mismatch(c, e).Some? ==> v == Refused(Mismatch(c, e).value))
      && (v == Misused <==> Mismatch(c, e).None? && !inTime)
  {
    hide *;
    OpenOfIssued(c, privateKey, keys, s);
    var back := FromPayload(Payload(c)).value;
    var token := Issue(c, privateKey, s);
    TokenNonempty(c, privateKey, s);
    AcceptsExactlyPayloads(Payload(c));
    SameMismatch(c, back, e);
    SameState(c, back);
    StateIsValid(c);
    VerifyOpened(token, keys, e, s);
  }

  lemma TokenNonempty(c: Claims, privateKey: seq<Byte>, s: Scheme)
    requires ValidClaims(c)
    ensures Issue(c, privateKey, s) != ""
  {
  }

  lemma VerifyOpened(token: string, keys: map<string, seq<Byte>>, e: Expectation, s: Scheme)
    requires token != "" && Proper(e) && Open(token, keys, s).Opened?
    ensures var o := Open(token, keys, s);
      Verify(token, keys, e, s) ==
        if Mismatch(o.claims, e).Some? then Refused(Mismatch(o.claims, e).value)
        else if !ToState(o.claims).Valid() then Misused else Verified(o.claims, ToState(o.claims), o.kid)
  {
    hide Open, Mismatch, ToState, Proper;
  }

  lemma SameMismatch(a: Claims, b: Claims, e: Expectation)
    requires SameClaims(a, b)
    ensures Mismatch(a, e) == Mismatch(b, e)
  {
    hide WordsIn, WholeIn, SameClaims;
    SameLooks(a, b, "state_id");
    SameLooks(a, b, "not_before_s");
    SameLooks(a, b, "expires_at_s");
    SameLooks(a, b, "subject");
    SameLooks(a, b, "audience");
    SameLooks(a, b, "authority_class");
    SameLooks(a, b, "action_class");
  }

  lemma SameState(a: Claims, b: Claims)
    requires SameClaims(a, b)
    ensures ToState(a) == ToState(b)
  {
    hide WordsIn, WholeIn, FlagIn, AmountIn, SameClaims;
    SameLooks(a, b, "state_id");
    SameLooks(a, b, "subject");
    SameLooks(a, b, "authority_class");
    SameLooks(a, b, "issued_at_s");
    SameLooks(a, b, "not_before_s");
    SameLooks(a, b, "expires_at_s");
    SameLooks(a, b, "charge");
    SameLooks(a, b, "threshold");
    SameLooks(a, b, "history_count");
    SameLooks(a, b, "minimum_history");
    SameLooks(a, b, "veto_clear");
    SameLooks(a, b, "envelope_allows");
    SameLooks(a, b, "decay_rate");
    SameLooks(a, b, "maximum_charge");
  }

  /** Whatever the token, a verified state is bound to the caller's expectation, inside its own window, signed
      under a registered key, and acceptable to the kernel. */
  lemma VerifiedIsBound(token: string, keys: map<string, seq<Byte>>, e: Expectation, s: Scheme)
    requires Verify(token, keys, e, s).Verified?
    ensures var v := Verify(token, keys, e, s);
      && ValidClaims(v.claims) && v.state == ToState(v.claims) && v.state.Valid()
      && WordsIn(v.claims, "state_id") !in e.revoked
      && v.state.notBeforeS <= e.nowS < v.state.expiresAtS <= v.state.issuedAtS + MAX_VALIDITY_SECONDS
      && v.state.identity == e.subject && v.state.authorityClass == e.authorityClass
      && WordsIn(v.claims, "audience") == e.audience && WordsIn(v.claims, "action_class") == e.actionClass
      && v.keyId in keys
    ensures exists a, b, c, signature ::
      && SplitDots(token) == [a, b, c] && B64Decode(c) == Some(signature)
      && s.verify(keys[Verify(token, keys, e, s).keyId], signature, SigningInput(a, b))
  {
    var o := Open(token, keys, s);
    OpenedIs(token, keys, s);
    hide Open, OpenSigned, ValidClaims, WordsIn, AmountIn, FlagIn, SigningInput, SplitDots, B64Decode, D.Nonblank;
    VerifyOpened(token, keys, e, s);
    WindowOf(o.claims);
  }

  lemma WindowOf(c: Claims)
    requires ValidClaims(c)
    ensures WholeIn(c, "expires_at_s") - WholeIn(c, "issued_at_s") <= MAX_VALIDITY_SECONDS
  {
  }

  lemma OpenedIs(token: string, keys: map<string, seq<Byte>>, s: Scheme)
    requires Open(token, keys, s).Opened?
    ensures var o := Open(token, keys, s); ValidClaims(o.claims) && o.kid in keys
    ensures exists a, b, c, signature ::
      && SplitDots(token) == [a, b, c] && B64Decode(c) == Some(signature)
      && s.verify(keys[Open(token, keys, s).kid], signature, SigningInput(a, b))
  {
    hide ValidClaims, SplitDots, B64Decode, SigningInput, FromPayload;
    var parts := SplitDots(token);
    var fields := s.readObject(B64Decode(parts[0]).value);
    var body := s.readObject(B64Decode(parts[1]).value);
    AcceptsExactlyPayloads(body.value);
    assert parts == [parts[0], parts[1], parts[2]];
  }

  // ---------- What a verified state hands to the kernel ----------

  /** Every field of a verified state is the claim of that name, and it counts as authentic. */
  lemma VerifiedStateMeans(token: string, keys: map<string, seq<Byte>>, e: Expectation, s: Scheme)
    requires Verify(token, keys, e, s).Verified?
    ensures var v := Verify(token, keys, e, s); var c, q := v.claims, v.state;
      && q.stateId == WordsIn(c, "state_id") && q.identity == WordsIn(c, "subject")
      && q.authorityClass == WordsIn(c, "authority_class")
      && q.issuedAtS == WholeIn(c, "issued_at_s") && q.notBeforeS == WholeIn(c, "not_before_s")
      && q.expiresAtS == WholeIn(c, "expires_at_s")
      && q.charge == AmountIn(c, "charge") && q.threshold == AmountIn(c, "threshold")
      && q.decayRate == AmountIn(c, "decay_rate") && q.maximumCharge == AmountIn(c, "maximum_charge")
      && q.historyCount == WholeIn(c, "history_count") && q.minimumHistory == WholeIn(c, "minimum_history")
      && q.vetoClear == FlagIn(c, "veto_clear") && q.envelopeAllows == FlagIn(c, "envelope_allows")
      && q.authentic
  {
    hide Open, Mismatch, Proper, WordsIn, WholeIn, AmountIn, FlagIn;
  }

  /** Deciding on a verified state weighs the claims themselves: their history, their flags, and never authenticity. */
  lemma VerifiedStateDecides(token: string, keys: map<string, seq<Byte>>, e: Expectation, s: Scheme, a: D.Arithmetic, i: D.Inputs)
    requires Verify(token, keys, e, s).Verified? && i.Valid() && i.state == Verify(token, keys, e, s).state
    ensures var c, reasons := Verify(token, keys, e, s).claims, D.Record(a, i).reasons;
      && (D.InsufficientHistory in reasons <==> WholeIn(c, "history_count") < WholeIn(c, "minimum_history"))
      && (D.Veto in reasons <==> !FlagIn(c, "veto_clear"))
      && (D.OutsideEnvelope in reasons <==> !FlagIn(c, "envelope_allows"))
      && (D.InsufficientCharge in reasons <==> D.Record(a, i).effectiveCharge < AmountIn(c, "threshold"))
      && (D.IdentityMismatch in reasons <==> i.request.identity != e.subject)
      && (D.ClassMismatch in reasons <==> i.request.authorityClass != e.authorityClass)
      && (D.StateExpired in reasons <==> i.request.timestampS >= WholeIn(c, "expires_at_s"))
      && D.StateUnauthentic !in reasons
  {
    hide *;
    VerifiedStateMeans(token, keys, e, s);
    VerifiedIsBound(token, keys, e, s);
    W.ReasonsMean(a, i);
  }

  // ---------- The token in full ----------

  lemma HeaderText(kid: string)
    ensures Text(Obj(HeaderMembers(kid))) ==
      "{" + (Quote("alg") + ":" + Quote("EdDSA")) + "," + (Quote("kid") + ":" + Quote(kid)) + ","
      + (Quote("typ") + ":" + Quote("KIL-Q+JWT")) + "}"
  {
    var ms := HeaderMembers(kid);
    hide Quote;
    assert MemberText(ms[0]) == Quote("alg") + ":" + Quote("EdDSA") && MemberText(ms[1]) == Quote("kid") + ":" + Quote(kid);
    assert MemberText(ms[2]) == Quote("typ") + ":" + Quote("KIL-Q+JWT");
    hide MemberText;
    assert ms[1..][1..] == [ms[2]] && ms[1..] == [ms[1], ms[2]];
    assert MembersText([ms[2]]) == MemberText(ms[2]);
    assert MembersText(ms[1..]) == MemberText(ms[1]) + "," + MemberText(ms[2]);
    assert MembersText(ms) == MemberText(ms[0]) + "," + (MemberText(ms[1]) + "," + MemberText(ms[2]));
  }

  /** An issued token is the base64url text of its literal header, of its payload with the field names in code-point
      order, and of the signature over the two with the dot between them. */
  lemma IssuedTokenIs(c: Claims, privateKey: seq<Byte>, s: Scheme)
    requires ValidClaims(c)
    ensures
      var kid := s.keyId(s.publicOf(privateKey));
      var header := "{" + (Quote("alg") + ":" + Quote("EdDSA")) + "," + (Quote("kid") + ":" + Quote(kid)) + ","
                    + (Quote("typ") + ":" + Quote("KIL-Q+JWT")) + "}";
      var h, p := B64Encode(Encode(header)), B64Encode(Encode(Text(Obj(SortedPayload(c)))));
      Issue(c, privateKey, s) == h + "." + p + "." + B64Encode(s.sign(privateKey, Encode(h + "." + p)))
    ensures forall i, k | 0 <= i < k < |SortedPayload(c)| :: ComesFirst(SortedPayload(c)[i].key, SortedPayload(c)[k].key)
    ensures forall name | name in FIELDS :: Member(name, PayloadValue(c[name])) in SortedPayload(c)
  {
    HeaderText(s.keyId(s.publicOf(privateKey)));
    hide *;
    IssueIs(c, privateKey, s);
    TokenIs(c, privateKey, s);
    PayloadInOrder(c);
  }

  lemma TokenIs(c: Claims, privateKey: seq<Byte>, s: Scheme)
    requires ValidClaims(c)
    ensures forall ms :: ObjectBytes(ms) == Encode(Text(Obj(ms)))
    ensures forall a, b :: SigningInput(a, b) == Encode(a + "." + b)
    ensures forall a, b, d :: Token(a, b, d) == a + "." + b + "." + d
  {
    hide Encode, Text;
  }

  lemma PayloadInOrder(c: Claims)
    requires ValidClaims(c)
    ensures forall i, k | 0 <= i < k < |SortedPayload(c)| :: ComesFirst(SortedPayload(c)[i].key, SortedPayload(c)[k].key)
    ensures forall name | name in FIELDS :: name in c && Member(name, PayloadValue(c[name])) in SortedPayload(c)
  {
    NamesAreFields();
    FieldNamesDiffer();
    hide *;
    FieldsOf(c);
    PayloadIs(c);
    var ms := PayloadMembers(Payload(c), FIELD_NAMES);
    PayloadMembersAre(Payload(c), FIELD_NAMES);
    PayloadNames(Payload(c), FIELD_NAMES);
    SortedPayloadIs(c);
    SortIsSorted(ms);
    F.AscendingIsSorted(SortMembers(ms));
    forall name | name in FIELDS ensures name in c && Member(name, PayloadValue(c[name])) in SortedPayload(c) {
      SortedMembersAre(ms, Member(name, PayloadValue(c[name])));
    }
  }

  lemma SortedPayloadIs(c: Claims)
    requires ValidClaims(c)
    ensures forall name | name in FIELD_NAMES :: name in Payload(c)
    ensures SortedPayload(c) == SortMembers(PayloadMembers(Payload(c), FIELD_NAMES))
  {
    PayloadSurvives(c);
    hide FIELD_NAMES, FIELDS, SortMembers, PayloadMembers, Payload, ValidClaims, MapOf;
  }

  lemma FieldNamesDiffer()
    ensures forall i, k | 0 <= i < k < |FIELD_NAMES| :: FIELD_NAMES[i] != FIELD_NAMES[k]
  {
  }

  lemma {:induction false} PayloadNames(p: map<string, Json>, names: seq<string>)
    requires (forall name | name in names :: name in p) && forall i, k | 0 <= i < k < |names| :: names[i] != names[k]
    ensures DistinctNames(PayloadMembers(p, names)) && |PayloadMembers(p, names)| == |names|
    ensures forall i | 0 <= i < |names| :: PayloadMembers(p, names)[i].key == names[i]
  {
    if names != [] {
      PayloadNames(p, names[1..]);
    }
  }
}
