/** One line of the target ledger: the canonical JSON text of a marker. */
module LedgerRecord {
  import opened Basics
  import opened Digits
  import opened Json
  import opened Utf8
  import opened DriverProtocol
  import C = Canonical

  const RECORD_SCHEMA_VERSION := "kil.v3b-target-record.v1"
  const MAX_RECORD_BYTES := 8 * 1024
  const LF: Byte := 10
  const CR: Byte := 13

  /** More digits than any integer has that the canonical encoder takes. */
  const MAX_CLOCK_DIGITS := 1366

  datatype TargetRecord = TargetRecord(
    runId: string, requestId: string, track: Track, path: string, digest: string, receivedNs: int, responseNs: int)

  predicate IsIdentifierChar(c: char) {
    'A' <= c <= 'Z' || 'a' <= c <= 'z' || '0' <= c <= '9' || c in {'.', '_', ':', '-'}
  }

  predicate IsIdentifier(s: string) {
    1 <= |s| <= 128 && forall k | 0 <= k < |s| :: IsIdentifierChar(s[k])
  }

  predicate IsTargetPath(path: string) {
    path == "/benign/read" || path == "/consequential/admin"
  }

  /** `TargetRecord.__post_init__`. */
  predicate Constructs(r: TargetRecord) {
    && IsIdentifier(r.runId) && IsIdentifier(r.requestId) && IsTargetPath(r.path) && IsSha256(r.digest)
    && 0 <= r.receivedNs <= r.responseNs
  }

  /** A record within the canonical encoder's limit on integers, so one that has a line. */
  predicate ValidRecord(r: TargetRecord) {
    Constructs(r) && r.responseNs < Pow2(C.MAX_INTEGER_BITS)
  }

  const KEYS := [
    "decision_digest", "path", "received_monotonic_ns", "request_id", "response_monotonic_ns", "run_id",
    "schema_version", "track"]

  function Values(r: TargetRecord): (vs: seq<Json>)
    ensures |vs| == 8
  {
    [Str(r.digest), Str(r.path), Int(r.receivedNs), Str(r.requestId), Int(r.responseNs), Str(r.runId),
     Str(RECORD_SCHEMA_VERSION), Str(TrackName(r.track))]
  }

  function MarkerJson(r: TargetRecord): Json {
    Obj(Zip(KEYS, Values(r)))
  }

  /** The bytes of one marker, without the newline that ends its line. */
  function MarkerBytes(r: TargetRecord): seq<Byte> {
    Encode(Text(MarkerJson(r)))
  }

  function MarkerLine(r: TargetRecord): seq<Byte> {
    MarkerBytes(r) + [LF]
  }

  /** The fields of a closed object, before the record's own checks. */
  function ReadFields(ms: seq<Member>): Option<TargetRecord> {
    if KeysOf(ms) != KEYS then None else
    var v := ValuesOf(ms);
    if v[0].Str? && v[1].Str? && v[2].Int? && v[3].Str? && v[4].Int? && v[5].Str? && v[6] == Str(RECORD_SCHEMA_VERSION)
       && v[7].Str? && TrackOf(v[7].s).Some? then
      Some(TargetRecord(v[5].s, v[3].s, TrackOf(v[7].s).value, v[1].s, v[0].s, v[2].i, v[4].i))
    else None
  }

  /** `_decode_target_record`. */
  function DecodeMarker(raw: seq<Byte>): Option<TargetRecord> {
    var text := Decode(raw);
    if text.None? then None else
    var loaded := Loads(text.value);
    if !loaded.Done? || !loaded.value.Obj? then None else
    var record := ReadFields(loaded.value.members);
    if record.None? || !ValidRecord(record.value) || Text(MarkerJson(record.value)) != text.value then None else record
  }

  lemma ReadFieldsOfMarker(r: TargetRecord)
    ensures ReadFields(MarkerJson(r).members) == Some(r)
  {
    NamesReadBack(r.track, RequestSend, InstructionWrite, OSErrorClass);
    hide TrackName, TrackOf;
    var ms := MarkerJson(r).members;
    assert KeysOf(ms) == KEYS && ValuesOf(ms) == Values(r);
  }

  /** The decoder accepts exactly the canonical bytes of valid markers. */
  lemma DecodesExactlyMarkers(raw: seq<Byte>, r: TargetRecord)
    ensures DecodeMarker(raw) == Some(r) <==> ValidRecord(r) && raw == MarkerBytes(r)
  {
    hide Decode, Encode, Text, Loads, ReadFields, ValidRecord;
    DecodesExactlyEncodings(raw, Text(MarkerJson(r)));
    ReadFieldsOfMarker(r);
    LoadsOfText(MarkerJson(r));
  }

  lemma MarkerBytesInjective(a: TargetRecord, b: TargetRecord)
    requires MarkerBytes(a) == MarkerBytes(b)
    ensures a == b
  {
    hide Text, ReadFields;
    DecodeOfEncoded(Text(MarkerJson(a)));
    DecodeOfEncoded(Text(MarkerJson(b)));
    TextInjective(MarkerJson(a), MarkerJson(b));
    ReadFieldsOfMarker(a);
    ReadFieldsOfMarker(b);
  }

  // ---------- The text of a valid marker, spelled out ----------

  /** Characters that JSON text shows as they are; the brace is kept out so that it marks the start of a line. */
  predicate Plain(c: char) {
    ' ' <= c <= '~' && c !in {'"', '\\', '{'}
  }

  predicate AllPlain(s: string) {
    forall k | 0 <= k < |s| :: Plain(s[k])
  }

  lemma {:induction false} EscapePlain(s: string)
    requires AllPlain(s)
    ensures Escape(s) == s
  {
    if s != "" {
      assert Plain(s[0]);
      EscapePlain(s[1..]);
      assert s == [s[0]] + s[1..];
    }
  }

  /** A printable ASCII text with a brace, if anywhere, at its start. */
  predicate Tame(s: string) {
    forall k | 0 <= k < |s| :: ' ' <= s[k] <= '~' && s[k] != '{'
  }

  lemma QuotePlain(s: string)
    requires AllPlain(s)
    ensures Quote(s) == "\"" + s + "\"" && Tame(Quote(s))
  {
    EscapePlain(s);
  }

  lemma StrMember(key: string, s: string)
    requires AllPlain(key) && AllPlain(s)
    ensures Tame(MemberText(Member(key, Str(s)))) && |MemberText(Member(key, Str(s)))| == |key| + |s| + 5
  {
    QuotePlain(key);
    QuotePlain(s);
    assert MemberText(Member(key, Str(s))) == Quote(key) + ":" + Quote(s);
  }

  lemma IntMember(key: string, i: int)
    requires AllPlain(key) && i >= 0
    ensures Tame(MemberText(Member(key, Int(i)))) && |MemberText(Member(key, Int(i)))| == |key| + |NatText(i)| + 3
  {
    QuotePlain(key);
    assert MemberText(Member(key, Int(i))) == Quote(key) + ":" + NatText(i);
    NatTextTame(i);
  }

  lemma {:induction false} NatTextTame(n: nat)
    ensures Tame(NatText(n))
  {
    if n >= 10 { NatTextTame(n / 10); }
  }

  /** Both clock readings are spelled with at most so many digits. */
  predicate ClocksFit(r: TargetRecord, digits: nat) {
    && 0 <= r.receivedNs && |NatText(r.receivedNs)| <= digits
    && 0 <= r.responseNs && |NatText(r.responseNs)| <= digits
  }

  /** The canonical encoder takes every 63-bit clock reading. */
  lemma ClockFitsEncoder(ns: nat)
    requires ns <= MAX_MONOTONIC_NS
    ensures ns < Pow2(C.MAX_INTEGER_BITS)
  {
    Pow2SixtyThree();
    hide Pow2;
    Pow2Grows(63, C.MAX_INTEGER_BITS);
  }

  lemma ValidClocksFit(r: TargetRecord)
    requires ValidRecord(r)
    ensures ClocksFit(r, MAX_CLOCK_DIGITS)
    ensures r.responseNs <= MAX_MONOTONIC_NS ==> ClocksFit(r, 19)
  {
    hide IsIdentifier, IsTargetPath, IsSha256, Pow2, Pow10, NatText;
    ThreeBitsADigit(MAX_CLOCK_DIGITS, C.MAX_INTEGER_BITS);
    NatTextLength(r.receivedNs, MAX_CLOCK_DIGITS);
    NatTextLength(r.responseNs, MAX_CLOCK_DIGITS);
    Pow10Nineteen();
    NatTextLength(r.receivedNs, 19);
    NatTextLength(r.responseNs, 19);
  }

  function SizeBounds(digits: nat): seq<nat> {
    [84, 29, 24 + digits, 143, 24 + digits, 139, 43, 36]
  }

  lemma IdentifierIsPlain(s: string)
    requires IsIdentifier(s)
    ensures AllPlain(s) && |s| <= 128
  {
    assert forall k | 0 <= k < |s| :: IsIdentifierChar(s[k]);
  }

  lemma DigestIsPlain(s: string)
    requires IsSha256(s)
    ensures AllPlain(s) && |s| == 64
  {
    assert forall k | 0 <= k < |s| :: IsLowerHex(s[k]);
  }

  lemma PathIsPlain(s: string)
    requires IsTargetPath(s)
    ensures AllPlain(s) && |s| <= 20
  {
  }

  lemma TrackIsPlain(t: Track)
    ensures AllPlain(TrackName(t)) && |TrackName(t)| <= 26
  {
  }

  lemma SchemaIsPlain()
    ensures AllPlain(RECORD_SCHEMA_VERSION) && |RECORD_SCHEMA_VERSION| == 24
  {
  }

  lemma KeyIsPlain(k: nat)
    requires k < 8
    ensures AllPlain(KEYS[k])
  {
  }

  function KeySizes(): seq<nat> {
    [15, 4, 21, 10, 21, 6, 14, 5]
  }

  lemma KeySize(k: nat)
    requires k < 8
    ensures |KEYS[k]| == KeySizes()[k]
  {
  }

  /** A field whose text is plain, and how long that text may be. */
  predicate PlainField(j: Json, size: nat) {
    match j
    case Str(s) => AllPlain(s) && |s| + 2 <= size
    case Int(i) => i >= 0 && |NatText(i)| <= size
    case _ => false
  }

  lemma PlainMember(key: string, j: Json, size: nat)
    requires AllPlain(key) && PlainField(j, size)
    ensures Tame(MemberText(Member(key, j))) && |MemberText(Member(key, j))| <= |key| + size + 3
  {
    hide Tame, AllPlain, MemberText, NatText;
    match j {
      case Str(s) => StrMember(key, s);
      case Int(i) => IntMember(key, i);
    }
  }

  function FieldSizes(digits: nat): seq<nat> {
    [66, 22, digits, 130, digits, 130, 26, 28]
  }

  lemma FieldIsPlain(r: TargetRecord, digits: nat, k: nat)
    requires ValidRecord(r) && ClocksFit(r, digits) && k < 8
    ensures PlainField(Values(r)[k], FieldSizes(digits)[k])
  {
    ValidParts(r);
    hide IsIdentifier, IsTargetPath, IsSha256, ValidRecord, TrackName, AllPlain, NatText;
    DigestIsPlain(r.digest);
    PathIsPlain(r.path);
    IdentifierIsPlain(r.requestId);
    IdentifierIsPlain(r.runId);
    SchemaIsPlain();
    TrackIsPlain(r.track);
  }

  lemma MarkerMember(r: TargetRecord, digits: nat, k: nat)
    requires ValidRecord(r) && ClocksFit(r, digits) && k < 8
    ensures Tame(MemberText(Member(KEYS[k], Values(r)[k])))
    ensures |MemberText(Member(KEYS[k], Values(r)[k]))| <= SizeBounds(digits)[k]
  {
    hide *;
    Sizes(digits);
    KeyIsPlain(k);
    KeySize(k);
    FieldIsPlain(r, digits, k);
    PlainMember(KEYS[k], Values(r)[k], FieldSizes(digits)[k]);
    SizesAdd(digits, k);
  }

  lemma SizesAdd(digits: nat, k: nat)
    requires k < 8
    ensures KeySizes()[k] + FieldSizes(digits)[k] + 3 <= SizeBounds(digits)[k]
  {
  }

  lemma Sizes(digits: nat)
    ensures |KEYS| == |KeySizes()| == |FieldSizes(digits)| == |SizeBounds(digits)| == 8
  {
  }

  lemma ValidParts(r: TargetRecord)
    requires ValidRecord(r)
    ensures IsIdentifier(r.runId) && IsIdentifier(r.requestId) && IsTargetPath(r.path) && IsSha256(r.digest)
    ensures 0 <= r.receivedNs <= r.responseNs
  {
    hide IsIdentifier, IsTargetPath, IsSha256, Pow2;
  }

  function Sum(ns: seq<nat>): nat {
    if ns == [] then 0 else ns[0] + Sum(ns[1..])
  }

  lemma {:induction false} MembersTame(ms: seq<Member>, bounds: seq<nat>)
    requires |bounds| == |ms|
    requires forall k | 0 <= k < |ms| :: Tame(MemberText(ms[k]))
    ensures Tame(MembersText(ms))
    ensures (forall k | 0 <= k < |ms| :: |MemberText(ms[k])| <= bounds[k]) ==> |MembersText(ms)| <= Sum(bounds) + |ms|
  {
    hide MemberText;
    if |ms| > 1 {
      MembersTame(ms[1..], bounds[1..]);
      MembersTextIs(ms);
      hide MembersText;
    }
  }

  /** A marker's text is printable ASCII with one opening brace, at its start, and as short as its clocks allow. */
  lemma MarkerTextIsTame(r: TargetRecord, digits: nat)
    requires ValidRecord(r) && ClocksFit(r, digits)
    ensures var t := Text(MarkerJson(r)); |t| > 1 && t[0] == '{' && Tame(t[1..]) && |t| <= 532 + 2 * digits
  {
    hide *;
    MarkerMembers(r);
    Sizes(digits);
    var ms := MarkerJson(r).members;
    forall k | 0 <= k < 8 ensures Tame(MemberText(ms[k])) && |MemberText(ms[k])| <= SizeBounds(digits)[k] {
      MarkerMember(r, digits, k);
    }
    MembersTame(ms, SizeBounds(digits));
    SumOfBounds(digits);
    Braces(MembersText(ms));
  }

  lemma MarkerMembers(r: TargetRecord)
    ensures MarkerJson(r).Obj? && |MarkerJson(r).members| == |KEYS| == |Values(r)| == 8
    ensures forall k | 0 <= k < 8 :: MarkerJson(r).members[k] == Member(KEYS[k], Values(r)[k])
    ensures Text(MarkerJson(r)) == "{" + MembersText(MarkerJson(r).members) + "}"
  {
    hide Values, MembersText;
  }

  lemma Braces(s: string)
    requires Tame(s)
    ensures var t := "{" + s + "}"; t[0] == '{' && Tame(t[1..]) && |t| == |s| + 2
  {
    assert ("{" + s + "}")[1..] == s + "}";
  }

  lemma SumOfBounds(digits: nat)
    ensures |SizeBounds(digits)| == 8 && Sum(SizeBounds(digits)) == 522 + 2 * digits
  {
    var b := SizeBounds(digits);
    assert Sum(b[8..]) == 0;
    assert b[7..][1..] == b[8..] && b[6..][1..] == b[7..] && b[5..][1..] == b[6..] && b[4..][1..] == b[5..];
    assert b[3..][1..] == b[4..] && b[2..][1..] == b[3..] && b[1..][1..] == b[2..];
    assert Sum(b[6..]) == 79;
    assert Sum(b[4..]) == 242 + digits;
    assert Sum(b[2..]) == 409 + 2 * digits;
  }

  lemma {:induction false} AsciiBytes(s: string)
    requires forall k | 0 <= k < |s| :: s[k] as int < 0x80
    ensures |Encode(s)| == |s| && forall k | 0 <= k < |s| :: Encode(s)[k] == s[k] as int
  {
    if s != "" { AsciiBytes(s[1..]); }
  }

  /** The same about its bytes: no line break, and one opening brace. */
  lemma MarkerBytesAreTame(r: TargetRecord)
    requires ValidRecord(r)
    ensures var b := MarkerBytes(r);
      && |b| > 1 && b[0] == '{' as int && |b| <= MAX_RECORD_BYTES && (r.responseNs <= MAX_MONOTONIC_NS ==> |b| <= 570)
      && (forall k | 0 <= k < |b| :: b[k] != LF && b[k] != CR && (b[k] == '{' as int ==> k == 0))
  {
    hide Text, Encode, ValidRecord, NatText;
    ValidClocksFit(r);
    MarkerTextIsTame(r, if r.responseNs <= MAX_MONOTONIC_NS then 19 else MAX_CLOCK_DIGITS);
    var t := Text(MarkerJson(r));
    assert forall k | 1 <= k < |t| :: t[k] == t[1..][k - 1];
    AsciiBytes(t);
  }
}
