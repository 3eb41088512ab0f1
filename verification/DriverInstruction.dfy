/** The one instruction a driver accepts: everything but four values is fixed. */
module DriverInstruction {
  import opened Basics
  import opened Json
  import opened Utf8
  import opened DriverProtocol

  /** The values an instruction chooses. */
  datatype Instruction = Instruction(track: Track, authorization: string, runId: string, qState: Option<string>)

  predicate IsVisible(c: char) {
    '!' <= c <= '~'
  }

  predicate IsHeaderValue(s: string) {
    0 < |s| <= MAX_HEADER_VALUE_BYTES && forall k | 0 <= k < |s| :: ' ' <= s[k] && s[k] as int < 0x7f
  }

  /** `Bearer` and at least one visible ASCII character. */
  predicate IsAuthorization(s: string) {
    IsHeaderValue(s) && |s| > 7 && s[..7] == "Bearer " && forall k | 7 <= k < |s| :: IsVisible(s[k])
  }

  predicate IsRunId(s: string) {
    |s| == 69 && s[..5] == "v3b1-" && forall k | 5 <= k < |s| :: IsLowerHex(s[k])
  }

  /** `looksLikeJws` stands for the compact-JWS test on the signed state. */
  predicate ValidInstruction(i: Instruction, looksLikeJws: string -> bool) {
    && IsAuthorization(i.authorization)
    && IsRunId(i.runId)
    && (i.qState.Some? <==> !i.track.CredentialPolicyBaseline?)
    && (i.qState.Some? ==> IsHeaderValue(i.qState.value) && looksLikeJws(i.qState.value))
  }

  const LOCAL_EVIDENCE := "{\"divergence\":\"0\"}"

  const TOP_KEYS := ["body_byte_count", "headers", "method", "path", "schema_version", "track"]
  const BASE_HEADERS := [
    "authorization", "x-envoy-hedge-on-per-try-timeout", "x-envoy-max-retries", "x-kil-decision-digest",
    "x-kil-issuer", "x-kil-local-evidence", "x-kil-mode", "x-kil-run-id", "x-kil-track",
    "x-kil-verified-subject", "x-request-id"]
  const SIGNED_HEADERS := [
    "authorization", "x-envoy-hedge-on-per-try-timeout", "x-envoy-max-retries", "x-kil-decision-digest",
    "x-kil-issuer", "x-kil-local-evidence", "x-kil-mode", "x-kil-q-state", "x-kil-run-id", "x-kil-track",
    "x-kil-verified-subject", "x-request-id"]

  function FillerDigest(): string {
    seq(64, k => 'f')
  }

  function HeaderNames(i: Instruction): seq<string> {
    if i.qState.Some? then SIGNED_HEADERS else BASE_HEADERS
  }

  function HeadBefore(authorization: string): seq<Json> {
    [Str(authorization), Str("false"), Str("0"), Str(FillerDigest()), Str("https://attacker.invalid"),
     Str(LOCAL_EVIDENCE), Str("credential_policy_baseline")]
  }

  function HeadAfter(runId: string): seq<Json> {
    [Str(runId), Str("client-selected-track"), Str("spiffe://attacker.invalid/workload"), Str(REQUEST_ID)]
  }

  function HeaderValues(i: Instruction): (vs: seq<Json>)
    ensures |vs| == |HeaderNames(i)|
  {
    if i.qState.Some? then HeadBefore(i.authorization) + [Str(i.qState.value)] + HeadAfter(i.runId)
    else HeadBefore(i.authorization) + HeadAfter(i.runId)
  }

  function TopValues(i: Instruction): seq<Json> {
    [Int(0), Obj(Zip(HeaderNames(i), HeaderValues(i))), Str("POST"), Str("/consequential/admin"),
     Str(INSTRUCTION_SCHEMA), Str(TrackName(i.track))]
  }

  function InstructionJson(i: Instruction): Json {
    Obj(Zip(TOP_KEYS, TopValues(i)))
  }

  function InstructionText(i: Instruction): string {
    Text(InstructionJson(i)) + "\n"
  }

  /** The header object, once its names are known to be closed. */
  function ReadHeaders(ms: seq<Member>, track: Track): Option<Instruction> {
    var names, v := KeysOf(ms), ValuesOf(ms);
    if track.CredentialPolicyBaseline? then
      if names == BASE_HEADERS && v[0].Str? && v[7].Str?
         && v == HeadBefore(v[0].s) + HeadAfter(v[7].s) then
        Some(Instruction(track, v[0].s, v[7].s, None))
      else None
    else
      if names == SIGNED_HEADERS && v[0].Str? && v[7].Str? && v[8].Str?
         && v == HeadBefore(v[0].s) + [v[7]] + HeadAfter(v[8].s) then
        Some(Instruction(track, v[0].s, v[8].s, Some(v[7].s)))
      else None
  }

  /** `parse_instruction`. */
  function ParseInstruction(payload: string, expected: Track, looksLikeJws: string -> bool): Option<Instruction> {
    var ms := LoadRecord(payload, MAX_INSTRUCTION_BYTES);
    if ms.None? || KeysOf(ms.value) != TOP_KEYS then None else
    var v := ValuesOf(ms.value);
    if !(v[0] == Int(0) && v[1].Obj? && v[2] == Str("POST") && v[3] == Str("/consequential/admin")
         && v[4] == Str(INSTRUCTION_SCHEMA) && v[5] == Str(TrackName(expected))) then None else
    var i := ReadHeaders(v[1].members, expected);
    if i.Some? && ValidInstruction(i.value, looksLikeJws) then i else None
  }

  lemma ReadHeadersExactly(ms: seq<Member>, track: Track, i: Instruction)
    requires i.track == track && (i.qState.Some? <==> !track.CredentialPolicyBaseline?)
    ensures ReadHeaders(ms, track) == Some(i) <==> ms == Zip(HeaderNames(i), HeaderValues(i))
  {
    hide HeadBefore, HeadAfter;
    HeadParts(i.authorization, i.runId);
    var names, v := KeysOf(ms), ValuesOf(ms);
    if ReadHeaders(ms, track) == Some(i) {
      assert names == HeaderNames(i) && v == HeaderValues(i);
      assert Zip(names, v) == ms;
    }
    if ms == Zip(HeaderNames(i), HeaderValues(i)) {
      assert names == HeaderNames(i) && v == HeaderValues(i);
    }
  }

  lemma HeadParts(authorization: string, runId: string)
    ensures |HeadBefore(authorization)| == 7 && HeadBefore(authorization)[0] == Str(authorization)
    ensures |HeadAfter(runId)| == 4 && HeadAfter(runId)[0] == Str(runId)
  {
  }

  lemma ReadHeadersShape(ms: seq<Member>, track: Track)
    requires ReadHeaders(ms, track).Some?
    ensures var i := ReadHeaders(ms, track).value;
      i.track == track && (i.qState.Some? <==> !track.CredentialPolicyBaseline?)
  {
    hide HeadBefore, HeadAfter;
  }

  lemma TopExactly(ms: seq<Member>, i: Instruction, headers: Json)
    requires KeysOf(ms) == TOP_KEYS
    ensures ValuesOf(ms) == [Int(0), headers, Str("POST"), Str("/consequential/admin"), Str(INSTRUCTION_SCHEMA), Str(TrackName(i.track))]
       <==> ms == Zip(TOP_KEYS, [Int(0), headers, Str("POST"), Str("/consequential/admin"), Str(INSTRUCTION_SCHEMA), Str(TrackName(i.track))])
  {
    var v := [Int(0), headers, Str("POST"), Str("/consequential/admin"), Str(INSTRUCTION_SCHEMA), Str(TrackName(i.track))];
    hide TrackName;
    assert Zip(KeysOf(ms), ValuesOf(ms)) == ms;
    assert ValuesOf(Zip(TOP_KEYS, v)) == v;
  }

  /** The instruction parser accepts exactly the canonical lines of valid instructions for its own track. */
  lemma ParsesExactlyInstructions(payload: string, expected: Track, looksLikeJws: string -> bool, i: Instruction)
    ensures ParseInstruction(payload, expected, looksLikeJws) == Some(i)
       <==> && payload == InstructionText(i) && Utf8Length(payload) <= MAX_INSTRUCTION_BYTES
            && i.track == expected && ValidInstruction(i, looksLikeJws)
  {
    hide Text, Utf8Length, IsAuthorization, IsRunId, IsHeaderValue, HeaderNames, HeaderValues, ReadHeaders, TrackName, LoadRecord;
    var ms := LoadRecord(payload, MAX_INSTRUCTION_BYTES);
    LoadRecordExactly(payload, MAX_INSTRUCTION_BYTES, InstructionJson(i));
    if ParseInstruction(payload, expected, looksLikeJws) == Some(i) {
      var v := ValuesOf(ms.value);
      ReadHeadersShape(v[1].members, expected);
      ReadHeadersExactly(v[1].members, expected, i);
      assert v == [Int(0), v[1], Str("POST"), Str("/consequential/admin"), Str(INSTRUCTION_SCHEMA), Str(TrackName(i.track))];
      TopExactly(ms.value, i, v[1]);
      LoadRecordExactly(payload, MAX_INSTRUCTION_BYTES, Obj(ms.value));
    }
    if payload == InstructionText(i) && Utf8Length(payload) <= MAX_INSTRUCTION_BYTES
       && i.track == expected && ValidInstruction(i, looksLikeJws) {
      var v := ValuesOf(ms.value);
      assert KeysOf(ms.value) == TOP_KEYS;
      assert v == TopValues(i);
      ReadHeadersExactly(v[1].members, expected, i);
    }
  }

  lemma InstructionTextInjective(a: Instruction, b: Instruction)
    requires InstructionText(a) == InstructionText(b)
    ensures a == b
  {
    assert InstructionText(a)[..|InstructionText(a)| - 1] == Text(InstructionJson(a));
    assert InstructionText(b)[..|InstructionText(b)| - 1] == Text(InstructionJson(b));
    TextInjective(InstructionJson(a), InstructionJson(b));
    var x, y := InstructionJson(a).members, InstructionJson(b).members;
    assert ValuesOf(x) == TopValues(a) && ValuesOf(y) == TopValues(b);
    NamesReadBack(a.track, RequestSend, InstructionWrite, OSErrorClass);
    NamesReadBack(b.track, RequestSend, InstructionWrite, OSErrorClass);
    assert TopValues(a)[5] == TopValues(b)[5] && TopValues(a)[1] == TopValues(b)[1];
    var u, v := TopValues(a)[1].members, TopValues(b)[1].members;
    assert ValuesOf(u) == HeaderValues(a) && ValuesOf(v) == HeaderValues(b);
    if a.qState.Some? {
      assert HeaderValues(a)[0] == Str(a.authorization) && HeaderValues(a)[7] == Str(a.qState.value) && HeaderValues(a)[8] == Str(a.runId);
    } else {
      assert HeaderValues(a)[0] == Str(a.authorization) && HeaderValues(a)[7] == Str(a.runId);
    }
  }

  /** `parse_instruction` on the bytes it is given. */
  function ParseInstructionBytes(payload: seq<Byte>, expected: Track, looksLikeJws: string -> bool): Option<Instruction> {
    var text := Decode(payload);
    if text.None? then None else ParseInstruction(text.value, expected, looksLikeJws)
  }

  lemma ParsesExactlyInstructionBytes(payload: seq<Byte>, expected: Track, looksLikeJws: string -> bool, i: Instruction)
    ensures ParseInstructionBytes(payload, expected, looksLikeJws) == Some(i)
       <==> && payload == Encode(InstructionText(i)) && |payload| <= MAX_INSTRUCTION_BYTES
            && i.track == expected && ValidInstruction(i, looksLikeJws)
  {
    hide ParseInstruction, ValidInstruction, InstructionText, Encode, Decode;
    DecodesExactlyEncodings(payload, InstructionText(i));
    var text := Decode(payload);
    if text.Some? {
      DecodesExactlyEncodings(payload, text.value);
      ParsesExactlyInstructions(text.value, expected, looksLikeJws, i);
    }
    if payload == Encode(InstructionText(i)) {
      ParsesExactlyInstructions(InstructionText(i), expected, looksLikeJws, i);
    }
  }
}
