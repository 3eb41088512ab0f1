/** The records and instructions exchanged with a request driver, as canonical JSON lines. */
module DriverProtocol {
  import opened Basics
  import opened Digits
  import opened Json
  import opened Utf8

  const MAX_INSTRUCTION_BYTES := 32 * 1024
  const MAX_RESULT_BYTES := 8 * 1024
  const MAX_MONOTONIC_NS := 0x7fff_ffff_ffff_ffff
  const MAX_HEADER_VALUE_BYTES := 4096
  const READINESS_SCHEMA := "kil.v3b1-driver-readiness.v1"
  const RESULT_SCHEMA := "kil.v3b1-driver-result.v1"
  const INSTRUCTION_SCHEMA := "kil.v3b1-driver-instruction.v1"
  const REQUEST_ID := "v3b1-central-request"

  datatype Track = CredentialPolicyBaseline | SignedStateOnly | SignedPlusLocalReduce

  function TrackName(t: Track): string {
    match t
    case CredentialPolicyBaseline => "credential_policy_baseline"
    case SignedStateOnly => "signed_state_only"
    case SignedPlusLocalReduce => "signed_plus_local_reduce"
  }

  /** `require_track`. */
  function TrackOf(name: string): Option<Track> {
    if name == "credential_policy_baseline" then Some(CredentialPolicyBaseline)
    else if name == "signed_state_only" then Some(SignedStateOnly)
    else if name == "signed_plus_local_reduce" then Some(SignedPlusLocalReduce)
    else None
  }

  datatype Stage = RequestSend | ResponseHeaders | ResponseBody

  function StageName(s: Stage): string {
    match s
    case RequestSend => "request_send"
    case ResponseHeaders => "response_headers"
    case ResponseBody => "response_body"
  }

  function StageOf(name: string): Option<Stage> {
    if name == "request_send" then Some(RequestSend)
    else if name == "response_headers" then Some(ResponseHeaders)
    else if name == "response_body" then Some(ResponseBody)
    else None
  }

  datatype ControlStage = InstructionWrite | StdoutRead | ProcessWait | Termination

  function ControlStageName(s: ControlStage): string {
    match s
    case InstructionWrite => "instruction_write"
    case StdoutRead => "stdout_read"
    case ProcessWait => "process_wait"
    case Termination => "termination"
  }

  function ControlStageOf(name: string): Option<ControlStage> {
    if name == "instruction_write" then Some(InstructionWrite)
    else if name == "stdout_read" then Some(StdoutRead)
    else if name == "process_wait" then Some(ProcessWait)
    else if name == "termination" then Some(Termination)
    else None
  }

  datatype ExceptionClass =
    | OSErrorClass | TimeoutErrorClass | ConnectionErrorClass | BrokenPipeErrorClass
    | ConnectionAbortedErrorClass | ConnectionRefusedErrorClass | ConnectionResetErrorClass

  function ClassName(c: ExceptionClass): string {
    match c
    case OSErrorClass => "OSError"
    case TimeoutErrorClass => "TimeoutError"
    case ConnectionErrorClass => "ConnectionError"
    case BrokenPipeErrorClass => "BrokenPipeError"
    case ConnectionAbortedErrorClass => "ConnectionAbortedError"
    case ConnectionRefusedErrorClass => "ConnectionRefusedError"
    case ConnectionResetErrorClass => "ConnectionResetError"
  }

  function ClassOf(name: string): Option<ExceptionClass> {
    if name == "OSError" then Some(OSErrorClass)
    else if name == "TimeoutError" then Some(TimeoutErrorClass)
    else if name == "ConnectionError" then Some(ConnectionErrorClass)
    else if name == "BrokenPipeError" then Some(BrokenPipeErrorClass)
    else if name == "ConnectionAbortedError" then Some(ConnectionAbortedErrorClass)
    else if name == "ConnectionRefusedError" then Some(ConnectionRefusedErrorClass)
    else if name == "ConnectionResetError" then Some(ConnectionResetErrorClass)
    else None
  }

  lemma NamesReadBack(t: Track, s: Stage, c: ControlStage, e: ExceptionClass)
    ensures TrackOf(TrackName(t)) == Some(t) && StageOf(StageName(s)) == Some(s)
    ensures ControlStageOf(ControlStageName(c)) == Some(c) && ClassOf(ClassName(e)) == Some(e)
  {
  }

  lemma NamesAreRead(name: string)
    ensures TrackOf(name).Some? ==> TrackName(TrackOf(name).value) == name
    ensures StageOf(name).Some? ==> StageName(StageOf(name).value) == name
    ensures ControlStageOf(name).Some? ==> ControlStageName(ControlStageOf(name).value) == name
    ensures ClassOf(name).Some? ==> ClassName(ClassOf(name).value) == name
  {
  }

  /** The closed public records. Every one states one attempt and no retry where the format has those fields. */
  datatype Record =
    | Readiness(track: Track, connectNs: int, readyNs: int)
    | Complete(track: Track, connectNs: int, sendNs: int, receiveNs: int, status: int, digest: string)
    | TransportFailure(track: Track, stage: Stage, exceptionClass: ExceptionClass, errno: Option<Errno>,
                       connectNs: int, sendNs: int, failureNs: int, mayHaveSent: bool)
    | ControlFailure(track: Track, controlStage: ControlStage, failureNs: int, mayHaveSent: bool)

  datatype Errno = Errno(number: int, name: string)

  /** The checks left to the consumer: the table of errno names, and the scan for sensitive material. */
  datatype Policy = Policy(errnoNames: map<int, string>, clean: Json -> bool)

  predicate IsMonotonic(n: int) {
    0 <= n <= MAX_MONOTONIC_NS
  }

  predicate IsLowerHex(c: char) {
    '0' <= c <= '9' || 'a' <= c <= 'f'
  }

  predicate IsSha256(s: string) {
    |s| == 64 && forall i | 0 <= i < |s| :: IsLowerHex(s[i])
  }

  /** The facts a record must state: bounded ordered clock readings, and consistent outcome fields. */
  predicate FactsHold(r: Record, policy: Policy) {
    match r
    case Readiness(_, connect, ready) => IsMonotonic(connect) && IsMonotonic(ready) && connect <= ready
    case Complete(_, connect, send, receive, status, digest) =>
      && IsMonotonic(connect) && IsMonotonic(send) && IsMonotonic(receive) && connect <= send <= receive
      && 100 <= status <= 599 && IsSha256(digest)
    case TransportFailure(_, stage, _, errno, connect, send, failure, maySent) =>
      && (errno.Some? ==>
            && errno.value.number >= 0
            && errno.value.number in policy.errnoNames
            && policy.errnoNames[errno.value.number] == errno.value.name)
      && IsMonotonic(connect) && IsMonotonic(send) && IsMonotonic(failure) && connect <= send <= failure
      && (stage.RequestSend? || maySent)
    case ControlFailure(_, stage, failure, maySent) =>
      IsMonotonic(failure) && (stage.InstructionWrite? || maySent)
  }

  // ---------- Records as JSON ----------

  const READINESS_KEYS := ["connect_monotonic_ns", "ready_monotonic_ns", "schema_version", "status", "track"]
  const COMPLETE_KEYS := [
    "attempt_count", "connect_monotonic_ns", "decision_digest", "receive_monotonic_ns", "response_status",
    "retry_performed", "schema_version", "send_monotonic_ns", "status", "track"]
  const FAILURE_KEYS := [
    "attempt_count", "connect_monotonic_ns", "errno", "errno_name", "exception_class", "failure_monotonic_ns",
    "request_bytes_may_have_been_sent", "retry_performed", "schema_version", "send_monotonic_ns", "stage",
    "status", "track"]
  const CONTROL_KEYS := [
    "attempt_count", "failure_monotonic_ns", "request_bytes_may_have_been_sent", "retry_performed",
    "schema_version", "stage", "status", "track"]

  function Zip(keys: seq<string>, values: seq<Json>): (r: seq<Member>)
    requires |keys| == |values|
    ensures |r| == |keys|
    ensures forall i | 0 <= i < |keys| :: r[i] == Member(keys[i], values[i])
  {
    seq(|keys|, i requires 0 <= i < |keys| => Member(keys[i], values[i]))
  }

  function KeysFor(r: Record): seq<string> {
    match r
    case Readiness(_, _, _) => READINESS_KEYS
    case Complete(_, _, _, _, _, _) => COMPLETE_KEYS
    case TransportFailure(_, _, _, _, _, _, _, _) => FAILURE_KEYS
    case ControlFailure(_, _, _, _) => CONTROL_KEYS
  }

  function ValuesFor(r: Record): (vs: seq<Json>)
    ensures |vs| == |KeysFor(r)|
  {
    match r
    case Readiness(track, connect, ready) =>
      [Int(connect), Int(ready), Str(READINESS_SCHEMA), Str("ready"), Str(TrackName(track))]
    case Complete(track, connect, send, receive, status, digest) =>
      [Int(1), Int(connect), Str(digest), Int(receive), Int(status), Bool(false), Str(RESULT_SCHEMA), Int(send),
       Str("complete"), Str(TrackName(track))]
    case TransportFailure(track, stage, kind, errno, connect, send, failure, maySent) =>
      [Int(1), Int(connect),
       if errno.Some? then Int(errno.value.number) else Null, if errno.Some? then Str(errno.value.name) else Null,
       Str(ClassName(kind)), Int(failure), Bool(maySent), Bool(false), Str(RESULT_SCHEMA), Int(send),
       Str(StageName(stage)), Str("transport_failure"), Str(TrackName(track))]
    case ControlFailure(track, stage, failure, maySent) =>
      [Int(1), Int(failure), Bool(maySent), Bool(false), Str(RESULT_SCHEMA), Str(ControlStageName(stage)),
       Str("driver_control_failure"), Str(TrackName(track))]
  }

  function RecordJson(r: Record): Json {
    Obj(Zip(KeysFor(r), ValuesFor(r)))
  }

  /** `canonical_record`: canonical JSON and one newline. */
  function RecordText(r: Record): string {
    Text(RecordJson(r)) + "\n"
  }

  function KeysOf(ms: seq<Member>): (r: seq<string>)
    ensures |r| == |ms|
    ensures forall i | 0 <= i < |ms| :: r[i] == ms[i].key
  {
    seq(|ms|, i requires 0 <= i < |ms| => ms[i].key)
  }

  /** `_load_record`: bounded text, one newline at its end, compact JSON that prints back as itself.
      Canonical text sorts its keys, so a closed set of fields appears in exactly one order. */
  function LoadRecord(payload: string, limit: nat): Option<seq<Member>> {
    if payload == "" || Utf8Length(payload) > limit || payload[|payload| - 1] != '\n' then None else
    var loaded := Loads(payload[..|payload| - 1]);
    if loaded.Done? && loaded.value.Obj? && Text(loaded.value) + "\n" == payload then Some(loaded.value.members)
    else None
  }

  function TrackField(j: Json): Option<Track> {
    if j.Str? then TrackOf(j.s) else None
  }

  predicate OneAttempt(attempt: Json, retry: Json) {
    attempt == Int(1) && retry == Bool(false)
  }

  function ReadReadiness(v: seq<Json>): Option<Record>
    requires |v| == |READINESS_KEYS|
  {
    var track := TrackField(v[4]);
    if v[0].Int? && v[1].Int? && v[2] == Str(READINESS_SCHEMA) && v[3] == Str("ready") && track.Some? then
      Some(Readiness(track.value, v[0].i, v[1].i))
    else None
  }

  function ReadComplete(v: seq<Json>): Option<Record>
    requires |v| == |COMPLETE_KEYS|
  {
    var track := TrackField(v[9]);
    if OneAttempt(v[0], v[5]) && v[1].Int? && v[2].Str? && v[3].Int? && v[4].Int? && v[6] == Str(RESULT_SCHEMA)
       && v[7].Int? && v[8] == Str("complete") && track.Some? then
      Some(Complete(track.value, v[1].i, v[7].i, v[3].i, v[4].i, v[2].s))
    else None
  }

  function ReadTransportFailure(v: seq<Json>): Option<Record>
    requires |v| == |FAILURE_KEYS|
  {
    var track := TrackField(v[12]);
    var stage := if v[10].Str? then StageOf(v[10].s) else None;
    var kind := if v[4].Str? then ClassOf(v[4].s) else None;
    if OneAttempt(v[0], v[7]) && v[1].Int? && v[5].Int? && v[6].Bool? && v[8] == Str(RESULT_SCHEMA) && v[9].Int?
       && v[11] == Str("transport_failure") && track.Some? && stage.Some? && kind.Some?
       && ((v[2].Null? && v[3].Null?) || (v[2].Int? && v[3].Str?)) then
      Some(TransportFailure(track.value, stage.value, kind.value,
                            if v[2].Null? then None else Some(Errno(v[2].i, v[3].s)),
                            v[1].i, v[9].i, v[5].i, v[6].b))
    else None
  }

  function ReadControlFailure(v: seq<Json>): Option<Record>
    requires |v| == |CONTROL_KEYS|
  {
    var track := TrackField(v[7]);
    var stage := if v[5].Str? then ControlStageOf(v[5].s) else None;
    if OneAttempt(v[0], v[3]) && v[1].Int? && v[2].Bool? && v[4] == Str(RESULT_SCHEMA)
       && v[6] == Str("driver_control_failure") && track.Some? && stage.Some? then
      Some(ControlFailure(track.value, stage.value, v[1].i, v[2].b))
    else None
  }

  function ValuesOf(ms: seq<Member>): (r: seq<Json>)
    ensures |r| == |ms|
    ensures forall i | 0 <= i < |ms| :: r[i] == ms[i].value
  {
    seq(|ms|, i requires 0 <= i < |ms| => ms[i].value)
  }

  function ReadRecord(ms: seq<Member>): Option<Record> {
    var keys, values := KeysOf(ms), ValuesOf(ms);
    if keys == READINESS_KEYS then ReadReadiness(values)
    else if keys == COMPLETE_KEYS then ReadComplete(values)
    else if keys == FAILURE_KEYS then ReadTransportFailure(values)
    else if keys == CONTROL_KEYS then ReadControlFailure(values)
    else None
  }

  /** `parse_result`. */
  function ParseResult(payload: string, expected: Track, policy: Policy): Option<Record> {
    var ms := LoadRecord(payload, MAX_RESULT_BYTES);
    if ms.None? || !policy.clean(Obj(ms.value)) then None else
    var r := ReadRecord(ms.value);
    if r.Some? && r.value.track == expected && FactsHold(r.value, policy) then r else None
  }

  lemma ReadRecordSound(ms: seq<Member>)
    requires ReadRecord(ms).Some?
    ensures RecordJson(ReadRecord(ms).value) == Obj(ms)
  {
    var keys, v := KeysOf(ms), ValuesOf(ms);
    var r := ReadRecord(ms).value;
    assert ValuesFor(r) == v && KeysFor(r) == keys by {
      if keys == READINESS_KEYS {
        ReadReadinessSound(v);
      } else if keys == COMPLETE_KEYS {
        ReadCompleteSound(v);
      } else if keys == FAILURE_KEYS {
        ReadTransportFailureSound(v);
      } else {
        ReadControlFailureSound(v);
      }
    }
    hide ReadRecord, ValuesFor, KeysFor;
    assert Zip(keys, v) == ms;
  }

  lemma TrackFieldSound(j: Json)
    requires TrackField(j).Some?
    ensures j == Str(TrackName(TrackField(j).value))
  {
    NamesAreRead(j.s);
  }

  lemma ReadReadinessSound(v: seq<Json>)
    requires |v| == |READINESS_KEYS| && ReadReadiness(v).Some?
    ensures var r := ReadReadiness(v).value; r.Readiness? && ValuesFor(r) == v
  {
    TrackFieldSound(v[4]);
    hide TrackName, TrackOf;
  }

  lemma ReadCompleteSound(v: seq<Json>)
    requires |v| == |COMPLETE_KEYS| && ReadComplete(v).Some?
    ensures var r := ReadComplete(v).value; r.Complete? && ValuesFor(r) == v
  {
    TrackFieldSound(v[9]);
    hide TrackName, TrackOf;
  }

  lemma ReadTransportFailureSound(v: seq<Json>)
    requires |v| == |FAILURE_KEYS| && ReadTransportFailure(v).Some?
    ensures var r := ReadTransportFailure(v).value; r.TransportFailure? && ValuesFor(r) == v
  {
    TrackFieldSound(v[12]);
    NamesAreRead(v[10].s);
    NamesAreRead(v[4].s);
    hide TrackName, TrackOf, StageName, StageOf, ClassName, ClassOf;
  }

  lemma ReadControlFailureSound(v: seq<Json>)
    requires |v| == |CONTROL_KEYS| && ReadControlFailure(v).Some?
    ensures var r := ReadControlFailure(v).value; r.ControlFailure? && ValuesFor(r) == v
  {
    TrackFieldSound(v[7]);
    NamesAreRead(v[5].s);
    hide TrackName, TrackOf, ControlStageName, ControlStageOf;
  }

  lemma ReadReadinessComplete(r: Record)
    requires r.Readiness?
    ensures ReadReadiness(ValuesFor(r)) == Some(r)
  {
    NamesReadBack(r.track, RequestSend, InstructionWrite, OSErrorClass);
    hide TrackName, TrackOf;
  }

  lemma ReadCompleteComplete(r: Record)
    requires r.Complete?
    ensures ReadComplete(ValuesFor(r)) == Some(r)
  {
    NamesReadBack(r.track, RequestSend, InstructionWrite, OSErrorClass);
    hide TrackName, TrackOf;
  }

  lemma ReadTransportFailureComplete(r: Record)
    requires r.TransportFailure?
    ensures ReadTransportFailure(ValuesFor(r)) == Some(r)
  {
    NamesReadBack(r.track, r.stage, InstructionWrite, r.exceptionClass);
    hide TrackName, TrackOf, StageName, StageOf, ClassName, ClassOf;
  }

  lemma ReadControlFailureComplete(r: Record)
    requires r.ControlFailure?
    ensures ReadControlFailure(ValuesFor(r)) == Some(r)
  {
    NamesReadBack(r.track, RequestSend, r.controlStage, OSErrorClass);
    hide TrackName, TrackOf, ControlStageName, ControlStageOf;
  }

  lemma ReadRecordComplete(r: Record)
    ensures ReadRecord(RecordJson(r).members) == Some(r)
  {
    hide ReadReadiness, ReadComplete, ReadTransportFailure, ReadControlFailure, ValuesFor;
    var ms := RecordJson(r).members;
    assert KeysOf(ms) == KeysFor(r);
    assert ValuesOf(ms) == ValuesFor(r);
    assert |READINESS_KEYS| == 5 && |COMPLETE_KEYS| == 10 && |FAILURE_KEYS| == 13 && |CONTROL_KEYS| == 8;
    match r {
      case Readiness(_, _, _) => ReadReadinessComplete(r);
      case Complete(_, _, _, _, _, _) => ReadCompleteComplete(r);
      case TransportFailure(_, _, _, _, _, _, _, _) => ReadTransportFailureComplete(r);
      case ControlFailure(_, _, _, _) => ReadControlFailureComplete(r);
    }
  }

  lemma LoadRecordExactly(payload: string, limit: nat, j: Json)
    requires j.Obj?
    ensures LoadRecord(payload, limit) == Some(j.members) <==> payload == Text(j) + "\n" && Utf8Length(payload) <= limit
  {
    LoadsOfText(j);
    assert (Text(j) + "\n")[..|Text(j)|] == Text(j);
    hide Text, Loads;
    if LoadRecord(payload, limit) == Some(j.members) {
      var loaded := Loads(payload[..|payload| - 1]);
      assert loaded.value == j;
    }
  }

  /** The parser accepts exactly the canonical lines of records whose facts hold. */
  lemma ParsesExactlyRecords(payload: string, expected: Track, policy: Policy, r: Record)
    ensures ParseResult(payload, expected, policy) == Some(r)
       <==> && payload == RecordText(r) && Utf8Length(payload) <= MAX_RESULT_BYTES
            && policy.clean(RecordJson(r)) && r.track == expected && FactsHold(r, policy)
  {
    ReadRecordComplete(r);
    LoadRecordExactly(payload, MAX_RESULT_BYTES, RecordJson(r));
    var ms := LoadRecord(payload, MAX_RESULT_BYTES);
    if ms.Some? && ReadRecord(ms.value) == Some(r) {
      ReadRecordSound(ms.value);
    }
    hide ReadRecord, LoadRecord, FactsHold, RecordJson, Utf8Length, Text;
  }

  // ---------- Records as bytes ----------

  function RecordBytes(r: Record): seq<Byte> {
    Encode(RecordText(r))
  }

  /** `parse_result` on the bytes it is given. */
  function ParseResultBytes(payload: seq<Byte>, expected: Track, policy: Policy): Option<Record> {
    var text := Decode(payload);
    if text.None? then None else ParseResult(text.value, expected, policy)
  }

  lemma ParsesExactlyRecordBytes(payload: seq<Byte>, expected: Track, policy: Policy, r: Record)
    ensures ParseResultBytes(payload, expected, policy) == Some(r)
       <==> && payload == RecordBytes(r) && |payload| <= MAX_RESULT_BYTES
            && policy.clean(RecordJson(r)) && r.track == expected && FactsHold(r, policy)
  {
    DecodesExactlyEncodings(payload, RecordText(r));
    var text := Decode(payload);
    if text.Some? {
      DecodesExactlyEncodings(payload, text.value);
      ParsesExactlyRecords(text.value, expected, policy, r);
    }
    hide ParseResult, FactsHold, RecordText, Encode, Decode, RecordJson;
    if payload == RecordBytes(r) {
      ParsesExactlyRecords(RecordText(r), expected, policy, r);
    }
  }

  // ---------- A record line is one bounded line ----------

  lemma {:induction false} EscapePrintable(s: string)
    ensures forall k | 0 <= k < |Escape(s)| :: Escape(s)[k] >= ' '
    ensures Utf8Length(Escape(s)) <= 6 * |s|
  {
    if s != "" {
      EscapePrintable(s[1..]);
      EscapeCharPrintable(s[0]);
      Utf8LengthAppend(EscapeChar(s[0]), Escape(s[1..]));
    }
  }

  lemma EscapeCharPrintable(c: char)
    ensures forall k | 0 <= k < |EscapeChar(c)| :: EscapeChar(c)[k] >= ' '
    ensures Utf8Length(EscapeChar(c)) <= 6
  {
    var e := EscapeChar(c);
    if |e| == 1 {
      assert Utf8Length(e) == Utf8Width(e[0]) + Utf8Length(e[1..]);
    } else {
      AsciiLength(e);
    }
  }

  lemma {:induction false} AsciiLength(s: string)
    requires forall k | 0 <= k < |s| :: s[k] as int <= 0x7f
    ensures Utf8Length(s) == |s|
  {
    if s != "" { AsciiLength(s[1..]); }
  }

  predicate Printable(s: string) {
    forall k | 0 <= k < |s| :: s[k] >= ' '
  }

  lemma QuotePrintable(s: string)
    ensures Printable(Quote(s)) && Utf8Length(Quote(s)) <= 6 * |s| + 2
  {
    EscapePrintable(s);
    Utf8LengthAppend("\"" + Escape(s), "\"");
    Utf8LengthAppend("\"", Escape(s));
    AsciiLength("\"");
  }

  lemma IntTextPrintable(i: int)
    ensures Printable(IntText(i)) && Utf8Length(IntText(i)) == |IntText(i)|
  {
    var s := IntText(i);
    forall k | 0 <= k < |s| ensures s[k] >= ' ' && s[k] as int <= 0x7f {
      if i < 0 && k > 0 { assert s[k] == s[1..][k - 1]; }
    }
    AsciiLength(s);
  }

  /** JSON text holds no control character, so a printed value is one line. */
  lemma {:induction false} TextPrintable(j: Json)
    ensures Printable(Text(j))
    decreases j, 0
  {
    match j {
      case Int(i) => IntTextPrintable(i);
      case Str(s) => QuotePrintable(s);
      case List(items) => ItemsTextPrintable(items);
      case Obj(members) => MembersTextPrintable(members);
      case _ =>
    }
  }

  lemma {:induction false} ItemsTextPrintable(items: seq<Json>)
    ensures Printable(ItemsText(items))
    decreases items, 1
  {
    if items != [] {
      TextPrintable(items[0]);
      ItemsTextPrintable(items[1..]);
    }
  }

  lemma {:induction false} MembersTextPrintable(members: seq<Member>)
    ensures Printable(MembersText(members))
    decreases members, 2
  {
    if members != [] {
      MemberTextPrintable(members[0]);
      MembersTextPrintable(members[1..]);
    }
  }

  lemma {:induction false} MemberTextPrintable(m: Member)
    ensures Printable(MemberText(m))
    decreases m, 1
  {
    QuotePrintable(m.key);
    TextPrintable(m.value);
  }

  lemma OneMore(n: nat, k: nat)
    ensures (n + 1) * k == n * k + k
  {
  }

  lemma {:induction false} MembersTextLength(members: seq<Member>, k: nat)
    requires forall i | 0 <= i < |members| :: Utf8Length(MemberText(members[i])) < k
    ensures Utf8Length(MembersText(members)) <= |members| * k
  {
    hide MemberText;
    if members != [] {
      var rest := members[1..];
      OneMore(|rest|, k);
      var a := MemberText(members[0]);
      if rest == [] {
        assert MembersText(members) == a;
      } else {
        MembersTextLength(rest, k);
        var b := MembersText(rest);
        hide MembersText;
        Utf8LengthAppend(a + ",", b);
        Utf8LengthAppend(a, ",");
        AsciiLength(",");
        MembersTextIs(members);
      }
    }
  }

  lemma MembersTextIs(members: seq<Member>)
    requires |members| > 1
    ensures MembersText(members) == MemberText(members[0]) + "," + MembersText(members[1..])
  {
  }

  lemma ObjectTextLength(members: seq<Member>)
    ensures Utf8Length(Text(Obj(members)) + "\n") == Utf8Length(MembersText(members)) + 3
  {
    var body := MembersText(members);
    assert Text(Obj(members)) == "{" + body + "}";
    hide MembersText, Text;
    Utf8LengthAppend("{" + body + "}", "\n");
    Utf8LengthAppend("{" + body, "}");
    Utf8LengthAppend("{", body);
    AsciiLength("{");
    AsciiLength("}");
    AsciiLength("\n");
  }

  /** A scalar no longer than a digest, a name or a clock reading. */
  predicate SmallScalar(j: Json) {
    match j
    case Null => true
    case Bool(_) => true
    case Int(i) => 0 <= i <= MAX_MONOTONIC_NS
    case Str(s) => |s| <= 64
    case _ => false
  }

  lemma SmallScalarLength(j: Json)
    requires SmallScalar(j)
    ensures Utf8Length(Text(j)) <= 386
  {
    match j {
      case Int(i) =>
        IntTextPrintable(i);
        Pow10Nineteen();
        NatTextLength(i, 19);
      case Str(s) => QuotePrintable(s);
      case _ => AsciiLength(Text(j));
    }
  }

  lemma SmallMemberLength(m: Member)
    requires SmallScalar(m.value) && |m.key| <= 32
    ensures Utf8Length(MemberText(m)) <= 581
  {
    SmallScalarLength(m.value);
    QuotePrintable(m.key);
    Utf8LengthAppend(Quote(m.key) + ":", Text(m.value));
    Utf8LengthAppend(Quote(m.key), ":");
    AsciiLength(":");
  }

  /** An errno table of ordinary size. */
  predicate ShortNames(policy: Policy) {
    forall n | n in policy.errnoNames :: |policy.errnoNames[n]| <= 64 && n < 4096
  }

  lemma KeysAreShort(r: Record, i: nat)
    requires i < |KeysFor(r)|
    ensures |KeysFor(r)[i]| <= 32
  {
  }

  lemma ValuesAreSmall(r: Record, policy: Policy, i: nat)
    requires FactsHold(r, policy) && ShortNames(policy) && i < |ValuesFor(r)|
    ensures SmallScalar(ValuesFor(r)[i])
  {
  }

  /** Every record whose facts hold fits the line bound, with its newline. */
  lemma RecordTextFits(r: Record, policy: Policy)
    requires FactsHold(r, policy) && ShortNames(policy)
    ensures Utf8Length(RecordText(r)) <= MAX_RESULT_BYTES
    ensures Printable(Text(RecordJson(r)))
  {
    hide *;
    var j := RecordJson(r);
    TextPrintable(j);
    RecordMembers(r);
    var ms := j.members;
    forall i | 0 <= i < |ms| ensures Utf8Length(MemberText(ms[i])) < 582 {
      KeysAreShort(r, i);
      ValuesAreSmall(r, policy, i);
      SmallMemberLength(ms[i]);
    }
    MembersTextLength(ms, 582);
    ObjectTextLength(ms);
  }

  lemma RecordMembers(r: Record)
    ensures RecordJson(r).Obj? && RecordText(r) == Text(RecordJson(r)) + "\n"
    ensures |RecordJson(r).members| == |KeysFor(r)| == |ValuesFor(r)| <= 13
    ensures forall i | 0 <= i < |KeysFor(r)| :: RecordJson(r).members[i] == Member(KeysFor(r)[i], ValuesFor(r)[i])
    ensures MAX_RESULT_BYTES == 8192
  {
  }

  /** A built record is accepted back exactly when its facts hold and the scan finds nothing. */
  lemma BuiltRecordIsAccepted(r: Record, policy: Policy)
    requires ShortNames(policy)
    ensures ParseResult(RecordText(r), r.track, policy) == Some(r) <==> FactsHold(r, policy) && policy.clean(RecordJson(r))
    ensures ParseResult(RecordText(r), r.track, policy) in {None, Some(r)}
  {
    ParsesExactlyRecords(RecordText(r), r.track, policy, r);
    if FactsHold(r, policy) {
      RecordTextFits(r, policy);
    }
    var p := ParseResult(RecordText(r), r.track, policy);
    if p.Some? {
      ParsesExactlyRecords(RecordText(r), r.track, policy, p.value);
      RecordTextInjective(r, p.value);
    }
  }

  lemma RecordTextInjective(a: Record, b: Record)
    requires RecordText(a) == RecordText(b)
    ensures a == b
  {
    assert RecordText(a)[..|RecordText(a)| - 1] == Text(RecordJson(a));
    assert RecordText(b)[..|RecordText(b)| - 1] == Text(RecordJson(b));
    TextInjective(RecordJson(a), RecordJson(b));
    ReadRecordComplete(a);
    ReadRecordComplete(b);
  }
}
