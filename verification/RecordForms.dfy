/** Every line this system writes is canonical text, and which value stands under which key. */
module RecordForms {
  import opened Basics
  import opened Digits
  import opened Json
  import opened Ordering
  import opened CanonicalForm
  import opened DriverProtocol
  import opened DriverInstruction
  import L = LedgerRecord
  import C = Canonical

  // ---------- The literal key lists are in order ----------

  lemma Ascends(keys: seq<string>, places: seq<nat>)
    requires |places| + 1 == |keys|
    requires forall i | 0 <= i < |places| :: ComesFirstAt(keys[i], keys[i + 1], places[i])
    ensures forall i, k | 0 <= i < k < |keys| :: ComesFirst(keys[i], keys[k])
  {
    hide Less, ComesFirst;
    forall i | 0 <= i < |places| ensures Less(keys[i], keys[i + 1]) {
      LessAt(keys[i], keys[i + 1], places[i]);
    }
    forall i: nat, k: nat | i < k < |keys| ensures ComesFirst(keys[i], keys[k]) {
      StepsLess(keys, i, k);
      LessIsByCodePoint(keys[i], keys[k]);
    }
  }

  lemma {:induction false} StepsLess(keys: seq<string>, i: nat, k: nat)
    requires forall j | 0 <= j < |keys| - 1 :: Less(keys[j], keys[j + 1])
    requires i < k < |keys|
    ensures Less(keys[i], keys[k])
  {
    hide Less;
    if i + 1 < k {
      StepsLess(keys, i, k - 1);
      LessTransitive(keys[i], keys[k - 1], keys[k]);
    }
  }

  lemma ReadinessKeysAscend()
    ensures forall i, k | 0 <= i < k < |READINESS_KEYS| :: ComesFirst(READINESS_KEYS[i], READINESS_KEYS[k])
  {
    hide ComesFirst;
    Ascends(READINESS_KEYS, [0, 0, 1, 0]);
  }

  lemma CompleteKeysAscend()
    ensures forall i, k | 0 <= i < k < |COMPLETE_KEYS| :: ComesFirst(COMPLETE_KEYS[i], COMPLETE_KEYS[k])
  {
    hide ComesFirst;
    Ascends(COMPLETE_KEYS, [0, 0, 0, 2, 2, 0, 1, 1, 0]);
  }

  lemma FailureKeysAscend()
    ensures forall i, k | 0 <= i < k < |FAILURE_KEYS| :: ComesFirst(FAILURE_KEYS[i], FAILURE_KEYS[k])
  {
    hide ComesFirst;
    Ascends(FAILURE_KEYS, [0, 0, 5, 1, 0, 0, 2, 0, 1, 1, 3, 0]);
  }

  lemma ControlKeysAscend()
    ensures forall i, k | 0 <= i < k < |CONTROL_KEYS| :: ComesFirst(CONTROL_KEYS[i], CONTROL_KEYS[k])
  {
    hide ComesFirst;
    Ascends(CONTROL_KEYS, [0, 0, 2, 0, 1, 3, 0]);
  }

  lemma TopKeysAscend()
    ensures forall i, k | 0 <= i < k < |TOP_KEYS| :: ComesFirst(TOP_KEYS[i], TOP_KEYS[k])
  {
    hide ComesFirst;
    Ascends(TOP_KEYS, [0, 0, 0, 0, 0]);
  }

  lemma BaseHeadersAscend()
    ensures forall i, k | 0 <= i < k < |BASE_HEADERS| :: ComesFirst(BASE_HEADERS[i], BASE_HEADERS[k])
  {
    hide ComesFirst;
    Ascends(BASE_HEADERS, [0, 8, 2, 6, 6, 6, 6, 6, 6, 2]);
  }

  lemma SignedHeadersAscend()
    ensures forall i, k | 0 <= i < k < |SIGNED_HEADERS| :: ComesFirst(SIGNED_HEADERS[i], SIGNED_HEADERS[k])
  {
    hide ComesFirst;
    Ascends(SIGNED_HEADERS, [0, 8, 2, 6, 6, 6, 6, 6, 6, 6, 2]);
  }

  lemma MarkerKeysAscend()
    ensures forall i, k | 0 <= i < k < |L.KEYS| :: ComesFirst(L.KEYS[i], L.KEYS[k])
  {
    hide ComesFirst;
    Ascends(L.KEYS, [0, 0, 2, 2, 1, 0, 0]);
  }

  // ---------- Every line is canonical text ----------

  lemma PlainObjectAscends(keys: seq<string>, values: seq<Json>)
    requires |keys| == |values| && forall i, k | 0 <= i < k < |keys| :: ComesFirst(keys[i], keys[k])
    requires forall i | 0 <= i < |values| :: KeysAscend(values[i])
    ensures KeysAscend(Obj(Zip(keys, values)))
  {
    hide ComesFirst;
  }

  lemma RecordAscends(r: Record)
    ensures KeysAscend(RecordJson(r))
  {
    RecordKeysAscend(r);
    RecordValuesAscend(r);
    hide KeysFor, ValuesFor, KeysAscend, ComesFirst;
    PlainObjectAscends(KeysFor(r), ValuesFor(r));
  }

  lemma RecordKeysAscend(r: Record)
    ensures forall i, k | 0 <= i < k < |KeysFor(r)| :: ComesFirst(KeysFor(r)[i], KeysFor(r)[k])
  {
    ReadinessKeysAscend();
    CompleteKeysAscend();
    FailureKeysAscend();
    ControlKeysAscend();
    hide ComesFirst, READINESS_KEYS, COMPLETE_KEYS, FAILURE_KEYS, CONTROL_KEYS;
  }

  lemma RecordValuesAscend(r: Record)
    ensures forall i | 0 <= i < |ValuesFor(r)| :: KeysAscend(ValuesFor(r)[i])
  {
    hide ComesFirst, TrackName, StageName, ClassName, ControlStageName;
  }

  lemma InstructionAscends(i: Instruction)
    ensures KeysAscend(InstructionJson(i))
  {
    BaseHeadersAscend();
    SignedHeadersAscend();
    TopKeysAscend();
    HeaderValuesAscend(i);
    hide ComesFirst, KeysAscend, HeaderValues, TrackName;
    PlainObjectAscends(HeaderNames(i), HeaderValues(i));
    var v := TopValues(i);
    ScalarAscends(v[0]);
    ScalarAscends(v[2]);
    ScalarAscends(v[3]);
    ScalarAscends(v[4]);
    ScalarAscends(v[5]);
    PlainObjectAscends(TOP_KEYS, v);
  }

  lemma ScalarAscends(j: Json)
    requires !j.List? && !j.Obj?
    ensures KeysAscend(j)
  {
  }

  lemma HeaderValuesAscend(i: Instruction)
    ensures forall k | 0 <= k < |HeaderValues(i)| :: KeysAscend(HeaderValues(i)[k])
  {
    forall k | 0 <= k < |HeaderValues(i)| ensures HeaderValues(i)[k].Str? {
    }
    hide HeaderValues, ComesFirst;
  }

  lemma MarkerAscends(r: L.TargetRecord)
    ensures KeysAscend(L.MarkerJson(r))
  {
    MarkerKeysAscend();
    hide ComesFirst;
    assert forall i | 0 <= i < 8 :: KeysAscend(L.Values(r)[i]);
    hide L.Values, KeysAscend;
    PlainObjectAscends(L.KEYS, L.Values(r));
  }

  /** A record line is the canonical text of its fields, whatever order they are given in, and a newline. */
  lemma RecordTextIsCanonical(r: Record)
    ensures C.SortKeys(RecordJson(r)) == RecordJson(r)
    ensures RecordText(r) == C.CanonicalText(Plainly(RecordJson(r))) + "\n"
  {
    hide *;
    RecordAscends(r);
    InOrderStays(RecordJson(r));
    InOrderIsCanonical(RecordJson(r));
    RecordTextIs(r);
  }

  lemma RecordTextIs(r: Record)
    ensures RecordText(r) == Text(RecordJson(r)) + "\n"
  {
    hide Text, RecordJson;
  }

  lemma InstructionTextIsCanonical(i: Instruction)
    ensures C.SortKeys(InstructionJson(i)) == InstructionJson(i)
    ensures InstructionText(i) == C.CanonicalText(Plainly(InstructionJson(i))) + "\n"
  {
    hide *;
    InstructionAscends(i);
    InOrderStays(InstructionJson(i));
    InOrderIsCanonical(InstructionJson(i));
    InstructionTextIs(i);
  }

  lemma InstructionTextIs(i: Instruction)
    ensures InstructionText(i) == Text(InstructionJson(i)) + "\n"
  {
    hide Text, InstructionJson;
  }

  lemma MarkerIsCanonical(r: L.TargetRecord)
    ensures C.SortKeys(L.MarkerJson(r)) == L.MarkerJson(r)
    ensures Text(L.MarkerJson(r)) == C.CanonicalText(Plainly(L.MarkerJson(r)))
  {
    hide *;
    MarkerAscends(r);
    InOrderStays(L.MarkerJson(r));
    InOrderIsCanonical(L.MarkerJson(r));
  }

  // ---------- Which value stands under which key ----------

  function Quoted(s: string): string {
    "\"" + s + "\""
  }

  /** A key and the text of its value, one after another. */
  function FieldsText(fields: seq<(string, string)>): string {
    if |fields| == 0 then ""
    else
      var first := Quoted(fields[0].0) + ":" + fields[0].1;
      if |fields| == 1 then first else first + "," + FieldsText(fields[1..])
  }

  /** A line of these fields. */
  function Line(fields: seq<(string, string)>): string {
    "{" + FieldsText(fields) + "}\n"
  }

  lemma PlainText(s: string)
    requires L.AllPlain(s)
    ensures Text(Str(s)) == Quoted(s)
  {
    L.QuotePlain(s);
  }

  lemma ScalarTexts()
    ensures forall i :: Text(Int(i)) == IntText(i)
    ensures Text(Bool(false)) == "false" && Text(Bool(true)) == "true" && Text(Null) == "null"
  {
  }

  lemma MemberIs(key: string, value: Json)
    requires L.AllPlain(key)
    ensures MemberText(Member(key, value)) == Quoted(key) + ":" + Text(value)
  {
    L.QuotePlain(key);
    hide Text;
  }

  lemma {:induction false} MembersFields(keys: seq<string>, values: seq<Json>, fields: seq<(string, string)>)
    requires |keys| == |values| == |fields|
    requires forall i | 0 <= i < |keys| :: L.AllPlain(keys[i]) && fields[i] == (keys[i], Text(values[i]))
    ensures MembersText(Zip(keys, values)) == FieldsText(fields)
    decreases |keys|
  {
    hide Text, L.AllPlain;
    if |keys| > 0 {
      assert Zip(keys, values)[1..] == Zip(keys[1..], values[1..]);
      MembersFields(keys[1..], values[1..], fields[1..]);
      MemberIs(keys[0], values[0]);
    }
  }

  lemma ObjectLine(keys: seq<string>, values: seq<Json>, fields: seq<(string, string)>)
    requires |keys| == |values| == |fields|
    requires forall i | 0 <= i < |keys| :: L.AllPlain(keys[i]) && fields[i] == (keys[i], Text(values[i]))
    ensures Text(Obj(Zip(keys, values))) + "\n" == Line(fields)
  {
    MembersFields(keys, values, fields);
    hide MembersText, FieldsText, L.AllPlain;
    assert ("{" + FieldsText(fields) + "}") + "\n" == "{" + FieldsText(fields) + "}\n";
  }

  lemma TrackIsPlain(t: Track)
    ensures L.AllPlain(TrackName(t))
  {
    match t {
      case CredentialPolicyBaseline =>
      case SignedStateOnly =>
      case SignedPlusLocalReduce =>
    }
  }

  lemma StageIsPlain(s: Stage)
    ensures L.AllPlain(StageName(s))
  {
    match s {
      case RequestSend =>
      case ResponseHeaders =>
      case ResponseBody =>
    }
  }

  lemma ControlStageIsPlain(s: ControlStage)
    ensures L.AllPlain(ControlStageName(s))
  {
    match s {
      case InstructionWrite =>
      case StdoutRead =>
      case ProcessWait =>
      case Termination =>
    }
  }

  lemma ClassIsPlain(e: ExceptionClass)
    ensures L.AllPlain(ClassName(e))
  {
    match e {
      case OSErrorClass =>
      case TimeoutErrorClass =>
      case ConnectionErrorClass =>
      case BrokenPipeErrorClass =>
      case ConnectionAbortedErrorClass =>
      case ConnectionRefusedErrorClass =>
      case ConnectionResetErrorClass =>
    }
  }

  lemma ConstantsArePlain()
    ensures L.AllPlain("kil.v3b1-driver-readiness.v1") && L.AllPlain("kil.v3b1-driver-result.v1")
    ensures L.AllPlain("ready") && L.AllPlain("complete") && L.AllPlain("transport_failure") && L.AllPlain("driver_control_failure")
  {
  }

  lemma RecordKeysPlain1()
    ensures L.AllPlain("connect_monotonic_ns") && L.AllPlain("ready_monotonic_ns") && L.AllPlain("schema_version")
    ensures L.AllPlain("status") && L.AllPlain("track") && L.AllPlain("attempt_count")
  {
  }

  lemma RecordKeysPlain2()
    ensures L.AllPlain("decision_digest") && L.AllPlain("receive_monotonic_ns") && L.AllPlain("response_status")
    ensures L.AllPlain("retry_performed") && L.AllPlain("send_monotonic_ns") && L.AllPlain("errno")
  {
  }

  lemma RecordKeysPlain3()
    ensures L.AllPlain("errno_name") && L.AllPlain("exception_class") && L.AllPlain("failure_monotonic_ns")
    ensures L.AllPlain("request_bytes_may_have_been_sent") && L.AllPlain("stage")
  {
  }

  lemma KeysArePlain(r: Record, i: nat)
    requires i < |KeysFor(r)|
    ensures L.AllPlain(KeysFor(r)[i])
  {
    hide L.AllPlain, ValuesFor;
    RecordKeysPlain1();
    RecordKeysPlain2();
    RecordKeysPlain3();
  }

  lemma RecordLine(r: Record, fields: seq<(string, string)>)
    requires |fields| == |KeysFor(r)|
    requires forall i | 0 <= i < |fields| :: fields[i] == (KeysFor(r)[i], Text(ValuesFor(r)[i]))
    ensures RecordText(r) == Line(fields)
  {
    forall i | 0 <= i < |fields| ensures L.AllPlain(KeysFor(r)[i]) {
      KeysArePlain(r, i);
    }
    hide L.AllPlain, KeysFor, ValuesFor, Text, Line;
    ObjectLine(KeysFor(r), ValuesFor(r), fields);
  }

  lemma ReadinessLine(track: Track, connect: int, ready: int)
    ensures RecordText(Readiness(track, connect, ready)) == Line([
      ("connect_monotonic_ns", IntText(connect)), ("ready_monotonic_ns", IntText(ready)),
      ("schema_version", Quoted("kil.v3b1-driver-readiness.v1")), ("status", Quoted("ready")),
      ("track", Quoted(TrackName(track)))])
  {
    hide Text, L.AllPlain, TrackName, Line, Quoted, RecordText;
    ConstantsArePlain();
    TrackIsPlain(track);
    ScalarTexts();
    PlainText("kil.v3b1-driver-readiness.v1");
    PlainText("ready");
    PlainText(TrackName(track));
    RecordLine(Readiness(track, connect, ready), [
      ("connect_monotonic_ns", IntText(connect)), ("ready_monotonic_ns", IntText(ready)),
      ("schema_version", Quoted("kil.v3b1-driver-readiness.v1")), ("status", Quoted("ready")),
      ("track", Quoted(TrackName(track)))]);
  }

  lemma CompleteLine(track: Track, connect: int, send: int, receive: int, status: int, digest: string)
    requires IsSha256(digest)
    ensures RecordText(Complete(track, connect, send, receive, status, digest)) == Line([
      ("attempt_count", "1"), ("connect_monotonic_ns", IntText(connect)), ("decision_digest", Quoted(digest)),
      ("receive_monotonic_ns", IntText(receive)), ("response_status", IntText(status)), ("retry_performed", "false"),
      ("schema_version", Quoted("kil.v3b1-driver-result.v1")), ("send_monotonic_ns", IntText(send)),
      ("status", Quoted("complete")), ("track", Quoted(TrackName(track)))])
  {
    hide Text, L.AllPlain, TrackName, StageName, ControlStageName, ClassName, Line, Quoted, RecordText, Escape, Quote, IntText, IsSha256;
    ConstantsArePlain();
    ScalarTexts();
    OneIs();
    TrackIsPlain(track);
    L.DigestIsPlain(digest);
    PlainText(digest);
    PlainText("kil.v3b1-driver-result.v1");
    PlainText("complete");
    PlainText(TrackName(track));
    RecordLine(Complete(track, connect, send, receive, status, digest), [
      ("attempt_count", "1"), ("connect_monotonic_ns", IntText(connect)), ("decision_digest", Quoted(digest)),
      ("receive_monotonic_ns", IntText(receive)), ("response_status", IntText(status)), ("retry_performed", "false"),
      ("schema_version", Quoted("kil.v3b1-driver-result.v1")), ("send_monotonic_ns", IntText(send)),
      ("status", Quoted("complete")), ("track", Quoted(TrackName(track)))]);
  }

  lemma TransportFailureLine(track: Track, stage: Stage, kind: ExceptionClass, errno: Option<Errno>, connect: int, send: int,
                              failure: int, maySent: bool)
    ensures RecordText(TransportFailure(track, stage, kind, errno, connect, send, failure, maySent)) == Line([
      ("attempt_count", "1"), ("connect_monotonic_ns", IntText(connect)),
      ("errno", if errno.Some? then IntText(errno.value.number) else "null"),
      ("errno_name", if errno.Some? then Quote(errno.value.name) else "null"),
      ("exception_class", Quoted(ClassName(kind))), ("failure_monotonic_ns", IntText(failure)),
      ("request_bytes_may_have_been_sent", if maySent then "true" else "false"), ("retry_performed", "false"),
      ("schema_version", Quoted("kil.v3b1-driver-result.v1")), ("send_monotonic_ns", IntText(send)),
      ("stage", Quoted(StageName(stage))), ("status", Quoted("transport_failure")),
      ("track", Quoted(TrackName(track)))])
  {
    hide Text, L.AllPlain, TrackName, StageName, ControlStageName, ClassName, Line, Quoted, RecordText, Escape, Quote, IntText, IsSha256;
    ConstantsArePlain();
    ScalarTexts();
    OneIs();
    QuoteIs();
    TrackIsPlain(track);
    StageIsPlain(stage);
    ClassIsPlain(kind);
    PlainText("kil.v3b1-driver-result.v1");
    PlainText("transport_failure");
    PlainText(TrackName(track));
    PlainText(StageName(stage));
    PlainText(ClassName(kind));
    RecordLine(TransportFailure(track, stage, kind, errno, connect, send, failure, maySent), [
      ("attempt_count", "1"), ("connect_monotonic_ns", IntText(connect)),
      ("errno", if errno.Some? then IntText(errno.value.number) else "null"),
      ("errno_name", if errno.Some? then Quote(errno.value.name) else "null"),
      ("exception_class", Quoted(ClassName(kind))), ("failure_monotonic_ns", IntText(failure)),
      ("request_bytes_may_have_been_sent", if maySent then "true" else "false"), ("retry_performed", "false"),
      ("schema_version", Quoted("kil.v3b1-driver-result.v1")), ("send_monotonic_ns", IntText(send)),
      ("stage", Quoted(StageName(stage))), ("status", Quoted("transport_failure")),
      ("track", Quoted(TrackName(track)))]);
  }

  lemma ControlFailureLine(track: Track, stage: ControlStage, failure: int, maySent: bool)
    ensures RecordText(ControlFailure(track, stage, failure, maySent)) == Line([
      ("attempt_count", "1"), ("failure_monotonic_ns", IntText(failure)),
      ("request_bytes_may_have_been_sent", if maySent then "true" else "false"), ("retry_performed", "false"),
      ("schema_version", Quoted("kil.v3b1-driver-result.v1")), ("stage", Quoted(ControlStageName(stage))),
      ("status", Quoted("driver_control_failure")), ("track", Quoted(TrackName(track)))])
  {
    hide Text, L.AllPlain, TrackName, StageName, ControlStageName, ClassName, Line, Quoted, RecordText, Escape, Quote, IntText, IsSha256;
    ConstantsArePlain();
    ScalarTexts();
    OneIs();
    TrackIsPlain(track);
    ControlStageIsPlain(stage);
    PlainText("kil.v3b1-driver-result.v1");
    PlainText("driver_control_failure");
    PlainText(TrackName(track));
    PlainText(ControlStageName(stage));
    RecordLine(ControlFailure(track, stage, failure, maySent), [
      ("attempt_count", "1"), ("failure_monotonic_ns", IntText(failure)),
      ("request_bytes_may_have_been_sent", if maySent then "true" else "false"), ("retry_performed", "false"),
      ("schema_version", Quoted("kil.v3b1-driver-result.v1")), ("stage", Quoted(ControlStageName(stage))),
      ("status", Quoted("driver_control_failure")), ("track", Quoted(TrackName(track)))]);
  }

  lemma OneIs()
    ensures IntText(1) == "1" && IntText(0) == "0"
  {
  }

  lemma QuoteIs()
    ensures forall s :: Text(Str(s)) == Quote(s)
  {
  }

  lemma MarkerTexts(r: L.TargetRecord)
    requires L.Constructs(r)
    ensures Text(Str(r.runId)) == Quoted(r.runId) && Text(Str(r.requestId)) == Quoted(r.requestId)
    ensures Text(Str(r.path)) == Quoted(r.path) && Text(Str(r.digest)) == Quoted(r.digest)
    ensures Text(Str("kil.v3b-target-record.v1")) == Quoted("kil.v3b-target-record.v1")
    ensures Text(Str(TrackName(r.track))) == Quoted(TrackName(r.track))
  {
    L.IdentifierIsPlain(r.runId);
    L.IdentifierIsPlain(r.requestId);
    L.PathIsPlain(r.path);
    L.DigestIsPlain(r.digest);
    L.SchemaIsPlain();
    TrackIsPlain(r.track);
    hide Text, L.AllPlain, TrackName, Quoted, IsSha256, L.IsIdentifier, L.IsTargetPath;
    PlainText(r.runId);
    PlainText(r.requestId);
    PlainText(r.path);
    PlainText(r.digest);
    PlainText("kil.v3b-target-record.v1");
    PlainText(TrackName(r.track));
  }

  /** The line of a ledger marker. */
  lemma MarkerLineIs(r: L.TargetRecord)
    requires L.Constructs(r)
    ensures Text(L.MarkerJson(r)) + "\n" == Line([
      ("decision_digest", Quoted(r.digest)), ("path", Quoted(r.path)),
      ("received_monotonic_ns", IntText(r.receivedNs)), ("request_id", Quoted(r.requestId)),
      ("response_monotonic_ns", IntText(r.responseNs)), ("run_id", Quoted(r.runId)),
      ("schema_version", Quoted("kil.v3b-target-record.v1")), ("track", Quoted(TrackName(r.track)))])
  {
    hide *;
    MarkerTexts(r);
    ScalarTexts();
    MarkerLineOf(r, [
      ("decision_digest", Quoted(r.digest)), ("path", Quoted(r.path)),
      ("received_monotonic_ns", IntText(r.receivedNs)), ("request_id", Quoted(r.requestId)),
      ("response_monotonic_ns", IntText(r.responseNs)), ("run_id", Quoted(r.runId)),
      ("schema_version", Quoted("kil.v3b-target-record.v1")), ("track", Quoted(TrackName(r.track)))]);
  }

  lemma MarkerLineOf(r: L.TargetRecord, fields: seq<(string, string)>)
    requires |fields| == 8 && fields[0] == ("decision_digest", Text(Str(r.digest))) && fields[1] == ("path", Text(Str(r.path)))
    requires fields[2] == ("received_monotonic_ns", Text(Int(r.receivedNs))) && fields[3] == ("request_id", Text(Str(r.requestId)))
    requires fields[4] == ("response_monotonic_ns", Text(Int(r.responseNs))) && fields[5] == ("run_id", Text(Str(r.runId)))
    requires fields[6] == ("schema_version", Text(Str("kil.v3b-target-record.v1")))
    requires fields[7] == ("track", Text(Str(TrackName(r.track))))
    ensures Text(L.MarkerJson(r)) + "\n" == Line(fields)
  {
    hide Text, L.AllPlain, TrackName, Line;
    MarkerShape(r);
    forall k: nat | k < 8 ensures L.AllPlain(L.KEYS[k]) && fields[k] == (L.KEYS[k], Text(L.Values(r)[k])) {
      L.KeyIsPlain(k);
    }
    hide L.Values, L.KEYS, L.MarkerJson;
    ObjectLine(L.KEYS, L.Values(r), fields);
  }

  lemma MarkerShape(r: L.TargetRecord)
    ensures L.MarkerJson(r) == Obj(Zip(L.KEYS, L.Values(r)))
  {
  }

  /** The headers of an instruction and the texts of their values. */
  function Headers(i: Instruction): seq<(string, string)> {
    [("authorization", Quote(i.authorization)), ("x-envoy-hedge-on-per-try-timeout", Quoted("false")),
     ("x-envoy-max-retries", Quoted("0")),
     ("x-kil-decision-digest", Quoted(seq(64, k => 'f'))),
     ("x-kil-issuer", Quoted("https://attacker.invalid")), ("x-kil-local-evidence", Quote("{\"divergence\":\"0\"}")),
     ("x-kil-mode", Quoted("credential_policy_baseline"))]
    + (if i.qState.Some? then [("x-kil-q-state", Quote(i.qState.value))] else [])
    + [("x-kil-run-id", Quote(i.runId)), ("x-kil-track", Quoted("client-selected-track")),
       ("x-kil-verified-subject", Quoted("spiffe://attacker.invalid/workload")), ("x-request-id", Quoted("v3b1-central-request"))]
  }

  /** The line of an instruction: its headers, with the signed state if there is one, inside the fixed request. */
  lemma InstructionLine(i: Instruction)
    ensures InstructionText(i) == Line([
      ("body_byte_count", "0"), ("headers", "{" + FieldsText(Headers(i)) + "}"), ("method", Quoted("POST")),
      ("path", Quoted("/consequential/admin")), ("schema_version", Quoted("kil.v3b1-driver-instruction.v1")),
      ("track", Quoted(TrackName(i.track)))])
  {
    hide *;
    HeadersText(i);
    ScalarTexts();
    OneIs();
    TopTexts(i.track);
    TopLine(i, [
      ("body_byte_count", "0"), ("headers", "{" + FieldsText(Headers(i)) + "}"), ("method", Quoted("POST")),
      ("path", Quoted("/consequential/admin")), ("schema_version", Quoted("kil.v3b1-driver-instruction.v1")),
      ("track", Quoted(TrackName(i.track)))]);
  }

  lemma TopTexts(track: Track)
    ensures Text(Str("POST")) == Quoted("POST") && Text(Str("/consequential/admin")) == Quoted("/consequential/admin")
    ensures Text(Str("kil.v3b1-driver-instruction.v1")) == Quoted("kil.v3b1-driver-instruction.v1")
    ensures Text(Str(TrackName(track))) == Quoted(TrackName(track))
  {
    TrackIsPlain(track);
    assert L.AllPlain("POST") && L.AllPlain("/consequential/admin") && L.AllPlain("kil.v3b1-driver-instruction.v1");
    hide *;
    PlainText("POST");
    PlainText("/consequential/admin");
    PlainText("kil.v3b1-driver-instruction.v1");
    PlainText(TrackName(track));
  }

  lemma TopLine(i: Instruction, fields: seq<(string, string)>)
    requires |fields| == 6 && fields[0] == ("body_byte_count", Text(Int(0)))
    requires fields[1] == ("headers", Text(Obj(Zip(HeaderNames(i), HeaderValues(i)))))
    requires fields[2] == ("method", Text(Str("POST"))) && fields[3] == ("path", Text(Str("/consequential/admin")))
    requires fields[4] == ("schema_version", Text(Str("kil.v3b1-driver-instruction.v1")))
    requires fields[5] == ("track", Text(Str(TrackName(i.track))))
    ensures InstructionText(i) == Line(fields)
  {
    TopKeysPlain();
    hide Text, L.AllPlain, TrackName, Line, HeaderNames, HeaderValues;
    assert |TOP_KEYS| == |TopValues(i)| == 6;
    forall k: nat | k < 6 ensures L.AllPlain(TOP_KEYS[k]) && fields[k] == (TOP_KEYS[k], Text(TopValues(i)[k])) {
    }
    hide TOP_KEYS, TopValues;
    ObjectLine(TOP_KEYS, TopValues(i), fields);
  }

  lemma HeaderTexts()
    ensures Text(Str("false")) == Quoted("false") && Text(Str("0")) == Quoted("0")
    ensures Text(Str("https://attacker.invalid")) == Quoted("https://attacker.invalid")
    ensures Text(Str("credential_policy_baseline")) == Quoted("credential_policy_baseline")
    ensures Text(Str("client-selected-track")) == Quoted("client-selected-track")
    ensures Text(Str("spiffe://attacker.invalid/workload")) == Quoted("spiffe://attacker.invalid/workload")
    ensures Text(Str("v3b1-central-request")) == Quoted("v3b1-central-request")
  {
    TrackIsPlain(CredentialPolicyBaseline);
    assert L.AllPlain("false") && L.AllPlain("0") && L.AllPlain("https://attacker.invalid") && L.AllPlain("client-selected-track");
    assert L.AllPlain("spiffe://attacker.invalid/workload") && L.AllPlain("v3b1-central-request");
    hide L.AllPlain, Text, Quoted;
    PlainText("false");
    PlainText("0");
    PlainText("https://attacker.invalid");
    PlainText("credential_policy_baseline");
    PlainText("client-selected-track");
    PlainText("spiffe://attacker.invalid/workload");
    PlainText("v3b1-central-request");
  }

  lemma FillerText()
    ensures Text(Str(seq(64, k => 'f'))) == Quoted(seq(64, k => 'f')) && FillerDigest() == seq(64, k => 'f')
  {
    PlainText(FillerDigest());
  }

  lemma HeadersText(i: Instruction)
    ensures Text(Obj(Zip(HeaderNames(i), HeaderValues(i)))) == "{" + FieldsText(Headers(i)) + "}"
  {
    HeaderTexts();
    FillerText();
    QuoteIs();
    HeaderKeysPlain1();
    HeaderKeysPlain2();
    hide Text, L.AllPlain, Quoted, Quote, FieldsText;
    var names, values, fields := HeaderNames(i), HeaderValues(i), Headers(i);
    forall k: nat | k < |names| ensures L.AllPlain(names[k]) {
    }
    HeadersAlign(i);
    hide HeaderNames, HeaderValues, Headers;
    ObjectMembers(names, values, fields);
  }

  lemma HeadersAlign(i: Instruction)
    requires Text(Str("false")) == Quoted("false") && Text(Str("0")) == Quoted("0")
    requires Text(Str("https://attacker.invalid")) == Quoted("https://attacker.invalid")
    requires Text(Str("credential_policy_baseline")) == Quoted("credential_policy_baseline")
    requires Text(Str("client-selected-track")) == Quoted("client-selected-track")
    requires Text(Str("spiffe://attacker.invalid/workload")) == Quoted("spiffe://attacker.invalid/workload")
    requires Text(Str("v3b1-central-request")) == Quoted("v3b1-central-request")
    requires Text(Str(FillerDigest())) == Quoted(FillerDigest()) && forall s :: Text(Str(s)) == Quote(s)
    ensures |Headers(i)| == |HeaderNames(i)|
    ensures forall k | 0 <= k < |Headers(i)| :: Headers(i)[k] == (HeaderNames(i)[k], Text(HeaderValues(i)[k]))
  {
    hide Text, Quoted, Quote;
  }

  lemma ObjectMembers(keys: seq<string>, values: seq<Json>, fields: seq<(string, string)>)
    requires |keys| == |values| == |fields|
    requires forall i | 0 <= i < |keys| :: L.AllPlain(keys[i]) && fields[i] == (keys[i], Text(values[i]))
    ensures Text(Obj(Zip(keys, values))) == "{" + FieldsText(fields) + "}"
  {
    MembersFields(keys, values, fields);
    hide MembersText, FieldsText, L.AllPlain;
  }

  lemma HeaderKeysPlain1()
    ensures L.AllPlain("authorization") && L.AllPlain("x-envoy-hedge-on-per-try-timeout") && L.AllPlain("x-envoy-max-retries")
    ensures L.AllPlain("x-kil-decision-digest") && L.AllPlain("x-kil-issuer") && L.AllPlain("x-kil-local-evidence")
  {
  }

  lemma HeaderKeysPlain2()
    ensures L.AllPlain("x-kil-mode") && L.AllPlain("x-kil-q-state") && L.AllPlain("x-kil-run-id") && L.AllPlain("x-kil-track")
    ensures L.AllPlain("x-kil-verified-subject") && L.AllPlain("x-request-id")
  {
  }

  lemma TopKeysPlain()
    ensures L.AllPlain("body_byte_count") && L.AllPlain("headers") && L.AllPlain("method") && L.AllPlain("path")
    ensures L.AllPlain("schema_version") && L.AllPlain("track")
  {
  }
}
