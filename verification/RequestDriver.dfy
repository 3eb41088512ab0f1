/** The request driver: one readiness line, at most one instruction, at most one request, one result line. */
module RequestDriver {
  import opened Basics
  import opened Utf8
  import opened Json
  import opened DriverProtocol
  import opened DriverInstruction

  const MAX_RESPONSE_BODY_BYTES := 4096
  const NEWLINE: Byte := 10

  // ---------- The environment, which may behave in any of these ways ----------

  /** An exception the driver catches: the reported class its own name is, if any, the reported classes it is an
      instance of, and the number it carries. */
  datatype Raised = Raised(own: Option<ExceptionClass>, classes: set<ExceptionClass>, number: Option<int>)

  /** What a call does: return, raise something the driver catches, or raise anything else. */
  datatype Outcome<+T> = Returns(value: T) | Fails(error: Raised) | Escapes

  /** The status and the digest header as far as they have the right types. */
  datatype Response = Response(status: Option<int>, digest: Option<string>)

  /** The body as read, if it is bytes, and what the response says is left: nothing said, or a number if it is one. */
  datatype Body = Body(size: Option<nat>, left: Option<Option<int>>)

  datatype Input = Bytes(content: seq<Byte>) | ReadFails | ReadEscapes

  /** What the next write to standard output does. A legal report is how much was taken; any other report says
      nothing about what got through. */
  datatype WriteEvent =
    | Takes(size: nat)
    | Misreports(report: Option<int>, through: nat)
    | WriteFails(through: nat)
    | WriteEscapes(through: nat)

  datatype Exit = Code(code: int) | Escaped

  // ---------- Building records ----------

  const OS_ERROR := Raised(Some(OSErrorClass), {OSErrorClass}, None)

  /** `_exception_class`: its own name, or else the first of these classes it belongs to. */
  function ReportedClass(e: Raised): ExceptionClass {
    if e.own.Some? then e.own.value
    else if BrokenPipeErrorClass in e.classes then BrokenPipeErrorClass
    else if ConnectionAbortedErrorClass in e.classes then ConnectionAbortedErrorClass
    else if ConnectionRefusedErrorClass in e.classes then ConnectionRefusedErrorClass
    else if ConnectionResetErrorClass in e.classes then ConnectionResetErrorClass
    else if TimeoutErrorClass in e.classes then TimeoutErrorClass
    else if ConnectionErrorClass in e.classes then ConnectionErrorClass
    else OSErrorClass
  }

  /** The reported classes, most particular first. */
  const REPORTED := [
    BrokenPipeErrorClass, ConnectionAbortedErrorClass, ConnectionRefusedErrorClass, ConnectionResetErrorClass,
    TimeoutErrorClass, ConnectionErrorClass, OSErrorClass]

  /** An exception is reported under its own name if that is one of the seven, and otherwise under the first of them it
      is an instance of; an instance of none of the first six is an `OSError`. */
  lemma ReportedClassIs(e: Raised)
    ensures e.own.Some? ==> ReportedClass(e) == e.own.value
    ensures e.own.None? ==> exists i :: (
      && 0 <= i < 7 && REPORTED[i] == ReportedClass(e) && (REPORTED[i] in e.classes || i == 6)
      && forall j | 0 <= j < i :: REPORTED[j] !in e.classes)
  {
    if e.own.None? {
      var i := if BrokenPipeErrorClass in e.classes then 0 else if ConnectionAbortedErrorClass in e.classes then 1
               else if ConnectionRefusedErrorClass in e.classes then 2 else if ConnectionResetErrorClass in e.classes then 3
               else if TimeoutErrorClass in e.classes then 4 else if ConnectionErrorClass in e.classes then 5 else 6;
      assert REPORTED[i] == ReportedClass(e);
    }
  }

  /** `_linux_errno`: a number only together with its name. */
  function ReportedErrno(e: Raised, policy: Policy): Option<Errno> {
    if e.number.Some? && e.number.value in policy.errnoNames then
      Some(Errno(e.number.value, policy.errnoNames[e.number.value]))
    else None
  }

  /** `_validated_record`: a record is used only as its own parser gives it back. */
  function Validated(r: Record, policy: Policy): Option<Record> {
    ParseResultBytes(RecordBytes(r), r.track, policy)
  }

  /** `_closed_response_facts`. */
  function ResponseFacts(r: Response): Option<(int, string)> {
    if r.status.None? || r.digest.None? then None
    else if r.status.value < 100 || r.status.value > 599 || !IsSha256(r.digest.value) then None
    else Some((r.status.value, r.digest.value))
  }

  predicate WholeBody(b: Body) {
    b.size.Some? && b.size.value <= MAX_RESPONSE_BODY_BYTES && (b.left.Some? ==> b.left.value == Some(0))
  }

  /** The table names no negative number, and is of ordinary size. */
  predicate TableOk(policy: Policy) {
    ShortNames(policy) && forall n | n in policy.errnoNames :: n >= 0
  }

  lemma ValidatedExactly(r: Record, policy: Policy)
    requires ShortNames(policy)
    ensures Validated(r, policy) in {None, Some(r)}
    ensures Validated(r, policy) == Some(r) <==> FactsHold(r, policy) && policy.clean(RecordJson(r))
  {
    hide FactsHold, RecordJson, RecordText, Encode, ParseResult;
    DecodeOfEncoded(RecordText(r));
    BuiltRecordIsAccepted(r, policy);
  }

  // ---------- The host process ----------

  /** What a run does, in order. */
  datatype Event =
    | Line(record: Record)
    | EndOfInput
    | Instructed(instruction: Instruction)
    | Sent(instruction: Instruction)

  datatype Phase =
    | Starting | Ready | Ended | Ordered(instruction: Instruction) | Asked(instruction: Instruction) | Reported

  /** The protocol, one event at a time. */
  function Next(phase: Phase, event: Event, track: Track): Option<Phase> {
    match event
    case Line(r) =>
      if r.track != track then None
      else if phase.Starting? && r.Readiness? then Some(Ready)
      else if phase.Asked? && (r.Complete? || r.TransportFailure?) then Some(Reported)
      else None
    case EndOfInput => if phase.Ready? then Some(Ended) else None
    case Instructed(i) => if phase.Ready? && i.track == track then Some(Ordered(i)) else None
    case Sent(i) => if phase.Ordered? && phase.instruction == i then Some(Asked(i)) else None
  }

  function PhaseAfter(trace: seq<Event>, track: Track): Option<Phase> {
    if trace == [] then Some(Starting) else
    var before := PhaseAfter(trace[..|trace| - 1], track);
    if before.None? then None else Next(before.value, trace[|trace| - 1], track)
  }

  function SentIn(trace: seq<Event>): seq<Instruction> {
    if trace == [] then [] else
    var last := trace[|trace| - 1];
    SentIn(trace[..|trace| - 1]) + if last.Sent? then [last.instruction] else []
  }

  function LinesIn(trace: seq<Event>): seq<Byte> {
    if trace == [] then [] else
    var last := trace[|trace| - 1];
    LinesIn(trace[..|trace| - 1]) + if last.Line? then RecordBytes(last.record) else []
  }

  lemma TraceAppend(trace: seq<Event>, event: Event)
    ensures SentIn(trace + [event]) == SentIn(trace) + if event.Sent? then [event.instruction] else []
    ensures LinesIn(trace + [event]) == LinesIn(trace) + if event.Line? then RecordBytes(event.record) else []
  {
    assert (trace + [event])[..|trace|] == trace;
  }

  /** The two ways a run can go, of which every run follows some prefix. */
  predicate RunsTo(trace: seq<Event>, track: Track) {
    && |trace| <= 4
    && (|trace| > 0 ==> trace[0].Line? && trace[0].record.Readiness? && trace[0].record.track == track)
    && (|trace| > 1 ==> trace[1].EndOfInput? || (trace[1].Instructed? && trace[1].instruction.track == track))
    && (|trace| > 2 ==> trace[1].Instructed? && trace[2] == Sent(trace[1].instruction))
    && (|trace| > 3 ==> && trace[3].Line? && trace[3].record.track == track
                        && (trace[3].record.Complete? || trace[3].record.TransportFailure?))
  }

  lemma {:induction false} PhasesAreRuns(trace: seq<Event>, track: Track)
    ensures PhaseAfter(trace, track).Some? <==> RunsTo(trace, track)
    ensures RunsTo(trace, track) ==>
      PhaseAfter(trace, track).value ==
        if |trace| == 0 then Starting
        else if |trace| == 1 then Ready
        else if |trace| == 2 then if trace[1].EndOfInput? then Ended else Ordered(trace[1].instruction)
        else if |trace| == 3 then Asked(trace[1].instruction) else Reported
  {
    if trace != [] {
      PhasesAreRuns(trace[..|trace| - 1], track);
    }
  }

  /** Any run, however far it got: at most one request, sent for the one instruction read, which came after the
      whole readiness line; none at all when the input simply ended. */
  lemma AtMostOneRequest(trace: seq<Event>, track: Track)
    requires PhaseAfter(trace, track).Some?
    ensures |SentIn(trace)| <= 1
    ensures forall k | 0 <= k < |trace| && trace[k].Sent? ::
      && k == 2 && trace[1] == Instructed(trace[k].instruction) && trace[0].Line? && trace[0].record.Readiness?
      && SentIn(trace) == [trace[k].instruction]
    ensures EndOfInput in trace ==> SentIn(trace) == []
    ensures SentIn(trace) == [] <==> |trace| <= 2
  {
    PhasesAreRuns(trace, track);
    hide PhaseAfter;
    if |trace| > 0 { TraceOf(trace, 1); }
    if |trace| > 1 { TraceOf(trace, 2); }
    if |trace| > 2 { TraceOf(trace, 3); }
    if |trace| > 3 { TraceOf(trace, 4); }
    assert trace[..|trace|] == trace && trace[..0] == [];
  }

  lemma TraceOf(trace: seq<Event>, n: nat)
    requires 0 < n <= |trace|
    ensures SentIn(trace[..n]) ==
      SentIn(trace[..n - 1]) + if trace[n - 1].Sent? then [trace[n - 1].instruction] else []
  {
    assert trace[..n][..n - 1] == trace[..n - 1];
  }

  class Host {
    const track: Track
    const policy: Policy
    const looksLikeJws: string -> bool
    const clock: nat -> int
    const factory: Outcome<()>
    const connect: Outcome<()>
    const request: Outcome<()>
    const response: Outcome<Response>
    const body: Outcome<Body>
    const input: Input

    var ticks: nat
    var writes: seq<WriteEvent>
    var flushes: seq<Outcome<()>>
    var output: seq<Byte>
    var requests: seq<Instruction>
    var closed: bool
    ghost var trace: seq<Event>

    constructor (track: Track, policy: Policy, looksLikeJws: string -> bool, clock: nat -> int,
                 factory: Outcome<()>, connect: Outcome<()>, request: Outcome<()>, response: Outcome<Response>,
                 body: Outcome<Body>, input: Input, writes: seq<WriteEvent>, flushes: seq<Outcome<()>>)
      ensures output == [] && requests == [] && trace == [] && ticks == 0 && !closed
      ensures this.writes == writes && this.flushes == flushes
      ensures this.track == track && this.policy == policy && this.looksLikeJws == looksLikeJws && this.clock == clock
      ensures this.factory == factory && this.connect == connect && this.request == request
      ensures this.response == response && this.body == body && this.input == input
    {
      this.track, this.policy, this.looksLikeJws, this.clock := track, policy, looksLikeJws, clock;
      this.factory, this.connect, this.request := factory, connect, request;
      this.response, this.body, this.input := response, body, input;
      this.writes, this.flushes := writes, flushes;
      ticks, output, requests, trace, closed := 0, [], [], [], false;
    }

    /** Every write makes some legal progress and every flush works. */
    ghost predicate StreamWorks()
      reads this`writes, this`flushes
    {
      && (forall k | 0 <= k < |writes| :: writes[k].Takes? && writes[k].size > 0)
      && (forall k | 0 <= k < |flushes| :: flushes[k].Returns?)
    }

    method Now() returns (t: int)
      modifies this`ticks
      ensures ticks == old(ticks) + 1 && t == clock(old(ticks))
    {
      t := clock(ticks);
      ticks := ticks + 1;
    }

    /** `stdout.write`: some prefix gets through; a legal report says which. */
    method Write(payload: seq<Byte>) returns (r: Outcome<Option<int>>)
      requires payload != []
      modifies this`output, this`writes
      ensures old(output) <= output <= old(output) + payload
      ensures r.Returns? && r.value.Some? && 0 < r.value.value <= |payload| ==>
        output == old(output) + payload[..r.value.value]
      ensures old(StreamWorks()) ==> StreamWorks() && r.Returns? && r.value.Some? && 0 < r.value.value <= |payload|
    {
      var event := if writes == [] then Takes(|payload|) else writes[0];
      writes := if writes == [] then [] else writes[1..];
      match event {
        case Takes(size) =>
          var n := if size <= |payload| then size else |payload|;
          output := output + payload[..n];
          r := Returns(Some(n));
        case Misreports(report, through) =>
          var n := if report.Some? && 0 < report.value <= |payload| then report.value
                   else if through <= |payload| then through else |payload|;
          output := output + payload[..n];
          r := Returns(report);
        case WriteFails(through) =>
          output := output + payload[..if through <= |payload| then through else |payload|];
          r := Fails(OS_ERROR);
        case WriteEscapes(through) =>
          output := output + payload[..if through <= |payload| then through else |payload|];
          r := Escapes;
      }
    }

    method Flush() returns (r: Outcome<()>)
      modifies this`flushes
      ensures old(StreamWorks()) ==> StreamWorks() && r.Returns?
    {
      r := if flushes == [] then Returns(()) else flushes[0];
      flushes := if flushes == [] then [] else flushes[1..];
    }

    /** Writes one whole line despite short writes, or fails having written a prefix of it. */
    method WriteCanonicalRecord(record: Record) returns (r: Outcome<()>)
      modifies this`output, this`writes, this`flushes, this`trace
      ensures old(output) <= output <= old(output) + RecordBytes(record)
      ensures r.Returns? ==> output == old(output) + RecordBytes(record)
      ensures trace == if r.Returns? then old(trace) + [Line(record)] else old(trace)
      ensures old(StreamWorks()) ==> StreamWorks() && (r.Returns? <==> |RecordBytes(record)| <= MAX_RESULT_BYTES)
    {
      hide RecordBytes;
      var payload := RecordBytes(record);
      if |payload| > MAX_RESULT_BYTES {
        return Fails(OS_ERROR);
      }
      var offset := 0;
      while offset < |payload|
        invariant 0 <= offset <= |payload|
        invariant output == old(output) + payload[..offset] && trace == old(trace)
        invariant old(StreamWorks()) ==> StreamWorks()
      {
        label Before:
        var progress := Write(payload[offset..]);
        assert payload[..offset] + payload[offset..] == payload;
        assert old(output) + payload == old@Before(output) + payload[offset..];
        if !progress.Returns? {
          return if progress.Escapes? then Escapes else Fails(OS_ERROR);
        }
        var remaining := |payload| - offset;
        if progress.value.None? || progress.value.value <= 0 || progress.value.value > remaining {
          return Fails(OS_ERROR);
        }
        var n := progress.value.value;
        assert payload[..offset] + payload[offset..][..n] == payload[..offset + n];
        offset := offset + n;
      }
      assert payload[..|payload|] == payload;
      var flushed := Flush();
      if !flushed.Returns? {
        return if flushed.Escapes? then Escapes else Fails(OS_ERROR);
      }
      trace := trace + [Line(record)];
      return Returns(());
    }

    /** One bounded line up to end of file; no bytes at all is end of input. */
    method ReadBoundedSingleLine(limit: nat) returns (r: Outcome<Option<seq<Byte>>>)
      requires limit >= 1
      ensures r == Escapes <==> input.ReadEscapes?
      ensures r == Returns(None) <==> input == Bytes([])
      ensures r.Returns? && r.value.Some? <==>
        && input.Bytes? && 0 < |input.content| <= limit && input.content[|input.content| - 1] == NEWLINE
        && forall k | 0 <= k < |input.content| - 1 :: input.content[k] != NEWLINE
      ensures r.Returns? && r.value.Some? ==> input == Bytes(r.value.value)
    {
      if !input.Bytes? {
        return if input.ReadEscapes? then Escapes else Fails(OS_ERROR);
      }
      var payload := if |input.content| <= limit + 1 then input.content else input.content[..limit + 1];
      if payload == [] {
        return Returns(None);
      }
      if |payload| > limit {
        return Fails(OS_ERROR);
      }
      if payload[|payload| - 1] != NEWLINE || multiset(payload)[NEWLINE] != 1 {
        CountOfLast(payload);
        return Fails(OS_ERROR);
      }
      CountOfLast(payload);
      return Returns(Some(payload));
    }

    /** The stages reached let nothing uncaught escape. */
    ghost predicate Contained() {
      && !request.Escapes?
      && (request.Returns? ==> !response.Escapes?)
      && (request.Returns? && response.Returns? && ResponseFacts(response.value).Some? ==> !body.Escapes?)
    }

    /** The first stage that failed, with what it raised. */
    ghost function FirstFailure(): Option<(Stage, Raised)>
      requires Contained()
    {
      if request.Fails? then Some((RequestSend, request.error))
      else if response.Fails? then Some((ResponseHeaders, response.error))
      else if ResponseFacts(response.value).None? then Some((ResponseHeaders, OS_ERROR))
      else if body.Fails? then Some((ResponseBody, body.error))
      else if !WholeBody(body.value) then Some((ResponseBody, OS_ERROR))
      else None
    }

    /** What a truthful result record says of the one request. */
    ghost function Observed(connectNs: int, sendNs: int, endNs: int): (r: Record)
      requires Contained()
      ensures r.track == track && (r.Complete? || r.TransportFailure?)
      ensures r.Complete? <==> FirstFailure().None?
    {
      var failure := FirstFailure();
      if failure.None? then
        var facts := ResponseFacts(response.value).value;
        Complete(track, connectNs, sendNs, endNs, facts.0, facts.1)
      else
        TransportFailure(track, failure.value.0, ReportedClass(failure.value.1), ReportedErrno(failure.value.1, policy),
                         connectNs, sendNs, endNs, true)
    }

    /** The result in full: a failed request, a failed or unusable response, a failed or unusable body, or the response. */
    lemma ObservedMeans(connectNs: int, sendNs: int, endNs: int)
      requires Contained()
      ensures request.Fails? ==>
        Observed(connectNs, sendNs, endNs)
        == TransportFailure(track, RequestSend, ReportedClass(request.error), ReportedErrno(request.error, policy),
                            connectNs, sendNs, endNs, true)
      ensures request.Returns? && response.Fails? ==>
        Observed(connectNs, sendNs, endNs)
        == TransportFailure(track, ResponseHeaders, ReportedClass(response.error), ReportedErrno(response.error, policy),
                            connectNs, sendNs, endNs, true)
      ensures request.Returns? && response.Returns? ==>
        var status, digest := response.value.status, response.value.digest;
        if status.None? || digest.None? || !(100 <= status.value <= 599) || !IsSha256(digest.value) then
          Observed(connectNs, sendNs, endNs)
          == TransportFailure(track, ResponseHeaders, OSErrorClass, None, connectNs, sendNs, endNs, true)
        else if body.Fails? then
          Observed(connectNs, sendNs, endNs)
          == TransportFailure(track, ResponseBody, ReportedClass(body.error), ReportedErrno(body.error, policy),
                              connectNs, sendNs, endNs, true)
        else if body.value.size.None? || body.value.size.value > 4096
                || (body.value.left.Some? && body.value.left.value != Some(0)) then
          Observed(connectNs, sendNs, endNs)
          == TransportFailure(track, ResponseBody, OSErrorClass, None, connectNs, sendNs, endNs, true)
        else
          Observed(connectNs, sendNs, endNs) == Complete(track, connectNs, sendNs, endNs, status.value, digest.value)
    {
      hide IsSha256;
    }

    /** The parser accepts a result exactly when the clock readings are bounded and in order and the scan is clean:
        every other fact holds however the connection behaved. */
    lemma ObservedIsAccepted(connectNs: int, sendNs: int, endNs: int)
      requires Contained() && TableOk(policy)
      ensures var r := Observed(connectNs, sendNs, endNs);
        Validated(r, policy) == Some(r)
        <==> 0 <= connectNs <= sendNs <= endNs <= MAX_MONOTONIC_NS && policy.clean(RecordJson(r))
    {
      ValidatedExactly(Observed(connectNs, sendNs, endNs), policy);
    }

    lemma ReadinessIsAccepted()
      requires ShortNames(policy)
      ensures Validated(FirstLine(), policy) == Some(FirstLine())
         <==> 0 <= clock(0) <= clock(1) <= MAX_MONOTONIC_NS && policy.clean(RecordJson(FirstLine()))
    {
      ValidatedExactly(FirstLine(), policy);
    }

    method Fail(stage: Stage, error: Raised, connectNs: int, sendNs: int) returns (r: Outcome<Record>)
      modifies this`ticks
      ensures ticks == old(ticks) + 1
      ensures var made := TransportFailure(track, stage, ReportedClass(error), ReportedErrno(error, policy),
                                           connectNs, sendNs, clock(old(ticks)), true);
        r == if Validated(made, policy).None? then Fails(OS_ERROR) else Returns(Validated(made, policy).value)
    {
      var failureNs := Now();
      var made := TransportFailure(track, stage, ReportedClass(error), ReportedErrno(error, policy),
                                   connectNs, sendNs, failureNs, true);
      var record := Validated(made, policy);
      r := if record.None? then Fails(OS_ERROR) else Returns(record.value);
    }

    /** One request, and the record of how it went. */
    method PerformOneRequest(instruction: Instruction, connectNs: int) returns (r: Outcome<Record>)
      modifies this`ticks, this`requests, this`trace
      ensures requests == old(requests) + [instruction] && trace == old(trace) + [Sent(instruction)]
      ensures r == Escapes <==> !Contained()
      ensures Contained() ==>
        var made := Validated(Observed(connectNs, clock(old(ticks)), clock(old(ticks) + 1)), policy);
        r == if made.None? then Fails(OS_ERROR) else Returns(made.value)
    {
      hide Validated, ReportedClass, ReportedErrno, ResponseFacts, WholeBody;
      var sendNs := Now();
      requests, trace := requests + [instruction], trace + [Sent(instruction)];
      if request.Escapes? {
        return Escapes;
      }
      if request.Fails? {
        r := Fail(RequestSend, request.error, connectNs, sendNs);
        return;
      }
      if response.Escapes? {
        return Escapes;
      }
      if response.Fails? {
        r := Fail(ResponseHeaders, response.error, connectNs, sendNs);
        return;
      }
      var facts := ResponseFacts(response.value);
      if facts.None? {
        r := Fail(ResponseHeaders, OS_ERROR, connectNs, sendNs);
        return;
      }
      if body.Escapes? {
        return Escapes;
      }
      if body.Fails? {
        r := Fail(ResponseBody, body.error, connectNs, sendNs);
        return;
      }
      if !WholeBody(body.value) {
        r := Fail(ResponseBody, OS_ERROR, connectNs, sendNs);
        return;
      }
      var receiveNs := Now();
      var record := Validated(Complete(track, connectNs, sendNs, receiveNs, facts.value.0, facts.value.1), policy);
      return if record.None? then Fails(OS_ERROR) else Returns(record.value);
    }

    ghost predicate New()
      reads this
    {
      output == [] && requests == [] && trace == [] && ticks == 0 && !closed
    }

    ghost function Ordered(): Option<Instruction> {
      if input.Bytes? then ParseInstructionBytes(input.content, track, looksLikeJws) else None
    }

    ghost function FirstLine(): Record {
      Readiness(track, clock(0), clock(1))
    }

    ghost function LastLine(): Record
      requires Contained()
    {
      Observed(clock(0), clock(2), clock(3))
    }

    /** What a run and its output are, whatever the environment did. */
    ghost predicate Accounted()
      reads this`trace, this`requests
    {
      && RunsTo(trace, track)
      && requests == SentIn(trace)
      && (|trace| > 0 ==> trace[0].record == FirstLine() && Validated(FirstLine(), policy) == Some(FirstLine()))
      && (|trace| > 1 && trace[1].EndOfInput? ==> input == Bytes([]))
      && (|trace| > 1 && trace[1].Instructed? ==> Ordered() == Some(trace[1].instruction))
      && (|trace| > 3 ==> Contained() && trace[3].record == LastLine() && Validated(LastLine(), policy) == Some(LastLine()))
    }

    /** Beyond the lines it completed, a run wrote at most a prefix of the line it was writing. */
    ghost predicate NothingElseWritten()
      reads this`trace, this`output
    {
      && LinesIn(trace) <= output
      && (|trace| == 0 ==> output == [] || (output <= RecordBytes(FirstLine()) && Validated(FirstLine(), policy).Some?))
      && (|trace| in {1, 2, 4} ==> output == LinesIn(trace))
      && (|trace| == 3 ==>
            || output == LinesIn(trace)
            || (Contained() && Validated(LastLine(), policy).Some? && output <= LinesIn(trace) + RecordBytes(LastLine())))
    }

    /** The input simply ended, or the whole line of a complete result was written. */
    ghost predicate Succeeded()
      reads this`trace
    {
      trace != [] && (trace[|trace| - 1].EndOfInput? || (|trace| == 4 && trace[3].Line? && trace[3].record.Complete?))
    }

    /** `execute_driver`. */
    method Execute() returns (exit: Exit)
      requires New() && ShortNames(policy)
      modifies this
      ensures Accounted() && NothingElseWritten()
      ensures exit == Code(0) <==> Succeeded()
      ensures exit in {Code(0), Code(1), Escaped}
      ensures closed <==> factory.Returns?
      ensures |trace| > 1 <==> |trace| > 0 && (input == Bytes([]) || Ordered().Some?)
      ensures |trace| > 2 <==> |trace| > 0 && Ordered().Some?
      ensures old(StreamWorks()) ==>
        (|trace| > 0 <==> factory.Returns? && connect.Returns? && Validated(FirstLine(), policy).Some?)
      ensures old(StreamWorks()) ==>
        (|trace| > 3 <==> |trace| > 2 && Contained() && Validated(LastLine(), policy).Some?)
    {
      hide *;
      Untouched();
      var connectNs := Now();
      if !factory.Returns? {
        return if factory.Escapes? then Escaped else Code(1);
      }
      exit := Converse(connectNs);
      closed := true;
    }

    lemma Untouched()
      ensures New() ==> output == [] && requests == [] && trace == [] && ticks == 0 && !closed
      ensures trace == [] && requests == [] && output == [] ==> Accounted() && NothingElseWritten() && !Succeeded()
    {
      hide RecordBytes, Validated, Observed;
    }

    /** Connect and write the readiness line. */
    method Announce(connectNs: int) returns (r: Outcome<()>)
      requires output == [] && trace == [] && ticks == 1 && connectNs == clock(0)
      requires ShortNames(policy)
      modifies this`ticks, this`output, this`writes, this`flushes, this`trace
      ensures !r.Returns? ==> trace == []
      ensures !r.Returns? ==> output == [] || (output <= RecordBytes(FirstLine()) && Validated(FirstLine(), policy).Some?)
      ensures r.Returns? ==> trace == [Line(FirstLine())] && output == RecordBytes(FirstLine()) && ticks == 2
      ensures r.Returns? ==> Validated(FirstLine(), policy) == Some(FirstLine())
      ensures old(StreamWorks()) ==> StreamWorks() && (r.Returns? <==> connect.Returns? && Validated(FirstLine(), policy).Some?)
    {
      hide Validated, RecordBytes;
      if !connect.Returns? {
        return if connect.Escapes? then Escapes else Fails(OS_ERROR);
      }
      var readyNs := Now();
      var first := Readiness(track, connectNs, readyNs);
      ValidatedFits(first, policy);
      var readiness := Validated(first, policy);
      if readiness.None? {
        return Fails(OS_ERROR);
      }
      r := WriteCanonicalRecord(readiness.value);
      assert [] + RecordBytes(first) == RecordBytes(first);
      assert [] + [Line(first)] == [Line(first)];
    }

    /** Read the instruction, if there is one. */
    method TakeInstruction() returns (r: Outcome<Option<Instruction>>)
      modifies this`trace
      ensures r == Returns(None) <==> input == Bytes([])
      ensures r.Returns? && r.value.Some? <==> Ordered().Some?
      ensures r.Returns? && r.value.Some? ==> r.value == Ordered() && r.value.value.track == track
      ensures trace == old(trace) + if !r.Returns? then [] else if r.value.None? then [EndOfInput] else [Instructed(r.value.value)]
    {
      hide ParseInstructionBytes;
      EmptyInput(track, looksLikeJws);
      var raw := ReadBoundedSingleLine(MAX_INSTRUCTION_BYTES);
      if Ordered().Some? {
        InstructionIsOneLine(input.content, track, looksLikeJws);
        InstructionHasTrack(input.content, track, looksLikeJws);
      }
      if !raw.Returns? {
        return if raw.Escapes? then Escapes else Fails(OS_ERROR);
      }
      if raw.value.None? {
        trace := trace + [EndOfInput];
        return Returns(None);
      }
      var instruction := ParseInstructionBytes(raw.value.value, track, looksLikeJws);
      if instruction.None? {
        return Fails(OS_ERROR);
      }
      trace := trace + [Instructed(instruction.value)];
      return Returns(instruction);
    }

    /** Everything between creating the connection and closing it. */
    method Converse(connectNs: int) returns (exit: Exit)
      requires output == [] && requests == [] && trace == [] && ticks == 1 && connectNs == clock(0)
      requires ShortNames(policy)
      modifies this`ticks, this`output, this`writes, this`flushes, this`requests, this`trace
      ensures Accounted() && NothingElseWritten()
      ensures exit == Code(0) <==> Succeeded()
      ensures exit in {Code(0), Code(1), Escaped}
      ensures |trace| > 1 <==> |trace| > 0 && (input == Bytes([]) || Ordered().Some?)
      ensures |trace| > 2 <==> |trace| > 0 && Ordered().Some?
      ensures old(StreamWorks()) ==>
        (|trace| > 0 <==> connect.Returns? && Validated(FirstLine(), policy).Some?)
      ensures old(StreamWorks()) ==>
        (|trace| > 3 <==> |trace| > 2 && Contained() && Validated(LastLine(), policy).Some?)
    {
      hide Validated, RecordBytes, Observed, Contained, SentIn, LinesIn, Ordered;
      TracesSoFar(FirstLine());
      EmptyInput(track, looksLikeJws);
      var announced := Announce(connectNs);
      if !announced.Returns? {
        return if announced.Escapes? then Escaped else Code(1);
      }
      var taken := TakeInstruction();
      if !taken.Returns? {
        assert trace == [Line(FirstLine())];
        return if taken.Escapes? then Escaped else Code(1);
      }
      if taken.value.None? {
        assert trace == [Line(FirstLine()), EndOfInput];
        return Code(0);
      }
      var result := PerformOneRequest(taken.value.value, connectNs);
      TraceAsked(FirstLine(), taken.value.value);
      assert trace == Asking(FirstLine(), taken.value.value);
      if !result.Returns? {
        return if result.Escapes? then Escaped else Code(1);
      }
      ValidatedFits(LastLine(), policy);
      var wrote := WriteCanonicalRecord(result.value);
      TraceAppend(Asking(FirstLine(), taken.value.value), Line(result.value));
      if !wrote.Returns? {
        return if wrote.Escapes? then Escaped else Code(1);
      }
      return if result.value.Complete? then Code(0) else Code(1);
    }
  }

  function Asking(first: Record, i: Instruction): seq<Event> {
    [Line(first), Instructed(i), Sent(i)]
  }

  lemma TracesSoFar(first: Record)
    ensures SentIn([]) == SentIn([Line(first)]) == SentIn([Line(first), EndOfInput]) == []
    ensures LinesIn([]) == [] && LinesIn([Line(first)]) == LinesIn([Line(first), EndOfInput]) == RecordBytes(first)
  {
    hide RecordBytes;
    TraceAppend([], Line(first));
    TraceAppend([Line(first)], EndOfInput);
    assert [] + [Line(first)] == [Line(first)] && [Line(first)] + [EndOfInput] == [Line(first), EndOfInput];
  }

  lemma TraceAsked(first: Record, i: Instruction)
    ensures SentIn(Asking(first, i)) == [i] && LinesIn(Asking(first, i)) == RecordBytes(first)
  {
    hide RecordBytes;
    TracesSoFar(first);
    var two := [Line(first), Instructed(i)];
    TraceAppend([Line(first)], Instructed(i));
    assert two == [Line(first)] + [Instructed(i)];
    TraceAppend(two, Sent(i));
    assert Asking(first, i) == two + [Sent(i)];
  }

  lemma EmptyInput(track: Track, looksLikeJws: string -> bool)
    ensures ParseInstructionBytes([], track, looksLikeJws).None?
  {
  }

  lemma InstructionHasTrack(payload: seq<Byte>, track: Track, looksLikeJws: string -> bool)
    requires ParseInstructionBytes(payload, track, looksLikeJws).Some?
    ensures ParseInstructionBytes(payload, track, looksLikeJws).value.track == track
  {
    ParsesExactlyInstructionBytes(payload, track, looksLikeJws, ParseInstructionBytes(payload, track, looksLikeJws).value);
  }

  lemma ValidatedFits(r: Record, policy: Policy)
    requires ShortNames(policy)
    ensures Validated(r, policy).Some? ==>
      Validated(r, policy) == Some(r) && |RecordBytes(r)| <= MAX_RESULT_BYTES
  {
    ValidatedExactly(r, policy);
    hide Validated, RecordBytes, FactsHold;
    if Validated(r, policy).Some? {
      ValidatedIsExact(r, policy);
    }
  }

  lemma ValidatedIsExact(r: Record, policy: Policy)
    requires Validated(r, policy) == Some(r)
    ensures |RecordBytes(r)| <= MAX_RESULT_BYTES
  {
    hide RecordBytes, ParseResultBytes;
    ParsesExactlyRecordBytes(RecordBytes(r), r.track, policy, r);
  }

  /** A valid instruction is one line: canonical JSON escapes every control character. */
  lemma InstructionIsOneLine(payload: seq<Byte>, track: Track, looksLikeJws: string -> bool)
    requires ParseInstructionBytes(payload, track, looksLikeJws).Some?
    ensures 0 < |payload| <= MAX_INSTRUCTION_BYTES && payload[|payload| - 1] == NEWLINE
    ensures forall k | 0 <= k < |payload| - 1 :: payload[k] != NEWLINE
  {
    var i := ParseInstructionBytes(payload, track, looksLikeJws).value;
    ParsesExactlyInstructionBytes(payload, track, looksLikeJws, i);
    LineBytes(InstructionJson(i));
  }

  lemma LineBytes(j: Json)
    ensures var line := Encode(Text(j) + "\n");
      line != [] && line[|line| - 1] == NEWLINE && forall k | 0 <= k < |line| - 1 :: line[k] != NEWLINE
  {
    hide Text;
    TextPrintable(j);
    EncodeAppend(Text(j), "\n");
    assert Encode("\n") == EncodeChar('\n') + Encode("") == [NEWLINE];
    AsciiBytesAreCharacters(Text(j), NEWLINE);
    var body, line := Encode(Text(j)), Encode(Text(j) + "\n");
    assert NEWLINE !in body;
    forall k | 0 <= k < |line| - 1 ensures line[k] != NEWLINE {
      assert line[k] == body[k];
    }
  }

  lemma CountOfLast(s: seq<Byte>)
    requires s != []
    ensures s[|s| - 1] == NEWLINE ==>
      (multiset(s)[NEWLINE] == 1 <==> forall k | 0 <= k < |s| - 1 :: s[k] != NEWLINE)
  {
    var front, last := s[..|s| - 1], s[|s| - 1];
    assert s == front + [last];
    assert multiset(front)[NEWLINE] == 0 <==> NEWLINE !in front;
    assert forall k | 0 <= k < |front| :: front[k] == s[k];
  }
}
