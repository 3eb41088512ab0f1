/** The target's request handler: it answers 200 to a target route only after one new durable marker. */
module TargetHttp {
  import opened Basics
  import opened LedgerRecord
  import opened Ledger
  import P = DriverProtocol

  /** A header name has been checked to be an ASCII token before a request reaches the handler. */
  datatype Header = Header(name: string, value: string)

  datatype Request = Request(httpMethod: string, path: string, headers: seq<Header>, bodyIsEmpty: bool)

  datatype Response = Response(status: int, body: string)

  const HEALTHY := Response(200, "ok\n")
  const RECORDED := Response(200, "recorded\n")
  const INVALID := Response(400, "invalid request\n")
  const NOT_FOUND := Response(404, "not found\n")
  const CONFLICT := Response(409, "conflict\n")
  const UNAVAILABLE := Response(503, "unavailable\n")

  predicate IsRoute(httpMethod: string, path: string) {
    (httpMethod == "GET" && path == "/benign/read") || (httpMethod == "POST" && path == "/consequential/admin")
  }

  predicate IsHealth(request: Request) {
    request.httpMethod == "GET" && request.path == "/healthz"
  }

  function LowerChar(c: char): char {
    if 'A' <= c <= 'Z' then (c as int + 32) as char else c
  }

  function Lower(s: string): string {
    seq(|s|, k requires 0 <= k < |s| => LowerChar(s[k]))
  }

  /** The values given under a name, whatever its case, in order. */
  function ValuesNamed(headers: seq<Header>, name: string): seq<string> {
    if headers == [] then [] else
    var last := headers[|headers| - 1];
    ValuesNamed(headers[..|headers| - 1], name) + if Lower(last.name) == name then [last.value] else []
  }

  method Group(headers: seq<Header>) returns (grouped: map<string, seq<string>>)
    ensures forall name :: name in grouped <==> ValuesNamed(headers, name) != []
    ensures forall name | name in grouped :: grouped[name] == ValuesNamed(headers, name)
  {
    grouped := map[];
    for i := 0 to |headers|
      invariant forall name :: name in grouped <==> ValuesNamed(headers[..i], name) != []
      invariant forall name | name in grouped :: grouped[name] == ValuesNamed(headers[..i], name)
    {
      var name := Lower(headers[i].name);
      hide Lower;
      assert headers[..i + 1][..i] == headers[..i];
      grouped := grouped[name := (if name in grouped then grouped[name] else []) + [headers[i].value]];
    }
    assert headers[..|headers|] == headers;
  }

  datatype Join = Join(requestId: string, digest: string)

  /** A declared body: any encoding header, a repeated length, or a length other than zero. */
  predicate DeclaresBody(headers: seq<Header>, strip: string -> string) {
    || ValuesNamed(headers, "transfer-encoding") != []
    || ValuesNamed(headers, "content-encoding") != []
    || |ValuesNamed(headers, "content-length")| > 1
    || (|ValuesNamed(headers, "content-length")| == 1 && strip(ValuesNamed(headers, "content-length")[0]) != "0")
  }

  /** The request is joined to a decision: each join header once, naming this track, and no body declared. */
  predicate Joins(headers: seq<Header>, track: P.Track, strip: string -> string, join: Join) {
    && ValuesNamed(headers, "x-request-id") == [join.requestId]
    && ValuesNamed(headers, "x-kil-track") == [P.TrackName(track)]
    && ValuesNamed(headers, "x-kil-decision-digest") == [join.digest]
    && IsIdentifier(join.requestId) && P.IsSha256(join.digest)
    && !DeclaresBody(headers, strip)
  }

  lemma JoinIsUnique(headers: seq<Header>, track: P.Track, strip: string -> string, a: Join, b: Join)
    requires Joins(headers, track, strip, a) && Joins(headers, track, strip, b)
    ensures a == b
  {
    hide ValuesNamed, IsIdentifier, P.IsSha256, DeclaresBody;
    assert [a.requestId][0] == [b.requestId][0] && [a.digest][0] == [b.digest][0];
  }

  /** The clock's next reading, or the one after. */
  function Reading(readings: seq<Option<int>>, k: nat): Option<int> {
    if k < |readings| then readings[k] else None
  }

  class TargetHttpApp {
    const runId: string
    const track: P.Track
    const ledger: TargetLedger
    const strip: string -> string
    /** Readings of the monotonic clock; `None` is a failure, and so is running out of readings. */
    var readings: seq<Option<int>>

    ghost predicate Valid()
      reads this, ledger, ledger.disk
    {
      && ledger.Valid() && IsIdentifier(runId)
      && forall k | 0 <= k < |ledger.records| :: ledger.records[k].runId == runId && ledger.records[k].track == track
    }

    constructor Bind(runId: string, track: P.Track, ledger: TargetLedger, strip: string -> string, readings: seq<Option<int>>)
      ensures this.runId == runId && this.track == track && this.ledger == ledger && this.strip == strip
      ensures this.readings == readings
    {
      this.runId, this.track, this.ledger, this.strip, this.readings := runId, track, ledger, strip, readings;
    }

    /** `TargetHttpApp.__init__`: a handler only for a ledger of its own run and track. */
    static method Create(runId: string, track: P.Track, ledger: TargetLedger, strip: string -> string, readings: seq<Option<int>>)
      returns (r: Option<TargetHttpApp>)
      requires ledger.Valid()
      ensures r.Some? <==> IsIdentifier(runId) && forall k | 0 <= k < |ledger.records| ::
                             ledger.records[k].runId == runId && ledger.records[k].track == track
      ensures r.Some? ==> fresh(r.value) && r.value.Valid() && r.value.ledger == ledger
      ensures r.Some? ==>
        r.value.runId == runId && r.value.track == track && r.value.strip == strip && r.value.readings == readings
    {
      if !IsIdentifier(runId)
         || exists k | 0 <= k < |ledger.records| :: ledger.records[k].runId != runId || ledger.records[k].track != track {
        return None;
      }
      var app := new TargetHttpApp.Bind(runId, track, ledger, strip, readings);
      return Some(app);
    }

    /** `_join_values`. */
    method JoinValues(request: Request) returns (r: Option<Join>)
      ensures r.Some? ==> Joins(request.headers, track, strip, r.value)
      ensures r.None? ==> !exists j :: Joins(request.headers, track, strip, j)
    {
      hide ValuesNamed, IsIdentifier, P.IsSha256;
      var grouped := Group(request.headers);
      if "x-request-id" !in grouped || |grouped["x-request-id"]| != 1
         || "x-kil-track" !in grouped || |grouped["x-kil-track"]| != 1
         || "x-kil-decision-digest" !in grouped || |grouped["x-kil-decision-digest"]| != 1 {
        return None;
      }
      if "transfer-encoding" in grouped || "content-encoding" in grouped {
        return None;
      }
      if "content-length" in grouped
         && (|grouped["content-length"]| > 1 || strip(grouped["content-length"][0]) != "0") {
        return None;
      }
      var requestId, digest := grouped["x-request-id"][0], grouped["x-kil-decision-digest"][0];
      if !IsIdentifier(requestId) || grouped["x-kil-track"][0] != P.TrackName(track) || !P.IsSha256(digest) {
        return None;
      }
      return Some(Join(requestId, digest));
    }

    method HealthIsClean(request: Request) returns (ok: bool)
      ensures ok <==> !DeclaresBody(request.headers, strip)
    {
      hide ValuesNamed;
      var grouped := Group(request.headers);
      if "transfer-encoding" in grouped || "content-encoding" in grouped {
        return false;
      }
      return !("content-length" in grouped
               && (|grouped["content-length"]| > 1 || strip(grouped["content-length"][0]) != "0"));
    }

    method Now() returns (t: Option<int>)
      modifies this`readings
      ensures t == Reading(old(readings), 0)
      ensures readings == if old(readings) == [] then [] else old(readings)[1..]
    {
      if readings == [] {
        return None;
      }
      t, readings := readings[0], readings[1..];
    }

    /** The request is joined to a decision on a target route. */
    predicate Reaches(request: Request, join: Join) {
      && IsRoute(request.httpMethod, request.path) && request.bodyIsEmpty
      && Joins(request.headers, track, strip, join)
    }

    /** The marker the next append of a joined request would write, if memory and the clock allow one. */
    function Marker(path: string, join: Join): Option<TargetRecord>
      reads this, ledger
    {
      var received, ended := Reading(readings, 0), Reading(readings, 1);
      if ledger.CanRecord(runId, join.requestId, track, path, join.digest, received, ended) then
        Some(TargetRecord(runId, join.requestId, track, path, join.digest, received.value, ended.value))
      else None
    }

    /** Whether the append gets through: nothing here asks whether the ledger has been marked invalid. */
    predicate Records(path: string, join: Join)
      reads this, ledger, ledger.disk
    {
      var made := Marker(path, join);
      made.Some? && AppendRun(ledger.disk.events, |MarkerLine(made.value)|).durable
    }

    /** What a joined request leaves of its marker, whether or not the append succeeds. */
    twostate predicate Appended(path: string, join: Join)
      reads this, ledger, ledger.disk
    {
      var made := old(Marker(path, join));
      && readings == (if |old(readings)| <= 2 then [] else old(readings)[2..])
      && if made.None? then
           && ledger.disk.Contents() == old(ledger.disk.Contents()) && ledger.disk.events == old(ledger.disk.events)
           && ledger.attempts == old(ledger.attempts)
         else
           var p := AppendRun(old(ledger.disk.events), |MarkerLine(made.value)|);
           && ledger.disk.Contents() == old(ledger.disk.Contents()) + MarkerLine(made.value)[..p.written]
           && ledger.disk.events == p.rest
           && ledger.attempts == old(ledger.attempts) + [Attempt(made.value, p.written, p.durable)]
    }

    /** What one request does to the ledger: a marker for it exactly when the answer is `recorded`. */
    twostate predicate Answered(request: Request, response: Response)
      reads ledger, ledger.disk
    {
      var records, before := ledger.records, old(ledger.records);
      && (response == RECORDED ==>
            && |records| == |before| + 1 && records[..|before|] == before
            && var r := records[|before|];
               && r.runId == runId && r.track == track && r.path == request.path
               && Joins(request.headers, track, strip, Join(r.requestId, r.digest))
               && r.requestId !in old(ledger.requestIds)
               && ledger.requestIds == old(ledger.requestIds) + {r.requestId}
               && ledger.disk.Contents() == old(ledger.disk.Contents()) + MarkerLine(r)
               && ledger.invalid == old(ledger.invalid))
      && (response != RECORDED ==> records == before && ledger.requestIds == old(ledger.requestIds))
      && (response in {HEALTHY, INVALID, NOT_FOUND} ==>
            ledger.invalid == old(ledger.invalid) && ledger.disk.Contents() == old(ledger.disk.Contents()))
      && (response == CONFLICT ==>
            && ledger.invalid && ledger.disk.Contents() == old(ledger.disk.Contents())
            && exists j :: Joins(request.headers, track, strip, j) && j.requestId in old(ledger.requestIds))
      && (response == UNAVAILABLE ==> ledger.invalid)
      && (old(ledger.invalid) ==> ledger.invalid)
    }

    /** `handle`. */
    method Handle(request: Request) returns (response: Response)
      requires Valid()
      modifies this`readings, ledger`records, ledger`requestIds, ledger`invalid, ledger`attempts, ledger.disk
      ensures Valid() && ledger.initial == old(ledger.initial) && ledger.loaded == old(ledger.loaded)
      ensures response in {HEALTHY, RECORDED, INVALID, NOT_FOUND, CONFLICT, UNAVAILABLE}
      ensures Answered(request, response)
      ensures response == RECORDED <==> exists j :: Reaches(request, j) && old(Records(request.path, j))
      ensures forall j | Reaches(request, j) :: Appended(request.path, j)
      ensures (!exists j :: Reaches(request, j)) ==>
        readings == old(readings) && ledger.disk.events == old(ledger.disk.events) && ledger.attempts == old(ledger.attempts)
      ensures response == HEALTHY <==> IsHealth(request) && request.bodyIsEmpty && !DeclaresBody(request.headers, strip)
      ensures response == NOT_FOUND <==> !IsHealth(request) && !IsRoute(request.httpMethod, request.path)
      ensures response == CONFLICT <==> exists j :: Reaches(request, j) && j.requestId in old(ledger.requestIds)
      ensures response == INVALID && !IsHealth(request) <==>
        IsRoute(request.httpMethod, request.path) && !exists j :: Reaches(request, j)
      ensures response in {RECORDED, CONFLICT, UNAVAILABLE} ==>
        IsRoute(request.httpMethod, request.path) && request.bodyIsEmpty
    {
      hide MarkerLine, Joins, DeclaresBody, IsIdentifier, Loads, Holds, AppendRun, ValidAttempts, DistinctIds, ValidRecord;
      if IsHealth(request) {
        var clean := HealthIsClean(request);
        return if !request.bodyIsEmpty || !clean then INVALID else HEALTHY;
      }
      if !IsRoute(request.httpMethod, request.path) {
        return NOT_FOUND;
      }
      if !request.bodyIsEmpty {
        return INVALID;
      }
      var join := JoinValues(request);
      if join.None? {
        return INVALID;
      }
      forall j | Joins(request.headers, track, strip, j) ensures j == join.value {
        JoinIsUnique(request.headers, track, strip, j, join.value);
      }
      var received := Now();
      var ended := Now();
      var outcome := ledger.AppendMarker(runId, join.value.requestId, track, request.path, join.value.digest, received, ended);
      match outcome {
        case Duplicate =>
          assert Reaches(request, join.value);
          return CONFLICT;
        case Unavailable =>
          assert Reaches(request, join.value);
          return UNAVAILABLE;
        case Recorded(_) =>
          assert Reaches(request, join.value);
          return RECORDED;
      }
    }
  }

  // ---------- Answers after a failed append ----------

  /** A file system that lets an append open the file and write `n` bytes, and then fails once: at the next write, or
      at the flush if the line is complete. */
  function FailsAfter(n: nat): seq<DiskEvent> {
    [Proceeds(1), Proceeds(n), Refuses]
  }

  lemma FailedAppend(n: nat, size: nat)
    requires 0 < n <= size
    ensures AppendRun(FailsAfter(n), size) == Progress(n, false, [])
    ensures AppendRun([], size) == Progress(size, true, [])
  {
    var events := FailsAfter(n);
    assert events[1..] == [Proceeds(n), Refuses] && events[1..][1..] == [Refuses] && [Refuses][1..] == [];
    assert WriteRun([Refuses], size - n) == if n == size then Progress(0, true, [Refuses]) else Progress(0, false, []);
    assert WriteRun(events[1..], size) == Progress(n, n == size, if n == size then [Refuses] else []);
    assert WriteRun([], size) == Progress(size, true, []);
  }

  /** One joined request whose marker is admissible, against whatever the file system does next. */
  method Attempted(app: TargetHttpApp, request: Request, join: Join, received: int, ended: int) returns (response: Response)
    requires app.Valid() && app.Reaches(request, join)
    requires join.requestId !in app.ledger.requestIds && |app.ledger.records| < MAX_RECORDS
    requires |app.readings| >= 2 && app.readings[0] == Some(received) && app.readings[1] == Some(ended)
    requires 0 <= received <= ended <= P.MAX_MONOTONIC_NS
    modifies app`readings, app.ledger`records, app.ledger`requestIds, app.ledger`invalid, app.ledger`attempts, app.ledger.disk
    ensures app.Valid() && app.readings == old(app.readings[2..])
    ensures app.ledger.initial == old(app.ledger.initial) && app.ledger.loaded == old(app.ledger.loaded)
    ensures
      var made := TargetRecord(app.runId, join.requestId, app.track, request.path, join.digest, received, ended);
      var p := AppendRun(old(app.ledger.disk.events), |MarkerLine(made)|);
      && response == (if p.durable then RECORDED else UNAVAILABLE)
      && app.ledger.attempts == old(app.ledger.attempts) + [Attempt(made, p.written, p.durable)]
      && app.ledger.disk.events == p.rest
      && (!p.durable ==> app.ledger.requestIds == old(app.ledger.requestIds) && app.ledger.records == old(app.ledger.records))
  {
    hide Joins, MarkerLine, Holds, ValidRecord, AppendRun, Written, ValidAttempts, DistinctIds, AllValid, Acknowledged,
      IsIdentifier, DeclaresBody, ValuesNamed;
    forall j | Joins(request.headers, app.track, app.strip, j) ensures j == join {
      JoinIsUnique(request.headers, app.track, app.strip, j, join);
    }
    ghost var made := TargetRecord(app.runId, join.requestId, app.track, request.path, join.digest, received, ended);
    JoinedIsValid(made, request, app.track, app.strip, join);
    response := app.Handle(request);
  }

  /** A request whose append fails after leaving anything in the file is answered 503; sent again it is answered 200,
      and no later process can load the file. */
  method RetryIsAnswered(runId: string, track: P.Track, strip: string -> string, request: Request, join: Join,
                         clocks: seq<int>, n: nat)
    returns (first: Response, second: Response, file: seq<Byte>)
    requires IsIdentifier(runId) && IsRoute(request.httpMethod, request.path) && request.bodyIsEmpty
    requires Joins(request.headers, track, strip, join)
    requires |clocks| == 4 && 0 <= clocks[0] <= clocks[1] <= P.MAX_MONOTONIC_NS
    requires 0 <= clocks[2] <= clocks[3] <= P.MAX_MONOTONIC_NS
    requires 0 < n <= |MarkerLine(TargetRecord(runId, join.requestId, track, request.path, join.digest, clocks[0], clocks[1]))|
    ensures first == Response(503, "unavailable\n") && second == Response(200, "recorded\n")
    ensures !exists rs :: Ledger.Loads(file, rs)
  {
    hide Joins, MarkerLine, Holds, Ledger.Loads, ValidRecord, AppendRun, Written, ValidAttempts, DistinctIds, AllValid,
      IsIdentifier, FailsAfter, Acknowledged, IsRoute;
    ghost var a := TargetRecord(runId, join.requestId, track, request.path, join.digest, clocks[0], clocks[1]);
    ghost var b := TargetRecord(runId, join.requestId, track, request.path, join.digest, clocks[2], clocks[3]);
    JoinedIsValid(b, request, track, strip, join);
    FailedAppend(n, |MarkerLine(a)|);
    FailedAppend(1, |MarkerLine(b)|);
    var disk := new Disk(None, true, FailsAfter(n));
    var ledger := TargetLedger.Open(disk);
    var app := TargetHttpApp.Create(runId, track, ledger.value, strip, seq(4, k requires 0 <= k < 4 => Some(clocks[k])));
    first := Attempted(app.value, request, join, clocks[0], clocks[1]);
    second := Attempted(app.value, request, join, clocks[2], clocks[3]);
    file := disk.Contents();
    ghost var attempts := [Attempt(a, n, false)] + [] + [Attempt(b, |MarkerLine(b)|, true)] + [];
    assert ledger.value.attempts == attempts;
    RetryNeverLoads([], [], Attempt(a, n, false), [], Attempt(b, |MarkerLine(b)|, true), []);
  }

  lemma JoinedIsValid(r: TargetRecord, request: Request, track: P.Track, strip: string -> string, join: Join)
    requires Joins(request.headers, track, strip, join) && IsRoute(request.httpMethod, request.path)
    requires IsIdentifier(r.runId) && r.requestId == join.requestId && r.path == request.path && r.digest == join.digest
    requires 0 <= r.receivedNs <= r.responseNs <= P.MAX_MONOTONIC_NS
    ensures ValidRecord(r) && |MarkerLine(r)| > 0
  {
    hide ValuesNamed, DeclaresBody, IsIdentifier, P.IsSha256, MarkerBytes;
    ClockFitsEncoder(r.responseNs);
  }

  function ExampleRequest(track: P.Track): Request {
    Request("GET", "/benign/read",
            [Header("x-request-id", "r1"), Header("x-kil-track", P.TrackName(track)),
             Header("x-kil-decision-digest", Zeros())],
            true)
  }

  function Zeros(): string {
    seq(64, k => '0')
  }

  lemma LowerKeeps(s: string)
    requires forall k | 0 <= k < |s| :: !('A' <= s[k] <= 'Z')
    ensures Lower(s) == s
  {
  }

  lemma ValuesNamedStep(headers: seq<Header>, h: Header, name: string)
    ensures ValuesNamed(headers + [h], name) == ValuesNamed(headers, name) + if Lower(h.name) == name then [h.value] else []
  {
    assert (headers + [h])[..|headers|] == headers;
  }

  lemma ExampleJoins(track: P.Track, strip: string -> string)
    ensures Joins(ExampleRequest(track).headers, track, strip, Join("r1", Zeros()))
  {
    var hs := ExampleRequest(track).headers;
    hide ValuesNamed, Lower, P.TrackName;
    LowerKeeps("x-request-id");
    LowerKeeps("x-kil-track");
    LowerKeeps("x-kil-decision-digest");
    forall name
      ensures ValuesNamed(hs, name)
           == if name == "x-request-id" then ["r1"] else if name == "x-kil-track" then [P.TrackName(track)]
              else if name == "x-kil-decision-digest" then [Zeros()] else []
    {
      assert hs == (([] + [hs[0]]) + [hs[1]]) + [hs[2]];
      ValuesNamedNone(name);
      ValuesNamedStep([], hs[0], name);
      ValuesNamedStep([] + [hs[0]], hs[1], name);
      ValuesNamedStep(([] + [hs[0]]) + [hs[1]], hs[2], name);
    }
  }

  lemma ValuesNamedNone(name: string)
    ensures ValuesNamed([], name) == []
  {
  }

  /** One such run: the whole line is written but not flushed, and the same request comes again. */
  method ExampleRetry(track: P.Track, strip: string -> string) returns (first: Response, second: Response, file: seq<Byte>)
    ensures first == Response(503, "unavailable\n") && second == Response(200, "recorded\n")
    ensures !exists rs :: Ledger.Loads(file, rs)
  {
    hide Joins, MarkerLine, Ledger.Loads, ValidRecord;
    var request, join := ExampleRequest(track), Join("r1", Zeros());
    ExampleJoins(track, strip);
    var made := TargetRecord("run", "r1", track, "/benign/read", Zeros(), 1, 2);
    JoinedIsValid(made, request, track, strip, join);
    first, second, file := RetryIsAnswered("run", track, strip, request, join, [1, 2, 3, 4], |MarkerLine(made)|);
  }

  // ---------- One service from its first request on ----------

  function Posted(id: string, track: P.Track): Request {
    Request("POST", "/consequential/admin",
            [Header("x-request-id", id), Header("x-kil-track", P.TrackName(track)),
             Header("x-kil-decision-digest", Zeros())],
            true)
  }

  lemma PostedJoins(id: string, track: P.Track, strip: string -> string)
    requires IsIdentifier(id)
    ensures Joins(Posted(id, track).headers, track, strip, Join(id, Zeros()))
  {
    var hs := Posted(id, track).headers;
    hide ValuesNamed, Lower, P.TrackName, IsIdentifier;
    LowerKeeps("x-request-id");
    LowerKeeps("x-kil-track");
    LowerKeeps("x-kil-decision-digest");
    forall name
      ensures ValuesNamed(hs, name)
           == if name == "x-request-id" then [id] else if name == "x-kil-track" then [P.TrackName(track)]
              else if name == "x-kil-decision-digest" then [Zeros()] else []
    {
      assert hs == (([] + [hs[0]]) + [hs[1]]) + [hs[2]];
      ValuesNamedNone(name);
      ValuesNamedStep([], hs[0], name);
      ValuesNamedStep([] + [hs[0]], hs[1], name);
      ValuesNamedStep(([] + [hs[0]]) + [hs[1]], hs[2], name);
    }
  }

  lemma NoHeadersNoBody(track: P.Track, strip: string -> string)
    ensures !DeclaresBody([], strip) && !exists j :: Joins([], track, strip, j)
  {
  }

  /** A joined request on a working disk: recorded if its id is new, a conflict otherwise. */
  method Post(app: TargetHttpApp, id: string, received: int, ended: int) returns (answer: Response)
    requires app.Valid() && IsIdentifier(id) && app.ledger.disk.events == [] && |app.ledger.records| < MAX_RECORDS
    requires |app.readings| >= 2 && app.readings[0] == Some(received) && app.readings[1] == Some(ended)
    requires 0 <= received <= ended <= P.MAX_MONOTONIC_NS
    modifies app`readings, app.ledger`records, app.ledger`requestIds, app.ledger`invalid, app.ledger`attempts, app.ledger.disk
    ensures app.Valid() && app.readings == old(app.readings[2..]) && app.ledger.disk.events == []
    ensures answer == if id in old(app.ledger.requestIds) then Response(409, "conflict\n") else Response(200, "recorded\n")
    ensures app.ledger.requestIds == old(app.ledger.requestIds) + {id} && |app.ledger.records| <= old(|app.ledger.records|) + 1
    ensures app.ledger.disk.Contents() == old(app.ledger.disk.Contents())
      + if id in old(app.ledger.requestIds) then []
        else MarkerLine(TargetRecord(app.runId, id, app.track, "/consequential/admin", Zeros(), received, ended))
  {
    hide Joins, MarkerLine, Holds, ValidRecord, AppendRun, Written, ValidAttempts, DistinctIds, AllValid, Acknowledged,
      DeclaresBody, ValuesNamed, IsIdentifier;
    var request, join := Posted(id, app.track), Join(id, Zeros());
    PostedJoins(id, app.track, app.strip);
    forall j | Joins(request.headers, app.track, app.strip, j) ensures j == join {
      JoinIsUnique(request.headers, app.track, app.strip, j, join);
    }
    assert app.Reaches(request, join);
    if id in app.ledger.requestIds {
      answer := app.Handle(request);
    } else {
      ghost var made := TargetRecord(app.runId, id, app.track, "/consequential/admin", Zeros(), received, ended);
      JoinedIsValid(made, request, app.track, app.strip, join);
      FailedAppend(1, |MarkerLine(made)|);
      answer := app.Handle(request);
      assert MarkerLine(made)[..|MarkerLine(made)|] == MarkerLine(made);
    }
  }

  /** A request that reaches no append. */
  method Probe(app: TargetHttpApp, request: Request) returns (answer: Response)
    requires app.Valid() && request.headers == [] && request.bodyIsEmpty
    modifies app`readings, app.ledger`records, app.ledger`requestIds, app.ledger`invalid, app.ledger`attempts, app.ledger.disk
    ensures app.Valid() && app.readings == old(app.readings) && app.ledger.disk.events == old(app.ledger.disk.events)
    ensures app.ledger.disk.Contents() == old(app.ledger.disk.Contents())
    ensures app.ledger.requestIds == old(app.ledger.requestIds) && app.ledger.records == old(app.ledger.records)
    ensures answer ==
      if IsHealth(request) then Response(200, "ok\n")
      else if IsRoute(request.httpMethod, request.path) then Response(400, "invalid request\n")
      else Response(404, "not found\n")
  {
    hide Joins, Holds, DeclaresBody, ValuesNamed;
    NoHeadersNoBody(app.track, app.strip);
    answer := app.Handle(request);
  }

  /** A fresh service on a working disk: health, an unknown path, a request without join headers, a request, the same
      request again, and another one. Each gets its literal answer, and the file is the two markers. */
  method FirstRequests(track: P.Track, strip: string -> string) returns (answers: seq<Response>, file: seq<Byte>)
    ensures answers == [
      Response(200, "ok\n"), Response(404, "not found\n"), Response(400, "invalid request\n"), Response(200, "recorded\n"),
      Response(409, "conflict\n"), Response(200, "recorded\n")]
    ensures file == MarkerLine(TargetRecord("run", "r1", track, "/consequential/admin", Zeros(), 1, 2))
                  + MarkerLine(TargetRecord("run", "r2", track, "/consequential/admin", Zeros(), 5, 6))
  {
    hide MarkerLine, TargetLedger.Valid;
    var disk := new Disk(None, true, []);
    var ledger := TargetLedger.Open(disk);
    var app := TargetHttpApp.Create("run", track, ledger.value, strip, [Some(1), Some(2), Some(3), Some(4), Some(5), Some(6)]);
    var probes := Probes(app.value);
    var posts := Posts(app.value);
    answers, file := probes + posts, disk.Contents();
    assert [] + MarkerLine(TargetRecord("run", "r1", track, "/consequential/admin", Zeros(), 1, 2))
        == MarkerLine(TargetRecord("run", "r1", track, "/consequential/admin", Zeros(), 1, 2));
  }

  method Probes(app: TargetHttpApp) returns (answers: seq<Response>)
    requires app.Valid()
    modifies app`readings, app.ledger`records, app.ledger`requestIds, app.ledger`invalid, app.ledger`attempts, app.ledger.disk
    ensures app.Valid() && app.readings == old(app.readings) && app.ledger.disk.events == old(app.ledger.disk.events)
    ensures app.ledger.disk.Contents() == old(app.ledger.disk.Contents())
    ensures app.ledger.requestIds == old(app.ledger.requestIds) && app.ledger.records == old(app.ledger.records)
    ensures answers == [Response(200, "ok\n"), Response(404, "not found\n"), Response(400, "invalid request\n")]
  {
    hide TargetHttpApp.Valid;
    var health := Probe(app, Request("GET", "/healthz", [], true));
    var unknown := Probe(app, Request("GET", "/nowhere", [], true));
    var bare := Probe(app, Request("POST", "/consequential/admin", [], true));
    return [health, unknown, bare];
  }

  method Posts(app: TargetHttpApp) returns (answers: seq<Response>)
    requires app.Valid() && app.ledger.disk.events == [] && app.ledger.records == [] && app.ledger.requestIds == {}
    requires app.readings == [Some(1), Some(2), Some(3), Some(4), Some(5), Some(6)]
    modifies app`readings, app.ledger`records, app.ledger`requestIds, app.ledger`invalid, app.ledger`attempts, app.ledger.disk
    ensures answers == [Response(200, "recorded\n"), Response(409, "conflict\n"), Response(200, "recorded\n")]
    ensures app.ledger.disk.Contents() == old(app.ledger.disk.Contents())
      + MarkerLine(TargetRecord(app.runId, "r1", app.track, "/consequential/admin", Zeros(), 1, 2))
      + MarkerLine(TargetRecord(app.runId, "r2", app.track, "/consequential/admin", Zeros(), 5, 6))
  {
    hide MarkerLine, TargetHttpApp.Valid, Zeros;
    var first := Post(app, "r1", 1, 2);
    ghost var after := app.ledger.disk.Contents();
    var again := Post(app, "r1", 3, 4);
    assert app.ledger.disk.Contents() == after;
    var second := Post(app, "r2", 5, 6);
    return [first, again, second];
  }
}
