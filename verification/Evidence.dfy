/** Semantic evidence of one run: producer records reduced to rows, rows joined, and the public bundle checked again. */
module Evidence {
  import opened Basics
  import opened Digits
  import P = DriverProtocol
  import L = LedgerRecord

  type Track = P.Track

  datatype Kind = DriverKind | DecisionKind | EnvoyKind | TargetKind

  const TRACKS: seq<Track> := [P.CredentialPolicyBaseline, P.SignedStateOnly, P.SignedPlusLocalReduce]
  const KINDS: seq<Kind> := [DriverKind, DecisionKind, EnvoyKind, TargetKind]

  // ---------- Producer records ----------

  /** An authorization record; `formOk` covers its schema and the three lists of names. */
  datatype Authorization = Authorization(
    formOk: bool, requestId: string, track: Track, httpMethod: string, path: string, outcome: string, httpStatus: int,
    digest: string, monotonicNs: int)

  /** What an Envoy record says of its upstream: both fields a dash, a Pod address with a duration, or neither. */
  datatype Upstream = Dashes | Proven | Malformed

  datatype Proxy = Proxy(runId: string, requestId: string, track: Track, responseCode: string, upstream: Upstream, digest: string)

  datatype Raw =
    | DriverRaw(drivers: seq<P.Record>)
    | DecisionRaw(authorizations: seq<Authorization>)
    | EnvoyRaw(proxies: seq<Proxy>)
    | TargetRaw(targets: seq<L.TargetRecord>)

  function RawKind(r: Raw): Kind {
    match r
    case DriverRaw(_) => DriverKind
    case DecisionRaw(_) => DecisionKind
    case EnvoyRaw(_) => EnvoyKind
    case TargetRaw(_) => TargetKind
  }

  /** One reduced row. */
  datatype Row =
    | DriverRow(track: Track, requestId: string, attempt: int, decision: string, httpStatus: int, digest: string)
    | DecisionRow(track: Track, requestId: string, decision: string, digest: string)
    | EnvoyRow(track: Track, requestId: string, digest: string, attempted: bool, status: Option<int>)
    | TargetRow(track: Track, requestId: string, marker: int)

  function RowKind(r: Row): Kind {
    match r
    case DriverRow(_, _, _, _, _, _) => DriverKind
    case DecisionRow(_, _, _, _) => DecisionKind
    case EnvoyRow(_, _, _, _, _) => EnvoyKind
    case TargetRow(_, _, _) => TargetKind
  }

  predicate IsRun(s: string) {
    |s| == 69 && s[..5] == "v3b2-" && forall k | 5 <= k < 69 :: P.IsLowerHex(s[k])
  }

  /** The run under the prefix the transport uses. */
  function TransportRun(runId: string): string
    requires IsRun(runId)
  {
    "v3b1-" + runId[5..]
  }

  /** The rows one track's producer records reduce to. */
  datatype Derived = Derived(driver: seq<Row>, decision: seq<Row>, envoy: seq<Row>, target: seq<Row>)

  function RowsOf(d: Derived, k: Kind): seq<Row> {
    match k
    case DriverKind => d.driver
    case DecisionKind => d.decision
    case EnvoyKind => d.envoy
    case TargetKind => d.target
  }

  const NOTHING := Derived([], [], [], [])

  predicate AuthorizationOk(a: Authorization, track: Track) {
    && a.formOk && a.track == track && a.requestId == P.REQUEST_ID && a.httpMethod == "POST" && a.path == "/consequential/admin"
    && a.outcome in {"permit", "deny"} && a.httpStatus == (if a.outcome == "permit" then 200 else 403)
    && a.monotonicNs >= 0 && P.IsSha256(a.digest)
  }

  predicate ProxyOk(e: Proxy, a: Authorization, status: int, digest: string, track: Track, runId: string)
    requires IsRun(runId)
  {
    && e.track == track && e.requestId == a.requestId && e.runId == TransportRun(runId)
    && e.responseCode == IntText(status) && status == a.httpStatus && e.digest == a.digest && digest == a.digest
    && e.upstream == (if a.outcome == "permit" then Proven else Dashes)
  }

  predicate TargetOk(t: L.TargetRecord, a: Authorization, track: Track, runId: string) {
    && L.Constructs(t) && t.runId == runId && t.requestId == a.requestId && t.track == track && t.path == a.path
    && t.digest == a.digest
  }

  /** `adapt_producer_sources`. The driver carries neither a request id nor a decision: those join through the
      authorization record. */
  function Adapt(drivers: seq<P.Record>, authorizations: seq<Authorization>, proxies: seq<Proxy>,
                 targets: seq<L.TargetRecord>, track: Track, runId: string, policy: P.Policy): Option<Derived>
  {
    if !IsRun(runId) || |drivers| !in {1, 2}
       || (exists r | r in drivers :: P.ParseResultBytes(P.RecordBytes(r), track, policy) != Some(r))
       || !drivers[0].Readiness? then None
    else if |drivers| == 1 then
      if authorizations == [] && proxies == [] && targets == [] then Some(NOTHING) else None
    else if !drivers[1].Complete? || |authorizations| != 1 || |proxies| != 1 then None
    else
      var terminal, a, e := drivers[1], authorizations[0], proxies[0];
      var permitted := a.outcome == "permit";
      if !AuthorizationOk(a, track) || !ProxyOk(e, a, terminal.status, terminal.digest, track, runId)
         || |targets| != (if permitted then 1 else 0) || (permitted && !TargetOk(targets[0], a, track, runId)) then None
      else
        Some(Derived(
          [DriverRow(track, a.requestId, 1, a.outcome, terminal.status, terminal.digest)],
          [DecisionRow(track, a.requestId, a.outcome, a.digest)],
          [EnvoyRow(track, a.requestId, e.digest, permitted, if permitted then Some(terminal.status) else None)],
          if permitted then [TargetRow(track, a.requestId, 1)] else []))
  }

  /** What a reduction is: nothing, or one decided request with one digest throughout and a marker exactly when it
      was permitted. */
  predicate Sound(d: Derived, track: Track) {
    d == NOTHING
    || (&& |d.driver| == 1 && d.driver[0].DriverRow?
        && var r := d.driver[0];
           && r.track == track && r.requestId == P.REQUEST_ID && r.attempt == 1 && r.decision in {"permit", "deny"}
           && r.httpStatus == (if r.decision == "permit" then 200 else 403) && P.IsSha256(r.digest)
           && d.decision == [DecisionRow(track, P.REQUEST_ID, r.decision, r.digest)]
           && d.envoy == [EnvoyRow(track, P.REQUEST_ID, r.digest, r.decision == "permit",
                                   if r.decision == "permit" then Some(r.httpStatus) else None)]
           && d.target == if r.decision == "permit" then [TargetRow(track, P.REQUEST_ID, 1)] else [])
  }

  lemma AdaptIsSound(drivers: seq<P.Record>, authorizations: seq<Authorization>, proxies: seq<Proxy>,
                     targets: seq<L.TargetRecord>, track: Track, runId: string, policy: P.Policy)
    requires Adapt(drivers, authorizations, proxies, targets, track, runId, policy).Some?
    ensures Sound(Adapt(drivers, authorizations, proxies, targets, track, runId, policy).value, track)
  {
    hide P.ParseResultBytes, P.RecordBytes, P.IsSha256, L.Constructs, IsRun, TransportRun, IntText;
  }

  // ---------- Attestations ----------

  /** One source as attested: its raw records, the rows claimed for it, and its durable instruction. `captureOk` covers
      the capture's location, incarnation and byte commitment, which builder and verifier check alike. */
  datatype Attestation = Attestation(track: Track, rows: seq<Row>, raw: Raw, captureOk: bool, instruction: Option<string>)

  function KindOf(a: Attestation): Kind { RawKind(a.raw) }

  predicate AttestationOk(a: Attestation) {
    && a.captureOk && (a.instruction.Some? ==> P.IsSha256(a.instruction.value))
    && forall k | 0 <= k < |a.rows| :: RowKind(a.rows[k]) == KindOf(a) && a.rows[k].track == a.track
  }

  function Find(atts: seq<Attestation>, k: Kind, t: Track): Option<Attestation> {
    if atts == [] then None
    else if KindOf(atts[|atts| - 1]) == k && atts[|atts| - 1].track == t then Some(atts[|atts| - 1])
    else Find(atts[..|atts| - 1], k, t)
  }

  lemma {:induction false} FoundIs(atts: seq<Attestation>, k: Kind, t: Track)
    ensures var f := Find(atts, k, t); f.Some? ==> KindOf(f.value) == k && f.value.track == t && f.value in atts
  {
    if atts != [] { FoundIs(atts[..|atts| - 1], k, t); }
  }

  ghost predicate DistinctSources(atts: seq<Attestation>) {
    forall i, j | 0 <= i < j < |atts| :: KindOf(atts[i]) != KindOf(atts[j]) || atts[i].track != atts[j].track
  }

  ghost predicate InstructionsAgree(atts: seq<Attestation>) {
    forall i, j | 0 <= i < j < |atts| && atts[i].track == atts[j].track :: atts[i].instruction == atts[j].instruction
  }

  function AdaptTrack(atts: seq<Attestation>, t: Track, runId: string, policy: P.Policy): Option<Derived> {
    FoundIs(atts, DriverKind, t);
    FoundIs(atts, DecisionKind, t);
    FoundIs(atts, EnvoyKind, t);
    FoundIs(atts, TargetKind, t);
    var d, a, e, g := Find(atts, DriverKind, t), Find(atts, DecisionKind, t), Find(atts, EnvoyKind, t), Find(atts, TargetKind, t);
    if d.None? || a.None? || e.None? || g.None? then None
    else Adapt(d.value.raw.drivers, a.value.raw.authorizations, e.value.raw.proxies, g.value.raw.targets, t, runId, policy)
  }

  function Claimed(atts: seq<Attestation>, k: Kind, t: Track): seq<Row> {
    var f := Find(atts, k, t);
    if f.None? then [] else f.value.rows
  }

  /** The claimed rows of a track are those its producer records reduce to, under an instruction exactly when there
      was a request. */
  predicate TrackRederives(atts: seq<Attestation>, t: Track, runId: string, policy: P.Policy) {
    var d := AdaptTrack(atts, t, runId, policy);
    && d.Some?
    && (d.value.driver != [] <==> (var f := Find(atts, DriverKind, t); f.Some? && f.value.instruction.Some?))
    && forall k | k in KINDS :: Claimed(atts, k, t) == RowsOf(d.value, k)
  }

  /** `_records`, as a condition on the attestations. */
  ghost predicate RecordsOk(atts: seq<Attestation>, runId: string, policy: P.Policy) {
    && |atts| == 12 && (forall i | 0 <= i < |atts| :: AttestationOk(atts[i]))
    && DistinctSources(atts) && InstructionsAgree(atts)
    && forall t | t in TRACKS :: TrackRederives(atts, t, runId, policy)
  }

  // ---------- The nominal join ----------

  datatype Case = Case(track: Track, requestId: string, decision: string, httpStatus: int, markers: int)

  datatype Join = Join(track: Track, requestId: string, decision: string, httpStatus: int, markers: int,
                       digestEqual: bool, digest: string, attempted: bool)

  function ExpectedDecision(i: nat): string { if i < 2 then "permit" else "deny" }
  function ExpectedStatus(i: nat): int { if i < 2 then 200 else 403 }
  function ExpectedMarkers(i: nat): nat { if i < 2 then 1 else 0 }

  function ExpectedCase(i: nat): Case
    requires i < 3
  {
    Case(TRACKS[i], P.REQUEST_ID, ExpectedDecision(i), ExpectedStatus(i), ExpectedMarkers(i))
  }

  /** The rows of one track meet the nominal contract. */
  predicate RowsJoin(driver: seq<Row>, decision: seq<Row>, envoy: seq<Row>, target: seq<Row>, i: nat)
    requires i < 3
  {
    && |driver| == 1 && |decision| == 1 && |envoy| == 1 && |target| == ExpectedMarkers(i)
    && driver[0].DriverRow? && decision[0].DecisionRow? && envoy[0].EnvoyRow?
    && (forall k | 0 <= k < |target| :: target[k] == TargetRow(TRACKS[i], P.REQUEST_ID, 1))
    && var d, a, e := driver[0], decision[0], envoy[0];
       && d.track == a.track == e.track == TRACKS[i] && d.requestId == a.requestId == e.requestId == P.REQUEST_ID
       && P.IsSha256(d.digest) && d.digest == a.digest == e.digest
       && d.attempt == 1 && d.decision == a.decision == ExpectedDecision(i) && d.httpStatus == ExpectedStatus(i)
       && e.attempted == (ExpectedDecision(i) == "permit")
       && e.status == (if ExpectedDecision(i) == "permit" then Some(ExpectedStatus(i)) else None)
  }

  function JoinOf(driver: Row, i: nat): Join
    requires i < 3 && driver.DriverRow?
  {
    Join(TRACKS[i], P.REQUEST_ID, ExpectedDecision(i), ExpectedStatus(i), ExpectedMarkers(i), true, driver.digest,
         ExpectedDecision(i) == "permit")
  }

  predicate TrackJoins(atts: seq<Attestation>, i: nat)
    requires i < 3
  {
    RowsJoin(Claimed(atts, DriverKind, TRACKS[i]), Claimed(atts, DecisionKind, TRACKS[i]),
             Claimed(atts, EnvoyKind, TRACKS[i]), Claimed(atts, TargetKind, TRACKS[i]), i)
  }

  /** `join_nominal_evidence`, on attestations that passed `_records`. */
  method JoinNominal(cases: seq<Case>, atts: seq<Attestation>) returns (r: Option<seq<Join>>)
    ensures r.Some? <==> |cases| == 3 && forall i | 0 <= i < 3 :: cases[i] == ExpectedCase(i) && TrackJoins(atts, i)
    ensures r.Some? ==> |r.value| == 3 && forall i | 0 <= i < 3 ::
      TrackJoins(atts, i) && r.value[i] == JoinOf(Claimed(atts, DriverKind, TRACKS[i])[0], i)
  {
    if |cases| != 3 {
      return None;
    }
    var joins: seq<Join> := [];
    hide ExpectedCase, RowsJoin, JoinOf;
    for i := 0 to |TRACKS|
      invariant |joins| == i
      invariant forall j | 0 <= j < i :: cases[j] == ExpectedCase(j) && TrackJoins(atts, j)
      invariant forall j | 0 <= j < i :: JoinShape(atts, j) && joins[j] == JoinOf(Claimed(atts, DriverKind, TRACKS[j])[0], j)
    {
      if cases[i] != ExpectedCase(i) || !TrackJoins(atts, i) {
        return None;
      }
      TrackJoinShape(atts, i);
      joins := joins + [JoinOf(Claimed(atts, DriverKind, TRACKS[i])[0], i)];
    }
    return Some(joins);
  }

  predicate JoinShape(atts: seq<Attestation>, i: nat)
    requires i < 3
  {
    Claimed(atts, DriverKind, TRACKS[i]) != [] && Claimed(atts, DriverKind, TRACKS[i])[0].DriverRow?
  }

  lemma TrackJoinShape(atts: seq<Attestation>, i: nat)
    requires i < 3 && TrackJoins(atts, i)
    ensures JoinShape(atts, i)
  {
  }

  /** After the records pass, the join adds one demand: that each track's outcome is the expected one. */
  lemma JoinDemandsOutcomes(atts: seq<Attestation>, runId: string, policy: P.Policy, i: nat)
    requires RecordsOk(atts, runId, policy) && i < 3
    ensures TrackJoins(atts, i) <==>
      Claimed(atts, DriverKind, TRACKS[i]) != [] && Claimed(atts, DriverKind, TRACKS[i])[0].DriverRow?
      && Claimed(atts, DriverKind, TRACKS[i])[0].decision == ExpectedDecision(i)
  {
    hide Adapt, Find, P.IsSha256, AttestationOk;
    var t := TRACKS[i];
    assert TrackRederives(atts, t, runId, policy);
    var d := AdaptTrack(atts, t, runId, policy).value;
    TrackIsSound(atts, t, runId, policy);
    ClaimedAreDerived(atts, t, runId, policy);
  }

  lemma ClaimedAreDerived(atts: seq<Attestation>, t: Track, runId: string, policy: P.Policy)
    requires TrackRederives(atts, t, runId, policy)
    ensures var d := AdaptTrack(atts, t, runId, policy).value;
      && Claimed(atts, DriverKind, t) == d.driver && Claimed(atts, DecisionKind, t) == d.decision
      && Claimed(atts, EnvoyKind, t) == d.envoy && Claimed(atts, TargetKind, t) == d.target
  {
    hide AdaptTrack, Claimed;
    assert DriverKind in KINDS && DecisionKind in KINDS && EnvoyKind in KINDS && TargetKind in KINDS;
  }

  lemma TrackIsSound(atts: seq<Attestation>, t: Track, runId: string, policy: P.Policy)
    requires AdaptTrack(atts, t, runId, policy).Some?
    ensures Sound(AdaptTrack(atts, t, runId, policy).value, t)
  {
    hide Adapt, Sound;
    FoundIs(atts, DriverKind, t);
    FoundIs(atts, DecisionKind, t);
    FoundIs(atts, EnvoyKind, t);
    FoundIs(atts, TargetKind, t);
    AdaptIsSound(Find(atts, DriverKind, t).value.raw.drivers, Find(atts, DecisionKind, t).value.raw.authorizations,
                 Find(atts, EnvoyKind, t).value.raw.proxies, Find(atts, TargetKind, t).value.raw.targets, t, runId, policy);
  }

  // ---------- The records check as it runs ----------

  ghost predicate Bound(byTrack: map<Track, Option<string>>, atts: seq<Attestation>) {
    && (forall t :: t in byTrack <==> exists k :: 0 <= k < |atts| && atts[k].track == t)
    && (forall k | 0 <= k < |atts| :: byTrack[atts[k].track] == atts[k].instruction)
  }

  ghost predicate SeenSources(seen: set<(Kind, Track)>, atts: seq<Attestation>) {
    forall p :: p in seen <==> exists k :: 0 <= k < |atts| && (KindOf(atts[k]), atts[k].track) == p
  }

  lemma OneMore(atts: seq<Attestation>, i: nat)
    requires i < |atts|
    ensures |atts[..i + 1]| == i + 1 && atts[..i + 1][i] == atts[i] && forall k | 0 <= k < i :: atts[..i + 1][k] == atts[..i][k]
  {
  }

  lemma SourceStep(seen: set<(Kind, Track)>, before: seq<Attestation>, a: Attestation, after: seq<Attestation>)
    requires |after| == |before| + 1 && after[|before|] == a && forall k | 0 <= k < |before| :: after[k] == before[k]
    requires SeenSources(seen, before) && DistinctSources(before)
    ensures (KindOf(a), a.track) !in seen <==> DistinctSources(after)
    ensures SeenSources(seen + {(KindOf(a), a.track)}, after)
  {
    hide KindOf;
    var i := |before|;
    if (KindOf(a), a.track) in seen {
      var k :| 0 <= k < i && (KindOf(before[k]), before[k].track) == (KindOf(a), a.track);
      assert KindOf(after[k]) == KindOf(after[i]) && after[k].track == after[i].track;
    }
    forall p ensures p in seen + {(KindOf(a), a.track)} <==> exists k :: 0 <= k < |after| && (KindOf(after[k]), after[k].track) == p {
      if p in seen {
        var k :| 0 <= k < i && (KindOf(before[k]), before[k].track) == p;
        assert (KindOf(after[k]), after[k].track) == p;
      }
      assert (KindOf(after[i]), after[i].track) == (KindOf(a), a.track);
    }
  }

  lemma InstructionStep(byTrack: map<Track, Option<string>>, before: seq<Attestation>, a: Attestation, after: seq<Attestation>)
    requires |after| == |before| + 1 && after[|before|] == a && forall k | 0 <= k < |before| :: after[k] == before[k]
    requires Bound(byTrack, before) && InstructionsAgree(before)
    ensures (a.track in byTrack ==> byTrack[a.track] == a.instruction) <==> InstructionsAgree(after)
    ensures InstructionsAgree(after) ==> Bound(byTrack[a.track := a.instruction], after)
  {
    var i := |before|;
    if a.track in byTrack {
      var k :| 0 <= k < i && before[k].track == a.track;
      assert after[k].track == after[i].track;
    }
    var more := byTrack[a.track := a.instruction];
    forall t ensures t in more <==> exists k :: 0 <= k < |after| && after[k].track == t {
      if t in byTrack {
        var k :| 0 <= k < i && before[k].track == t;
        assert after[k].track == t;
      }
      assert after[i].track == a.track;
    }
  }

  lemma PrefixesAgree(atts: seq<Attestation>, i: nat)
    requires i <= |atts|
    ensures DistinctSources(atts) ==> DistinctSources(atts[..i])
    ensures InstructionsAgree(atts) ==> InstructionsAgree(atts[..i])
  {
  }

  /** `_records`. */
  method Records(atts: seq<Attestation>, runId: string, policy: P.Policy) returns (ok: bool)
    ensures ok <==> RecordsOk(atts, runId, policy)
  {
    hide AttestationOk, TrackRederives, DistinctSources, InstructionsAgree, SeenSources, Bound;
    if |atts| != 12 {
      return false;
    }
    var seen: set<(Kind, Track)>, byTrack: map<Track, Option<string>> := {}, map[];
    NoSources(atts);
    for i := 0 to |atts|
      invariant forall j | 0 <= j < i :: AttestationOk(atts[j])
      invariant DistinctSources(atts[..i]) && InstructionsAgree(atts[..i])
      invariant SeenSources(seen, atts[..i]) && Bound(byTrack, atts[..i])
    {
      var a := atts[i];
      OneMore(atts, i);
      SourceStep(seen, atts[..i], a, atts[..i + 1]);
      InstructionStep(byTrack, atts[..i], a, atts[..i + 1]);
      PrefixesAgree(atts, i + 1);
      if (KindOf(a), a.track) in seen || !AttestationOk(a) {
        return false;
      }
      if a.track in byTrack && byTrack[a.track] != a.instruction {
        return false;
      }
      seen := seen + {(KindOf(a), a.track)};
      byTrack := byTrack[a.track := a.instruction];
    }
    assert atts[..|atts|] == atts;
    for i := 0 to |TRACKS|
      invariant forall j | 0 <= j < i :: TrackRederives(atts, TRACKS[j], runId, policy)
    {
      if !TrackRederives(atts, TRACKS[i], runId, policy) {
        assert TRACKS[i] in TRACKS;
        return false;
      }
    }
    return true;
  }

  lemma NoSources(atts: seq<Attestation>)
    ensures DistinctSources(atts[..0]) && InstructionsAgree(atts[..0]) && SeenSources({}, atts[..0]) && Bound(map[], atts[..0])
  {
  }

  // ---------- The public bundle ----------

  /** A request as published: the driver's row and the number of target markers. */
  datatype Request = Request(row: Row, markers: int)

  datatype PublicSource = PublicSource(attestation: Attestation, commitment: (nat, string))

  datatype Public = Public(runId: string, nominal: bool, requests: seq<Request>, joins: seq<Join>, sources: seq<PublicSource>)

  function Sources(atts: seq<Attestation>, commit: seq<Row> -> (nat, string)): (r: seq<PublicSource>)
    ensures |r| == |atts| && forall i | 0 <= i < |atts| :: r[i] == PublicSource(atts[i], commit(atts[i].rows))
  {
    seq(|atts|, i requires 0 <= i < |atts| => PublicSource(atts[i], commit(atts[i].rows)))
  }

  ghost predicate NoRows(atts: seq<Attestation>) {
    forall i | 0 <= i < |atts| :: atts[i].rows == []
  }

  /** What a bundle built from private evidence is. */
  ghost predicate Built(cases: seq<Case>, atts: seq<Attestation>, runId: string, policy: P.Policy,
                        commit: seq<Row> -> (nat, string), pub: Public)
  {
    && RecordsOk(atts, runId, policy) && pub.runId == runId && pub.sources == Sources(atts, commit)
    && pub.nominal == (cases != [])
    && if cases == [] then NoRows(atts) && pub.requests == [] && pub.joins == []
       else
         && |cases| == |pub.requests| == |pub.joins| == 3
         && forall i | 0 <= i < 3 ::
              && cases[i] == ExpectedCase(i) && TrackJoins(atts, i) && JoinShape(atts, i)
              && pub.joins[i] == JoinOf(Claimed(atts, DriverKind, TRACKS[i])[0], i)
              && pub.requests[i] == Request(Claimed(atts, DriverKind, TRACKS[i])[0], pub.joins[i].markers)
  }

  /** `_build_public_bundle`, for evidence whose surroundings passed their own checks and did not change. */
  method Build(cases: seq<Case>, atts: seq<Attestation>, runId: string, policy: P.Policy, commit: seq<Row> -> (nat, string))
    returns (r: Option<Public>)
    ensures r.Some? ==> Built(cases, atts, runId, policy, commit, r.value)
    ensures r.None? ==> !exists pub :: Built(cases, atts, runId, policy, commit, pub)
  {
    hide TrackJoins, JoinOf, ExpectedCase, AttestationOk, TrackRederives, DistinctSources, InstructionsAgree, Claimed;
    var ok := Records(atts, runId, policy);
    if !ok {
      return None;
    }
    if cases == [] {
      if exists i | 0 <= i < |atts| :: atts[i].rows != [] {
        return None;
      }
      return Some(Public(runId, false, [], [], Sources(atts, commit)));
    }
    var joins := JoinNominal(cases, atts);
    if joins.None? {
      return None;
    }
    var requests: seq<Request> := [];
    for i := 0 to |TRACKS|
      invariant |requests| == i
      invariant forall j | 0 <= j < i :: JoinShape(atts, j) && requests[j] == Request(Claimed(atts, DriverKind, TRACKS[j])[0], joins.value[j].markers)
    {
      TrackJoinShape(atts, i);
      requests := requests + [Request(Claimed(atts, DriverKind, TRACKS[i])[0], joins.value[i].markers)];
    }
    return Some(Public(runId, true, requests, joins.value, Sources(atts, commit)));
  }

  // ---------- Artifacts ----------

  function Markers(row: Row, from: int, count: int): seq<Row>
    decreases count
  {
    if count <= 0 then [] else [TargetRow(row.track, row.requestId, from)] + Markers(row, from + 1, count - 1)
  }

  /** The rows of one request in each of the four files. */
  function Rendered(q: Request, k: Kind): seq<Row>
    requires q.row.DriverRow?
  {
    var permitted := q.row.decision == "permit";
    match k
    case DriverKind => [q.row]
    case DecisionKind => [DecisionRow(q.row.track, q.row.requestId, q.row.decision, q.row.digest)]
    case EnvoyKind =>
      [EnvoyRow(q.row.track, q.row.requestId, q.row.digest, permitted, if permitted then Some(q.row.httpStatus) else None)]
    case TargetKind => Markers(q.row, 1, q.markers)
  }

  /** `_artifacts`: a file of rows for each kind. */
  function File(requests: seq<Request>, k: Kind): seq<Row>
    requires forall i | 0 <= i < |requests| :: requests[i].row.DriverRow?
  {
    if requests == [] then [] else Rendered(requests[0], k) + File(requests[1..], k)
  }

  function OfTrack(rows: seq<Row>, t: Track): seq<Row> {
    if rows == [] then [] else (if rows[0].track == t then [rows[0]] else []) + OfTrack(rows[1..], t)
  }

  // ---------- The verifier ----------

  /** The four files as parsed back. */
  datatype Files = Files(requests: seq<Row>, decisions: seq<Row>, envoy: seq<Row>, targets: seq<Row>)

  function FileOf(f: Files, k: Kind): seq<Row> {
    match k
    case DriverKind => f.requests
    case DecisionKind => f.decisions
    case EnvoyKind => f.envoy
    case TargetKind => f.targets
  }

  predicate CanonicalOrder(sources: seq<Attestation>) {
    |sources| == 12 && forall i | 0 <= i < 12 :: KindOf(sources[i]) == KINDS[i % 4] && sources[i].track == TRACKS[i / 4]
  }

  function Attestations(sources: seq<PublicSource>): (r: seq<Attestation>)
    ensures |r| == |sources| && forall i | 0 <= i < |sources| :: r[i] == sources[i].attestation
  {
    seq(|sources|, i requires 0 <= i < |sources| => sources[i].attestation)
  }

  predicate SourceMatches(s: PublicSource, f: Files, commit: seq<Row> -> (nat, string)) {
    var selected := OfTrack(FileOf(f, KindOf(s.attestation)), s.attestation.track);
    s.attestation.rows == selected && s.commitment == commit(selected)
  }

  /** `_verify_public_source_attestations`. */
  ghost predicate SourcesVerify(pub: Public, f: Files, policy: P.Policy, commit: seq<Row> -> (nat, string)) {
    && |pub.sources| == 12
    && (forall i | 0 <= i < 12 :: SourceMatches(pub.sources[i], f, commit))
    && CanonicalOrder(Attestations(pub.sources))
    && RecordsOk(Attestations(pub.sources), pub.runId, policy)
  }

  predicate NominalRow(pub: Public, f: Files, i: nat)
    requires i < 3 && |f.requests| == |f.decisions| == |f.envoy| == |pub.requests| == |pub.joins| == 3
  {
    var q, raw, a, e, j := pub.requests[i], f.requests[i], f.decisions[i], f.envoy[i], pub.joins[i];
    var targets := OfTrack(f.targets, TRACKS[i]);
    var permitted := ExpectedDecision(i) == "permit";
    && q.row.DriverRow? && raw.DriverRow? && a.DecisionRow? && e.EnvoyRow?
    && q.row.track == raw.track == a.track == e.track == j.track == TRACKS[i]
    && q.row.requestId == raw.requestId == a.requestId == e.requestId == j.requestId == P.REQUEST_ID
    && raw == q.row && a.decision == q.row.decision == j.decision == ExpectedDecision(i)
    && q.row.httpStatus == j.httpStatus == ExpectedStatus(i) && j.markers == ExpectedMarkers(i)
    && e.status == (if permitted then Some(ExpectedStatus(i)) else None) && e.attempted == permitted && j.attempted == permitted
    && j.digestEqual && j.digest == a.digest && raw.digest == a.digest && e.digest == a.digest
    && raw.attempt == 1 && P.IsSha256(a.digest)
    && |targets| == ExpectedMarkers(i)
    && forall k | 0 <= k < |targets| :: targets[k] == TargetRow(TRACKS[i], P.REQUEST_ID, k + 1)
  }

  /** `_verify_nominal_public_records`, with the tuple of outcomes checked before it. */
  predicate NominalVerifies(pub: Public, f: Files) {
    && |f.requests| == |f.decisions| == |f.envoy| == |pub.requests| == |pub.joins| == 3
    && (forall i | 0 <= i < 3 :: pub.requests[i].markers == ExpectedMarkers(i) && NominalRow(pub, f, i))
    && |f.targets| == 2
  }

  /** The semantic checks on a nominal or request-free bundle. */
  ghost predicate Verifies(pub: Public, f: Files, policy: P.Policy, commit: seq<Row> -> (nat, string)) {
    && (if pub.nominal then NominalVerifies(pub, f) else pub.requests == [] && pub.joins == [])
    && SourcesVerify(pub, f, policy, commit)
  }

  predicate RequestsAreRows(pub: Public) {
    forall i | 0 <= i < |pub.requests| :: pub.requests[i].row.DriverRow?
  }

  function Artifacts(pub: Public): Files
    requires RequestsAreRows(pub)
  {
    Files(File(pub.requests, DriverKind), File(pub.requests, DecisionKind), File(pub.requests, EnvoyKind), File(pub.requests, TargetKind))
  }

  // ---------- Builder and verifier agree ----------

  lemma {:induction false} OfTrackAppend(a: seq<Row>, b: seq<Row>, t: Track)
    ensures OfTrack(a + b, t) == OfTrack(a, t) + OfTrack(b, t)
  {
    if a == [] {
      assert a + b == b;
    } else {
      assert (a + b)[1..] == a[1..] + b;
      OfTrackAppend(a[1..], b, t);
    }
  }

  lemma {:induction false} OfOneTrack(rows: seq<Row>, t: Track, u: Track)
    requires forall k | 0 <= k < |rows| :: rows[k].track == u
    ensures OfTrack(rows, t) == if t == u then rows else []
  {
    if rows != [] {
      OfOneTrack(rows[1..], t, u);
      assert rows == [rows[0]] + rows[1..];
    }
  }

  lemma {:induction false} MarkersOfTrack(row: Row, from: int, count: int)
    ensures forall k | 0 <= k < |Markers(row, from, count)| :: Markers(row, from, count)[k].track == row.track
    decreases count
  {
    if count > 0 { MarkersOfTrack(row, from + 1, count - 1); }
  }

  lemma RenderedOfTrack(q: Request, k: Kind, t: Track)
    requires q.row.DriverRow?
    ensures OfTrack(Rendered(q, k), t) == if q.row.track == t then Rendered(q, k) else []
  {
    MarkersOfTrack(q.row, 1, q.markers);
    OfOneTrack(Rendered(q, k), t, q.row.track);
  }

  /** With one request per track, a file holds under each track just that request's rows. */
  lemma FileOfTrack(requests: seq<Request>, k: Kind, i: nat)
    requires |requests| == 3 && i < 3
    requires forall j | 0 <= j < 3 :: requests[j].row.DriverRow? && requests[j].row.track == TRACKS[j]
    ensures OfTrack(File(requests, k), TRACKS[i]) == Rendered(requests[i], k)
    ensures File(requests, k) == Rendered(requests[0], k) + Rendered(requests[1], k) + Rendered(requests[2], k)
  {
    hide OfTrack, Rendered;
    var x, y, z := Rendered(requests[0], k), Rendered(requests[1], k), Rendered(requests[2], k);
    assert requests[1..][1..][1..] == [];
    assert File(requests[1..][1..], k) == z + [];
    assert File(requests[1..], k) == y + (z + []);
    assert File(requests, k) == x + y + z;
    OfTrackAppend(x + y, z, TRACKS[i]);
    OfTrackAppend(x, y, TRACKS[i]);
    RenderedOfTrack(requests[0], k, TRACKS[i]);
    RenderedOfTrack(requests[1], k, TRACKS[i]);
    RenderedOfTrack(requests[2], k, TRACKS[i]);
  }

  /** A request that joins is rendered as the rows its sources claim. */
  lemma RenderedAreClaimed(atts: seq<Attestation>, runId: string, policy: P.Policy, i: nat, k: Kind, q: Request)
    requires RecordsOk(atts, runId, policy) && i < 3 && TrackJoins(atts, i) && JoinShape(atts, i)
    requires q == Request(Claimed(atts, DriverKind, TRACKS[i])[0], ExpectedMarkers(i))
    ensures q.row.DriverRow? && q.row.track == TRACKS[i] && Rendered(q, k) == Claimed(atts, k, TRACKS[i])
  {
    hide Adapt, Find, P.IsSha256, AttestationOk;
    var t := TRACKS[i];
    assert TrackRederives(atts, t, runId, policy);
    TrackIsSound(atts, t, runId, policy);
    ClaimedAreDerived(atts, t, runId, policy);
    assert Markers(q.row, 1, 1) == [TargetRow(q.row.track, q.row.requestId, 1)] + Markers(q.row, 2, 0);
    hide AdaptTrack, Claimed;
  }

  /** What each source claims is what a search for its kind and track finds. */
  lemma {:induction false} ClaimedIsOwn(atts: seq<Attestation>, i: nat)
    requires DistinctSources(atts) && i < |atts|
    ensures Find(atts, KindOf(atts[i]), atts[i].track) == Some(atts[i])
  {
    var n := |atts| - 1;
    if i < n {
      assert KindOf(atts[i]) != KindOf(atts[n]) || atts[i].track != atts[n].track;
      ClaimedIsOwn(atts[..n], i);
    }
  }

  lemma BuiltRequests(cases: seq<Case>, atts: seq<Attestation>, runId: string, policy: P.Policy,
                      commit: seq<Row> -> (nat, string), pub: Public, i: nat, k: Kind)
    requires Built(cases, atts, runId, policy, commit, pub) && pub.nominal && i < 3
    ensures pub.requests[i].row.DriverRow? && pub.requests[i].row.track == TRACKS[i]
    ensures pub.requests[i].markers == ExpectedMarkers(i) && Rendered(pub.requests[i], k) == Claimed(atts, k, TRACKS[i])
  {
    hide RecordsOk, TrackJoins, Claimed, Rendered;
    RenderedAreClaimed(atts, runId, policy, i, k, pub.requests[i]);
  }

  lemma BuiltIsRows(cases: seq<Case>, atts: seq<Attestation>, runId: string, policy: P.Policy,
                    commit: seq<Row> -> (nat, string), pub: Public)
    requires Built(cases, atts, runId, policy, commit, pub)
    ensures RequestsAreRows(pub)
    ensures pub.nominal ==> |pub.requests| == 3 && forall j | 0 <= j < 3 :: pub.requests[j].row.track == TRACKS[j]
  {
    hide RecordsOk, TrackJoins, Claimed;
    if pub.nominal {
      forall i | 0 <= i < 3 ensures pub.requests[i].row.DriverRow? && pub.requests[i].row.track == TRACKS[i] {
        BuiltRequests(cases, atts, runId, policy, commit, pub, i, DriverKind);
      }
    }
  }

  lemma FilesByKind(pub: Public, k: Kind)
    requires RequestsAreRows(pub)
    ensures FileOf(Artifacts(pub), k) == File(pub.requests, k)
  {
  }

  lemma SourcesMatch(cases: seq<Case>, atts: seq<Attestation>, runId: string, policy: P.Policy,
                     commit: seq<Row> -> (nat, string), pub: Public, i: nat)
    requires Built(cases, atts, runId, policy, commit, pub) && RequestsAreRows(pub) && i < 12
    ensures |pub.sources| == 12 && SourceMatches(pub.sources[i], Artifacts(pub), commit)
  {
    BuiltIsRows(cases, atts, runId, policy, commit, pub);
    var a := atts[i];
    var k := KindOf(a);
    FilesByKind(pub, k);
    if pub.nominal {
      TrackPlace(a.track);
      var t := TrackIndex(a.track);
      FileOfTrack(pub.requests, k, t);
      BuiltRequests(cases, atts, runId, policy, commit, pub, t, k);
      ClaimedIsOwn(atts, i);
      assert OfTrack(FileOf(Artifacts(pub), k), a.track) == Claimed(atts, k, a.track) == a.rows;
    } else {
      assert a.rows == [] && File(pub.requests, k) == [];
    }
  }

  function TrackIndex(t: Track): nat {
    match t
    case CredentialPolicyBaseline => 0
    case SignedStateOnly => 1
    case SignedPlusLocalReduce => 2
  }

  lemma TrackPlace(t: Track)
    ensures TrackIndex(t) < 3 && TRACKS[TrackIndex(t)] == t
  {
  }

  lemma BuiltNominal(cases: seq<Case>, atts: seq<Attestation>, runId: string, policy: P.Policy,
                     commit: seq<Row> -> (nat, string), pub: Public)
    requires Built(cases, atts, runId, policy, commit, pub) && pub.nominal && RequestsAreRows(pub)
    ensures NominalVerifies(pub, Artifacts(pub))
  {
    BuiltIsRows(cases, atts, runId, policy, commit, pub);
    var f := Artifacts(pub);
    FilesAreRendered(pub);
    forall i | 0 <= i < 3 ensures pub.requests[i].markers == ExpectedMarkers(i) {
      BuiltRequests(cases, atts, runId, policy, commit, pub, i, TargetKind);
    }
    ThreeRows(pub);
    forall i | 0 <= i < 3 ensures NominalRow(pub, f, i) {
      BuiltRequests(cases, atts, runId, policy, commit, pub, i, TargetKind);
      FileOfTrack(pub.requests, TargetKind, i);
      BuiltRow(cases, atts, runId, policy, commit, pub, i);
    }
  }

  function ThreeOf(pub: Public, k: Kind): seq<Row>
    requires RequestsAreRows(pub) && |pub.requests| == 3
  {
    Rendered(pub.requests[0], k) + Rendered(pub.requests[1], k) + Rendered(pub.requests[2], k)
  }

  lemma FilesAreRendered(pub: Public)
    requires RequestsAreRows(pub) && |pub.requests| == 3
    requires forall j | 0 <= j < 3 :: pub.requests[j].row.track == TRACKS[j]
    ensures forall k :: FileOf(Artifacts(pub), k) == ThreeOf(pub, k)
  {
    forall k ensures FileOf(Artifacts(pub), k) == ThreeOf(pub, k) {
      FilesByKind(pub, k);
      FileOfTrack(pub.requests, k, 0);
    }
  }

  lemma ThreeRows(pub: Public)
    requires RequestsAreRows(pub) && |pub.requests| == 3
    requires forall j | 0 <= j < 3 :: pub.requests[j].row.track == TRACKS[j] && pub.requests[j].markers == ExpectedMarkers(j)
    ensures var f := Artifacts(pub);
      && |f.requests| == |f.decisions| == |f.envoy| == 3 && |f.targets| == 2
      && (forall i | 0 <= i < 3 :: f.requests[i] == Rendered(pub.requests[i], DriverKind)[0]
                                   && f.decisions[i] == Rendered(pub.requests[i], DecisionKind)[0]
                                   && f.envoy[i] == Rendered(pub.requests[i], EnvoyKind)[0])
  {
    FilesAreRendered(pub);
    var f := Artifacts(pub);
    OneMarker(pub.requests[0].row);
    OneMarker(pub.requests[1].row);
    OneMarker(pub.requests[2].row);
    assert FileOf(f, DriverKind) == f.requests && FileOf(f, DecisionKind) == f.decisions;
    assert FileOf(f, EnvoyKind) == f.envoy && FileOf(f, TargetKind) == f.targets;
  }

  lemma OneMarker(row: Row)
    ensures Markers(row, 1, 1) == [TargetRow(row.track, row.requestId, 1)] && Markers(row, 1, 0) == []
  {
    assert Markers(row, 2, 0) == [];
  }

  lemma BuiltRow(cases: seq<Case>, atts: seq<Attestation>, runId: string, policy: P.Policy,
                 commit: seq<Row> -> (nat, string), pub: Public, i: nat)
    requires Built(cases, atts, runId, policy, commit, pub) && pub.nominal && RequestsAreRows(pub) && i < 3
    requires var f := Artifacts(pub);
      && |f.requests| == |f.decisions| == |f.envoy| == |pub.requests| == |pub.joins| == 3
      && f.requests[i] == Rendered(pub.requests[i], DriverKind)[0] && f.decisions[i] == Rendered(pub.requests[i], DecisionKind)[0]
      && f.envoy[i] == Rendered(pub.requests[i], EnvoyKind)[0]
      && OfTrack(f.targets, TRACKS[i]) == Rendered(pub.requests[i], TargetKind)
    requires pub.requests[i].markers == ExpectedMarkers(i)
    ensures NominalRow(pub, Artifacts(pub), i)
  {
    hide RecordsOk, P.IsSha256, OfTrack, Claimed, Sources, File;
    assert TrackJoins(atts, i);
    OneMarker(pub.requests[i].row);
  }

  /** Whatever the builder accepts, its bundle with the artifacts made from it passes the independent checks exactly
      when the attestations were given track by track in the order of kinds, which the builder itself never asks. */
  lemma BuilderMeetsVerifier(cases: seq<Case>, atts: seq<Attestation>, runId: string, policy: P.Policy,
                             commit: seq<Row> -> (nat, string), pub: Public)
    requires Built(cases, atts, runId, policy, commit, pub)
    ensures RequestsAreRows(pub)
    ensures Verifies(pub, Artifacts(pub), policy, commit) <==> CanonicalOrder(atts)
  {
    hide *;
    BuiltIsRows(cases, atts, runId, policy, commit, pub);
    BuiltParts(cases, atts, runId, policy, commit, pub);
    if pub.nominal {
      BuiltNominal(cases, atts, runId, policy, commit, pub);
    }
    forall i | 0 <= i < 12 ensures |pub.sources| == 12 && SourceMatches(pub.sources[i], Artifacts(pub), commit) {
      SourcesMatch(cases, atts, runId, policy, commit, pub, i);
    }
    VerifiesParts(pub, Artifacts(pub), policy, commit);
  }

  lemma BuiltParts(cases: seq<Case>, atts: seq<Attestation>, runId: string, policy: P.Policy,
                   commit: seq<Row> -> (nat, string), pub: Public)
    requires Built(cases, atts, runId, policy, commit, pub)
    ensures |pub.sources| == 12 && Attestations(pub.sources) == atts && RecordsOk(atts, pub.runId, policy)
    ensures !pub.nominal ==> pub.requests == [] && pub.joins == []
  {
    hide TrackRederives, AttestationOk, DistinctSources, InstructionsAgree, TrackJoins, Claimed;
  }

  lemma VerifiesParts(pub: Public, f: Files, policy: P.Policy, commit: seq<Row> -> (nat, string))
    ensures Verifies(pub, f, policy, commit) <==>
      && (if pub.nominal then NominalVerifies(pub, f) else pub.requests == [] && pub.joins == [])
      && |pub.sources| == 12
      && (forall i | 0 <= i < 12 :: SourceMatches(pub.sources[i], f, commit))
      && CanonicalOrder(Attestations(pub.sources))
      && RecordsOk(Attestations(pub.sources), pub.runId, policy)
  {
    hide NominalVerifies, SourceMatches, CanonicalOrder, RecordsOk, Attestations;
  }

  /** Any nominal bundle that passes, whoever built it: under each track one digest throughout, one permitted or denied
      request, a target marker exactly when permitted, and rows that the published producer records reduce to. */
  lemma VerifiedBundleMeans(pub: Public, f: Files, policy: P.Policy, commit: seq<Row> -> (nat, string), i: nat)
    requires Verifies(pub, f, policy, commit) && pub.nominal && i < 3
    ensures |pub.requests| == |pub.joins| == |f.requests| == |f.decisions| == |f.envoy| == 3
    ensures
      var digest := pub.joins[i].digest;
      && f.requests[i].DriverRow? && f.decisions[i].DecisionRow? && f.envoy[i].EnvoyRow?
      && P.IsSha256(digest) && f.requests[i].digest == f.decisions[i].digest == f.envoy[i].digest == digest
      && (f.decisions[i].decision == "permit" <==> OfTrack(f.targets, TRACKS[i]) == [TargetRow(TRACKS[i], P.REQUEST_ID, 1)])
      && (f.decisions[i].decision == "deny" <==> OfTrack(f.targets, TRACKS[i]) == [])
      && f.decisions[i].decision in {"permit", "deny"}
    ensures
      var atts := Attestations(pub.sources);
      && AdaptTrack(atts, TRACKS[i], pub.runId, policy).Some?
      && forall k | k in KINDS :: RowsOf(AdaptTrack(atts, TRACKS[i], pub.runId, policy).value, k) == OfTrack(FileOf(f, k), TRACKS[i])
  {
    var atts := Attestations(pub.sources);
    var t := TRACKS[i];
    assert NominalRow(pub, f, i);
    assert TrackRederives(atts, t, pub.runId, policy);
    var targets := OfTrack(f.targets, t);
    assert |targets| == 1 ==> targets == [targets[0]];
    hide AdaptTrack, OfTrack, P.IsSha256, Find, NominalRow, AttestationOk;
    forall k | k in KINDS ensures RowsOf(AdaptTrack(atts, t, pub.runId, policy).value, k) == OfTrack(FileOf(f, k), t) {
      var n := KindPlace(i, k);
      ClaimedIsOwn(atts, n);
      assert SourceMatches(pub.sources[n], f, commit);
    }
  }

  /** Where the source of a kind stands among those of the `i`th track. */
  function KindPlace(i: nat, k: Kind): (n: nat)
    requires i < 3
    ensures n < 12 && KINDS[n % 4] == k && TRACKS[n / 4] == TRACKS[i]
  {
    4 * i + match k case DriverKind => 0 case DecisionKind => 1 case EnvoyKind => 2 case TargetKind => 3
  }

  // ---------- What the producer records of a run are ----------

  /** Producer records of a run that was never asked for anything. */
  predicate IdleRecords(drivers: seq<P.Record>, authorizations: seq<Authorization>, proxies: seq<Proxy>,
                        targets: seq<L.TargetRecord>) {
    |drivers| == 1 && drivers[0].Readiness? && authorizations == [] && proxies == [] && targets == []
  }

  /** Producer records of one request: what the driver, the authorizer and the proxy saw of it agree. */
  predicate RequestRecords(drivers: seq<P.Record>, authorizations: seq<Authorization>, proxies: seq<Proxy>, track: Track,
                           runId: string, outcome: string, status: int, text: string, upstream: Upstream, digest: string)
    requires IsRun(runId)
  {
    && |drivers| == 2 && drivers[0].Readiness? && drivers[1].Complete?
    && drivers[1].status == status && drivers[1].digest == digest
    && |authorizations| == 1 && authorizations[0].monotonicNs >= 0
    && authorizations[0] == Authorization(true, "v3b1-central-request", track, "POST", "/consequential/admin", outcome, status,
                                          digest, authorizations[0].monotonicNs)
    && proxies == [Proxy("v3b1-" + runId[5..], "v3b1-central-request", track, text, upstream, digest)]
  }

  /** The marker of that request, under the run's own id. */
  predicate MarkerRecord(t: L.TargetRecord, track: Track, runId: string, digest: string) {
    && t == L.TargetRecord(runId, "v3b1-central-request", track, "/consequential/admin", digest, t.receivedNs, t.responseNs)
    && 0 <= t.receivedNs <= t.responseNs
  }

  /** The records reduce to rows exactly in three cases: an idle run, a permitted request with a proven upstream and its
      marker, a denied request with neither. */
  lemma AdaptsExactly(drivers: seq<P.Record>, authorizations: seq<Authorization>, proxies: seq<Proxy>,
                      targets: seq<L.TargetRecord>, track: Track, runId: string, policy: P.Policy, d: Derived)
    ensures Adapt(drivers, authorizations, proxies, targets, track, runId, policy) == Some(d) <==>
      && IsRun(runId) && (forall r | r in drivers :: P.ParseResultBytes(P.RecordBytes(r), track, policy) == Some(r))
      && ((IdleRecords(drivers, authorizations, proxies, targets) && d == Derived([], [], [], []))
          || (exists digest ::
                && P.IsSha256(digest)
                && RequestRecords(drivers, authorizations, proxies, track, runId, "permit", 200, "200", Proven, digest)
                && |targets| == 1 && MarkerRecord(targets[0], track, runId, digest)
                && d == Derived([DriverRow(track, "v3b1-central-request", 1, "permit", 200, digest)],
                                [DecisionRow(track, "v3b1-central-request", "permit", digest)],
                                [EnvoyRow(track, "v3b1-central-request", digest, true, Some(200))],
                                [TargetRow(track, "v3b1-central-request", 1)]))
          || (exists digest ::
                && P.IsSha256(digest)
                && RequestRecords(drivers, authorizations, proxies, track, runId, "deny", 403, "403", Dashes, digest)
                && targets == []
                && d == Derived([DriverRow(track, "v3b1-central-request", 1, "deny", 403, digest)],
                                [DecisionRow(track, "v3b1-central-request", "deny", digest)],
                                [EnvoyRow(track, "v3b1-central-request", digest, false, None)],
                                [])))
  {
    StatusTexts();
    hide P.ParseResultBytes, P.RecordBytes, P.IsSha256, IntText;
    if IsRun(runId) {
      RunIsIdentifier(runId);
      hide IsRun, L.IsIdentifier;
      if |drivers| == 2 && |authorizations| == 1 && drivers[1].Complete? {
        assert authorizations[0] == Authorization(authorizations[0].formOk, authorizations[0].requestId, authorizations[0].track,
          authorizations[0].httpMethod, authorizations[0].path, authorizations[0].outcome, authorizations[0].httpStatus,
          authorizations[0].digest, authorizations[0].monotonicNs);
      }
    }
  }

  lemma StatusTexts()
    ensures IntText(200) == "200" && IntText(403) == "403"
  {
    assert NatText(2) == "2" && NatText(20) == "20" && NatText(200) == "200";
    assert NatText(4) == "4" && NatText(40) == "40" && NatText(403) == "403";
  }

  lemma RunIsIdentifier(runId: string)
    requires IsRun(runId)
    ensures L.IsIdentifier(runId) && L.IsIdentifier("v3b1-central-request")
  {
    forall k | 0 <= k < |runId| ensures L.IsIdentifierChar(runId[k]) {
      if k < 5 {
        assert runId[..5][k] == runId[k];
      } else {
        assert P.IsLowerHex(runId[k]);
      }
    }
  }
}
