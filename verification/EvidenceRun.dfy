/** A nominal run from its producer records to its verified bundle, and what verified records must have said. */
module EvidenceRun {
  import opened Basics
  import opened Evidence
  import opened EvidenceOrder
  import P = DriverProtocol
  import L = LedgerRecord

  // ---------- One nominal run ----------

  function Digest(): string {
    seq(64, k => 'a')
  }

  lemma DigestIsSha256()
    ensures P.IsSha256(Digest())
  {
  }

  function Outcome(t: Track): string {
    if t == P.SignedPlusLocalReduce then "deny" else "permit"
  }

  function Status(t: Track): int {
    if t == P.SignedPlusLocalReduce then 403 else 200
  }

  /** What each producer recorded of its one request. */
  function RunDrivers(t: Track): seq<P.Record> {
    [P.Readiness(t, 1, 2), P.Complete(t, 3, 4, 5, Status(t), Digest())]
  }

  function RunAuthorizations(t: Track): seq<Authorization> {
    [Authorization(true, "v3b1-central-request", t, "POST", "/consequential/admin", Outcome(t), Status(t), Digest(), 4)]
  }

  function RunProxies(t: Track): seq<Proxy> {
    if t == P.SignedPlusLocalReduce then
      [Proxy("v3b1-" + seq(64, k => '0'), "v3b1-central-request", t, "403", Dashes, Digest())]
    else
      [Proxy("v3b1-" + seq(64, k => '0'), "v3b1-central-request", t, "200", Proven, Digest())]
  }

  function RunTargets(t: Track): seq<L.TargetRecord> {
    if t == P.SignedPlusLocalReduce then []
    else [L.TargetRecord(IdleRun(), "v3b1-central-request", t, "/consequential/admin", Digest(), 4, 5)]
  }

  function RunRaw(k: Kind, t: Track): Raw {
    match k
    case DriverKind => DriverRaw(RunDrivers(t))
    case DecisionKind => DecisionRaw(RunAuthorizations(t))
    case EnvoyKind => EnvoyRaw(RunProxies(t))
    case TargetKind => TargetRaw(RunTargets(t))
  }

  /** The rows they reduce to, written out. */
  function RunRows(t: Track): Derived {
    if t == P.SignedPlusLocalReduce then
      Derived([DriverRow(t, "v3b1-central-request", 1, "deny", 403, Digest())],
              [DecisionRow(t, "v3b1-central-request", "deny", Digest())],
              [EnvoyRow(t, "v3b1-central-request", Digest(), false, None)],
              [])
    else
      Derived([DriverRow(t, "v3b1-central-request", 1, "permit", 200, Digest())],
              [DecisionRow(t, "v3b1-central-request", "permit", Digest())],
              [EnvoyRow(t, "v3b1-central-request", Digest(), true, Some(200))],
              [TargetRow(t, "v3b1-central-request", 1)])
  }

  function RunSource(k: Kind, t: Track): Attestation {
    Attestation(t, RowsOf(RunRows(t), k), RunRaw(k, t), true, Some(Digest()))
  }

  function RunSources(): (r: seq<Attestation>)
    ensures |r| == 12 && forall i: nat | i < 12 :: r[i] == RunSource(KINDS[i % 4], TRACKS[i / 4])
  {
    seq(12, i requires 0 <= i < 12 => RunSource(KINDS[i % 4], TRACKS[i / 4]))
  }

  function RunCases(): seq<Case> {
    [Case(P.CredentialPolicyBaseline, "v3b1-central-request", "permit", 200, 1),
     Case(P.SignedStateOnly, "v3b1-central-request", "permit", 200, 1),
     Case(P.SignedPlusLocalReduce, "v3b1-central-request", "deny", 403, 0)]
  }

  /** The bundle published for the run. */
  function RunBundle(commit: seq<Row> -> (nat, string)): Public {
    Public(IdleRun(), true,
      [Request(DriverRow(P.CredentialPolicyBaseline, "v3b1-central-request", 1, "permit", 200, Digest()), 1),
       Request(DriverRow(P.SignedStateOnly, "v3b1-central-request", 1, "permit", 200, Digest()), 1),
       Request(DriverRow(P.SignedPlusLocalReduce, "v3b1-central-request", 1, "deny", 403, Digest()), 0)],
      [Join(P.CredentialPolicyBaseline, "v3b1-central-request", "permit", 200, 1, true, Digest(), true),
       Join(P.SignedStateOnly, "v3b1-central-request", "permit", 200, 1, true, Digest(), true),
       Join(P.SignedPlusLocalReduce, "v3b1-central-request", "deny", 403, 0, true, Digest(), false)],
      Sources(RunSources(), commit))
  }

  lemma DriversParse(t: Track, policy: P.Policy)
    requires policy.errnoNames == map[] && forall j :: policy.clean(j)
    ensures forall r | r in RunDrivers(t) :: P.ParseResultBytes(P.RecordBytes(r), t, policy) == Some(r)
  {
    DigestIsSha256();
    hide P.ParseResultBytes, P.RecordText, P.RecordJson, Digest, P.IsSha256;
    forall r | r in RunDrivers(t) ensures P.ParseResultBytes(P.RecordBytes(r), t, policy) == Some(r) {
      P.ParsesExactlyRecordBytes(P.RecordBytes(r), t, policy, r);
      P.RecordTextFits(r, policy);
    }
  }

  lemma IdleRunRest()
    ensures IsRun(IdleRun()) && "v3b1-" + IdleRun()[5..] == "v3b1-" + seq(64, k => '0')
  {
    IdleRunIsRun();
    assert IdleRun()[5..] == seq(64, k => '0');
  }

  lemma RunAdapts(t: Track, policy: P.Policy)
    requires policy.errnoNames == map[] && forall j :: policy.clean(j)
    ensures Adapt(RunDrivers(t), RunAuthorizations(t), RunProxies(t), RunTargets(t), t, IdleRun(), policy) == Some(RunRows(t))
  {
    DriversParse(t, policy);
    DigestIsSha256();
    IdleRunRest();
    AdaptsExactly(RunDrivers(t), RunAuthorizations(t), RunProxies(t), RunTargets(t), t, IdleRun(), policy, RunRows(t));
    hide Adapt, P.ParseResultBytes, P.RecordBytes, IsRun, IdleRun, Digest, P.IsSha256;
    var outcome, status, text := Outcome(t), Status(t), if t == P.SignedPlusLocalReduce then "403" else "200";
    assert RequestRecords(RunDrivers(t), RunAuthorizations(t), RunProxies(t), t, IdleRun(), outcome, status, text,
                          if t == P.SignedPlusLocalReduce then Dashes else Proven, Digest());
  }

  lemma RunFound(k: Kind, t: Track)
    ensures DistinctSources(RunSources()) && InstructionsAgree(RunSources())
    ensures Find(RunSources(), k, t) == Some(RunSource(k, t))
  {
    hide Find, RunRows, Digest;
    var atts := RunSources();
    forall i, j | 0 <= i < j < 12 ensures KindOf(atts[i]) != KindOf(atts[j]) || atts[i].track != atts[j].track {
      PlacesDiffer(i, j);
    }
    TrackPlace(t);
    var n := KindPlace(TrackIndex(t), k);
    ClaimedIsOwn(atts, n);
  }

  lemma RunRederives(t: Track, policy: P.Policy)
    requires policy.errnoNames == map[] && forall j :: policy.clean(j)
    ensures TrackRederives(RunSources(), t, IdleRun(), policy)
    ensures forall k :: Claimed(RunSources(), k, t) == RowsOf(RunRows(t), k)
  {
    hide Find, Adapt, RunSources, IdleRun, Digest, RunDrivers, RunAuthorizations, RunProxies, RunTargets;
    forall k ensures Find(RunSources(), k, t) == Some(RunSource(k, t)) {
      RunFound(k, t);
    }
    RunAdapts(t, policy);
  }

  lemma RunAttests(i: nat)
    requires i < 12
    ensures AttestationOk(RunSources()[i])
  {
    DigestIsSha256();
    hide P.IsSha256, Digest, RunDrivers, RunAuthorizations, RunProxies, RunTargets;
  }

  lemma RunJoins(policy: P.Policy, commit: seq<Row> -> (nat, string), i: nat)
    requires policy.errnoNames == map[] && (forall j :: policy.clean(j)) && i < 3
    ensures var pub := RunBundle(commit);
      && RunCases()[i] == ExpectedCase(i) && TrackJoins(RunSources(), i) && JoinShape(RunSources(), i)
      && pub.joins[i] == JoinOf(Claimed(RunSources(), DriverKind, TRACKS[i])[0], i)
      && pub.requests[i] == Request(Claimed(RunSources(), DriverKind, TRACKS[i])[0], pub.joins[i].markers)
  {
    RunRederives(TRACKS[i], policy);
    DigestIsSha256();
    hide Claimed, RunSources, IdleRun, Digest, P.IsSha256, TrackRederives;
  }

  /** The producer records of an ordinary nominal run, two tracks permitted and one denied, make the bundle written out
      above, and it verifies. */
  lemma NominalRunIsBuilt(policy: P.Policy, commit: seq<Row> -> (nat, string))
    requires policy.errnoNames == map[] && forall j :: policy.clean(j)
    ensures var pub := RunBundle(commit);
      && Built(RunCases(), RunSources(), IdleRun(), policy, commit, pub)
      && RequestsAreRows(pub) && Verifies(pub, Artifacts(pub), policy, commit)
  {
    var atts, pub := RunSources(), RunBundle(commit);
    assert DistinctSources(atts) && InstructionsAgree(atts) by { RunFound(DriverKind, P.SignedStateOnly); }
    assert CanonicalOrder(atts);
    assert pub.runId == IdleRun() && pub.nominal && pub.sources == Sources(atts, commit);
    assert |RunCases()| == |pub.requests| == |pub.joins| == 3;
    hide *;
    forall t | t in TRACKS ensures TrackRederives(atts, t, IdleRun(), policy) {
      RunRederives(t, policy);
    }
    forall i: nat | i < 12 ensures AttestationOk(atts[i]) {
      RunAttests(i);
    }
    forall i: nat | i < 3
      ensures RunCases()[i] == ExpectedCase(i) && TrackJoins(atts, i) && JoinShape(atts, i)
      ensures pub.joins[i] == JoinOf(Claimed(atts, DriverKind, TRACKS[i])[0], i)
      ensures pub.requests[i] == Request(Claimed(atts, DriverKind, TRACKS[i])[0], pub.joins[i].markers)
    {
      RunJoins(policy, commit, i);
    }
    BuiltIs(RunCases(), atts, IdleRun(), policy, commit, pub);
    BuilderMeetsVerifier(RunCases(), atts, IdleRun(), policy, commit, pub);
  }

  /** The builder's conditions, gathered. */
  lemma BuiltIs(cases: seq<Case>, atts: seq<Attestation>, runId: string, policy: P.Policy, commit: seq<Row> -> (nat, string),
                pub: Public)
    requires |atts| == 12 && (forall i: nat | i < 12 :: AttestationOk(atts[i])) && DistinctSources(atts) && InstructionsAgree(atts)
    requires forall t | t in TRACKS :: TrackRederives(atts, t, runId, policy)
    requires pub.runId == runId && pub.nominal && pub.sources == Sources(atts, commit)
    requires |cases| == |pub.requests| == |pub.joins| == 3
    requires forall i: nat | i < 3 ::
      && cases[i] == ExpectedCase(i) && TrackJoins(atts, i) && JoinShape(atts, i)
      && pub.joins[i] == JoinOf(Claimed(atts, DriverKind, TRACKS[i])[0], i)
      && pub.requests[i] == Request(Claimed(atts, DriverKind, TRACKS[i])[0], pub.joins[i].markers)
    ensures Built(cases, atts, runId, policy, commit, pub)
  {
    hide AttestationOk, DistinctSources, InstructionsAgree, TrackRederives, Claimed, ExpectedCase, TrackJoins, JoinOf, Sources;
  }

  // ---------- What the records of a verified bundle must have said ----------

  /** The sources of the `i`th track, in the order of kinds, are what its rows were derived from. */
  lemma VerifiedSources(pub: Public, f: Files, policy: P.Policy, commit: seq<Row> -> (nat, string), i: nat)
    requires Verifies(pub, f, policy, commit) && i < 3
    ensures |pub.sources| == 12
    ensures var atts := Attestations(pub.sources);
      && atts[4 * i].raw.DriverRaw? && atts[4 * i + 1].raw.DecisionRaw? && atts[4 * i + 2].raw.EnvoyRaw?
      && atts[4 * i + 3].raw.TargetRaw?
      && AdaptTrack(atts, TRACKS[i], pub.runId, policy)
         == Adapt(atts[4 * i].raw.drivers, atts[4 * i + 1].raw.authorizations, atts[4 * i + 2].raw.proxies,
                  atts[4 * i + 3].raw.targets, TRACKS[i], pub.runId, policy)
  {
    var atts := Attestations(pub.sources);
    SourceAt(pub, f, policy, commit, i, DriverKind, 0);
    SourceAt(pub, f, policy, commit, i, DecisionKind, 1);
    SourceAt(pub, f, policy, commit, i, EnvoyKind, 2);
    SourceAt(pub, f, policy, commit, i, TargetKind, 3);
    hide Verifies, Find, Adapt, Attestations;
  }

  lemma SourceAt(pub: Public, f: Files, policy: P.Policy, commit: seq<Row> -> (nat, string), i: nat, kind: Kind, k: nat)
    requires Verifies(pub, f, policy, commit) && i < 3 && k < 4 && KINDS[k] == kind
    ensures |pub.sources| == 12
    ensures var a := Attestations(pub.sources)[4 * i + k];
      KindOf(a) == kind && Find(Attestations(pub.sources), kind, TRACKS[i]) == Some(a)
  {
    VerifiesParts(pub, f, policy, commit);
    var atts := Attestations(pub.sources);
    RecordsAreDistinct(atts, pub.runId, policy);
    hide Verifies, RecordsOk, DistinctSources, Find, SourceMatches, NominalVerifies, KindOf;
    var n := 4 * i + k;
    assert n % 4 == k && n / 4 == i;
    ClaimedIsOwn(atts, n);
  }

  /** The decision file has one row for each track, in the order of tracks. */
  lemma DecisionOfTrack(pub: Public, f: Files, i: nat)
    requires NominalVerifies(pub, f) && i < 3
    ensures |f.decisions| == 3 && f.decisions[i].DecisionRow? && OfTrack(f.decisions, TRACKS[i]) == [f.decisions[i]]
  {
    forall j: nat | j < 3 ensures f.decisions[j].DecisionRow? && f.decisions[j].track == TRACKS[j] {
      assert NominalRow(pub, f, j);
    }
    hide NominalVerifies;
    var x, y, z := f.decisions[0], f.decisions[1], f.decisions[2];
    assert f.decisions == ([x] + [y]) + [z];
    OfTrackAppend([x] + [y], [z], TRACKS[i]);
    OfTrackAppend([x], [y], TRACKS[i]);
    OfOneTrack([x], TRACKS[i], TRACKS[0]);
    OfOneTrack([y], TRACKS[i], TRACKS[1]);
    OfOneTrack([z], TRACKS[i], TRACKS[2]);
  }

  /** Under each track of a verified nominal bundle the published records are those of one request on which all
      producers agree: the proxy proves an upstream exactly on permit, and the target's marker, there exactly on permit,
      carries the run, request, path and digest of the authorization. */
  lemma VerifiedRecordsMean(pub: Public, f: Files, policy: P.Policy, commit: seq<Row> -> (nat, string), i: nat)
    requires Verifies(pub, f, policy, commit) && pub.nominal && i < 3
    ensures |pub.sources| == 12 && pub.sources[4 * i].attestation.raw.DriverRaw?
      && pub.sources[4 * i + 1].attestation.raw.DecisionRaw? && pub.sources[4 * i + 2].attestation.raw.EnvoyRaw?
      && pub.sources[4 * i + 3].attestation.raw.TargetRaw?
    ensures |f.decisions| == 3 && f.decisions[i].DecisionRow?
    ensures
      var drivers := pub.sources[4 * i].attestation.raw.drivers;
      var authorizations := pub.sources[4 * i + 1].attestation.raw.authorizations;
      var proxies := pub.sources[4 * i + 2].attestation.raw.proxies;
      var targets := pub.sources[4 * i + 3].attestation.raw.targets;
      && |drivers| == 2 && drivers[1].Complete? && |authorizations| == 1 && |proxies| == 1
      && var a, e := authorizations[0], proxies[0];
         && a.track == e.track == TRACKS[i] && a.requestId == e.requestId && a.outcome == f.decisions[i].decision
         && a.digest == e.digest == drivers[1].digest == f.decisions[i].digest && a.httpStatus == drivers[1].status
         && (a.outcome == "permit" <==> e.upstream == Proven) && (a.outcome == "deny" <==> e.upstream == Dashes)
         && (if a.outcome == "permit" then
               && |targets| == 1 && targets[0].runId == pub.runId && targets[0].requestId == a.requestId
               && targets[0].track == a.track && targets[0].path == a.path && targets[0].digest == a.digest
             else targets == [])
  {
    var atts := Attestations(pub.sources);
    var t := TRACKS[i];
    VerifiedSources(pub, f, policy, commit, i);
    VerifiedBundleMeans(pub, f, policy, commit, i);
    assert NominalVerifies(pub, f);
    DecisionOfTrack(pub, f, i);
    var d := AdaptTrack(atts, t, pub.runId, policy).value;
    assert RowsOf(d, DecisionKind) == OfTrack(FileOf(f, DecisionKind), t) by { assert DecisionKind in KINDS; }
    assert d.decision == [f.decisions[i]];
    AdaptsExactly(atts[4 * i].raw.drivers, atts[4 * i + 1].raw.authorizations, atts[4 * i + 2].raw.proxies,
                  atts[4 * i + 3].raw.targets, t, pub.runId, policy, d);
    hide Verifies, NominalVerifies, Adapt, AdaptTrack, P.ParseResultBytes, P.RecordBytes, P.IsSha256, IsRun, OfTrack, RowsOf, Find;
  }
}
