/** The order of source attestations: the builder never looks at it, and the verifier takes exactly one. */
module EvidenceOrder {
  import opened Basics
  import opened Sorting
  import opened Evidence
  import P = DriverProtocol

  function SourceKey(a: Attestation): (Kind, Track) {
    (KindOf(a), a.track)
  }

  lemma DistinctByKey(atts: seq<Attestation>)
    ensures DistinctSources(atts) <==> Distinct(atts, SourceKey)
  {
    hide KindOf;
    if DistinctSources(atts) {
      forall i, j | 0 <= i < j < |atts| ensures SourceKey(atts[i]) != SourceKey(atts[j]) {
      }
    }
    if Distinct(atts, SourceKey) {
      forall i, j | 0 <= i < j < |atts| ensures KindOf(atts[i]) != KindOf(atts[j]) || atts[i].track != atts[j].track {
        assert SourceKey(atts[i]) != SourceKey(atts[j]);
      }
    }
  }

  // ---------- The builder does not look at the order ----------

  lemma {:induction false} FindAny(atts: seq<Attestation>, a: Attestation)
    requires a in atts
    ensures Find(atts, KindOf(a), a.track).Some?
  {
    hide KindOf;
    var n := |atts| - 1;
    if !(KindOf(atts[n]) == KindOf(a) && atts[n].track == a.track) {
      FindAny(atts[..n], a);
    }
  }

  /** Searching a list of distinct sources does not depend on its order. */
  lemma FindForgetsOrder(xs: seq<Attestation>, ys: seq<Attestation>, k: Kind, t: Track)
    requires multiset(xs) == multiset(ys) && DistinctSources(xs)
    ensures Find(xs, k, t) == Find(ys, k, t)
  {
    hide KindOf, Find;
    SameMembers(xs, ys);
    FoundIs(xs, k, t);
    FoundIs(ys, k, t);
    if Find(xs, k, t).Some? {
      FindAny(ys, Find(xs, k, t).value);
    }
    if Find(ys, k, t).Some? {
      var f := Find(ys, k, t).value;
      var i :| 0 <= i < |xs| && xs[i] == f;
      ClaimedIsOwn(xs, i);
    }
  }

  lemma InstructionsForgetOrder(xs: seq<Attestation>, ys: seq<Attestation>)
    requires multiset(xs) == multiset(ys) && InstructionsAgree(xs)
    ensures InstructionsAgree(ys)
  {
    SameMembers(xs, ys);
    forall i, j | 0 <= i < j < |ys| && ys[i].track == ys[j].track ensures ys[i].instruction == ys[j].instruction {
      assert ys[i] in xs && ys[j] in xs;
      var p :| 0 <= p < |xs| && xs[p] == ys[i];
      var q :| 0 <= q < |xs| && xs[q] == ys[j];
      if p < q {
        assert xs[p].instruction == xs[q].instruction;
      } else if q < p {
        assert xs[q].instruction == xs[p].instruction;
      }
    }
  }

  lemma TrackForgetsOrder(xs: seq<Attestation>, ys: seq<Attestation>, t: Track, runId: string, policy: P.Policy)
    requires multiset(xs) == multiset(ys) && DistinctSources(xs)
    ensures AdaptTrack(xs, t, runId, policy) == AdaptTrack(ys, t, runId, policy)
    ensures forall k :: Claimed(xs, k, t) == Claimed(ys, k, t)
    ensures TrackRederives(xs, t, runId, policy) <==> TrackRederives(ys, t, runId, policy)
  {
    hide Find, Adapt, KindOf;
    forall k ensures Find(xs, k, t) == Find(ys, k, t) {
      FindForgetsOrder(xs, ys, k, t);
    }
  }

  lemma RecordsForgetOrder(xs: seq<Attestation>, ys: seq<Attestation>, runId: string, policy: P.Policy)
    requires multiset(xs) == multiset(ys) && RecordsOk(xs, runId, policy)
    ensures RecordsOk(ys, runId, policy)
  {
    hide TrackRederives, AttestationOk, InstructionsAgree, DistinctSources;
    SameMembers(xs, ys);
    DistinctByKey(xs);
    DistinctPermutation(xs, ys, SourceKey);
    DistinctByKey(ys);
    InstructionsForgetOrder(xs, ys);
    forall i | 0 <= i < |ys| ensures AttestationOk(ys[i]) {
      assert ys[i] in xs;
    }
    forall t | t in TRACKS ensures TrackRederives(ys, t, runId, policy) {
      TrackForgetsOrder(xs, ys, t, runId, policy);
    }
  }

  /** The same bundle with its published sources in another order. */
  function Reordered(pub: Public, atts: seq<Attestation>, commit: seq<Row> -> (nat, string)): Public {
    pub.(sources := Sources(atts, commit))
  }

  /** What the builder makes of permuted attestations is the same bundle with its sources permuted alike. */
  lemma BuiltForgetsOrder(cases: seq<Case>, xs: seq<Attestation>, ys: seq<Attestation>, runId: string, policy: P.Policy,
                          commit: seq<Row> -> (nat, string), pub: Public)
    requires multiset(xs) == multiset(ys) && Built(cases, xs, runId, policy, commit, pub)
    ensures Built(cases, ys, runId, policy, commit, Reordered(pub, ys, commit))
    ensures multiset(Reordered(pub, ys, commit).sources) == multiset(pub.sources)
  {
    hide RecordsOk, Claimed, KindOf, JoinOf, ExpectedCase, RowsJoin, DistinctSources;
    RecordsForgetOrder(xs, ys, runId, policy);
    SameMembers(xs, ys);
    MapPermutation(xs, ys, Sources(xs, commit), Sources(ys, commit));
    RecordsAreDistinct(xs, runId, policy);
    if cases == [] {
      forall i | 0 <= i < |ys| ensures ys[i].rows == [] {
        assert ys[i] in xs;
      }
    } else {
      forall i: nat, k | i < 3 ensures Claimed(xs, k, TRACKS[i]) == Claimed(ys, k, TRACKS[i]) {
        TrackForgetsOrder(xs, ys, TRACKS[i], runId, policy);
      }
    }
  }

  lemma RecordsAreDistinct(atts: seq<Attestation>, runId: string, policy: P.Policy)
    requires RecordsOk(atts, runId, policy)
    ensures |atts| == 12 && DistinctSources(atts)
  {
    hide TrackRederives, AttestationOk, InstructionsAgree, DistinctSources;
  }

  // ---------- The verifier takes exactly one order ----------

  /** Whatever order the attestations are put in, the bundle is still built, and it verifies exactly in the canonical
      one. */
  lemma ReorderedVerifiesExactly(cases: seq<Case>, xs: seq<Attestation>, ys: seq<Attestation>, runId: string,
                                 policy: P.Policy, commit: seq<Row> -> (nat, string), pub: Public)
    requires multiset(xs) == multiset(ys) && Built(cases, xs, runId, policy, commit, pub)
    ensures var moved := Reordered(pub, ys, commit);
      && Built(cases, ys, runId, policy, commit, moved) && RequestsAreRows(moved)
      && (Verifies(moved, Artifacts(moved), policy, commit) <==> CanonicalOrder(ys))
  {
    hide *;
    BuiltForgetsOrder(cases, xs, ys, runId, policy, commit, pub);
    BuilderMeetsVerifier(cases, ys, runId, policy, commit, Reordered(pub, ys, commit));
  }

  /** The attestations put in order. */
  ghost function InOrder(atts: seq<Attestation>): (r: seq<Attestation>)
    requires forall i: nat | i < 12 :: Find(atts, KINDS[i % 4], TRACKS[i / 4]).Some?
    ensures |r| == 12 && forall i: nat | i < 12 :: Some(r[i]) == Find(atts, KINDS[i % 4], TRACKS[i / 4])
  {
    seq(12, i requires 0 <= i < 12 => Find(atts, KINDS[i % 4], TRACKS[i / 4]).value)
  }

  lemma AllFound(atts: seq<Attestation>, runId: string, policy: P.Policy, i: nat)
    requires RecordsOk(atts, runId, policy) && i < 12
    ensures Find(atts, KINDS[i % 4], TRACKS[i / 4]).Some?
  {
    var t := TRACKS[i / 4];
    assert t in TRACKS;
    assert TrackRederives(atts, t, runId, policy);
    hide Find, Adapt, Claimed, AttestationOk;
    assert AdaptTrack(atts, t, runId, policy).Some?;
  }

  /** A list of distinct members of a list of the same length is a permutation of it. */
  lemma SameSizePermutation<T>(xs: seq<T>, ys: seq<T>)
    requires |xs| == |ys| && forall i | 0 <= i < |ys| :: ys[i] in xs
    requires forall i, j | 0 <= i < j < |ys| :: ys[i] != ys[j]
    ensures multiset(xs) == multiset(ys)
  {
    forall y ensures multiset(ys)[y] <= multiset(xs)[y] {
      CountAtMostOne(ys, y);
      if y in multiset(ys) {
        assert y in ys;
        assert y in multiset(xs);
      }
    }
    assert multiset(ys) <= multiset(xs);
    var rest := multiset(xs) - multiset(ys);
    assert multiset(xs) == multiset(ys) + rest;
    assert |multiset(xs)| == |xs| && |multiset(ys)| == |ys|;
    assert |rest| == 0;
  }

  lemma {:induction false} OrderIsUnique(xs: seq<Attestation>, ys: seq<Attestation>)
    requires CanonicalOrder(xs) && CanonicalOrder(ys) && DistinctSources(xs) && multiset(xs) == multiset(ys)
    ensures xs == ys
  {
    hide KindOf;
    SameMembers(xs, ys);
    forall i: nat | i < 12 ensures xs[i] == ys[i] {
      assert ys[i] in xs;
      var j :| 0 <= j < |xs| && xs[j] == ys[i];
      ClaimedIsOwn(xs, i);
      ClaimedIsOwn(xs, j);
    }
  }

  /** For every bundle the builder accepts there is exactly one order of its attestations whose bundle verifies. */
  lemma OneOrderVerifies(cases: seq<Case>, atts: seq<Attestation>, runId: string, policy: P.Policy,
                         commit: seq<Row> -> (nat, string), pub: Public)
    requires Built(cases, atts, runId, policy, commit, pub)
    ensures forall i: nat | i < 12 :: Find(atts, KINDS[i % 4], TRACKS[i / 4]).Some?
    ensures multiset(InOrder(atts)) == multiset(atts) && CanonicalOrder(InOrder(atts))
    ensures forall ys | multiset(ys) == multiset(atts) :: CanonicalOrder(ys) <==> ys == InOrder(atts)
  {
    BuiltPasses(cases, atts, runId, policy, commit, pub);
    RecordsAreDistinct(atts, runId, policy);
    hide KindOf, Find, RecordsOk, DistinctSources, Built;
    forall i: nat | i < 12 ensures Find(atts, KINDS[i % 4], TRACKS[i / 4]).Some? {
      AllFound(atts, runId, policy, i);
    }
    var r := InOrder(atts);
    forall i: nat | i < 12 ensures KindOf(r[i]) == KINDS[i % 4] && r[i].track == TRACKS[i / 4] && r[i] in atts {
      FoundIs(atts, KINDS[i % 4], TRACKS[i / 4]);
    }
    forall i, j | 0 <= i < j < |r| ensures r[i] != r[j] {
      PlacesDiffer(i, j);
    }
    SameSizePermutation(atts, r);
    DistinctByKey(atts);
    DistinctPermutation(atts, r, SourceKey);
    DistinctByKey(r);
    forall ys | multiset(ys) == multiset(atts) && CanonicalOrder(ys) ensures ys == r {
      OrderIsUnique(r, ys);
    }
  }

  lemma PlacesDiffer(i: nat, j: nat)
    requires i < j < 12
    ensures KINDS[i % 4] != KINDS[j % 4] || TRACKS[i / 4] != TRACKS[j / 4]
  {
    assert i % 4 != j % 4 || i / 4 != j / 4;
  }

  lemma BuiltPasses(cases: seq<Case>, atts: seq<Attestation>, runId: string, policy: P.Policy,
                    commit: seq<Row> -> (nat, string), pub: Public)
    requires Built(cases, atts, runId, policy, commit, pub)
    ensures RecordsOk(atts, runId, policy)
  {
    hide RecordsOk, NoRows, TrackJoins, JoinShape;
  }

  // ---------- Built, and refused ----------

  function Swapped(atts: seq<Attestation>): (r: seq<Attestation>)
    requires |atts| == 12
    ensures multiset(r) == multiset(atts)
  {
    assert atts == [atts[0]] + [atts[1]] + atts[2..];
    [atts[1]] + [atts[0]] + atts[2..]
  }

  /** Every bundle that verifies has a sibling, with two sources exchanged, that is built all the same and refused. */
  lemma SiblingIsRefused(cases: seq<Case>, atts: seq<Attestation>, runId: string, policy: P.Policy,
                         commit: seq<Row> -> (nat, string), pub: Public)
    requires Built(cases, atts, runId, policy, commit, pub) && CanonicalOrder(atts)
    ensures var moved := Reordered(pub, Swapped(atts), commit);
      && Built(cases, Swapped(atts), runId, policy, commit, moved) && RequestsAreRows(moved)
      && !Verifies(moved, Artifacts(moved), policy, commit)
  {
    ReorderedVerifiesExactly(cases, atts, Swapped(atts), runId, policy, commit, pub);
    hide Built, Verifies, Artifacts, RequestsAreRows;
    assert KindOf(Swapped(atts)[0]) == DecisionKind;
  }

  // ---------- One such bundle ----------

  function IdleRaw(k: Kind, t: Track): Raw {
    match k
    case DriverKind => DriverRaw([P.Readiness(t, 0, 0)])
    case DecisionKind => DecisionRaw([])
    case EnvoyKind => EnvoyRaw([])
    case TargetKind => TargetRaw([])
  }

  function IdleSource(k: Kind, t: Track): Attestation {
    Attestation(t, [], IdleRaw(k, t), true, None)
  }

  /** The sources of a run in which every driver became ready and no request was made. */
  function IdleSources(): (r: seq<Attestation>)
    ensures |r| == 12 && forall i: nat | i < 12 :: r[i] == IdleSource(KINDS[i % 4], TRACKS[i / 4])
  {
    seq(12, i requires 0 <= i < 12 => IdleSource(KINDS[i % 4], TRACKS[i / 4]))
  }

  function IdleRun(): string {
    "v3b2-" + seq(64, k => '0')
  }

  lemma IdleAdapts(t: Track, policy: P.Policy)
    requires policy.errnoNames == map[] && forall j :: policy.clean(j)
    ensures Adapt([P.Readiness(t, 0, 0)], [], [], [], t, IdleRun(), policy) == Some(NOTHING)
  {
    var r := P.Readiness(t, 0, 0);
    IdleRunIsRun();
    P.ParsesExactlyRecordBytes(P.RecordBytes(r), t, policy, r);
    P.RecordTextFits(r, policy);
    hide P.ParseResultBytes, P.RecordText, P.RecordJson, IsRun, IdleRun;
  }

  lemma IdleRunIsRun()
    ensures IsRun(IdleRun())
  {
    var run := IdleRun();
    assert run[..5] == "v3b2-";
    assert forall k | 5 <= k < 69 :: run[k] == '0';
  }

  lemma IdleFound(k: Kind, t: Track)
    ensures DistinctSources(IdleSources()) && Find(IdleSources(), k, t) == Some(IdleSource(k, t))
  {
    hide Find;
    var atts := IdleSources();
    forall i, j | 0 <= i < j < 12 ensures KindOf(atts[i]) != KindOf(atts[j]) || atts[i].track != atts[j].track {
      PlacesDiffer(i, j);
    }
    TrackPlace(t);
    var n := KindPlace(TrackIndex(t), k);
    ClaimedIsOwn(atts, n);
  }

  lemma IdleRederives(t: Track, policy: P.Policy)
    requires policy.errnoNames == map[] && forall j :: policy.clean(j)
    ensures TrackRederives(IdleSources(), t, IdleRun(), policy)
  {
    hide Find, Adapt, IdleSources, IdleRun;
    forall k ensures Find(IdleSources(), k, t) == Some(IdleSource(k, t)) {
      IdleFound(k, t);
    }
    IdleAdapts(t, policy);
  }

  /** The builder takes the sources of an idle run in two orders at least, and the verifier only one of the bundles. */
  lemma IdleRunIsBuiltTwice(policy: P.Policy, commit: seq<Row> -> (nat, string))
    requires policy.errnoNames == map[] && forall j :: policy.clean(j)
    ensures
      var pub := Public(IdleRun(), false, [], [], Sources(IdleSources(), commit));
      var moved := Reordered(pub, Swapped(IdleSources()), commit);
      && Built([], IdleSources(), IdleRun(), policy, commit, pub)
      && Built([], Swapped(IdleSources()), IdleRun(), policy, commit, moved) && RequestsAreRows(pub) && RequestsAreRows(moved)
      && Verifies(pub, Artifacts(pub), policy, commit) && !Verifies(moved, Artifacts(moved), policy, commit)
  {
    var atts := IdleSources();
    var pub := Public(IdleRun(), false, [], [], Sources(atts, commit));
    assert DistinctSources(atts) by { IdleFound(DriverKind, P.SignedStateOnly); }
    assert CanonicalOrder(atts);
    hide IdleSources, IdleRun, DistinctSources, Adapt, Find, CanonicalOrder, TrackRederives;
    forall t | t in TRACKS ensures TrackRederives(atts, t, IdleRun(), policy) {
      IdleRederives(t, policy);
    }
    assert RecordsOk(atts, IdleRun(), policy);
    BuilderMeetsVerifier([], atts, IdleRun(), policy, commit, pub);
    SiblingIsRefused([], atts, IdleRun(), policy, commit, pub);
  }
}
