/** Paired replay of one event stream on three tracks, with incremental success sets. */
module Replay {
  import opened Basics
  import opened Decision

  datatype EvidenceClass = Observed | Modeled | Validated

  datatype ScenarioEvent = ScenarioEvent(
    eventId: string,
    request: ActionRequest,
    summaryClass: EvidenceClass, controlClass: EvidenceClass, stateClass: EvidenceClass, localClass: EvidenceClass,
    credentialValid: bool, policyAllows: bool,
    dependsOn: seq<string>,
    state: CompositeState,
    evidence: LocalEvidence)
  {
    predicate Valid() {
      request.Valid() && state.Valid() && evidence.Valid()
    }

    predicate Labelled() {
      && request.requestId == eventId
      && summaryClass.Observed? && controlClass.Modeled? && stateClass.Modeled? && localClass.Modeled?
    }
  }

  datatype PairedDecision = PairedDecision(
    eventId: string,
    baselinePermit: bool, baselineReachable: bool,
    signed: DecisionRecord, signedReachable: bool,
    local: DecisionRecord, localReachable: bool)

  datatype Track = Baseline | Signed | Local

  function InputsOf(e: ScenarioEvent, mode: EnforcementMode, profile: ReductionProfile): Inputs {
    if mode.SignedStateOnly? then Inputs(e.request, e.state, mode, None, None, FailClosed)
    else Inputs(e.request, e.state, mode, Some(e.evidence), Some(profile), FailClosed)
  }

  function RecordOf(a: Arithmetic, e: ScenarioEvent, mode: EnforcementMode, profile: ReductionProfile): DecisionRecord
    requires e.Valid() && profile.Valid()
  {
    Record(a, InputsOf(e, mode, profile))
  }

  function Permits(a: Arithmetic, e: ScenarioEvent, profile: ReductionProfile, t: Track): bool
    requires e.Valid() && profile.Valid()
  {
    match t
    case Baseline => e.credentialValid && e.policyAllows
    case Signed => RecordOf(a, e, SignedStateOnly, profile).outcome.Permit?
    case Local => RecordOf(a, e, SignedPlusLocalReduce, profile).outcome.Permit?
  }

  // ---------- What reachability means ----------

  ghost predicate DistinctIds(events: seq<ScenarioEvent>) {
    forall j, k | 0 <= j < k < |events| :: events[j].eventId != events[k].eventId
  }

  ghost predicate ParentsFirst(events: seq<ScenarioEvent>) {
    forall k, d | 0 <= k < |events| && 0 <= d < |events[k].dependsOn| :: HasParent(events, k, events[k].dependsOn[d])
  }

  ghost predicate HasParent(events: seq<ScenarioEvent>, k: nat, id: string)
    requires k < |events|
  {
    exists p :: 0 <= p < k && events[p].eventId == id
  }

  ghost predicate Scenario(events: seq<ScenarioEvent>) {
    && events != []
    && (forall k | 0 <= k < |events| :: events[k].Labelled())
    && DistinctIds(events) && ParentsFirst(events)
  }

  ghost predicate Parent(events: seq<ScenarioEvent>, p: nat, k: nat) {
    p < k < |events| && events[p].eventId in events[k].dependsOn
  }

  /** `j` lies on a chain of dependencies leading to `k`. */
  ghost predicate Ancestor(events: seq<ScenarioEvent>, j: nat, k: nat)
    decreases k
  {
    exists p: nat | p < k :: Parent(events, p, k) && (j == p || Ancestor(events, j, p))
  }

  ghost predicate AllValid(events: seq<ScenarioEvent>) {
    forall k | 0 <= k < |events| :: events[k].Valid()
  }

  /** Every transitive ancestor permits. */
  ghost predicate Reachable(a: Arithmetic, events: seq<ScenarioEvent>, profile: ReductionProfile, t: Track, k: nat)
    requires k < |events| && AllValid(events) && profile.Valid()
  {
    forall j | 0 <= j < k && Ancestor(events, j, k) :: Permits(a, events[j], profile, t)
  }

  ghost predicate Succeeds(a: Arithmetic, events: seq<ScenarioEvent>, profile: ReductionProfile, t: Track, k: nat)
    requires k < |events| && AllValid(events) && profile.Valid()
  {
    Permits(a, events[k], profile, t) && Reachable(a, events, profile, t, k)
  }

  /** `success` is the set of ids that succeeded among the first `n` events. */
  ghost predicate SuccessSet(
    a: Arithmetic, events: seq<ScenarioEvent>, profile: ReductionProfile, t: Track, n: nat, success: set<string>)
    requires n <= |events| && AllValid(events) && profile.Valid()
  {
    && (forall k | 0 <= k < n :: events[k].eventId in success <==> Succeeds(a, events, profile, t, k))
    && (forall id | id in success :: exists k :: 0 <= k < n && events[k].eventId == id)
  }

  ghost predicate Seen(events: seq<ScenarioEvent>, n: nat, seen: set<string>)
    requires n <= |events|
  {
    && (forall k | 0 <= k < n :: events[k].eventId in seen)
    && (forall id | id in seen :: exists k :: 0 <= k < n && events[k].eventId == id)
  }

  ghost predicate Expected(a: Arithmetic, events: seq<ScenarioEvent>, profile: ReductionProfile, k: nat, d: PairedDecision)
    requires k < |events| && AllValid(events) && profile.Valid()
  {
    && d.eventId == events[k].eventId
    && d.baselinePermit == Permits(a, events[k], profile, Baseline)
    && d.signed == RecordOf(a, events[k], SignedStateOnly, profile)
    && d.local == RecordOf(a, events[k], SignedPlusLocalReduce, profile)
    && d.baselineReachable == Reachable(a, events, profile, Baseline, k)
    && d.signedReachable == Reachable(a, events, profile, Signed, k)
    && d.localReachable == Reachable(a, events, profile, Local, k)
  }

  method Replay(a: Arithmetic, events: seq<ScenarioEvent>, profile: ReductionProfile)
    returns (r: Option<seq<PairedDecision>>)
    requires AllValid(events) && profile.Valid() && SignPreserving(a)
    ensures r.Some? <==> Scenario(events)
    ensures r.Some? ==> |r.value| == |events|
    ensures r.Some? ==> forall k | 0 <= k < |events| :: Expected(a, events, profile, k, r.value[k])
  {
    hide Reachable, Permits, Ancestor, SignPreserving, Record, SuccessSet, Seen, DistinctIds, ParentsFirst, RecordOf;
    hide InputsOf, AllIn, AllValid, Expected;
    if events == [] {
      return None;
    }
    var decisions: seq<PairedDecision> := [];
    var baselineSuccess: set<string> := {};
    var signedSuccess: set<string> := {};
    var localSuccess: set<string> := {};
    var seen: set<string> := {};
    Start(a, events, profile);
    for n := 0 to |events|
      invariant |decisions| == n
      invariant forall k | 0 <= k < n :: events[k].Labelled()
      invariant DistinctIds(events[..n]) && ParentsFirst(events[..n])
      invariant Seen(events, n, seen)
      invariant SuccessSet(a, events, profile, Baseline, n, baselineSuccess)
      invariant SuccessSet(a, events, profile, Signed, n, signedSuccess)
      invariant SuccessSet(a, events, profile, Local, n, localSuccess)
      invariant forall k | 0 <= k < n :: Expected(a, events, profile, k, decisions[k])
    {
      var event := events[n];
      ValidEvent(events, n);
      if !event.Labelled() {
        return None;
      }
      if event.eventId in seen {
        Duplicate(events, n, seen);
        return None;
      }
      if !AllIn(event.dependsOn, seen) {
        LateParent(events, n, seen);
        return None;
      }
      OneMoreEvent(events, n, seen);
      var baselineReachable := AllIn(event.dependsOn, baselineSuccess);
      var signedReachable := AllIn(event.dependsOn, signedSuccess);
      var localReachable := AllIn(event.dependsOn, localSuccess);
      ReachableFromParents(a, events, profile, Baseline, n, baselineSuccess, seen);
      ReachableFromParents(a, events, profile, Signed, n, signedSuccess, seen);
      ReachableFromParents(a, events, profile, Local, n, localSuccess, seen);
      var baselinePermit := event.credentialValid && event.policyAllows;
      PermitsAre(a, event, profile);
      InputsAreValid(event, profile);
      var signed := Decide(a, InputsOf(event, SignedStateOnly, profile));
      var local := Decide(a, InputsOf(event, SignedPlusLocalReduce, profile));
      var decision := PairedDecision(event.eventId, baselinePermit, baselineReachable,
                                     signed, signedReachable, local, localReachable);
      DecisionIsExpected(a, events, profile, n, decision);
      decisions := decisions + [decision];
      Extend(a, events, profile, Baseline, n, baselineSuccess, seen);
      Extend(a, events, profile, Signed, n, signedSuccess, seen);
      Extend(a, events, profile, Local, n, localSuccess, seen);
      if baselineReachable && baselinePermit {
        baselineSuccess := baselineSuccess + {event.eventId};
      }
      if signedReachable && signed.outcome.Permit? {
        signedSuccess := signedSuccess + {event.eventId};
      }
      if localReachable && local.outcome.Permit? {
        localSuccess := localSuccess + {event.eventId};
      }
      seen := seen + {event.eventId};
    }
    assert events[..|events|] == events;
    return Some(decisions);
  }

  lemma Start(a: Arithmetic, events: seq<ScenarioEvent>, profile: ReductionProfile)
    requires AllValid(events) && profile.Valid()
    ensures DistinctIds(events[..0]) && ParentsFirst(events[..0]) && Seen(events, 0, {})
    ensures forall t :: SuccessSet(a, events, profile, t, 0, {})
  {
  }

  lemma ValidEvent(events: seq<ScenarioEvent>, n: nat)
    requires AllValid(events) && n < |events|
    ensures events[n].Valid()
  {
  }

  lemma DecisionIsExpected(
    a: Arithmetic, events: seq<ScenarioEvent>, profile: ReductionProfile, n: nat, d: PairedDecision)
    requires n < |events| && AllValid(events) && profile.Valid()
    requires d.eventId == events[n].eventId
    requires d.baselinePermit == Permits(a, events[n], profile, Baseline)
    requires d.signed == Record(a, InputsOf(events[n], SignedStateOnly, profile))
    requires d.local == Record(a, InputsOf(events[n], SignedPlusLocalReduce, profile))
    requires d.baselineReachable == Reachable(a, events, profile, Baseline, n)
    requires d.signedReachable == Reachable(a, events, profile, Signed, n)
    requires d.localReachable == Reachable(a, events, profile, Local, n)
    ensures Expected(a, events, profile, n, d)
    ensures d.signed == RecordOf(a, events[n], SignedStateOnly, profile)
    ensures d.local == RecordOf(a, events[n], SignedPlusLocalReduce, profile)
  {
    hide Reachable, Permits, Record;
  }

  predicate AllIn(ids: seq<string>, s: set<string>) {
    forall d | 0 <= d < |ids| :: ids[d] in s
  }

  lemma InputsAreValid(e: ScenarioEvent, profile: ReductionProfile)
    requires e.Valid() && profile.Valid()
    ensures InputsOf(e, SignedStateOnly, profile).Valid() && InputsOf(e, SignedPlusLocalReduce, profile).Valid()
  {
  }

  lemma PermitsAre(a: Arithmetic, e: ScenarioEvent, profile: ReductionProfile)
    requires e.Valid() && profile.Valid()
    ensures Permits(a, e, profile, Baseline) == (e.credentialValid && e.policyAllows)
    ensures Permits(a, e, profile, Signed) == RecordOf(a, e, SignedStateOnly, profile).outcome.Permit?
    ensures Permits(a, e, profile, Local) == RecordOf(a, e, SignedPlusLocalReduce, profile).outcome.Permit?
  {
  }

  lemma Duplicate(events: seq<ScenarioEvent>, n: nat, seen: set<string>)
    requires n < |events| && Seen(events, n, seen) && events[n].eventId in seen
    ensures !DistinctIds(events)
  {
  }

  lemma LateParent(events: seq<ScenarioEvent>, n: nat, seen: set<string>)
    requires n < |events| && Seen(events, n, seen)
    requires !AllIn(events[n].dependsOn, seen)
    ensures !ParentsFirst(events)
  {
    var d :| 0 <= d < |events[n].dependsOn| && events[n].dependsOn[d] !in seen;
    assert !HasParent(events, n, events[n].dependsOn[d]);
  }

  lemma OneMoreEvent(events: seq<ScenarioEvent>, n: nat, seen: set<string>)
    requires n < |events| && Seen(events, n, seen) && events[n].eventId !in seen
    requires DistinctIds(events[..n]) && ParentsFirst(events[..n]) && AllIn(events[n].dependsOn, seen)
    ensures DistinctIds(events[..n + 1]) && ParentsFirst(events[..n + 1])
    ensures Seen(events, n + 1, seen + {events[n].eventId})
  {
    var prefix := events[..n + 1];
    forall k, d | 0 <= k < |prefix| && 0 <= d < |prefix[k].dependsOn|
      ensures HasParent(prefix, k, prefix[k].dependsOn[d])
    {
      if k < n {
        assert events[..n][k] == prefix[k];
        assert HasParent(events[..n], k, events[..n][k].dependsOn[d]);
        var p :| 0 <= p < k && events[..n][p].eventId == events[..n][k].dependsOn[d];
        assert prefix[p] == events[..n][p];
      } else {
        assert prefix[k].dependsOn[d] in seen;
        var p :| 0 <= p < n && events[p].eventId == prefix[k].dependsOn[d];
        assert prefix[p] == events[p];
      }
    }
    forall j, k | 0 <= j < k < |prefix| ensures prefix[j].eventId != prefix[k].eventId {
      if k < n { assert events[..n][j] == prefix[j] && events[..n][k] == prefix[k]; }
    }
  }

  /** All parents succeeded exactly when all transitive ancestors permit. */
  lemma ReachableFromParents(
    a: Arithmetic, events: seq<ScenarioEvent>, profile: ReductionProfile, t: Track, n: nat,
    success: set<string>, seen: set<string>)
    requires n < |events| && AllValid(events) && profile.Valid()
    requires SuccessSet(a, events, profile, t, n, success)
    requires Seen(events, n, seen) && AllIn(events[n].dependsOn, seen)
    ensures AllIn(events[n].dependsOn, success) <==> Reachable(a, events, profile, t, n)
  {
    hide Permits;
    var ids := events[n].dependsOn;
    if AllIn(ids, success) {
      forall j | 0 <= j < n && Ancestor(events, j, n) ensures Permits(a, events[j], profile, t) {
        var p: nat :| p < n && Parent(events, p, n) && (j == p || Ancestor(events, j, p));
        assert events[p].eventId in success;
        assert Succeeds(a, events, profile, t, p);
        if j != p { AncestorIsEarlier(events, j, p); }
      }
    }
    if Reachable(a, events, profile, t, n) {
      forall d | 0 <= d < |ids| ensures ids[d] in success {
        assert ids[d] in seen;
        var p :| 0 <= p < n && events[p].eventId == ids[d];
        assert Parent(events, p, n);
        forall j | 0 <= j < p && Ancestor(events, j, p) ensures Permits(a, events[j], profile, t) {
          assert Ancestor(events, j, n);
        }
        assert Ancestor(events, p, n);
        assert Succeeds(a, events, profile, t, p);
      }
    }
  }

  lemma {:induction false} AncestorIsEarlier(events: seq<ScenarioEvent>, j: nat, k: nat)
    requires Ancestor(events, j, k)
    ensures j < k
    decreases k
  {
    var p: nat :| p < k && Parent(events, p, k) && (j == p || Ancestor(events, j, p));
    if j != p { AncestorIsEarlier(events, j, p); }
  }

  lemma Extend(
    a: Arithmetic, events: seq<ScenarioEvent>, profile: ReductionProfile, t: Track, n: nat,
    success: set<string>, seen: set<string>)
    requires n < |events| && AllValid(events) && profile.Valid()
    requires SuccessSet(a, events, profile, t, n, success)
    requires Seen(events, n, seen) && events[n].eventId !in seen
    ensures SuccessSet(a, events, profile, t, n + 1,
                       if Succeeds(a, events, profile, t, n) then success + {events[n].eventId} else success)
  {
    hide Permits, Reachable;
    assert forall k | 0 <= k < n :: events[k].eventId != events[n].eventId;
    assert events[n].eventId !in success;
  }

  // ---------- Local reduction across a whole scenario ----------

  lemma LocalPermitsLess(a: Arithmetic, e: ScenarioEvent, profile: ReductionProfile)
    requires e.Valid() && profile.Valid()
    ensures Permits(a, e, profile, Local) ==> Permits(a, e, profile, Signed)
    ensures RecordOf(a, e, SignedStateOnly, profile).outcome.Deny?
        ==> RecordOf(a, e, SignedPlusLocalReduce, profile).outcome.Deny?
  {
    var i := InputsOf(e, SignedPlusLocalReduce, profile);
    LocalEvidenceOnlyReduces(a, i);
    SignedIgnoresEvidence(a, i);
    assert InputsOf(e, SignedStateOnly, profile) == SignedOnly(i).(evidence := None, profile := None);
    assert LocalReduce(i) == i;
  }

  /** Without local reduction the local evidence is not looked at. */
  lemma SignedIgnoresEvidence(a: Arithmetic, i: Inputs)
    requires i.Valid()
    ensures SignedOnly(i).(evidence := None, profile := None).Valid()
    ensures Record(a, SignedOnly(i)) == Record(a, SignedOnly(i).(evidence := None, profile := None))
  {
    var j := SignedOnly(i).(evidence := None, profile := None);
    assert j.Elapsed() == SignedOnly(i).Elapsed();
    assert StaticReasons(j) == StaticReasons(SignedOnly(i));
    assert Effective(a, j) == Effective(a, SignedOnly(i));
  }

  /** At every prefix the local success set lies inside the signed one. */
  lemma LocalSuccessIsSigned(
    a: Arithmetic, events: seq<ScenarioEvent>, profile: ReductionProfile, n: nat, local: set<string>, signed: set<string>)
    requires n <= |events| && AllValid(events) && profile.Valid()
    requires SuccessSet(a, events, profile, Local, n, local) && SuccessSet(a, events, profile, Signed, n, signed)
    ensures local <= signed
  {
    forall id | id in local ensures id in signed {
      var k :| 0 <= k < n && events[k].eventId == id;
      LocalReachesLess(a, events, profile, k);
    }
  }

  lemma LocalReachesLess(a: Arithmetic, events: seq<ScenarioEvent>, profile: ReductionProfile, k: nat)
    requires k < |events| && AllValid(events) && profile.Valid()
    ensures Reachable(a, events, profile, Local, k) ==> Reachable(a, events, profile, Signed, k)
    ensures Succeeds(a, events, profile, Local, k) ==> Succeeds(a, events, profile, Signed, k)
  {
    hide Permits;
    forall j | 0 <= j <= k ensures Permits(a, events[j], profile, Local) ==> Permits(a, events[j], profile, Signed) {
      LocalPermitsLess(a, events[j], profile);
    }
  }

  function SignedDenials(decisions: seq<PairedDecision>): nat {
    if decisions == [] then 0
    else SignedDenials(decisions[1..]) + if decisions[0].signed.outcome.Deny? then 1 else 0
  }

  function LocalDenials(decisions: seq<PairedDecision>): nat {
    if decisions == [] then 0
    else LocalDenials(decisions[1..]) + if decisions[0].local.outcome.Deny? then 1 else 0
  }

  lemma {:induction false} DenialsCount(decisions: seq<PairedDecision>)
    requires forall k | 0 <= k < |decisions| :: decisions[k].signed.outcome.Deny? ==> decisions[k].local.outcome.Deny?
    ensures SignedDenials(decisions) <= LocalDenials(decisions)
  {
    if decisions != [] { DenialsCount(decisions[1..]); }
  }

  /** In every report, local reachability implies signed reachability and signed denials never outnumber local ones. */
  lemma ReportOnlyReduces(
    a: Arithmetic, events: seq<ScenarioEvent>, profile: ReductionProfile, decisions: seq<PairedDecision>)
    requires AllValid(events) && profile.Valid() && |decisions| == |events|
    requires forall k | 0 <= k < |events| :: Expected(a, events, profile, k, decisions[k])
    ensures forall k | 0 <= k < |decisions| ::
      && (decisions[k].localReachable ==> decisions[k].signedReachable)
      && (decisions[k].local.outcome.Permit? ==> decisions[k].signed.outcome.Permit?)
    ensures SignedDenials(decisions) <= LocalDenials(decisions)
  {
    hide Reachable, Record;
    forall k | 0 <= k < |decisions|
      ensures decisions[k].localReachable ==> decisions[k].signedReachable
      ensures decisions[k].local.outcome.Permit? ==> decisions[k].signed.outcome.Permit?
      ensures decisions[k].signed.outcome.Deny? ==> decisions[k].local.outcome.Deny?
    {
      assert Expected(a, events, profile, k, decisions[k]);
      LocalReachesLess(a, events, profile, k);
      LocalPermitsLess(a, events[k], profile);
    }
    DenialsCount(decisions);
  }
}
