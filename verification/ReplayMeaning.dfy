/** What the three tracks ask of an event, and one scenario replayed in full. */
module ReplayMeaning {
  import opened Basics
  import opened Decision
  import opened DecisionLaws
  import opened Replay

  /** The baseline track asks for a valid credential and an allowing policy; the signed track for the state's own checks
      and charge; the local track for a charge that survives fresh local evidence as well. Each event is decided on its
      own request, state and evidence. */
  lemma TracksMean(e: real -> real, event: ScenarioEvent, profile: ReductionProfile)
    requires Exponential(e) && event.Valid() && profile.Valid()
    ensures Permits(Reals(e), event, profile, Baseline) <==> event.credentialValid && event.policyAllows
    ensures var i := Inputs(event.request, event.state, SignedStateOnly, None, None, FailClosed);
      && i.Valid()
      && (Permits(Reals(e), event, profile, Signed)
          <==> Cleared(i) && Record(Reals(e), i).decayedCharge >= event.state.threshold)
    ensures var i := Inputs(event.request, event.state, SignedPlusLocalReduce, Some(event.evidence), Some(profile), FailClosed);
      && i.Valid()
      && (Permits(Reals(e), event, profile, Local)
          <==> && Cleared(i) && event.evidence.isFresh
               && Max(0.0, Record(Reals(e), i).decayedCharge - Loss(event.evidence, profile) - event.evidence.coupledLoss)
                  >= event.state.threshold)
  {
    var a := Reals(e);
    var s := Inputs(event.request, event.state, SignedStateOnly, None, None, FailClosed);
    var l := Inputs(event.request, event.state, SignedPlusLocalReduce, Some(event.evidence), Some(profile), FailClosed);
    assert InputsOf(event, SignedStateOnly, profile) == s && InputsOf(event, SignedPlusLocalReduce, profile) == l;
    PermittedExactlyWhen(a, s);
    PermittedExactlyWhen(a, l);
    NoEvidenceNoLoss(e, s);
    DecaysExponentially(e, s);
    DecaysExponentially(e, l);
    if event.evidence.isFresh {
      EvidenceTakesItsLosses(e, l);
    }
    EffectiveIsRecorded(a, s);
    EffectiveIsRecorded(a, l);
    hide Record, Effective, Exponential, Loss;
  }

  lemma EffectiveIsRecorded(a: Arithmetic, i: Inputs)
    requires i.Valid() && Effective(a, i).Some?
    ensures Record(a, i).effectiveCharge == Effective(a, i).value
  {
    hide Effective, Reasons;
  }

  // ---------- One scenario ----------

  function Event(id: string, divergence: real, credentialValid: bool, dependsOn: seq<string>): ScenarioEvent {
    ScenarioEvent(id, ActionRequest(id, "who", "read", 1), EvidenceClass.Observed, Modeled, Modeled, Modeled,
                  credentialValid, true, dependsOn,
                  CompositeState("s", "who", "read", 0, 0, 2, 1.0, 0.8, 0, 0, true, true, true, 0.0, 1.0),
                  LocalEvidence(divergence, 0.0, true))
  }

  function Profile(): ReductionProfile {
    ReductionProfile(0.25, 0.1, 2)
  }

  /** The first event passes everywhere; the second diverges locally; the third, without a valid credential, needs the
      first; the fourth needs the second; the fifth needs the third and the fourth. */
  function Events(): seq<ScenarioEvent> {
    [Event("a", 0.0, true, []), Event("b", 0.5, true, []), Event("c", 0.0, false, ["a"]), Event("d", 0.0, true, ["b"]),
     Event("e", 0.0, true, ["c", "d"])]
  }

  lemma EventsAreValid()
    ensures |Events()| == 5 && AllValid(Events()) && Profile().Valid()
  {
    NamesAreNonblank();
    hide Nonblank;
  }

  lemma NamesAreNonblank()
    ensures forall s: string | s in ["a", "b", "c", "d", "e", "s", "who", "read"] :: Nonblank(s)
  {
    forall s: string | s in ["a", "b", "c", "d", "e", "s", "who", "read"] ensures Nonblank(s) {
      assert !IsSpace(s[0]);
    }
  }

  lemma EventsPermit(e: real -> real, id: string, divergence: real, credentialValid: bool, dependsOn: seq<string>)
    requires Exponential(e) && id in ["a", "b", "c", "d", "e"] && divergence in {0.0, 0.5}
    ensures var v := Event(id, divergence, credentialValid, dependsOn);
      && v.Valid() && Profile().Valid()
      && Permits(Reals(e), v, Profile(), Baseline) == credentialValid
      && Permits(Reals(e), v, Profile(), Signed)
      && Permits(Reals(e), v, Profile(), Local) == (divergence == 0.0)
  {
    NamesAreNonblank();
    hide Nonblank;
    var v := Event(id, divergence, credentialValid, dependsOn);
    TracksMean(e, v, Profile());
    var s := Inputs(v.request, v.state, SignedStateOnly, None, None, FailClosed);
    var l := Inputs(v.request, v.state, SignedPlusLocalReduce, Some(v.evidence), Some(Profile()), FailClosed);
    NoAgeNoDecay(e, s);
    NoAgeNoDecay(e, l);
    LossInFigures();
    assert Loss(v.evidence, Profile()) == if divergence == 0.0 then 0.0 else 0.4 by {
      if divergence == 0.5 {
        assert Loss(LocalEvidence(0.5, 0.0, true), Profile()) == Loss(LocalEvidence(0.5, 0.1, true), Profile());
      }
    }
    hide Record, Exponential, Loss, Permits;
  }

  /** An event is reachable exactly when every parent permits and is reachable itself. */
  lemma ReachableByParents(a: Arithmetic, events: seq<ScenarioEvent>, profile: ReductionProfile, t: Replay.Track, k: nat)
    requires k < |events| && AllValid(events) && profile.Valid()
    ensures Reachable(a, events, profile, t, k) <==>
      forall p: nat | p < k && Parent(events, p, k) :: Permits(a, events[p], profile, t) && Reachable(a, events, profile, t, p)
  {
    hide Permits, Parent, ScenarioEvent.Valid, ReductionProfile.Valid;
    if Reachable(a, events, profile, t, k) {
      forall p: nat | p < k && Parent(events, p, k)
        ensures Permits(a, events[p], profile, t) && Reachable(a, events, profile, t, p)
      {
        assert Ancestor(events, p, k);
        forall j | 0 <= j < p && Ancestor(events, j, p) ensures Permits(a, events[j], profile, t) {
          assert Ancestor(events, j, k);
        }
      }
    }
    if forall p: nat | p < k && Parent(events, p, k) :: Permits(a, events[p], profile, t) && Reachable(a, events, profile, t, p) {
      forall j | 0 <= j < k && Ancestor(events, j, k) ensures Permits(a, events[j], profile, t) {
        var p: nat :| p < k && Parent(events, p, k) && (j == p || Ancestor(events, j, p));
        AncestorIsEarlier(events, j, k);
        if j != p {
          AncestorIsEarlier(events, j, p);
        }
      }
    }
  }

  lemma EventsParents(p: nat, k: nat)
    requires p < k < 5
    ensures Parent(Events(), p, k) <==> (p, k) in {(0, 2), (1, 3), (2, 4), (3, 4)}
  {
    var ids := ["a", "b", "c", "d", "e"];
    assert Events()[p].eventId == ids[p];
  }

  lemma EventsScenario()
    ensures Scenario(Events())
  {
    EventsDiffer();
    EventsInOrder();
    hide DistinctIds, ParentsFirst;
  }

  lemma EventsDiffer()
    ensures DistinctIds(Events())
  {
    var ids := ["a", "b", "c", "d", "e"];
    assert forall k | 0 <= k < 5 :: Events()[k].eventId == ids[k];
    assert forall j, k | 0 <= j < k < 5 :: ids[j] != ids[k];
    hide Event;
  }

  lemma EventsInOrder()
    ensures ParentsFirst(Events())
  {
    var events := Events();
    assert events[0].dependsOn == [] && events[1].dependsOn == [] && events[2].dependsOn == ["a"];
    assert events[3].dependsOn == ["b"] && events[4].dependsOn == ["c", "d"];
    assert events[0].eventId == "a" && events[1].eventId == "b" && events[2].eventId == "c" && events[3].eventId == "d";
    hide Event, Events;
    assert HasParent(events, 2, "a") && HasParent(events, 3, "b") && HasParent(events, 4, "c") && HasParent(events, 4, "d");
    assert |events| == 5;
  }

  /** Which of five events with these parents are reachable. */
  lemma FiveReach(a: Arithmetic, events: seq<ScenarioEvent>, profile: ReductionProfile, t: Replay.Track)
    requires |events| == 5 && AllValid(events) && profile.Valid()
    requires forall p: nat, k: nat | p < k < 5 :: Parent(events, p, k) <==> (p, k) in {(0, 2), (1, 3), (2, 4), (3, 4)}
    ensures Reachable(a, events, profile, t, 0) && Reachable(a, events, profile, t, 1)
    ensures Reachable(a, events, profile, t, 2) <==> Permits(a, events[0], profile, t)
    ensures Reachable(a, events, profile, t, 3) <==> Permits(a, events[1], profile, t)
    ensures Reachable(a, events, profile, t, 4) <==>
      && Permits(a, events[0], profile, t) && Permits(a, events[1], profile, t)
      && Permits(a, events[2], profile, t) && Permits(a, events[3], profile, t)
  {
    hide Reachable, Permits, Parent, ScenarioEvent.Valid, ReductionProfile.Valid;
    ReachableByParents(a, events, profile, t, 0);
    ReachableByParents(a, events, profile, t, 1);
    ReachableByParents(a, events, profile, t, 2);
    ReachableByParents(a, events, profile, t, 3);
    ReachableByParents(a, events, profile, t, 4);
    assert Parent(events, 0, 2) && Parent(events, 1, 3) && Parent(events, 2, 4) && Parent(events, 3, 4);
  }

  /** The report on the five events: the signed track reaches them all; without a valid credential at the third the
      baseline does not reach the fifth; the divergence at the second keeps the local track from the fourth on. */
  lemma EventsReport(e: real -> real, r: seq<PairedDecision>)
    requires Exponential(e) && AllValid(Events()) && Profile().Valid() && |Events()| == 5
    requires |r| == 5 && forall k | 0 <= k < 5 :: Expected(Reals(e), Events(), Profile(), k, r[k])
    ensures Scenario(Events())
    ensures [r[0].baselinePermit, r[1].baselinePermit, r[2].baselinePermit, r[3].baselinePermit, r[4].baselinePermit]
         == [true, true, false, true, true]
    ensures [r[0].baselineReachable, r[1].baselineReachable, r[2].baselineReachable, r[3].baselineReachable, r[4].baselineReachable]
         == [true, true, true, true, false]
    ensures [r[0].signedReachable, r[1].signedReachable, r[2].signedReachable, r[3].signedReachable, r[4].signedReachable]
         == [true, true, true, true, true]
    ensures [r[0].localReachable, r[1].localReachable, r[2].localReachable, r[3].localReachable, r[4].localReachable]
         == [true, true, true, false, false]
    ensures r[1].signed.outcome == Permit && r[1].local.outcome == Deny
  {
    var a, events, p := Reals(e), Events(), Profile();
    EventsScenario();
    EventsAre();
    hide *;
    EventsPermit(e, "a", 0.0, true, []);
    EventsPermit(e, "b", 0.5, true, []);
    EventsPermit(e, "c", 0.0, false, ["a"]);
    EventsPermit(e, "d", 0.0, true, ["b"]);
    EventsPermit(e, "e", 0.0, true, ["c", "d"]);
    forall p: nat, k: nat | p < k < 5 ensures Parent(events, p, k) <==> (p, k) in {(0, 2), (1, 3), (2, 4), (3, 4)} {
      EventsParents(p, k);
    }
    FiveReach(a, events, p, Baseline);
    FiveReach(a, events, p, Signed);
    FiveReach(a, events, p, Local);
    LocalDenial(a, events[1], p);
    ExpectedIs(a, events, p, 0, r[0]);
    ExpectedIs(a, events, p, 1, r[1]);
    ExpectedIs(a, events, p, 2, r[2]);
    ExpectedIs(a, events, p, 3, r[3]);
    ExpectedIs(a, events, p, 4, r[4]);
  }

  lemma EventsAre()
    ensures |Events()| == 5 && Events()[0] == Event("a", 0.0, true, []) && Events()[1] == Event("b", 0.5, true, [])
    ensures Events()[2] == Event("c", 0.0, false, ["a"]) && Events()[3] == Event("d", 0.0, true, ["b"])
    ensures Events()[4] == Event("e", 0.0, true, ["c", "d"])
  {
    hide Event;
  }

  lemma ExpectedIs(a: Arithmetic, events: seq<ScenarioEvent>, profile: ReductionProfile, k: nat, d: PairedDecision)
    requires k < |events| && AllValid(events) && profile.Valid() && Expected(a, events, profile, k, d)
    ensures events[k].Valid()
    ensures d.baselinePermit == Permits(a, events[k], profile, Baseline)
    ensures d.signed == RecordOf(a, events[k], SignedStateOnly, profile)
    ensures d.local == RecordOf(a, events[k], SignedPlusLocalReduce, profile)
    ensures d.baselineReachable == Reachable(a, events, profile, Baseline, k)
    ensures d.signedReachable == Reachable(a, events, profile, Signed, k)
    ensures d.localReachable == Reachable(a, events, profile, Local, k)
  {
    hide Permits, RecordOf, Reachable, ScenarioEvent.Valid;
  }

  lemma LocalDenial(a: Arithmetic, v: ScenarioEvent, profile: ReductionProfile)
    requires v.Valid() && profile.Valid()
    ensures Permits(a, v, profile, Signed) <==> RecordOf(a, v, SignedStateOnly, profile).outcome == Permit
    ensures !Permits(a, v, profile, Local) ==> RecordOf(a, v, SignedPlusLocalReduce, profile).outcome == Deny
  {
    ConstrainedExactlyWhen(a, InputsOf(v, SignedPlusLocalReduce, profile));
    hide Record;
  }
}
