/** What the decision's arithmetic means over exact reals, and what each reason says about the inputs. */
module DecisionLaws {
  import opened Basics
  import opened Decision

  // ---------- The exponential ----------

  /** The laws of `x` to the power `r` for some base over one: all that the results here need of it. */
  ghost predicate Exponential(e: real -> real) {
    && e(0.0) == 1.0
    && (forall x :: e(x) > 0.0)
    && (forall x, y :: x < y ==> e(x) < e(y))
    && (forall x, y :: e(x + y) == Times(e(x), e(y)))
  }

  /** Exact reals with a total exponential. */
  function Reals(e: real -> real): Arithmetic {
    Exact(x => Some(e(x)))
  }

  lemma ExponentialAt(e: real -> real, x: real, y: real)
    requires Exponential(e)
    ensures e(0.0) == 1.0 && e(x) > 0.0 && e(y) > 0.0 && (x < y ==> e(x) < e(y)) && e(x + y) == Times(e(x), e(y))
  {
  }

  lemma ProductNegates(x: real, y: real)
    ensures Times(0.0 - x, y) == 0.0 - Times(x, y)
  {
  }

  lemma ProductOrder(x: real, y: real, z: real)
    requires x > 0.0 && y < z
    ensures Times(x, y) < Times(x, z) && Times(y, x) < Times(z, x)
  {
    assert x * (z - y) > 0.0;
  }

  lemma ProductOfPositive(x: real, y: real)
    requires x >= 0.0 && y >= 0.0
    ensures Times(x, y) >= 0.0 && (x > 0.0 && y > 0.0 ==> Times(x, y) > 0.0)
  {
  }

  lemma Distributes(x: real, y: real, z: real)
    ensures Times(x, y + z) == Times(x, y) + Times(x, z) && Times(Times(x, y), z) == Times(x, Times(y, z))
    ensures Times(x, 0.0) == 0.0 && Times(0.0, x) == 0.0 && Times(x, 1.0) == x
  {
    hide *;
    assert x * (y + z) == x * y + x * z && (x * y) * z == x * (y * z);
    TimesIs(x, y + z);
    TimesIs(x, y);
    TimesIs(x, z);
    TimesIs(y, z);
    TimesIs(x * y, z);
    TimesIs(x, y * z);
    TimesIs(x, 0.0);
    TimesIs(0.0, x);
    TimesIs(x, 1.0);
  }

  lemma TimesIs(x: real, y: real)
    ensures Times(x, y) == x * y
  {
  }

  // ---------- Charge decays exponentially ----------

  /** Seconds from issue to request, none for a request dated before the issue. */
  function Age(i: Inputs): (t: real)
    ensures t >= 0.0
  {
    if i.request.timestampS <= i.state.issuedAtS then 0.0 else (i.request.timestampS - i.state.issuedAtS) as real
  }

  /** The recorded charge is the signed one times the exponential of minus rate times age. */
  lemma DecaysExponentially(e: real -> real, i: Inputs)
    requires Exponential(e) && i.Valid()
    ensures Record(Reals(e), i).decayedCharge == Times(i.state.charge, e(0.0 - Times(i.state.decayRate, Age(i))))
    ensures Effective(Reals(e), i).Some?
  {
    var a := Reals(e);
    var charge, rate, age := i.state.charge, i.state.decayRate, Age(i);
    assert i.Elapsed() == age;
    ProductNegates(rate, age);
    ProductOfPositive(rate, age);
    var x := 0.0 - Times(rate, age);
    ExponentialAt(e, x, 0.0);
    hide Exponential, Times;
    assert e(x) <= 1.0;
    Distributes(charge, 1.0, 0.0);
    ProductOfPositive(charge, e(x));
    if charge > 0.0 && e(x) < 1.0 {
      ProductOrder(charge, e(x), 1.0);
    }
    Distributes(e(x), 0.0, 0.0);
    assert DecayProduct(a, charge, rate, age) == Some(Times(charge, e(x)));
    assert 0.0 <= Times(charge, e(x)) <= charge;
    assert Decayed(a, i) == Some(Times(charge, e(x)));
  }

  /** At issue nothing has decayed yet, and without a rate nothing ever does. */
  lemma NoAgeNoDecay(e: real -> real, i: Inputs)
    requires Exponential(e) && i.Valid()
    requires i.request.timestampS <= i.state.issuedAtS || i.state.decayRate == 0.0
    ensures Record(Reals(e), i).decayedCharge == i.state.charge
  {
    DecaysExponentially(e, i);
    ExponentialAt(e, 0.0, 0.0);
    hide Exponential, Record, Times;
    Distributes(i.state.decayRate, 0.0, 0.0);
    Distributes(Age(i), 0.0, 0.0);
    Distributes(i.state.charge, 0.0, 0.0);
  }

  /** A larger product of rate and age leaves strictly less of a positive charge. */
  lemma FallsWithExponent(e: real -> real, i: Inputs, j: Inputs)
    requires Exponential(e) && i.Valid() && j.Valid() && i.state.charge == j.state.charge > 0.0
    requires Times(i.state.decayRate, Age(i)) < Times(j.state.decayRate, Age(j))
    ensures Record(Reals(e), j).decayedCharge < Record(Reals(e), i).decayedCharge
  {
    DecaysExponentially(e, i);
    DecaysExponentially(e, j);
    var x, y := 0.0 - Times(i.state.decayRate, Age(i)), 0.0 - Times(j.state.decayRate, Age(j));
    ExponentialAt(e, y, x);
    hide Exponential, Record, Times;
    ProductOrder(i.state.charge, e(y), e(x));
  }

  /** A positive charge with a positive rate strictly falls from issue on and from request to later request. */
  lemma FallsWithTime(e: real -> real, i: Inputs, laterS: int)
    requires Exponential(e) && i.Valid() && i.state.charge > 0.0 && i.state.decayRate > 0.0
    requires IsTimestamp(laterS) && i.request.timestampS < laterS && i.state.issuedAtS < laterS
    ensures var later := i.(request := i.request.(timestampS := laterS));
      && later.Valid() && Record(Reals(e), later).decayedCharge < Record(Reals(e), i).decayedCharge
      && Record(Reals(e), later).decayedCharge < i.state.charge
  {
    var later := i.(request := i.request.(timestampS := laterS));
    var young := i.(request := i.request.(timestampS := i.state.issuedAtS));
    NoAgeNoDecay(e, young);
    hide Exponential, Record, Times;
    ProductOrder(i.state.decayRate, Age(i), Age(later));
    ProductOrder(i.state.decayRate, Age(young), Age(later));
    FallsWithExponent(e, i, later);
    FallsWithExponent(e, young, later);
  }

  /** A larger rate strictly lowers a positive charge of positive age. */
  lemma FallsWithRate(e: real -> real, i: Inputs, rate: real)
    requires Exponential(e) && i.Valid() && i.state.charge > 0.0 && i.state.issuedAtS < i.request.timestampS
    requires i.state.decayRate < rate
    ensures var faster := i.(state := i.state.(decayRate := rate));
      faster.Valid() && Record(Reals(e), faster).decayedCharge < Record(Reals(e), i).decayedCharge
  {
    var faster := i.(state := i.state.(decayRate := rate));
    ProductOrder(Age(i), i.state.decayRate, rate);
    FallsWithExponent(e, i, faster);
  }

  /** The inputs some seconds after issue. */
  function After(i: Inputs, seconds: nat): Inputs {
    i.(request := i.request.(timestampS := i.state.issuedAtS + seconds))
  }

  /** Decaying for one time and then for another is decaying for their sum. */
  lemma DecayComposes(e: real -> real, i: Inputs, s: nat, t: nat)
    requires Exponential(e) && i.Valid() && IsTimestamp(i.state.issuedAtS + s + t)
    ensures After(i, s).Valid() && After(i, s + t).Valid()
    ensures var middle := i.(state := i.state.(charge := Record(Reals(e), After(i, s)).decayedCharge));
      middle.Valid() && Record(Reals(e), After(middle, t)).decayedCharge == Record(Reals(e), After(i, s + t)).decayedCharge
  {
    hide Exponential, Record, Times, Effective;
    var first, whole := After(i, s), After(i, s + t);
    ChargesAreOrdered(Reals(e), first);
    var middle := i.(state := i.state.(charge := Record(Reals(e), first).decayedCharge));
    var second := After(middle, t);
    DecaysExponentially(e, first);
    DecaysExponentially(e, second);
    DecaysExponentially(e, whole);
    var rate := i.state.decayRate;
    assert Age(first) == s as real && Age(second) == t as real && Age(whole) == (s as real) + (t as real);
    var x, y := 0.0 - Times(rate, s as real), 0.0 - Times(rate, t as real);
    ExponentialAt(e, x, y);
    Distributes(rate, s as real, t as real);
    Distributes(i.state.charge, e(x), e(y));
  }

  /** A state with the charge to act when issued and, untouched, without it ten seconds later. */
  function Fading(atS: int): Inputs {
    Inputs(ActionRequest("r", "who", "read", atS),
           CompositeState("s", "who", "read", 0, 0, 20, 1.0, 0.5, 0, 0, true, true, true, 1.0, 1.0),
           SignedStateOnly, None, None, FailClosed)
  }

  /** A base over two leaves less than half after ten steps. */
  lemma TenStepsHalve(e: real -> real)
    requires Exponential(e) && e(1.0) > 2.0
    ensures e(0.0 - 10.0) < 0.5
  {
    ExponentialAt(e, 0.0 - 1.0, 1.0);
    ExponentialAt(e, 0.0 - 10.0, 0.0 - 1.0);
    hide Exponential;
    var x, y := e(0.0 - 1.0), e(1.0);
    assert x * y == 1.0;
    if x >= 0.5 {
      assert x * y >= 0.5 * y > 1.0;
    }
  }

  lemma FadingIsValid(atS: int)
    requires 0 <= atS < 20
    ensures Fading(atS).Valid() && StaticReasons(Fading(atS)) == []
  {
    forall s: string | s in ["r", "who", "read", "s"] ensures Nonblank(s) {
      assert !IsSpace(s[0]);
    }
  }

  lemma PermittedThenDenied(e: real -> real)
    requires Exponential(e) && e(1.0) > 2.0
    ensures Fading(0).Valid() && Fading(10).Valid()
    ensures var early, late := Record(Reals(e), Fading(0)), Record(Reals(e), Fading(10));
      && early.outcome == Permit && early.reasons == [Permitted] && early.effectiveCharge == 1.0
      && late.outcome == Deny && late.reasons == [InsufficientCharge] && late.effectiveCharge < 0.5
  {
    var a := Reals(e);
    FadingIsValid(0);
    FadingIsValid(10);
    NoAgeNoDecay(e, Fading(0));
    NoEvidenceNoLoss(e, Fading(0));
    DecaysExponentially(e, Fading(0));
    DecaysExponentially(e, Fading(10));
    NoEvidenceNoLoss(e, Fading(10));
    TenStepsHalve(e);
    hide Exponential, Nonblank, Effective, StaticReasons;
    assert Times(1.0, 10.0) == 10.0 && Times(1.0, e(0.0 - 10.0)) == e(0.0 - 10.0);
  }

  // ---------- What local evidence takes ----------

  /** The loss that divergence costs: nothing up to the threshold, then a power of their ratio. */
  function Loss(v: LocalEvidence, p: ReductionProfile): real
    requires p.Valid()
  {
    if v.divergence <= p.divergenceThreshold then 0.0
    else Times(p.lossRate, RealPower(Over(v.divergence, p.divergenceThreshold), p.exponent))
  }

  lemma LossNonnegative(v: LocalEvidence, p: ReductionProfile)
    requires v.Valid() && p.Valid()
    ensures Loss(v, p) >= 0.0
  {
    if v.divergence > p.divergenceThreshold {
      DivideMonotone(0.0, v.divergence, p.divergenceThreshold);
      var q := Over(v.divergence, p.divergenceThreshold);
      RealPowerMonotone(q, q, p.exponent);
      ProductOfPositive(p.lossRate, RealPower(q, p.exponent));
    }
  }

  /** With usable evidence the effective charge is what decay left, less both losses, and never below zero. */
  lemma EvidenceTakesItsLosses(e: real -> real, i: Inputs)
    requires Exponential(e) && i.Valid() && i.mode.SignedPlusLocalReduce? && i.LocallyUsable()
    ensures var r := Record(Reals(e), i);
      r.effectiveCharge == Max(0.0, r.decayedCharge - Loss(i.evidence.value, i.profile.value) - i.evidence.value.coupledLoss)
  {
    DecaysExponentially(e, i);
    ChargesAreOrdered(Reals(e), i);
    LossNonnegative(i.evidence.value, i.profile.value);
    hide Exponential, RealPower, Times, Over, DecayProduct;
    var v, p := i.evidence.value, i.profile.value;
    assert SuperlinearLoss(Reals(e), v.divergence, p.divergenceThreshold, p.lossRate, p.exponent) == Some(Loss(v, p));
  }

  /** Without local reduction, or without usable evidence, the effective charge is what decay left. */
  lemma NoEvidenceNoLoss(e: real -> real, i: Inputs)
    requires Exponential(e) && i.Valid() && (i.mode.SignedStateOnly? || !i.LocallyUsable())
    ensures Record(Reals(e), i).effectiveCharge == Record(Reals(e), i).decayedCharge
  {
    DecaysExponentially(e, i);
  }

  lemma {:induction false} PowerGrows(x: real, y: real, n: nat)
    requires 0.0 <= x < y && n > 0
    ensures 0.0 <= RealPower(x, n) < RealPower(y, n)
  {
    hide Times;
    Distributes(x, 1.0, 0.0);
    Distributes(y, 1.0, 0.0);
    if n > 1 {
      PowerGrows(x, y, n - 1);
      var p, q := RealPower(x, n - 1), RealPower(y, n - 1);
      ProductOfPositive(x, p);
      if x > 0.0 {
        ProductOrder(x, p, q);
      } else {
        Distributes(p, 0.0, 0.0);
        Distributes(q, 0.0, 0.0);
      }
      ProductOrder(q, x, y);
    }
  }

  /** Beyond the threshold more divergence strictly lowers an effective charge that is still positive. */
  lemma DivergenceBites(e: real -> real, i: Inputs, divergence: real)
    requires Exponential(e) && i.Valid() && i.mode.SignedPlusLocalReduce? && i.LocallyUsable()
    requires i.evidence.value.divergence < divergence <= 1.0 && i.profile.value.divergenceThreshold < divergence
    requires i.profile.value.lossRate > 0.0 && Record(Reals(e), i).effectiveCharge > 0.0
    ensures var worse := i.(evidence := Some(i.evidence.value.(divergence := divergence)));
      worse.Valid() && Record(Reals(e), worse).effectiveCharge < Record(Reals(e), i).effectiveCharge
  {
    var worse := i.(evidence := Some(i.evidence.value.(divergence := divergence)));
    var v, w, p := i.evidence.value, worse.evidence.value, i.profile.value;
    EvidenceTakesItsLosses(e, i);
    EvidenceTakesItsLosses(e, worse);
    DecaysExponentially(e, i);
    DecaysExponentially(e, worse);
    LossGrows(v, w, p);
    hide Exponential, Record, Times, Loss;
  }

  lemma LossGrows(v: LocalEvidence, w: LocalEvidence, p: ReductionProfile)
    requires v.Valid() && w.Valid() && p.Valid() && p.lossRate > 0.0
    requires v.divergence < w.divergence && p.divergenceThreshold < w.divergence
    ensures Loss(v, p) < Loss(w, p)
  {
    var t := p.divergenceThreshold;
    var x, y := Over(v.divergence, t), Over(w.divergence, t);
    DivideMonotone(0.0, v.divergence, t);
    assert y - x == (w.divergence - v.divergence) / t > 0.0;
    PowerGrows(x, y, p.exponent);
    hide Times;
    ProductOrder(p.lossRate, RealPower(x, p.exponent), RealPower(y, p.exponent));
    ProductOfPositive(p.lossRate, RealPower(x, p.exponent));
  }

  /** One reduction in figures: twice the threshold at exponent two costs four times the rate. */
  lemma LossInFigures()
    ensures Loss(LocalEvidence(0.5, 0.1, true), ReductionProfile(0.25, 0.1, 2)) == 0.4
  {
    assert Over(0.5, 0.25) == 2.0;
    assert RealPower(2.0, 0) == 1.0;
    assert RealPower(2.0, 1) == Times(2.0, RealPower(2.0, 0)) == 2.0;
    assert RealPower(2.0, 2) == Times(2.0, RealPower(2.0, 1)) == 4.0;
  }

  // ---------- What each reason says ----------

  lemma InWhen(condition: bool, r: ReasonCode)
    ensures forall q :: q in When(condition, r) <==> condition && q == r
  {
  }

  lemma StaticReasonsMean(i: Inputs, r: ReasonCode)
    ensures r in StaticReasons(i) <==>
      || (r == IdentityMismatch && i.request.identity != i.state.identity)
      || (r == ClassMismatch && i.request.authorityClass != i.state.authorityClass)
      || (r == Veto && !i.state.vetoClear)
      || (r == OutsideEnvelope && !i.state.envelopeAllows)
      || (r == StateUnauthentic && !i.state.authentic)
      || (r == StateNotYetValid && i.request.timestampS < i.state.notBeforeS)
      || (r == StateExpired && i.request.timestampS >= i.state.expiresAtS)
  {
    InWhen(i.request.identity != i.state.identity, IdentityMismatch);
    InWhen(i.request.authorityClass != i.state.authorityClass, ClassMismatch);
    InWhen(!i.state.vetoClear, Veto);
    InWhen(!i.state.envelopeAllows, OutsideEnvelope);
    InWhen(!i.state.authentic, StateUnauthentic);
    InWhen(i.request.timestampS < i.state.notBeforeS, StateNotYetValid);
    InWhen(i.request.timestampS >= i.state.expiresAtS, StateExpired);
    hide When;
  }

  lemma LaterReasonsMean(a: Arithmetic, i: Inputs, r: ReasonCode)
    requires i.Valid()
    ensures r in Reasons(a, i) <==>
      || r in StaticReasons(i)
      || (r == LocalEvidenceStale && Stale(a, i))
      || (r == ArithmeticFailure && Effective(a, i).None?)
      || (r == InsufficientCharge && EffectiveOrZero(a, i) < i.state.threshold)
      || (r == InsufficientHistory && i.state.historyCount < i.state.minimumHistory)
  {
    InWhen(Stale(a, i), LocalEvidenceStale);
    InWhen(Effective(a, i).None?, ArithmeticFailure);
    InWhen(EffectiveOrZero(a, i) < i.state.threshold, InsufficientCharge);
    InWhen(i.state.historyCount < i.state.minimumHistory, InsufficientHistory);
    hide When, StaticReasons, Stale, Effective, EffectiveOrZero;
  }

  /** Each reason is given exactly for its own cause, whatever the arithmetic. */
  lemma ReasonsMean(a: Arithmetic, i: Inputs)
    requires i.Valid()
    ensures var reasons := Record(a, i).reasons;
      && (IdentityMismatch in reasons <==> i.request.identity != i.state.identity)
      && (ClassMismatch in reasons <==> i.request.authorityClass != i.state.authorityClass)
      && (Veto in reasons <==> !i.state.vetoClear)
      && (OutsideEnvelope in reasons <==> !i.state.envelopeAllows)
      && (StateUnauthentic in reasons <==> !i.state.authentic)
      && (StateNotYetValid in reasons <==> i.request.timestampS < i.state.notBeforeS)
      && (StateExpired in reasons <==> i.request.timestampS >= i.state.expiresAtS)
      && (InsufficientHistory in reasons <==> i.state.historyCount < i.state.minimumHistory)
      && (InsufficientCharge in reasons <==> Record(a, i).effectiveCharge < i.state.threshold)
      && (Permitted in reasons <==> Record(a, i).outcome == Permit)
  {
    hide Record, Reasons, StaticReasons, Effective, Stale;
    RecordedReason(a, i, IdentityMismatch);
    RecordedReason(a, i, ClassMismatch);
    RecordedReason(a, i, Veto);
    RecordedReason(a, i, OutsideEnvelope);
    RecordedReason(a, i, StateUnauthentic);
    RecordedReason(a, i, StateNotYetValid);
    RecordedReason(a, i, StateExpired);
    RecordedReason(a, i, InsufficientHistory);
    RecordedReason(a, i, InsufficientCharge);
    RecordedPermission(a, i);
  }

  lemma RecordedReason(a: Arithmetic, i: Inputs, r: ReasonCode)
    requires i.Valid() && r != Permitted
    ensures r in Record(a, i).reasons <==> r in Reasons(a, i)
    ensures Record(a, i).effectiveCharge == EffectiveOrZero(a, i)
    ensures r in Reasons(a, i) <==>
      || (r == IdentityMismatch && i.request.identity != i.state.identity)
      || (r == ClassMismatch && i.request.authorityClass != i.state.authorityClass)
      || (r == Veto && !i.state.vetoClear)
      || (r == OutsideEnvelope && !i.state.envelopeAllows)
      || (r == StateUnauthentic && !i.state.authentic)
      || (r == StateNotYetValid && i.request.timestampS < i.state.notBeforeS)
      || (r == StateExpired && i.request.timestampS >= i.state.expiresAtS)
      || (r == LocalEvidenceStale && Stale(a, i))
      || (r == ArithmeticFailure && Effective(a, i).None?)
      || (r == InsufficientCharge && EffectiveOrZero(a, i) < i.state.threshold)
      || (r == InsufficientHistory && i.state.historyCount < i.state.minimumHistory)
  {
    StaticReasonsMean(i, r);
    LaterReasonsMean(a, i, r);
    hide Reasons, StaticReasons, Effective, Stale, EffectiveOrZero;
  }

  lemma RecordedPermission(a: Arithmetic, i: Inputs)
    requires i.Valid()
    ensures Permitted in Record(a, i).reasons <==> Record(a, i).outcome == Permit
  {
    ReasonsAreDistinct(a, i);
    hide Reasons, Effective, EffectiveOrZero;
  }

  /** Over exact reals arithmetic never fails, and stale evidence is reported exactly when it was to be used and is
      missing, stale or without a profile. */
  lemma ExactReasonsMean(e: real -> real, i: Inputs)
    requires Exponential(e) && i.Valid()
    ensures ArithmeticFailure !in Record(Reals(e), i).reasons
    ensures LocalEvidenceStale in Record(Reals(e), i).reasons <==>
      i.mode.SignedPlusLocalReduce? && (i.evidence.None? || i.profile.None? || !i.evidence.value.isFresh)
  {
    hide Exponential, Record, Reasons, Times;
    DecaysExponentially(e, i);
    RecordedReason(Reals(e), i, ArithmeticFailure);
    RecordedReason(Reals(e), i, LocalEvidenceStale);
    assert Decayed(Reals(e), i).Some?;
  }

  /** An action is constrained, rather than denied, exactly when stale evidence is all that stands against it and the
      caller asked for that. */
  lemma ConstrainedExactlyWhen(a: Arithmetic, i: Inputs)
    requires i.Valid()
    ensures Record(a, i).outcome == Constrain <==>
      && i.disposition == FailConstrained && i.mode.SignedPlusLocalReduce? && !i.LocallyUsable()
      && Cleared(i) && Affords(a, i)
    ensures Record(a, i).outcome in {Permit, Constrain, Deny}
  {
    var stale := When(Stale(a, i), LocalEvidenceStale);
    var failure := When(Effective(a, i).None?, ArithmeticFailure);
    var charge := When(EffectiveOrZero(a, i) < i.state.threshold, InsufficientCharge);
    var history := When(i.state.historyCount < i.state.minimumHistory, InsufficientHistory);
    NoStaticReason(i);
    OnlyThere(StaticReasons(i), stale, failure, charge, history, LocalEvidenceStale);
    hide StaticReasons, Effective, Decayed;
  }

  /** A list of one reason that only one part can hold is that part, and the other parts are empty. */
  lemma OnlyThere(a: seq<ReasonCode>, b: seq<ReasonCode>, c: seq<ReasonCode>, d: seq<ReasonCode>, e: seq<ReasonCode>,
                  r: ReasonCode)
    requires r !in a && r !in c && r !in d && r !in e
    ensures a + b + c + d + e == [r] <==> a == [] && b == [r] && c == [] && d == [] && e == []
  {
    if a + b + c + d + e == [r] {
      assert r in a + b + c + d + e;
      assert |a| + |b| + |c| + |d| + |e| == 1;
      assert r in b && b == [b[0]];
    }
  }

  lemma NoStaticReason(i: Inputs)
    ensures LocalEvidenceStale !in StaticReasons(i)
    ensures Cleared(i) <==> StaticReasons(i) == [] && i.state.historyCount >= i.state.minimumHistory
  {
  }
}
