/** The decision kernel: its records, its decay arithmetic and `decide`. */
module Decision {
  import opened Basics

  const MIN_TIMESTAMP_S := -0x8000_0000_0000_0000
  const MAX_TIMESTAMP_S := 0x7fff_ffff_ffff_ffff

  datatype EnforcementMode = SignedStateOnly | SignedPlusLocalReduce
  datatype DecisionOutcome = Permit | Constrain | Deny | Indeterminate
  datatype FailureDisposition = FailClosed | FailConstrained
  datatype ReasonCode =
    | Permitted
    | IdentityMismatch
    | ClassMismatch
    | Veto
    | OutsideEnvelope
    | StateUnauthentic
    | StateNotYetValid
    | StateExpired
    | ArithmeticFailure
    | LocalEvidenceStale
    | InsufficientCharge
    | InsufficientHistory

  // ---------- Records ----------

  predicate IsSpace(c: char) {
    var n := c as int;
    9 <= n <= 13 || 0x1c <= n <= 0x20 || n in {0x85, 0xa0, 0x1680, 0x2028, 0x2029, 0x202f, 0x205f, 0x3000}
    || 0x2000 <= n <= 0x200a
  }

  /** `value.strip()` is not empty. */
  predicate Nonblank(s: string) {
    exists i :: 0 <= i < |s| && !IsSpace(s[i])
  }

  predicate IsTimestamp(t: int) {
    MIN_TIMESTAMP_S <= t <= MAX_TIMESTAMP_S
  }

  datatype ActionRequest = ActionRequest(requestId: string, identity: string, authorityClass: string, timestampS: int) {
    predicate Valid() {
      Nonblank(requestId) && Nonblank(identity) && Nonblank(authorityClass) && IsTimestamp(timestampS)
    }
  }

  datatype CompositeState = CompositeState(
    stateId: string, identity: string, authorityClass: string,
    issuedAtS: int, notBeforeS: int, expiresAtS: int,
    charge: real, threshold: real,
    historyCount: int, minimumHistory: int,
    authentic: bool, vetoClear: bool, envelopeAllows: bool,
    decayRate: real, maximumCharge: real)
  {
    predicate Valid() {
      && Nonblank(stateId) && Nonblank(identity) && Nonblank(authorityClass)
      && IsTimestamp(issuedAtS) && IsTimestamp(notBeforeS) && IsTimestamp(expiresAtS)
      && issuedAtS <= notBeforeS < expiresAtS
      && charge >= 0.0 && threshold >= 0.0 && decayRate >= 0.0 && maximumCharge >= 0.0
      && charge <= maximumCharge
      && historyCount >= 0 && minimumHistory >= 0
    }
  }

  datatype LocalEvidence = LocalEvidence(divergence: real, coupledLoss: real, isFresh: bool) {
    predicate Valid() {
      0.0 <= divergence <= 1.0 && coupledLoss >= 0.0
    }
  }

  datatype ReductionProfile = ReductionProfile(divergenceThreshold: real, lossRate: real, exponent: int) {
    predicate Valid() {
      divergenceThreshold > 0.0 && lossRate >= 0.0 && exponent > 1
    }
  }

  datatype DecisionRecord = DecisionRecord(
    requestId: string, stateId: string, mode: EnforcementMode, outcome: DecisionOutcome,
    reasons: seq<ReasonCode>, signedCharge: real, decayedCharge: real, effectiveCharge: real)
  {
    predicate Valid() {
      && Nonblank(requestId) && Nonblank(stateId)
      && 0.0 <= effectiveCharge <= decayedCharge <= signedCharge
      && (outcome.Permit? ==> reasons == [Permitted])
      && (!outcome.Permit? ==> Permitted !in reasons)
      && (outcome.Deny? || outcome.Constrain? ==> reasons != [])
    }
  }

  // ---------- Arithmetic ----------

  /** Decimal arithmetic in the kernel's context. An operation either traps (`None`: division by zero,
      invalid operation or overflow) or yields the rounded result; `exp` and `**` are left open. */
  datatype Arithmetic = Arithmetic(
    round: real -> Option<real>,
    exp: real -> Option<real>,
    power: (real, int) -> Option<real>)

  function Times(x: real, y: real): real { x * y }
  function Over(x: real, y: real): real requires y != 0.0 { x / y }
  function Min(x: real, y: real): real { if x <= y then x else y }
  function Max(x: real, y: real): real { if x >= y then x else y }

  function DecayProduct(a: Arithmetic, charge: real, decayRate: real, elapsed: real): Option<real> {
    var rate := a.round(0.0 - decayRate);
    if rate.None? then None else
    var scaled := a.round(Times(rate.value, elapsed));
    if scaled.None? then None else
    var decay := a.exp(scaled.value);
    if decay.None? then None else a.round(Times(charge, decay.value))
  }

  function PassiveDecay(a: Arithmetic, charge: real, decayRate: real, elapsed: real): Option<real> {
    var computed := DecayProduct(a, charge, decayRate, elapsed);
    if computed.None? then None else Some(Min(charge, Max(0.0, computed.value)))
  }

  function SuperlinearLoss(a: Arithmetic, divergence: real, threshold: real, lossRate: real, exponent: int): Option<real>
    requires threshold > 0.0
  {
    if divergence <= threshold then Some(0.0) else
    var ratio := a.round(Over(divergence, threshold));
    if ratio.None? then None else
    var power := a.power(ratio.value, exponent);
    if power.None? then None else a.round(Times(lossRate, power.value))
  }

  function LocalEffectiveCharge(a: Arithmetic, decayed: real, loss: real, coupledLoss: real, maximum: real): Option<real> {
    var once := a.round(decayed - loss);
    if once.None? then None else
    var reduced := a.round(once.value - coupledLoss);
    if reduced.None? then None else Some(Min(Min(maximum, decayed), Max(0.0, reduced.value)))
  }

  /** Rounding and powers never turn a nonnegative value negative. */
  ghost predicate SignPreserving(a: Arithmetic) {
    && (forall x :: x >= 0.0 && a.round(x).Some? ==> a.round(x).value >= 0.0)
    && (forall x, n :: x >= 0.0 && a.power(x, n).Some? ==> a.power(x, n).value >= 0.0)
  }

  /** Rounding is monotone, keeps representable values, and traps only outside an interval around zero;
      powers are monotone. Exact reals are one such arithmetic. */
  ghost predicate MonotoneArithmetic(a: Arithmetic) {
    && SignPreserving(a)
    && a.round(0.0) == Some(0.0)
    && (forall x :: a.round(x).Some? ==> a.round(a.round(x).value) == a.round(x))
    && (forall x, y, z :: x <= y <= z && a.round(x).Some? && a.round(z).Some? ==> a.round(y).Some?)
    && (forall x, y :: x <= y && a.round(x).Some? && a.round(y).Some? ==> a.round(x).value <= a.round(y).value)
    && (forall x, y, n :: n > 1 && 0.0 <= x <= y && a.power(y, n).Some? ==>
          a.power(x, n).Some? && a.power(x, n).value <= a.power(y, n).value)
  }

  // ---------- The decision ----------

  /** The inputs of one decision. */
  datatype Inputs = Inputs(
    request: ActionRequest, state: CompositeState, mode: EnforcementMode,
    evidence: Option<LocalEvidence>, profile: Option<ReductionProfile>, disposition: FailureDisposition)
  {
    predicate Valid() {
      && request.Valid() && state.Valid()
      && (evidence.Some? ==> evidence.value.Valid())
      && (profile.Some? ==> profile.value.Valid())
    }

    predicate LocallyUsable() {
      evidence.Some? && profile.Some? && evidence.value.isFresh
    }

    function Elapsed(): real {
      (if request.timestampS > state.issuedAtS then request.timestampS - state.issuedAtS else 0) as real
    }
  }

  function Decayed(a: Arithmetic, i: Inputs): Option<real> {
    PassiveDecay(a, i.state.charge, i.state.decayRate, i.Elapsed())
  }

  /** The effective charge when no operation traps. */
  function Effective(a: Arithmetic, i: Inputs): Option<real>
    requires i.Valid()
  {
    var decayed := Decayed(a, i);
    if decayed.None? || i.mode.SignedStateOnly? || !i.LocallyUsable() then decayed
    else
      var e, p := i.evidence.value, i.profile.value;
      var loss := SuperlinearLoss(a, e.divergence, p.divergenceThreshold, p.lossRate, p.exponent);
      if loss.None? then None
      else LocalEffectiveCharge(a, decayed.value, loss.value, e.coupledLoss, i.state.maximumCharge)
  }

  function When(condition: bool, reason: ReasonCode): seq<ReasonCode> {
    if condition then [reason] else []
  }

  function StaticReasons(i: Inputs): seq<ReasonCode> {
    When(i.request.identity != i.state.identity, IdentityMismatch)
    + When(i.request.authorityClass != i.state.authorityClass, ClassMismatch)
    + When(!i.state.vetoClear, Veto)
    + When(!i.state.envelopeAllows, OutsideEnvelope)
    + When(!i.state.authentic, StateUnauthentic)
    + When(i.request.timestampS < i.state.notBeforeS, StateNotYetValid)
    + When(i.request.timestampS >= i.state.expiresAtS, StateExpired)
  }

  /** Whether stale or missing local evidence is on record: decay comes first and may trap before it. */
  predicate Stale(a: Arithmetic, i: Inputs) {
    i.mode.SignedPlusLocalReduce? && !i.LocallyUsable() && Decayed(a, i).Some?
  }

  function EffectiveOrZero(a: Arithmetic, i: Inputs): real
    requires i.Valid()
  {
    var e := Effective(a, i);
    if e.Some? then e.value else 0.0
  }

  /** Everything found against the action. */
  function Reasons(a: Arithmetic, i: Inputs): seq<ReasonCode>
    requires i.Valid()
  {
    StaticReasons(i)
    + When(Stale(a, i), LocalEvidenceStale)
    + When(Effective(a, i).None?, ArithmeticFailure)
    + When(EffectiveOrZero(a, i) < i.state.threshold, InsufficientCharge)
    + When(i.state.historyCount < i.state.minimumHistory, InsufficientHistory)
  }

  function Outcome(reasons: seq<ReasonCode>, disposition: FailureDisposition): DecisionOutcome {
    if reasons == [] then Permit
    else if reasons == [LocalEvidenceStale] && disposition.FailConstrained? then Constrain
    else Deny
  }

  function Record(a: Arithmetic, i: Inputs): DecisionRecord
    requires i.Valid()
  {
    var reasons := Reasons(a, i);
    DecisionRecord(i.request.requestId, i.state.stateId, i.mode, Outcome(reasons, i.disposition),
                   if reasons == [] then [Permitted] else reasons,
                   i.state.charge,
                   if Effective(a, i).Some? then Decayed(a, i).value else 0.0,
                   EffectiveOrZero(a, i))
  }

  method Decide(a: Arithmetic, i: Inputs) returns (r: DecisionRecord)
    requires i.Valid() && SignPreserving(a)
    ensures r == Record(a, i)
    ensures r.Valid()
  {
    hide PassiveDecay, SuperlinearLoss, LocalEffectiveCharge, SignPreserving, Nonblank, IsTimestamp;
    RecordIsValid(a, i);
    var request, state := i.request, i.state;
    var reasons := StaticFindings(i);
    ghost var found := reasons;

    var decayed, effective := 0.0, 0.0;
    var trapped := true;
    var decay := PassiveDecay(a, state.charge, state.decayRate, i.Elapsed());
    if decay.Some? {
      if i.mode.SignedPlusLocalReduce? {
        if i.evidence.None? || i.profile.None? || !i.evidence.value.isFresh {
          reasons := reasons + [LocalEvidenceStale];
          decayed, effective, trapped := decay.value, decay.value, false;
        } else {
          var e, p := i.evidence.value, i.profile.value;
          var loss := SuperlinearLoss(a, e.divergence, p.divergenceThreshold, p.lossRate, p.exponent);
          if loss.Some? {
            LossIsNonnegative(a, e, p);
            var reduced := LocalEffectiveCharge(a, decay.value, loss.value, e.coupledLoss, state.maximumCharge);
            if reduced.Some? {
              decayed, effective, trapped := decay.value, reduced.value, false;
            }
          }
        }
      } else {
        decayed, effective, trapped := decay.value, decay.value, false;
      }
    }
    if trapped {
      decayed, effective := 0.0, 0.0;
      reasons := reasons + [ArithmeticFailure];
    }
    assert effective == EffectiveOrZero(a, i);
    assert decayed == if Effective(a, i).Some? then Decayed(a, i).value else 0.0;
    assert reasons == found + When(Stale(a, i), LocalEvidenceStale) + When(Effective(a, i).None?, ArithmeticFailure);
    hide Effective, EffectiveOrZero, Stale, StaticReasons, Decayed;
    if effective < state.threshold {
      reasons := reasons + [InsufficientCharge];
    }
    if state.historyCount < state.minimumHistory {
      reasons := reasons + [InsufficientHistory];
    }
    assert reasons == Reasons(a, i);
    ReasonsAreDistinct(a, i);
    hide Reasons;

    var outcome;
    if reasons != [] && reasons != [LocalEvidenceStale] {
      outcome := Deny;
    } else if LocalEvidenceStale in reasons {
      outcome := if i.disposition.FailConstrained? then Constrain else Deny;
    } else {
      outcome := Permit;
      reasons := reasons + [Permitted];
    }
    r := DecisionRecord(request.requestId, state.stateId, i.mode, outcome, reasons, state.charge, decayed, effective);
  }

  /** The checks that need no arithmetic, in order. */
  method StaticFindings(i: Inputs) returns (reasons: seq<ReasonCode>)
    ensures reasons == StaticReasons(i)
  {
    reasons := [];
    if i.request.identity != i.state.identity {
      reasons := reasons + [IdentityMismatch];
    }
    ghost var r0 := When(i.request.identity != i.state.identity, IdentityMismatch);
    assert reasons == r0;
    if i.request.authorityClass != i.state.authorityClass {
      reasons := reasons + [ClassMismatch];
    }
    ghost var r1 := r0 + When(i.request.authorityClass != i.state.authorityClass, ClassMismatch);
    assert reasons == r1;
    if !i.state.vetoClear {
      reasons := reasons + [Veto];
    }
    ghost var r2 := r1 + When(!i.state.vetoClear, Veto);
    assert reasons == r2;
    if !i.state.envelopeAllows {
      reasons := reasons + [OutsideEnvelope];
    }
    ghost var r3 := r2 + When(!i.state.envelopeAllows, OutsideEnvelope);
    assert reasons == r3;
    if !i.state.authentic {
      reasons := reasons + [StateUnauthentic];
    }
    ghost var r4 := r3 + When(!i.state.authentic, StateUnauthentic);
    assert reasons == r4;
    if i.request.timestampS < i.state.notBeforeS {
      reasons := reasons + [StateNotYetValid];
    }
    ghost var r5 := r4 + When(i.request.timestampS < i.state.notBeforeS, StateNotYetValid);
    assert reasons == r5;
    if i.request.timestampS >= i.state.expiresAtS {
      reasons := reasons + [StateExpired];
    }
    ghost var r6 := r5 + When(i.request.timestampS >= i.state.expiresAtS, StateExpired);
    assert reasons == r6;
  }

  lemma RecordIsValid(a: Arithmetic, i: Inputs)
    requires i.Valid()
    ensures Record(a, i).Valid()
  {
    ChargesAreOrdered(a, i);
    ReasonsAreDistinct(a, i);
    hide Reasons, Effective, EffectiveOrZero, Decayed, Nonblank, IsTimestamp;
  }

  /** A loss handed on is never negative, so the validation behind it cannot raise. */
  lemma LossIsNonnegative(a: Arithmetic, e: LocalEvidence, p: ReductionProfile)
    requires SignPreserving(a) && e.Valid() && p.Valid()
    ensures var loss := SuperlinearLoss(a, e.divergence, p.divergenceThreshold, p.lossRate, p.exponent);
      loss.Some? ==> loss.value >= 0.0
  {
    if e.divergence > p.divergenceThreshold {
      QuotientNonnegative(e.divergence, p.divergenceThreshold);
      var q := a.round(Over(e.divergence, p.divergenceThreshold));
      if q.Some? && a.power(q.value, p.exponent).Some? {
        ProductNonnegative(p.lossRate, a.power(q.value, p.exponent).value);
      }
    }
  }

  lemma QuotientNonnegative(x: real, y: real)
    requires x >= 0.0 && y > 0.0
    ensures Over(x, y) >= 0.0
  {
  }

  lemma ProductNonnegative(x: real, y: real)
    requires x >= 0.0 && y >= 0.0
    ensures Times(x, y) >= 0.0
  {
  }

  lemma ReasonsAreDistinct(a: Arithmetic, i: Inputs)
    requires i.Valid()
    ensures Permitted !in Reasons(a, i)
    ensures LocalEvidenceStale in Reasons(a, i) <==> Stale(a, i)
  {
  }

  /** The clamps keep the charges ordered, whatever the arithmetic does. */
  lemma ChargesAreOrdered(a: Arithmetic, i: Inputs)
    requires i.Valid()
    ensures 0.0 <= Record(a, i).effectiveCharge <= Record(a, i).decayedCharge <= i.state.charge
  {
  }

  // ---------- Local evidence only reduces ----------

  function SignedOnly(i: Inputs): Inputs {
    i.(mode := SignedStateOnly)
  }

  function LocalReduce(i: Inputs): Inputs {
    i.(mode := SignedPlusLocalReduce)
  }

  /** An action is permitted exactly when every check passes and the effective charge reaches the threshold. */
  lemma PermittedExactlyWhen(a: Arithmetic, i: Inputs)
    requires i.Valid()
    ensures Record(a, i).outcome.Permit? <==>
      && i.request.identity == i.state.identity && i.request.authorityClass == i.state.authorityClass
      && i.state.vetoClear && i.state.envelopeAllows && i.state.authentic
      && i.state.notBeforeS <= i.request.timestampS < i.state.expiresAtS
      && (i.mode.SignedPlusLocalReduce? ==> i.LocallyUsable())
      && Effective(a, i).Some? && Effective(a, i).value >= i.state.threshold
      && i.state.historyCount >= i.state.minimumHistory
  {
  }

  /** Turning local reduction on keeps every ground for refusal and lowers the charges. */
  lemma LocalEvidenceOnlyReduces(a: Arithmetic, i: Inputs)
    requires i.Valid()
    ensures var signed, local := Record(a, SignedOnly(i)), Record(a, LocalReduce(i));
      && (forall r | r in signed.reasons && r != Permitted :: r in local.reasons)
      && (local.outcome.Permit? ==> signed.outcome.Permit?)
      && (signed.outcome.Deny? ==> local.outcome.Deny?)
      && local.effectiveCharge <= signed.effectiveCharge
      && local.decayedCharge <= signed.decayedCharge
  {
    ChargesAreOrdered(a, SignedOnly(i));
    var s, l := Reasons(a, SignedOnly(i)), Reasons(a, LocalReduce(i));
    assert EffectiveOrZero(a, LocalReduce(i)) <= EffectiveOrZero(a, SignedOnly(i));
    forall r | r in s ensures r in l {
    }
  }

  /** The checks that neither charge nor local evidence bears on. */
  predicate Cleared(i: Inputs) {
    && i.request.identity == i.state.identity && i.request.authorityClass == i.state.authorityClass
    && i.state.vetoClear && i.state.envelopeAllows && i.state.authentic
    && i.state.notBeforeS <= i.request.timestampS < i.state.expiresAtS
    && i.state.historyCount >= i.state.minimumHistory
  }

  /** The effective charge is computed and reaches the threshold. */
  predicate Affords(a: Arithmetic, i: Inputs)
    requires i.Valid()
  {
    Effective(a, i).Some? && Effective(a, i).value >= i.state.threshold
  }

  /** Every signed-only reason, `Permitted` included, is a local-mode reason exactly when a state good enough on its own
      is not brought down by missing, stale or costly local evidence. */
  lemma ReasonsCarryOverExactly(a: Arithmetic, i: Inputs)
    requires i.Valid()
    ensures (forall r | r in Record(a, SignedOnly(i)).reasons :: r in Record(a, LocalReduce(i)).reasons)
       <==> (Cleared(i) && Affords(a, SignedOnly(i)) ==> i.LocallyUsable() && Affords(a, LocalReduce(i)))
  {
    var signed, local := SignedOnly(i), LocalReduce(i);
    LocalEvidenceOnlyReduces(a, i);
    PermittedExactlyWhen(a, signed);
    PermittedExactlyWhen(a, local);
    ReasonsAreDistinct(a, signed);
    ReasonsAreDistinct(a, local);
    hide Reasons, Effective;
    if Record(a, signed).outcome.Permit? {
      assert Record(a, signed).reasons == [Permitted];
    }
  }

  /** A permitted action whose local evidence is missing: its one reason does not carry over. */
  lemma PermittedIsLost()
    ensures var a := Exact(x => Some(1.0));
      var i := Inputs(ActionRequest("r", "who", "read", 1),
                      CompositeState("s", "who", "read", 0, 0, 2, 1.0, 1.0, 0, 0, true, true, true, 0.0, 1.0),
                      SignedPlusLocalReduce, None, None, FailClosed);
      && i.Valid() && Record(a, SignedOnly(i)).reasons == [Permitted]
      && Record(a, LocalReduce(i)).reasons == [LocalEvidenceStale]
  {
    forall s: string | s in ["r", "who", "read", "s"] ensures Nonblank(s) {
      assert !IsSpace(s[0]);
    }
  }

  /** `later` reports at least as much divergence and coupled loss as `i`, and is otherwise the same. */
  predicate MoreAdverse(i: Inputs, later: Inputs) {
    && i.evidence.Some? && later.evidence.Some?
    && later == i.(evidence := later.evidence)
    && i.evidence.value.isFresh && later.evidence.value.isFresh
    && i.evidence.value.divergence <= later.evidence.value.divergence
    && i.evidence.value.coupledLoss <= later.evidence.value.coupledLoss
  }

  lemma DivideMonotone(x: real, y: real, d: real)
    requires 0.0 <= x <= y && d > 0.0
    ensures 0.0 <= Over(x, d) <= Over(y, d)
  {
    assert x / d == x * (1.0 / d) && y / d == y * (1.0 / d);
  }

  lemma ProductMonotone(x: real, y: real, p: real, q: real)
    requires 0.0 <= x <= y && 0.0 <= p <= q
    ensures 0.0 <= Times(x, p) <= Times(y, q)
  {
    assert (y - x) * p >= 0.0 && y * (q - p) >= 0.0;
  }

  lemma RoundKeeps(a: Arithmetic, x: real)
    requires MonotoneArithmetic(a) && a.round(x).Some?
    ensures a.round(a.round(x).value) == a.round(x)
  {
  }

  lemma RoundZero(a: Arithmetic)
    requires MonotoneArithmetic(a)
    ensures a.round(0.0) == Some(0.0) && SignPreserving(a)
  {
  }

  lemma RoundBetween(a: Arithmetic, x: real, y: real, z: real)
    requires MonotoneArithmetic(a) && x <= y <= z && a.round(x).Some? && a.round(z).Some?
    ensures a.round(y).Some? && a.round(x).value <= a.round(y).value <= a.round(z).value
  {
  }

  lemma PowerOrder(a: Arithmetic, x: real, y: real, n: int)
    requires MonotoneArithmetic(a) && n > 1 && 0.0 <= x <= y && a.power(y, n).Some?
    ensures a.power(x, n).Some? && 0.0 <= a.power(x, n).value <= a.power(y, n).value
  {
  }

  lemma LossIsMonotone(a: Arithmetic, d1: real, d2: real, p: ReductionProfile)
    requires MonotoneArithmetic(a) && p.Valid() && 0.0 <= d1 <= d2
    requires SuperlinearLoss(a, d2, p.divergenceThreshold, p.lossRate, p.exponent).Some?
    ensures var l1 := SuperlinearLoss(a, d1, p.divergenceThreshold, p.lossRate, p.exponent);
      var l2 := SuperlinearLoss(a, d2, p.divergenceThreshold, p.lossRate, p.exponent);
      l1.Some? && 0.0 <= l1.value <= l2.value
  {
    hide MonotoneArithmetic, SignPreserving, Times, Over;
    var t, n := p.divergenceThreshold, p.exponent;
    RoundZero(a);
    if d2 > t {
      DivideMonotone(d1, d2, t);
      RoundBetween(a, 0.0, Over(d1, t), Over(d2, t));
      var q1, q2 := a.round(Over(d1, t)).value, a.round(Over(d2, t)).value;
      PowerOrder(a, q1, q2, n);
      var p1, p2 := a.power(q1, n).value, a.power(q2, n).value;
      ProductMonotone(p.lossRate, p.lossRate, p1, p2);
      RoundBetween(a, 0.0, Times(p.lossRate, p1), Times(p.lossRate, p2));
    }
  }

  lemma ReducedIsMonotone(a: Arithmetic, decayed: real, l1: real, c1: real, l2: real, c2: real, maximum: real)
    requires MonotoneArithmetic(a) && decayed >= 0.0 && a.round(decayed).Some? && maximum >= 0.0
    requires 0.0 <= l1 <= l2 && 0.0 <= c1 <= c2
    requires LocalEffectiveCharge(a, decayed, l2, c2, maximum).Some?
    ensures var e1 := LocalEffectiveCharge(a, decayed, l1, c1, maximum);
      e1.Some? && e1.value >= LocalEffectiveCharge(a, decayed, l2, c2, maximum).value
  {
    hide MonotoneArithmetic, SignPreserving, Times, Over;
    RoundBetween(a, decayed - l2, decayed - l1, decayed);
    var r1, r2 := a.round(decayed - l1).value, a.round(decayed - l2).value;
    RoundKeeps(a, decayed - l1);
    RoundBetween(a, r2 - c2, r1 - c1, r1);
  }

  lemma DecayedIsRepresentable(a: Arithmetic, i: Inputs)
    requires MonotoneArithmetic(a) && i.Valid() && Decayed(a, i).Some?
    ensures Decayed(a, i).value >= 0.0 && a.round(Decayed(a, i).value).Some?
  {
    hide MonotoneArithmetic, SignPreserving, Times, Over;
    var s := i.state;
    var rate := a.round(0.0 - s.decayRate).value;
    var decay := a.exp(a.round(Times(rate, i.Elapsed())).value).value;
    var product := Times(s.charge, decay);
    var computed := a.round(product).value;
    assert DecayProduct(a, s.charge, s.decayRate, i.Elapsed()) == Some(computed);
    RoundKeeps(a, product);
    RoundZero(a);
    if computed >= 0.0 {
      RoundBetween(a, 0.0, Decayed(a, i).value, computed);
    }
  }

  /** More divergence or more coupled loss never raises the effective charge and never earns a permit. */
  lemma AdverseEvidenceNeverHelps(a: Arithmetic, i: Inputs, later: Inputs)
    requires MonotoneArithmetic(a) && i.Valid() && later.Valid() && MoreAdverse(i, later)
    ensures Record(a, later).effectiveCharge <= Record(a, i).effectiveCharge
    ensures Record(a, later).outcome.Permit? ==> Record(a, i).outcome.Permit?
  {
    hide MonotoneArithmetic, SuperlinearLoss, LocalEffectiveCharge, PassiveDecay;
    ChargesAreOrdered(a, i);
    if i.mode.SignedPlusLocalReduce? && i.profile.Some? && Effective(a, later).Some? {
      var e1, e2, p := i.evidence.value, later.evidence.value, i.profile.value;
      DecayedIsRepresentable(a, i);
      LossIsMonotone(a, e1.divergence, e2.divergence, p);
      var l1 := SuperlinearLoss(a, e1.divergence, p.divergenceThreshold, p.lossRate, p.exponent).value;
      var l2 := SuperlinearLoss(a, e2.divergence, p.divergenceThreshold, p.lossRate, p.exponent).value;
      ReducedIsMonotone(a, Decayed(a, i).value, l1, e1.coupledLoss, l2, e2.coupledLoss, i.state.maximumCharge);
    }
    PermittedExactlyWhen(a, i);
    PermittedExactlyWhen(a, later);
  }

  // ---------- Exact reals ----------

  function RealPower(x: real, n: nat): real {
    if n == 0 then 1.0 else Times(x, RealPower(x, n - 1))
  }

  function Exact(exp: real -> Option<real>): Arithmetic {
    Arithmetic(x => Some(x), exp, (x, n) => if n < 0 then None else Some(RealPower(x, n)))
  }

  lemma {:induction false} RealPowerMonotone(x: real, y: real, n: nat)
    requires 0.0 <= x <= y
    ensures 0.0 <= RealPower(x, n) <= RealPower(y, n)
  {
    hide Times;
    if n > 0 {
      RealPowerMonotone(x, y, n - 1);
      ProductMonotone(x, y, RealPower(x, n - 1), RealPower(y, n - 1));
    }
  }

  /** Exact real arithmetic, with any exponential at all, satisfies the hypotheses above. */
  lemma ExactIsMonotone(exp: real -> Option<real>)
    ensures MonotoneArithmetic(Exact(exp))
  {
    var a := Exact(exp);
    forall x, y, n | n > 1 && 0.0 <= x <= y
      ensures a.power(x, n).Some? && a.power(x, n).value <= a.power(y, n).value
    {
      RealPowerMonotone(x, y, n);
    }
    forall x, n | x >= 0.0 && a.power(x, n).Some? ensures a.power(x, n).value >= 0.0 {
      RealPowerMonotone(x, x, n);
    }
  }
}
