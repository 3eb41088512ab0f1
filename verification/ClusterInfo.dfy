/** Proofs of the public cluster-info ConfigMap, and what a chain of accepted proofs keeps. */
module ClusterInfo {
  import opened Basics
  import opened Digits

  // ---------- Time ----------

  /** A timestamp as compared: whole seconds, then nanoseconds. */
  datatype Instant = Instant(second: int, nanos: nat)

  predicate Before(a: Instant, b: Instant) {
    a.second < b.second || (a.second == b.second && a.nanos < b.nanos)
  }

  /** `text.ljust(9, "0")` read as a number: a fraction of up to nine digits in nanoseconds. */
  function Nanos(fraction: string): (n: nat)
    requires AllDigits(fraction) && |fraction| <= 9
    ensures n == NatValue(fraction) * Pow10(9 - |fraction|)
    decreases 9 - |fraction|
  {
    if |fraction| == 9 then
      assert Pow10(0) == 1;
      NatValue(fraction)
    else
      var longer := fraction + "0";
      assert longer[..|fraction|] == fraction;
      TimesTen(NatValue(fraction), Pow10(9 - |longer|));
      Nanos(longer)
  }

  lemma TimesTen(a: nat, p: nat)
    ensures (10 * a + 0) * p == a * (10 * p)
  {
  }

  type Digit = d: nat | d < 10

  /** Text whose every character has a decimal digit value, spelled in ASCII. */
  function Ascii(s: string, decimal: char -> Option<Digit>): (r: Option<string>)
    ensures r.Some? ==> |r.value| == |s| && AllDigits(r.value)
    ensures r.Some? ==> forall k | 0 <= k < |s| :: decimal(s[k]) == Some(DigitValue(r.value[k]))
    ensures r.Some? <==> forall k | 0 <= k < |s| :: decimal(s[k]).Some?
  {
    if s == "" then Some("")
    else
      var rest := Ascii(s[1..], decimal);
      if rest.None? || decimal(s[0]).None? then None else Some([DigitChar(decimal(s[0]).value)] + rest.value)
  }

  /** `_time`: an optional fraction of one to nine digits between a whole-second timestamp and the final `Z`. Digits may
      be any characters of a decimal digit value. The calendar refuses what is not a real timestamp. */
  function Time<Doc>(text: string, k: Checks<Doc>): Option<Instant> {
    if |text| > 30 || |text| < 20 || text[|text| - 1] != 'Z' || k.seconds(text[..19]).None? then None
    else
      var rest := text[19..|text| - 1];
      if rest == "" then Some(Instant(k.seconds(text[..19]).value, 0))
      else if rest[0] != '.' || !(1 <= |rest| - 1 <= 9) then None
      else
        var fraction := Ascii(rest[1..], k.decimal);
        if fraction.None? then None else Some(Instant(k.seconds(text[..19]).value, Nanos(fraction.value)))
  }

  // ---------- Evidence ----------

  /** The private evidence a validation is given. */
  datatype Private = Private(server: string, caDigest: string, tokenId: string, tokenSecret: string, tokenExpiration: string)

  /** The parts of a decoded document that the rules look at; `doc` itself stays opaque. */
  datatype Facts = Facts(wellFormed: bool, uid: string, version: string, dataKeys: set<string>)

  /** What the model does not open: the calendar, the digit values of characters, URL and digest grammars, the kubeconfig
      reader with its certificate check, the detached signature, and the hash. */
  datatype Checks<!Doc> = Checks(
    facts: Doc -> Facts,
    seconds: string -> Option<int>,
    decimal: char -> Option<Digit>,
    serverOk: string -> bool,
    digestOk: string -> bool,
    uidOk: string -> bool,
    tokenOk: (string, string) -> bool,
    tokenIdOk: string -> bool,
    kubeconfig: (Doc, string, string) -> Option<string>,
    signature: (Doc, string, string, string) -> Option<string>,
    hash: string -> string)

  const UINT64_MAX := 18_446_744_073_709_551_615

  predicate IsVersion(s: string) {
    IsNatText(s) && s[0] != '0' && |s| <= 20 && NatValue(s) <= UINT64_MAX
  }

  function Version(s: string): nat
    requires AllDigits(s)
  {
    NatValue(s)
  }

  datatype Proof = Proof(
    uid: string, version: string, server: string, caDigest: string, tokenId: string, tokenExpiration: string,
    capturedAt: string, kubeconfigDigest: string, signed: bool, jwsDigest: Option<string>)

  /** `ClusterInfoProof.__post_init__`. */
  predicate ProofOk<Doc>(p: Proof, k: Checks<Doc>) {
    && k.uidOk(p.uid) && IsVersion(p.version) && k.serverOk(p.server) && k.digestOk(p.caDigest) && k.tokenIdOk(p.tokenId)
    && Time(p.tokenExpiration, k).Some? && Time(p.capturedAt, k).Some? && k.digestOk(p.kubeconfigDigest)
    && var active := Before(Time(p.capturedAt, k).value, Time(p.tokenExpiration, k).value);
       if p.signed then p.jwsDigest.Some? && k.digestOk(p.jwsDigest.value) && active else p.jwsDigest.None? && !active
  }

  /** The part of a validation that does not look at an earlier proof: what this document proves on its own. */
  function Observe<Doc>(doc: Doc, e: Private, capturedAt: string, k: Checks<Doc>): Option<Proof> {
    var f := k.facts(doc);
    var expiration, captured := Time(e.tokenExpiration, k), Time(capturedAt, k);
    if !f.wellFormed || !k.serverOk(e.server) || !k.digestOk(e.caDigest) || !k.tokenOk(e.tokenId, e.tokenSecret)
       || expiration.None? || captured.None? || !k.uidOk(f.uid) || !IsVersion(f.version) then None
    else
      var config := k.kubeconfig(doc, e.server, e.caDigest);
      if config.None? then None
      else
        var key := "jws-kubeconfig-" + e.tokenId;
        var active := Before(captured.value, expiration.value);
        var jws := if active then k.signature(doc, config.value, e.tokenId, e.tokenSecret) else None;
        if f.dataKeys != (if active then {"kubeconfig", key} else {"kubeconfig"}) || (active && jws.None?) then None
        else Some(Proof(f.uid, f.version, e.server, e.caDigest, e.tokenId, e.tokenExpiration, capturedAt,
                        k.hash(config.value), active, jws))
  }

  /** What must not have drifted since the earlier proof, and what must not have regressed. */
  predicate Continues<Doc>(q: Proof, p: Proof, k: Checks<Doc>)
    requires IsVersion(q.version) && IsVersion(p.version)
    requires Time(q.capturedAt, k).Some? && Time(p.capturedAt, k).Some?
  {
    && SameBinding(q, p)
    && Version(q.version) <= Version(p.version)
    && !Before(Time(p.capturedAt, k).value, Time(q.capturedAt, k).value)
    && (p.version == q.version ==> p.signed && q.signed && p.jwsDigest == q.jwsDigest)
  }

  predicate SameBinding(q: Proof, p: Proof) {
    && q.uid == p.uid && q.server == p.server && q.caDigest == p.caDigest && q.tokenId == p.tokenId
    && q.tokenExpiration == p.tokenExpiration && q.kubeconfigDigest == p.kubeconfigDigest
  }

  /** `validate_cluster_info`. A removed signature is accepted only after an active earlier proof that its own
      document derives again; that second derivation has no earlier proof, so the recursion is one deep. */
  function Validate<Doc>(doc: Doc, e: Private, capturedAt: string, prior: Option<Proof>, priorDoc: Option<Doc>, k: Checks<Doc>): Option<Proof>
    decreases if prior.Some? then 1 else 0
  {
    if prior.Some? && !ProofOk(prior.value, k) then None else
    var p := Observe(doc, e, capturedAt, k);
    if p.None? then None else
    ObservedParts(doc, e, capturedAt, k);
    if prior.Some? && !Continues(prior.value, p.value, k) then None
    else if p.value.signed then (if ProofOk(p.value, k) then p else None)
    else if prior.None? || !prior.value.signed || priorDoc.None?
         || !Before(Time(prior.value.capturedAt, k).value, Time(p.value.tokenExpiration, k).value)
         || Version(p.value.version) <= Version(prior.value.version) then None
    else if Validate(priorDoc.value, e, prior.value.capturedAt, None, None, k) != prior then None
    else if ProofOk(p.value, k) then p else None
  }

  lemma ObservedParts<Doc>(doc: Doc, e: Private, capturedAt: string, k: Checks<Doc>)
    requires Observe(doc, e, capturedAt, k).Some?
    ensures var p := Observe(doc, e, capturedAt, k).value;
      && IsVersion(p.version) && p.capturedAt == capturedAt && p.tokenExpiration == e.tokenExpiration
      && p.server == e.server && p.caDigest == e.caDigest && p.tokenId == e.tokenId
      && Time(p.capturedAt, k).Some? && Time(p.tokenExpiration, k).Some?
      && (p.signed <==> Before(Time(p.capturedAt, k).value, Time(p.tokenExpiration, k).value))
      && (p.signed <==> p.jwsDigest.Some?)
  {
    hide IsVersion, Time;
  }

  // ---------- Chains ----------

  /** One validation with what it was given besides the earlier proof. */
  datatype Step<!Doc> = Step(doc: Doc, evidence: Private, capturedAt: string, priorDoc: Option<Doc>)

  ghost predicate Accepts<Doc>(step: Step<Doc>, prior: Option<Proof>, p: Proof, k: Checks<Doc>) {
    Validate(step.doc, step.evidence, step.capturedAt, prior, step.priorDoc, k) == Some(p)
  }

  function PriorOf(ps: seq<Proof>, i: nat): Option<Proof>
    requires i < |ps|
  {
    if i == 0 then None else Some(ps[i - 1])
  }

  /** Proofs accepted one after another, the first with none before it. */
  ghost predicate Chain<Doc>(steps: seq<Step<Doc>>, ps: seq<Proof>, k: Checks<Doc>) {
    && |steps| == |ps| > 0
    && forall i | 0 <= i < |ps| :: Accepts(steps[i], PriorOf(ps, i), ps[i], k)
  }

  /** What every accepted proof is, and what it takes to follow another. */
  lemma AcceptedStep<Doc>(step: Step<Doc>, prior: Option<Proof>, p: Proof, k: Checks<Doc>)
    requires Accepts(step, prior, p, k)
    ensures ProofOk(p, k)
    ensures prior.None? ==> p.signed
    ensures prior.Some? ==> ProofOk(prior.value, k) && Continues(prior.value, p, k)
    ensures prior.Some? && !p.signed ==>
      && prior.value.signed && Version(prior.value.version) < Version(p.version) && step.priorDoc.Some?
      && Validate(step.priorDoc.value, step.evidence, prior.value.capturedAt, None, None, k) == prior
  {
    hide Observe, Continues, Time, IsVersion, SameBinding;
  }

  /** An unsigned proof has no successor: time cannot run back before the token's expiration, so a successor would be
      unsigned too, and that needs a signed proof before it. */
  lemma NothingAfterRemoval<Doc>(step: Step<Doc>, q: Proof, p: Proof, k: Checks<Doc>)
    requires Accepts(step, Some(q), p, k)
    ensures q.signed
  {
    AcceptedStep(step, Some(q), p, k);
    hide Time, IsVersion, Validate;
    var expiration := Time(q.tokenExpiration, k).value;
    if !q.signed && p.signed {
      LaterStaysLate(Time(q.capturedAt, k).value, Time(p.capturedAt, k).value, expiration);
      assert false;
    }
  }

  lemma LaterStaysLate(q: Instant, p: Instant, expiration: Instant)
    requires !Before(p, q) && !Before(q, expiration)
    ensures !Before(p, expiration)
  {
  }

  lemma NotBeforeTransitive(a: Instant, b: Instant, c: Instant)
    requires !Before(b, a) && !Before(c, b)
    ensures !Before(c, a)
  {
  }

  /** What a later proof keeps of an earlier one. */
  ghost predicate Keeps<Doc>(q: Proof, p: Proof, k: Checks<Doc>) {
    && IsVersion(q.version) && IsVersion(p.version)
    && Time(q.capturedAt, k).Some? && Time(p.capturedAt, k).Some?
    && SameBinding(q, p)
    && Version(q.version) <= Version(p.version)
    && !Before(Time(p.capturedAt, k).value, Time(q.capturedAt, k).value)
    && (q.version == p.version ==> q.jwsDigest == p.jwsDigest)
  }

  lemma SameVersionText(a: string, b: string)
    requires IsVersion(a) && IsVersion(b)
    ensures a == b <==> Version(a) == Version(b)
  {
    NatTextOfValue(a);
    NatTextOfValue(b);
  }

  lemma KeepsTransitive<Doc>(a: Proof, b: Proof, c: Proof, k: Checks<Doc>)
    requires Keeps(a, b, k) && Keeps(b, c, k)
    ensures Keeps(a, c, k)
  {
    SameVersionText(a.version, b.version);
    SameVersionText(a.version, c.version);
    SameVersionText(b.version, c.version);
    hide Time, IsVersion, Version;
    NotBeforeTransitive(Time(a.capturedAt, k).value, Time(b.capturedAt, k).value, Time(c.capturedAt, k).value);
  }

  lemma {:induction false} ChainKeeps<Doc>(steps: seq<Step<Doc>>, ps: seq<Proof>, k: Checks<Doc>, i: nat, j: nat)
    requires Chain(steps, ps, k) && i <= j < |ps|
    ensures Keeps(ps[i], ps[j], k)
    decreases j
  {
    hide Validate, Time, IsVersion, Continues, Observe;
    AcceptedStep(steps[j], PriorOf(ps, j), ps[j], k);
    if i == j {
      ProofKeepsItself(ps[j], k);
    } else {
      StepKeeps(ps[j - 1], ps[j], k);
      ChainKeeps(steps, ps, k, i, j - 1);
      KeepsTransitive(ps[i], ps[j - 1], ps[j], k);
    }
  }

  lemma ProofKeepsItself<Doc>(p: Proof, k: Checks<Doc>)
    requires ProofOk(p, k)
    ensures Keeps(p, p, k)
  {
    hide Time, IsVersion;
  }

  lemma StepKeeps<Doc>(q: Proof, p: Proof, k: Checks<Doc>)
    requires ProofOk(q, k) && ProofOk(p, k) && Continues(q, p, k)
    ensures Keeps(q, p, k)
  {
    hide Time, IsVersion;
  }

  /** Every chain of accepted proofs starts active, keeps its identity and bindings, never goes back in version or
      time, keeps the signature at an equal version, and loses it, if ever, in its last proof. */
  lemma ChainsAreSafe<Doc>(steps: seq<Step<Doc>>, ps: seq<Proof>, k: Checks<Doc>)
    requires Chain(steps, ps, k)
    ensures ps[0].signed
    ensures forall i, j | 0 <= i <= j < |ps| :: Keeps(ps[i], ps[j], k)
    ensures forall i | 0 <= i < |ps| - 1 :: ps[i].signed
    ensures forall i | 0 <= i < |ps| :: ProofOk(ps[i], k)
  {
    hide Validate, Keeps, ProofOk, Continues;
    forall i | 0 <= i < |ps| ensures ProofOk(ps[i], k) && (i == 0 ==> ps[i].signed) {
      AcceptedStep(steps[i], PriorOf(ps, i), ps[i], k);
    }
    forall i, j | 0 <= i <= j < |ps| ensures Keeps(ps[i], ps[j], k) {
      ChainKeeps(steps, ps, k, i, j);
    }
    forall i | 0 <= i < |ps| - 1 ensures ps[i].signed {
      NothingAfterRemoval(steps[i + 1], ps[i], ps[i + 1], k);
    }
  }

  /** The second derivation never derives a third time: without an earlier proof a validation is decided by the
      document alone. */
  lemma RederivationIsOneDeep<Doc>(doc: Doc, e: Private, capturedAt: string, priorDoc: Option<Doc>, k: Checks<Doc>)
    ensures Validate(doc, e, capturedAt, None, priorDoc, k) ==
      var p := Observe(doc, e, capturedAt, k);
      if p.Some? && p.value.signed && ProofOk(p.value, k) then p else None
  {
    hide Observe, ProofOk;
  }

  // ---------- Acceptance in full ----------

  /** A timestamp as one number of nanoseconds. */
  function Ticks(t: Instant): int {
    1_000_000_000 * t.second + t.nanos
  }

  lemma {:induction false} FractionIsSmall(s: string)
    requires AllDigits(s)
    ensures NatValue(s) < Pow10(|s|)
  {
    if s != "" {
      FractionIsSmall(s[..|s| - 1]);
    }
  }

  lemma NanosAreSmall(fraction: string)
    requires AllDigits(fraction) && |fraction| <= 9
    ensures Nanos(fraction) < 1_000_000_000
    decreases 9 - |fraction|
  {
    if |fraction| == 9 {
      FractionIsSmall(fraction);
      assert Pow10(3) == 1_000 && Pow10(6) == 1_000_000 && Pow10(9) == 1_000_000_000;
    } else {
      NanosAreSmall(fraction + "0");
    }
  }

  lemma TimesAreNormal<Doc>(text: string, k: Checks<Doc>)
    requires Time(text, k).Some?
    ensures Time(text, k).value.nanos < 1_000_000_000
  {
    hide Ascii, Nanos;
    var rest := text[19..|text| - 1];
    if rest != "" {
      NanosAreSmall(Ascii(rest[1..], k.decimal).value);
    }
  }

  /** Timestamps are compared as numbers of nanoseconds. */
  lemma BeforeIsFewerTicks<Doc>(a: string, b: string, k: Checks<Doc>)
    requires Time(a, k).Some? && Time(b, k).Some?
    ensures Before(Time(a, k).value, Time(b, k).value) <==> Ticks(Time(a, k).value) < Ticks(Time(b, k).value)
  {
    TimesAreNormal(a, k);
    TimesAreNormal(b, k);
    hide Time;
  }

  /** The nanoseconds a timestamp text stands for. */
  function Moment<Doc>(text: string, k: Checks<Doc>): int
    requires Time(text, k).Some?
  {
    Ticks(Time(text, k).value)
  }

  /** What a document proves by itself, field by field: while the token lives, with exactly the kubeconfig and its
      signature as data; afterwards, with exactly the kubeconfig. */
  predicate DocumentProves<Doc>(doc: Doc, e: Private, capturedAt: string, p: Proof, k: Checks<Doc>) {
    var f := k.facts(doc);
    && f.wellFormed && k.serverOk(e.server) && k.digestOk(e.caDigest) && k.tokenOk(e.tokenId, e.tokenSecret)
    && Time(e.tokenExpiration, k).Some? && Time(capturedAt, k).Some? && k.uidOk(f.uid) && IsVersion(f.version)
    && k.kubeconfig(doc, e.server, e.caDigest).Some?
    && p.uid == f.uid && p.version == f.version && p.server == e.server && p.caDigest == e.caDigest && p.tokenId == e.tokenId
    && p.tokenExpiration == e.tokenExpiration && p.capturedAt == capturedAt
    && p.kubeconfigDigest == k.hash(k.kubeconfig(doc, e.server, e.caDigest).value)
    && (p.signed <==> Moment(capturedAt, k) < Moment(e.tokenExpiration, k))
    && (if p.signed then
          && f.dataKeys == {"kubeconfig", "jws-kubeconfig-" + e.tokenId} && p.jwsDigest.Some?
          && p.jwsDigest == k.signature(doc, k.kubeconfig(doc, e.server, e.caDigest).value, e.tokenId, e.tokenSecret)
        else f.dataKeys == {"kubeconfig"} && p.jwsDigest.None?)
  }

  lemma ObservesExactly<Doc>(doc: Doc, e: Private, capturedAt: string, p: Proof, k: Checks<Doc>)
    ensures Observe(doc, e, capturedAt, k) == Some(p) <==> DocumentProves(doc, e, capturedAt, p, k)
  {
    if Time(e.tokenExpiration, k).Some? && Time(capturedAt, k).Some? {
      BeforeIsFewerTicks(capturedAt, e.tokenExpiration, k);
    }
    hide Time, IsVersion, Before;
  }

  /** What a later proof has to agree with an earlier one in. */
  predicate Follows<Doc>(q: Proof, p: Proof, k: Checks<Doc>)
    requires IsVersion(q.version) && IsVersion(p.version)
    requires Time(q.capturedAt, k).Some? && Time(p.capturedAt, k).Some?
  {
    && p.uid == q.uid && p.server == q.server && p.caDigest == q.caDigest && p.tokenId == q.tokenId
    && p.tokenExpiration == q.tokenExpiration && p.kubeconfigDigest == q.kubeconfigDigest
    && NatValue(q.version) <= NatValue(p.version) && Moment(q.capturedAt, k) <= Moment(p.capturedAt, k)
    && (p.version == q.version ==> p.signed && q.signed && p.jwsDigest == q.jwsDigest)
  }

  /** A validation gives a proof exactly when the document proves it; when it follows the earlier proof, if there is one;
      and, without a signature, when that earlier proof was signed, strictly older, taken before the token expired, and
      is what its own document proves. */
  lemma ValidatesExactly<Doc>(doc: Doc, e: Private, capturedAt: string, prior: Option<Proof>, priorDoc: Option<Doc>,
                              k: Checks<Doc>, p: Proof)
    ensures Validate(doc, e, capturedAt, prior, priorDoc, k) == Some(p) <==>
      && DocumentProves(doc, e, capturedAt, p, k) && ProofOk(p, k)
      && (prior.None? ==> p.signed)
      && (prior.Some? ==> ProofOk(prior.value, k) && Follows(prior.value, p, k))
      && (prior.Some? && !p.signed ==>
            && prior.value.signed && NatValue(prior.value.version) < NatValue(p.version) && priorDoc.Some?
            && DocumentProves(priorDoc.value, e, prior.value.capturedAt, prior.value, k))
  {
    ObservesExactly(doc, e, capturedAt, p, k);
    if Observe(doc, e, capturedAt, k).Some? {
      ObservesExactly(doc, e, capturedAt, Observe(doc, e, capturedAt, k).value, k);
      ObservedParts(doc, e, capturedAt, k);
    }
    if prior.Some? && priorDoc.Some? {
      ObservesExactly(priorDoc.value, e, prior.value.capturedAt, prior.value, k);
      RederivationIsOneDeep(priorDoc.value, e, prior.value.capturedAt, None, k);
    }
    if prior.Some? && ProofOk(prior.value, k) && Time(capturedAt, k).Some? {
      BeforeIsFewerTicks(capturedAt, prior.value.capturedAt, k);
      BeforeIsFewerTicks(prior.value.capturedAt, prior.value.tokenExpiration, k);
    }
    hide Observe, DocumentProves, Time, IsVersion, Before, Ticks;
  }
}
