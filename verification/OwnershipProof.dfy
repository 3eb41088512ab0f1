/** The proof built from an accepted join, and its constructors' own checks. */
module OwnershipProof {
  import opened Basics
  import opened Digits
  import opened Sorting
  import opened Ownership

  // ---------- Bindings and proofs ----------

  datatype PodProof = PodProof(name: string, uid: string, version: string)

  function PodProofKey(p: PodProof): seq<string> { [p.name, p.uid, p.version] }

  function PodProofUid(p: PodProof): string { p.uid }

  /** A Deployment with its ReplicaSet and its Pods. Bindings are ordered by namespace and Deployment name,
      which no two of them share. */
  datatype Binding = Binding(
    namespace: string, deploymentName: string, deploymentUid: string, deploymentVersion: string, revision: string,
    replicas: int, replicaSetName: string, replicaSetUid: string, replicaSetVersion: string, hash: string,
    pods: seq<PodProof>)

  function BindingKey(b: Binding): seq<string> { [b.namespace, b.deploymentName] }

  datatype Proof = Proof(namespaces: seq<string>, bindings: seq<Binding>, runtimeContractComplete: bool)

  const APPLICATION_NAMESPACES := ["kil-v3-baseline", "kil-v3-local-reduce", "kil-v3-signed"]

  predicate NoDup(xs: seq<string>) {
    forall i, j | 0 <= i < j < |xs| :: xs[i] != xs[j]
  }

  function PodUids(ps: seq<PodProof>): (r: seq<string>)
    ensures |r| == |ps| && forall i | 0 <= i < |ps| :: r[i] == ps[i].uid
  {
    seq(|ps|, i requires 0 <= i < |ps| => ps[i].uid)
  }

  function Identities(b: Binding): seq<string> {
    [b.deploymentUid, b.replicaSetUid] + PodUids(b.pods)
  }

  predicate PodProofsOk(ps: seq<PodProof>, prefix: string) {
    && (forall i | 0 <= i < |ps| :: IsName(ps[i].name) && IsUid(ps[i].uid) && IsUint64(ps[i].version)
                                    && HasPodSuffix(ps[i].name, prefix))
    && SortedBy(ps, PodProofKey)
  }

  /** `DeploymentBinding.__post_init__`. */
  predicate BindingOk(b: Binding) {
    && IsName(b.namespace) && IsName(b.deploymentName) && IsUid(b.deploymentUid) && IsUint64(b.deploymentVersion)
    && b.revision == "1" && b.replicas > 0
    && Key(b.namespace, b.deploymentName) in EXPECTED && EXPECTED[Key(b.namespace, b.deploymentName)] == b.replicas
    && IsName(b.replicaSetName) && IsUid(b.replicaSetUid) && IsUint64(b.replicaSetVersion) && IsHash(b.hash)
    && b.replicaSetName == b.deploymentName + "-" + b.hash
    && |b.pods| == b.replicas && PodProofsOk(b.pods, b.replicaSetName + "-")
    && NoDup(Identities(b))
  }

  function AllIdentities(bs: seq<Binding>): seq<string> {
    if bs == [] then [] else Identities(bs[0]) + AllIdentities(bs[1..])
  }

  function Stock(bs: seq<Binding>): map<Key, int> {
    if bs == [] then map[] else
    var last := bs[|bs| - 1];
    Stock(bs[..|bs| - 1])[Key(last.namespace, last.deploymentName) := last.replicas]
  }

  /** `DeploymentOwnershipProof.__post_init__`. */
  predicate ProofOk(p: Proof) {
    && p.namespaces == APPLICATION_NAMESPACES
    && |p.bindings| == 12 && (forall i | 0 <= i < |p.bindings| :: BindingOk(p.bindings[i]))
    && SortedBy(p.bindings, BindingKey) && Stock(p.bindings) == EXPECTED
    && |AllIdentities(p.bindings)| == 37 && NoDup(AllIdentities(p.bindings))
    && !p.runtimeContractComplete
  }

  function ProofOf(p: Pod): PodProof {
    PodProof(p.meta.name, p.meta.uid, p.meta.version)
  }

  function PodProofs(pods: seq<Pod>): (r: seq<PodProof>)
    ensures |r| == |pods| && forall i | 0 <= i < |pods| :: r[i] == ProofOf(pods[i])
  {
    seq(|pods|, i requires 0 <= i < |pods| => ProofOf(pods[i]))
  }

  function SortedProofs(pods: seq<Pod>): (r: seq<PodProof>)
    ensures |r| == |pods|
  {
    SortBy(PodProofs(pods), PodProofKey)
  }

  function Bind(d: Deployment, r: ReplicaSet, pods: seq<Pod>): Binding {
    Binding(d.meta.namespace, d.meta.name, d.meta.uid, d.meta.version, d.revision, d.replicas,
            r.meta.name, r.meta.uid, r.meta.version, r.hash,
            SortedProofs(OwnedPods(pods, ReplicaSetAsOwner(r))))
  }

  // ---------- The binding of an accepted Deployment passes its own checks ----------

  lemma {:induction false} OwnedPodsDistinct(pods: seq<Pod>, k: OwnerKey)
    requires Distinct(pods, PodUid)
    ensures Distinct(OwnedPods(pods, k), PodUid)
  {
    if pods != [] {
      var n := |pods| - 1;
      OwnedPodsDistinct(pods[..n], k);
      var front := OwnedPods(pods[..n], k);
      forall p | p in front ensures PodUid(p) != PodUid(pods[n]) {
        var i :| 0 <= i < n && pods[..n][i] == p;
        assert PodUid(pods[i]) != PodUid(pods[n]);
      }
    }
  }

  lemma PodProofsDistinct(pods: seq<Pod>)
    requires Distinct(pods, PodUid)
    ensures Distinct(PodProofs(pods), PodProofUid) && Distinct(PodProofs(pods), PodProofKey)
  {
    var raw := PodProofs(pods);
    forall i, j | 0 <= i < j < |raw| ensures PodProofUid(raw[i]) != PodProofUid(raw[j]) && PodProofKey(raw[i]) != PodProofKey(raw[j]) {
      assert PodUid(pods[i]) != PodUid(pods[j]);
      assert PodProofKey(raw[i])[1] != PodProofKey(raw[j])[1];
    }
  }

  lemma SortedPodProofs(pods: seq<Pod>)
    requires Distinct(pods, PodUid)
    ensures SortedBy(SortedProofs(pods), PodProofKey) && Distinct(SortedProofs(pods), PodProofUid)
    ensures forall q | q in SortedProofs(pods) :: exists p :: p in pods && q == ProofOf(p)
  {
    PodProofsDistinct(pods);
    var raw := PodProofs(pods);
    SortByIsSorted(raw, PodProofKey);
    DistinctPermutation(raw, SortBy(raw, PodProofKey), PodProofUid);
    SameMembers(raw, SortBy(raw, PodProofKey));
    hide SortBy;
    forall q | q in SortedProofs(pods) ensures exists p :: p in pods && q == ProofOf(p) {
      assert q in raw;
      var j :| 0 <= j < |raw| && raw[j] == q;
      assert pods[j] in pods && q == ProofOf(pods[j]);
    }
  }

  /** Every uid in a binding is the Deployment's, the ReplicaSet's, or that of a Pod under it. */
  lemma IdentitiesAre(d: Deployment, r: ReplicaSet, pods: seq<Pod>)
    requires Distinct(pods, PodUid)
    ensures |Identities(Bind(d, r, pods))| == 2 + |OwnedPods(pods, ReplicaSetAsOwner(r))|
    ensures forall x | x in Identities(Bind(d, r, pods)) ::
      x == d.meta.uid || x == r.meta.uid || exists p :: p in pods && PodOwner(p) == ReplicaSetAsOwner(r) && p.meta.uid == x
  {
    var owned := OwnedPods(pods, ReplicaSetAsOwner(r));
    OwnedPodsDistinct(pods, ReplicaSetAsOwner(r));
    SortedPodProofs(owned);
    hide OwnedPods, SortedProofs;
    var b := Bind(d, r, pods);
    forall x | x in Identities(b) && x != d.meta.uid && x != r.meta.uid
      ensures exists p :: p in pods && PodOwner(p) == ReplicaSetAsOwner(r) && p.meta.uid == x
    {
      var i :| 0 <= i < |b.pods| && PodUids(b.pods)[i] == x;
      assert b.pods[i] in b.pods;
      var p :| p in owned && b.pods[i] == ProofOf(p);
    }
  }

  /** The uids of one family never meet those of another, nor twice their own. */
  lemma BindIsOk(ds: seq<Deployment>, rss: seq<ReplicaSet>, pods: seq<Pod>, d: Deployment, r: ReplicaSet)
    requires Admissible(ds, rss, pods) && d in ds && r in rss && Owns(d, r, pods)
    ensures BindingOk(Bind(d, r, pods))
  {
    var owned := OwnedPods(pods, ReplicaSetAsOwner(r));
    var b := Bind(d, r, pods);
    hide EXPECTED, IsName, IsUid, IsUint64, IsHash, HasPodSuffix, OwnedPods, SortedProofs, Bind;
    OwnedPodsDistinct(pods, ReplicaSetAsOwner(r));
    SortedPodProofs(owned);
    BindParts(d, r, pods);
    forall i | 0 <= i < |b.pods|
      ensures IsName(b.pods[i].name) && IsUid(b.pods[i].uid) && IsUint64(b.pods[i].version)
      ensures HasPodSuffix(b.pods[i].name, b.replicaSetName + "-")
      ensures b.pods[i].uid != d.meta.uid && b.pods[i].uid != r.meta.uid
    {
      assert b.pods[i] in b.pods;
      var p :| p in owned && b.pods[i] == ProofOf(p);
      assert p in pods && PodOk(p);
    }
    BindingNoDup(b);
  }

  lemma BindParts(d: Deployment, r: ReplicaSet, pods: seq<Pod>)
    ensures var b := Bind(d, r, pods);
      && b.namespace == d.meta.namespace && b.deploymentName == d.meta.name && b.deploymentUid == d.meta.uid
      && b.deploymentVersion == d.meta.version && b.revision == d.revision && b.replicas == d.replicas
      && b.replicaSetName == r.meta.name && b.replicaSetUid == r.meta.uid && b.replicaSetVersion == r.meta.version
      && b.hash == r.hash && b.pods == SortedProofs(OwnedPods(pods, ReplicaSetAsOwner(r)))
  {
  }

  lemma BindingNoDup(b: Binding)
    requires b.deploymentUid != b.replicaSetUid && Distinct(b.pods, PodProofUid)
    requires forall i | 0 <= i < |b.pods| :: b.pods[i].uid != b.deploymentUid && b.pods[i].uid != b.replicaSetUid
    ensures NoDup(Identities(b))
  {
    var xs := Identities(b);
    forall i, j | 0 <= i < j < |xs| ensures xs[i] != xs[j] {
      if i >= 2 {
        assert xs[i] == PodProofUid(b.pods[i - 2]) && xs[j] == PodProofUid(b.pods[j - 2]);
      }
    }
  }

  /** Bindings of different Deployments have no uid in common. */
  lemma BindingsApart(ds: seq<Deployment>, rss: seq<ReplicaSet>, pods: seq<Pod>, c: Deployment, q: ReplicaSet, d: Deployment, r: ReplicaSet)
    requires Admissible(ds, rss, pods) && c in ds && d in ds && q in rss && r in rss && c != d
    requires Owns(c, q, pods) && Owns(d, r, pods)
    ensures forall x | x in Identities(Bind(c, q, pods)) :: x !in Identities(Bind(d, r, pods))
  {
    hide EXPECTED, DeploymentOk, ReplicaSetOk, PodOk, Inventory, OwnedPods, SortedProofs, Bind, Identities;
    IdentitiesAre(c, q, pods);
    IdentitiesAre(d, r, pods);
    ApartUids(ds, c, d);
    ApartReplicaSets(rss, q, r);
    assert ReplicaSetAsOwner(q) != ReplicaSetAsOwner(r);
    forall x | x in Identities(Bind(c, q, pods)) && x in Identities(Bind(d, r, pods)) ensures false {
      if exists p :: p in pods && PodOwner(p) == ReplicaSetAsOwner(q) && p.meta.uid == x {
        var p :| p in pods && PodOwner(p) == ReplicaSetAsOwner(q) && p.meta.uid == x;
        assert x != d.meta.uid && x != r.meta.uid;
        var s :| s in pods && PodOwner(s) == ReplicaSetAsOwner(r) && s.meta.uid == x;
        SamePod(pods, p, s);
      }
    }
  }

  lemma ApartUids(ds: seq<Deployment>, c: Deployment, d: Deployment)
    requires Distinct(ds, DeploymentUid) && Distinct(ds, DeploymentKey) && c in ds && d in ds && c != d
    ensures c.meta.uid != d.meta.uid && DeploymentAsOwner(c) != DeploymentAsOwner(d)
  {
    var i :| 0 <= i < |ds| && ds[i] == c;
    var j :| 0 <= j < |ds| && ds[j] == d;
    assert DeploymentUid(ds[i]) != DeploymentUid(ds[j]) && DeploymentKey(ds[i]) != DeploymentKey(ds[j]);
  }

  lemma ApartReplicaSets(rss: seq<ReplicaSet>, q: ReplicaSet, r: ReplicaSet)
    requires Distinct(rss, ReplicaSetUid) && q in rss && r in rss && q != r
    ensures q.meta.uid != r.meta.uid
  {
    var i :| 0 <= i < |rss| && rss[i] == q;
    var j :| 0 <= j < |rss| && rss[j] == r;
    assert ReplicaSetUid(rss[i]) != ReplicaSetUid(rss[j]);
  }

  lemma SamePod(pods: seq<Pod>, p: Pod, s: Pod)
    requires Distinct(pods, PodUid) && p in pods && s in pods && p.meta.uid == s.meta.uid
    ensures p == s
  {
    var i :| 0 <= i < |pods| && pods[i] == p;
    var j :| 0 <= j < |pods| && pods[j] == s;
    assert i != j ==> PodUid(pods[i]) != PodUid(pods[j]);
  }

  // ---------- The proof of an accepted cluster passes its own checks ----------

  /** The binding of one Deployment: with the ReplicaSet it owns and the Pods under that. */
  function BindingFor(d: Deployment, rss: seq<ReplicaSet>, pods: seq<Pod>): Binding
    requires FindOwned(rss, DeploymentAsOwner(d)).Some?
  {
    Bind(d, FindOwned(rss, DeploymentAsOwner(d)).value, pods)
  }

  predicate AllFound(ds: seq<Deployment>, rss: seq<ReplicaSet>) {
    forall i | 0 <= i < |ds| :: FindOwned(rss, DeploymentAsOwner(ds[i])).Some?
  }

  function Bindings(ds: seq<Deployment>, rss: seq<ReplicaSet>, pods: seq<Pod>): (bs: seq<Binding>)
    requires AllFound(ds, rss)
    ensures |bs| == |ds| && forall i | 0 <= i < |ds| :: bs[i] == BindingFor(ds[i], rss, pods)
  {
    seq(|ds|, i requires 0 <= i < |ds| => BindingFor(ds[i], rss, pods))
  }

  lemma AcceptedAreFound(ds: seq<Deployment>, rss: seq<ReplicaSet>, pods: seq<Pod>)
    requires Accepts(ds, rss, pods)
    ensures AllFound(ds, rss)
  {
    AdmissibleIs(ds, rss, pods);
    forall i | 0 <= i < |ds| ensures FindOwned(rss, DeploymentAsOwner(ds[i])).Some? {
      FoundOwns(ds, rss, pods, ds[i]);
    }
  }

  lemma BindingForIs(ds: seq<Deployment>, rss: seq<ReplicaSet>, pods: seq<Pod>, d: Deployment)
    requires Accepts(ds, rss, pods) && d in ds
    ensures FindOwned(rss, DeploymentAsOwner(d)).Some?
    ensures BindingOk(BindingFor(d, rss, pods))
  {
    AdmissibleIs(ds, rss, pods);
    FoundOwns(ds, rss, pods, d);
    var r := FindOwned(rss, DeploymentAsOwner(d)).value;
    BindIsOk(ds, rss, pods, d, r);
  }

  lemma BindingsDistinct(ds: seq<Deployment>, rss: seq<ReplicaSet>, pods: seq<Pod>)
    requires Distinct(ds, DeploymentKey) && AllFound(ds, rss)
    ensures Distinct(Bindings(ds, rss, pods), BindingKey)
  {
    var bs := Bindings(ds, rss, pods);
    forall i, j | 0 <= i < j < |bs| ensures BindingKey(bs[i]) != BindingKey(bs[j]) {
      assert DeploymentKey(ds[i]) != DeploymentKey(ds[j]);
      BindParts(ds[i], FindOwned(rss, DeploymentAsOwner(ds[i])).value, pods);
      BindParts(ds[j], FindOwned(rss, DeploymentAsOwner(ds[j])).value, pods);
      hide Bind;
      assert BindingKey(bs[i])[0] == ds[i].meta.namespace && BindingKey(bs[i])[1] == ds[i].meta.name;
      assert BindingKey(bs[j])[0] == ds[j].meta.namespace && BindingKey(bs[j])[1] == ds[j].meta.name;
    }
  }

  lemma {:induction false} StockIs(bs: seq<Binding>)
    requires Distinct(bs, BindingKey)
    ensures forall b | b in bs :: Key(b.namespace, b.deploymentName) in Stock(bs)
                                  && Stock(bs)[Key(b.namespace, b.deploymentName)] == b.replicas
    ensures forall k | k in Stock(bs) :: exists b :: b in bs && Key(b.namespace, b.deploymentName) == k
  {
    if bs != [] {
      var n := |bs| - 1;
      var front, last := bs[..n], bs[n];
      StockIs(front);
      assert bs == front + [last];
      forall b | b in front ensures Key(b.namespace, b.deploymentName) != Key(last.namespace, last.deploymentName) {
        var i :| 0 <= i < n && front[i] == b;
        assert BindingKey(bs[i]) != BindingKey(bs[n]);
      }
    }
  }

  function BindingDemands(bs: seq<Binding>): (r: seq<Demand>)
    ensures |r| == |bs| && forall i | 0 <= i < |bs| :: r[i] == Demand(Key(bs[i].namespace, bs[i].deploymentName), bs[i].replicas)
  {
    if bs == [] then [] else
    [Demand(Key(bs[0].namespace, bs[0].deploymentName), bs[0].replicas)] + BindingDemands(bs[1..])
  }

  lemma {:induction false} IdentitiesTotal(bs: seq<Binding>)
    requires forall i | 0 <= i < |bs| :: |bs[i].pods| == bs[i].replicas
    ensures |AllIdentities(bs)| == 2 * |bs| + Total(BindingDemands(bs))
  {
    if bs != [] {
      IdentitiesTotal(bs[1..]);
      assert BindingDemands(bs)[1..] == BindingDemands(bs[1..]);
    }
  }

  lemma {:induction false} InAllIdentities(bs: seq<Binding>, x: string)
    ensures x in AllIdentities(bs) <==> exists i :: 0 <= i < |bs| && x in Identities(bs[i])
  {
    hide Identities;
    if bs != [] {
      InAllIdentities(bs[1..], x);
      if exists i :: 0 <= i < |bs[1..]| && x in Identities(bs[1..][i]) {
        var i :| 0 <= i < |bs[1..]| && x in Identities(bs[1..][i]);
        assert x in Identities(bs[i + 1]);
      }
      if exists i :: 0 <= i < |bs| && x in Identities(bs[i]) {
        var i :| 0 <= i < |bs| && x in Identities(bs[i]);
        assert i > 0 ==> bs[1..][i - 1] == bs[i];
      }
    }
  }

  lemma {:induction false} AllNoDup(bs: seq<Binding>)
    requires forall i | 0 <= i < |bs| :: NoDup(Identities(bs[i]))
    requires forall i, j, x | 0 <= i < j < |bs| && x in Identities(bs[i]) :: x !in Identities(bs[j])
    ensures NoDup(AllIdentities(bs))
  {
    hide Identities;
    if bs != [] {
      AllNoDup(bs[1..]);
      var first, rest := Identities(bs[0]), AllIdentities(bs[1..]);
      forall x | x in first ensures x !in rest {
        InAllIdentities(bs[1..], x);
      }
      forall i, j | 0 <= i < j < |first + rest| ensures (first + rest)[i] != (first + rest)[j] {
        if i < |first| <= j { assert first[i] in first && rest[j - |first|] in rest; }
      }
    }
  }

  ghost predicate IsBindingOf(b: Binding, d: Deployment, rss: seq<ReplicaSet>, pods: seq<Pod>) {
    FindOwned(rss, DeploymentAsOwner(d)).Some? && b == BindingFor(d, rss, pods)
  }

  function SortedBindings(ds: seq<Deployment>, rss: seq<ReplicaSet>, pods: seq<Pod>): (r: seq<Binding>)
    requires AllFound(ds, rss)
    ensures |r| == |ds|
  {
    SortBy(Bindings(ds, rss, pods), BindingKey)
  }

  lemma SourceOf(ds: seq<Deployment>, rss: seq<ReplicaSet>, pods: seq<Pod>, b: Binding) returns (d: Deployment)
    requires AllFound(ds, rss) && b in SortedBindings(ds, rss, pods)
    ensures d in ds && IsBindingOf(b, d, rss, pods)
  {
    hide BindingFor, SortBy, FindOwned;
    var bs := Bindings(ds, rss, pods);
    SameMembers(bs, SortBy(bs, BindingKey));
    var i :| 0 <= i < |bs| && bs[i] == b;
    d := ds[i];
  }

  lemma BindingAmong(ds: seq<Deployment>, rss: seq<ReplicaSet>, pods: seq<Pod>, d: Deployment) returns (b: Binding)
    requires AllFound(ds, rss) && d in ds
    ensures b in SortedBindings(ds, rss, pods) && IsBindingOf(b, d, rss, pods)
  {
    hide BindingFor, SortBy, FindOwned;
    var bs := Bindings(ds, rss, pods);
    SameMembers(bs, SortBy(bs, BindingKey));
    var i :| 0 <= i < |ds| && ds[i] == d;
    b := bs[i];
    assert b in bs;
  }

  lemma SortedAreOk(ds: seq<Deployment>, rss: seq<ReplicaSet>, pods: seq<Pod>)
    requires Accepts(ds, rss, pods) && AllFound(ds, rss)
    ensures forall b | b in SortedBindings(ds, rss, pods) :: BindingOk(b)
  {
    hide *;
    forall b | b in SortedBindings(ds, rss, pods) ensures BindingOk(b) {
      var d := SourceOf(ds, rss, pods, b);
      IsBindingOfIs(b, d, rss, pods);
      BindingForIs(ds, rss, pods, d);
    }
  }

  lemma IsBindingOfIs(b: Binding, d: Deployment, rss: seq<ReplicaSet>, pods: seq<Pod>)
    requires IsBindingOf(b, d, rss, pods)
    ensures FindOwned(rss, DeploymentAsOwner(d)).Some? && b == BindingFor(d, rss, pods)
    ensures b.namespace == d.meta.namespace && b.deploymentName == d.meta.name && b.replicas == d.replicas
    ensures b == Bind(d, FindOwned(rss, DeploymentAsOwner(d)).value, pods)
  {
  }

  lemma SortedStock(ds: seq<Deployment>, rss: seq<ReplicaSet>, pods: seq<Pod>, sorted: seq<Binding>)
    requires Accepts(ds, rss, pods) && AllFound(ds, rss) && sorted == SortedBindings(ds, rss, pods)
    requires Distinct(sorted, BindingKey)
    ensures Stock(sorted) == EXPECTED
  {
    hide *;
    forall k | k in Stock(sorted) ensures k in EXPECTED && EXPECTED[k] == Stock(sorted)[k] {
      var b := StockedBy(sorted, k);
      var d := SourceOf(ds, rss, pods, b);
      IsBindingOfIs(b, d, rss, pods);
      InInventory(ds, rss, pods, d);
    }
    forall k | k in EXPECTED ensures k in Stock(sorted) {
      var d := ExpectedAmong(ds, rss, pods, k);
      var b := BindingAmong(ds, rss, pods, d);
      IsBindingOfIs(b, d, rss, pods);
      Stocked(sorted, b);
    }
  }

  lemma StockedBy(bs: seq<Binding>, k: Key) returns (b: Binding)
    requires Distinct(bs, BindingKey) && k in Stock(bs)
    ensures b in bs && Key(b.namespace, b.deploymentName) == k && Stock(bs)[k] == b.replicas
  {
    hide Stock, Distinct;
    StockIs(bs);
    b :| b in bs && Key(b.namespace, b.deploymentName) == k;
  }

  lemma Stocked(bs: seq<Binding>, b: Binding)
    requires Distinct(bs, BindingKey) && b in bs
    ensures Key(b.namespace, b.deploymentName) in Stock(bs) && Stock(bs)[Key(b.namespace, b.deploymentName)] == b.replicas
  {
    hide Stock, Distinct;
    StockIs(bs);
  }

  lemma InInventory(ds: seq<Deployment>, rss: seq<ReplicaSet>, pods: seq<Pod>, d: Deployment)
    requires Accepts(ds, rss, pods) && d in ds
    ensures Key(d.meta.namespace, d.meta.name) in EXPECTED && EXPECTED[Key(d.meta.namespace, d.meta.name)] == d.replicas
  {
    hide EXPECTED;
    assert DeploymentKey(d) in EXPECTED;
  }

  lemma ExpectedAmong(ds: seq<Deployment>, rss: seq<ReplicaSet>, pods: seq<Pod>, k: Key) returns (d: Deployment)
    requires Accepts(ds, rss, pods) && k in EXPECTED
    ensures d in ds && Key(d.meta.namespace, d.meta.name) == k
  {
    hide EXPECTED;
    assert Inventory(ds);
    d :| d in ds && DeploymentKey(d) == k;
  }

  lemma SortedTotal(sorted: seq<Binding>)
    requires |sorted| == 12 && Distinct(sorted, BindingKey) && Stock(sorted) == EXPECTED
    requires forall b | b in sorted :: BindingOk(b)
    ensures |AllIdentities(sorted)| == 37
  {
    hide *;
    CorednsExpected();
    forall i | 0 <= i < |sorted| ensures |sorted[i].pods| == sorted[i].replicas {
      CountOfOk(sorted[i]);
    }
    IdentitiesTotal(sorted);
    var ms := BindingDemands(sorted);
    DemandsDistinct(sorted);
    forall m | m in ms ensures AsExpected(m) {
      var i :| 0 <= i < |ms| && ms[i] == m;
      Stocked(sorted, sorted[i]);
      AsExpectedIs(m);
    }
    var b := StockedBy(sorted, COREDNS);
    var i :| 0 <= i < |sorted| && sorted[i] == b;
    DemandKeyIs(ms[i]);
    InventoryTotal(ms);
  }

  lemma CountOfOk(b: Binding)
    requires BindingOk(b)
    ensures |b.pods| == b.replicas
  {
  }

  lemma AsExpectedIs(m: Demand)
    ensures AsExpected(m) <==> m.key in EXPECTED && EXPECTED[m.key] == m.replicas
  {
  }

  lemma DemandKeyIs(m: Demand)
    ensures DemandKey(m) == m.key
  {
  }

  lemma DemandsDistinct(bs: seq<Binding>)
    requires Distinct(bs, BindingKey)
    ensures Distinct(BindingDemands(bs), DemandKey)
  {
    var ms := BindingDemands(bs);
    forall i, j | 0 <= i < j < |ms| ensures DemandKey(ms[i]) != DemandKey(ms[j]) {
      assert BindingKey(bs[i]) != BindingKey(bs[j]);
    }
  }

  lemma SortedIdentities(ds: seq<Deployment>, rss: seq<ReplicaSet>, pods: seq<Pod>)
    requires Accepts(ds, rss, pods) && AllFound(ds, rss)
    requires SortedBy(SortedBindings(ds, rss, pods), BindingKey)
    ensures NoDup(AllIdentities(SortedBindings(ds, rss, pods)))
  {
    hide *;
    var sorted := SortedBindings(ds, rss, pods);
    SortedAreOk(ds, rss, pods);
    forall i | 0 <= i < |sorted| ensures NoDup(Identities(sorted[i])) {
      BindingNoDupIs(sorted[i]);
    }
    forall i, j, x | 0 <= i < j < |sorted| && x in Identities(sorted[i]) ensures x !in Identities(sorted[j]) {
      SortedDiffer(sorted, i, j);
      var c := SourceOf(ds, rss, pods, sorted[i]);
      var d := SourceOf(ds, rss, pods, sorted[j]);
      SortedApart(ds, rss, pods, sorted[i], c, sorted[j], d);
    }
    AllNoDup(sorted);
  }

  lemma SortedApart(ds: seq<Deployment>, rss: seq<ReplicaSet>, pods: seq<Pod>, a: Binding, c: Deployment, b: Binding, d: Deployment)
    requires Accepts(ds, rss, pods) && c in ds && d in ds && a != b
    requires IsBindingOf(a, c, rss, pods) && IsBindingOf(b, d, rss, pods)
    ensures forall x | x in Identities(a) :: x !in Identities(b)
  {
    hide *;
    IsBindingOfIs(a, c, rss, pods);
    IsBindingOfIs(b, d, rss, pods);
    AdmissibleIs(ds, rss, pods);
    FoundOwns(ds, rss, pods, c);
    FoundOwns(ds, rss, pods, d);
    AdmissibleOf(ds, rss, pods);
    BindingsApart(ds, rss, pods, c, FindOwned(rss, DeploymentAsOwner(c)).value, d, FindOwned(rss, DeploymentAsOwner(d)).value);
  }

  lemma TwelveOf(ds: seq<Deployment>, rss: seq<ReplicaSet>, pods: seq<Pod>)
    requires Accepts(ds, rss, pods)
    ensures |ds| == 12
  {
  }

  lemma AdmissibleOf(ds: seq<Deployment>, rss: seq<ReplicaSet>, pods: seq<Pod>)
    requires Accepts(ds, rss, pods)
    ensures Admissible(ds, rss, pods)
  {
  }

  lemma BindingNoDupIs(b: Binding)
    requires BindingOk(b)
    ensures NoDup(Identities(b))
  {
  }

  lemma SortedDiffer(sorted: seq<Binding>, i: nat, j: nat)
    requires SortedBy(sorted, BindingKey) && i < j < |sorted|
    ensures sorted[i] != sorted[j]
  {
    LessKeysTotal(BindingKey(sorted[i]), BindingKey(sorted[i]));
  }

  /** Once the joins pass, the constructors of the bindings and of the proof cannot fail. */
  lemma ProofIsOk(ds: seq<Deployment>, rss: seq<ReplicaSet>, pods: seq<Pod>)
    requires Accepts(ds, rss, pods)
    ensures AllFound(ds, rss)
    ensures ProofOk(Proof(APPLICATION_NAMESPACES, SortedBindings(ds, rss, pods), false))
  {
    hide *;
    AcceptedAreFound(ds, rss, pods);
    var sorted := SortedBindings(ds, rss, pods);
    AdmissibleIs(ds, rss, pods);
    TwelveOf(ds, rss, pods);
    SortedInOrder(ds, rss, pods);
    SortedAreOk(ds, rss, pods);
    SortedStock(ds, rss, pods, sorted);
    SortedIdentities(ds, rss, pods);
    SortedTotal(sorted);
    ProofParts(sorted);
  }

  lemma SortedInOrder(ds: seq<Deployment>, rss: seq<ReplicaSet>, pods: seq<Pod>)
    requires Distinct(ds, DeploymentKey) && AllFound(ds, rss)
    ensures SortedBy(SortedBindings(ds, rss, pods), BindingKey) && Distinct(SortedBindings(ds, rss, pods), BindingKey)
  {
    var bs := Bindings(ds, rss, pods);
    BindingsDistinct(ds, rss, pods);
    SortByIsSorted(bs, BindingKey);
    DistinctPermutation(bs, SortBy(bs, BindingKey), BindingKey);
  }

  lemma ProofParts(bs: seq<Binding>)
    requires |bs| == 12 && (forall i | 0 <= i < |bs| :: BindingOk(bs[i])) && SortedBy(bs, BindingKey)
    requires Stock(bs) == EXPECTED && |AllIdentities(bs)| == 37 && NoDup(AllIdentities(bs))
    ensures ProofOk(Proof(APPLICATION_NAMESPACES, bs, false))
  {
  }
}
