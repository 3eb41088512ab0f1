/** Deployments own ReplicaSets, ReplicaSets own Pods: the join of a fresh cluster's three record lists. */
module Ownership {
  import opened Basics
  import opened Digits
  import opened Sorting

  // ---------- Records ----------

  datatype Meta = Meta(apiVersion: string, kind: string, namespace: string, name: string, uid: string, version: string)

  datatype Owner = Owner(apiVersion: string, kind: string, name: string, uid: string,
                         controller: bool, blockOwnerDeletion: bool)

  datatype Deployment = Deployment(meta: Meta, revision: string, replicas: int)

  datatype ReplicaSet = ReplicaSet(meta: Meta, revision: string, hash: string, owner: Owner)

  datatype Pod = Pod(meta: Meta, hash: string, owner: Owner)

  datatype Key = Key(namespace: string, name: string)

  datatype OwnerKey = OwnerKey(namespace: string, name: string, uid: string)

  const EXPECTED: map<Key, int> := map[
    Key("kube-system", "coredns") := 2,
    Key("kube-system", "calico-kube-controllers") := 1,
    Key("local-path-storage", "local-path-provisioner") := 1,
    Key("kil-v3-baseline", "authz") := 1, Key("kil-v3-baseline", "envoy") := 1, Key("kil-v3-baseline", "target") := 1,
    Key("kil-v3-local-reduce", "authz") := 1, Key("kil-v3-local-reduce", "envoy") := 1, Key("kil-v3-local-reduce", "target") := 1,
    Key("kil-v3-signed", "authz") := 1, Key("kil-v3-signed", "envoy") := 1, Key("kil-v3-signed", "target") := 1]

  const UINT64_MAX := 18_446_744_073_709_551_615

  predicate IsAlphanumeric(c: char) {
    'a' <= c <= 'z' || '0' <= c <= '9'
  }

  predicate AllAlphanumeric(s: string) {
    forall k | 0 <= k < |s| :: IsAlphanumeric(s[k])
  }

  /** `_name`: a DNS label. */
  predicate IsName(s: string) {
    && 0 < |s| <= 63 && IsAlphanumeric(s[0]) && IsAlphanumeric(s[|s| - 1])
    && forall k | 0 <= k < |s| :: IsAlphanumeric(s[k]) || s[k] == '-'
  }

  predicate IsUid(s: string) {
    0 < |s| <= 256 && Utf8Length(s) <= 1024
  }

  /** A positive decimal without leading zeros. */
  predicate IsUint64(s: string) {
    IsNatText(s) && |s| <= 20 && s[0] != '0' && NatValue(s) <= UINT64_MAX
  }

  predicate IsHash(s: string) {
    |s| == 10 && AllAlphanumeric(s)
  }

  /** `prefix` and a five-character suffix. */
  predicate HasPodSuffix(name: string, prefix: string) {
    StartsWith(name, prefix) && |name| == |prefix| + 5 && AllAlphanumeric(name[|prefix|..])
  }

  predicate MetaOk(m: Meta, apiVersion: string, kind: string) {
    m.apiVersion == apiVersion && m.kind == kind && IsName(m.namespace) && IsName(m.name) && IsUid(m.uid) && IsUint64(m.version)
  }

  predicate OwnerOk(o: Owner, kind: string) {
    o.apiVersion == "apps/v1" && o.kind == kind && IsName(o.name) && IsUid(o.uid) && o.controller && o.blockOwnerDeletion
  }

  predicate DeploymentOk(d: Deployment) {
    MetaOk(d.meta, "apps/v1", "Deployment") && d.revision == "1" && d.replicas > 0
  }

  predicate ReplicaSetOk(r: ReplicaSet) {
    && MetaOk(r.meta, "apps/v1", "ReplicaSet") && r.revision == "1" && IsHash(r.hash) && OwnerOk(r.owner, "Deployment")
    && r.meta.name == r.owner.name + "-" + r.hash
  }

  predicate PodOk(p: Pod) {
    && MetaOk(p.meta, "v1", "Pod") && IsHash(p.hash) && OwnerOk(p.owner, "ReplicaSet")
    && HasPodSuffix(p.meta.name, p.owner.name + "-")
  }

  function DeploymentKey(d: Deployment): Key { Key(d.meta.namespace, d.meta.name) }

  function DeploymentUid(d: Deployment): string { d.meta.uid }

  function DeploymentAsOwner(d: Deployment): OwnerKey { OwnerKey(d.meta.namespace, d.meta.name, d.meta.uid) }

  function ReplicaSetKey(r: ReplicaSet): Key { Key(r.meta.namespace, r.meta.name) }

  function ReplicaSetUid(r: ReplicaSet): string { r.meta.uid }

  function ReplicaSetOwner(r: ReplicaSet): OwnerKey { OwnerKey(r.meta.namespace, r.owner.name, r.owner.uid) }

  function ReplicaSetAsOwner(r: ReplicaSet): OwnerKey { OwnerKey(r.meta.namespace, r.meta.name, r.meta.uid) }

  function PodKey(p: Pod): Key { Key(p.meta.namespace, p.meta.name) }

  function PodUid(p: Pod): string { p.meta.uid }

  function PodOwner(p: Pod): OwnerKey { OwnerKey(p.meta.namespace, p.owner.name, p.owner.uid) }

  /** The Pods of one owner, in their order. */
  function OwnedPods(pods: seq<Pod>, k: OwnerKey): (r: seq<Pod>)
    ensures |r| <= |pods|
    ensures forall p :: p in r <==> p in pods && PodOwner(p) == k
  {
    if pods == [] then [] else
    var last := pods[|pods| - 1];
    assert pods == pods[..|pods| - 1] + [last];
    OwnedPods(pods[..|pods| - 1], k) + if PodOwner(last) == k then [last] else []
  }

  // ---------- What is accepted ----------

  /** The Deployments present, with their replica counts, are exactly the expected ones. */
  ghost predicate Inventory(ds: seq<Deployment>) {
    && (forall d | d in ds :: DeploymentKey(d) in EXPECTED && EXPECTED[DeploymentKey(d)] == d.replicas)
    && (forall k | k in EXPECTED :: exists d :: d in ds && DeploymentKey(d) == k)
  }

  ghost predicate UidsDistinct(ds: seq<Deployment>, rss: seq<ReplicaSet>, pods: seq<Pod>) {
    && Distinct(ds, DeploymentUid) && Distinct(rss, ReplicaSetUid) && Distinct(pods, PodUid)
    && (forall d, r | d in ds && r in rss :: d.meta.uid != r.meta.uid)
    && (forall d, p | d in ds && p in pods :: d.meta.uid != p.meta.uid)
    && (forall r, p | r in rss && p in pods :: r.meta.uid != p.meta.uid)
  }

  /** Each record list on its own is well formed, and no identity or uid occurs twice. */
  ghost predicate Admissible(ds: seq<Deployment>, rss: seq<ReplicaSet>, pods: seq<Pod>) {
    && |ds| == 12 && |rss| == 12 && |pods| == 13
    && (forall d | d in ds :: DeploymentOk(d)) && (forall r | r in rss :: ReplicaSetOk(r)) && (forall p | p in pods :: PodOk(p))
    && Distinct(ds, DeploymentKey) && Inventory(ds)
    && Distinct(rss, ReplicaSetKey) && Distinct(rss, ReplicaSetOwner) && Distinct(pods, PodKey)
    && UidsDistinct(ds, rss, pods)
  }

  /** The Deployment owns this ReplicaSet, which owns as many Pods as asked for, of its own template. */
  ghost predicate Owns(d: Deployment, r: ReplicaSet, pods: seq<Pod>) {
    && ReplicaSetOwner(r) == DeploymentAsOwner(d)
    && |OwnedPods(pods, ReplicaSetAsOwner(r))| == d.replicas
    && forall p | p in OwnedPods(pods, ReplicaSetAsOwner(r)) :: p.hash == r.hash
  }

  ghost predicate Accepts(ds: seq<Deployment>, rss: seq<ReplicaSet>, pods: seq<Pod>) {
    && Admissible(ds, rss, pods)
    && forall d | d in ds :: exists r :: r in rss && Owns(d, r, pods)
  }

  // ---------- Counting: no orphans ----------

  ghost function Keys<T, K>(xs: seq<T>, key: T -> K): set<K> {
    set k | 0 <= k < |xs| :: key(xs[k])
  }

  lemma KeysAppend<T, K>(xs: seq<T>, x: T, key: T -> K)
    ensures Keys(xs + [x], key) == Keys(xs, key) + {key(x)}
  {
    var more := xs + [x];
    assert more[|xs|] == x;
    assert forall i | 0 <= i < |xs| :: more[i] == xs[i];
    forall k ensures k in Keys(more, key) <==> k in Keys(xs, key) + {key(x)} {
      if k in Keys(xs, key) {
        var i :| 0 <= i < |xs| && key(xs[i]) == k;
        assert key(more[i]) == k;
      }
      if k in Keys(more, key) {
        var i :| 0 <= i < |more| && key(more[i]) == k;
        if i < |xs| {
          assert key(xs[i]) == k;
        } else {
          assert k == key(x);
        }
      }
      assert key(more[|xs|]) == key(x);
    }
  }

  lemma {:induction false} KeysCount<T, K>(xs: seq<T>, key: T -> K)
    requires Distinct(xs, key)
    ensures |Keys(xs, key)| == |xs|
  {
    if xs != [] {
      var n := |xs| - 1;
      var front, last := xs[..n], xs[n];
      KeysCount(front, key);
      assert xs == front + [last];
      KeysAppend(front, last, key);
      assert key(last) !in Keys(front, key);
    }
  }

  lemma SubsetOfSameSize<K>(a: set<K>, b: set<K>)
    requires a <= b && |a| == |b|
    ensures a == b
  {
    assert |b - a| == |b| - |a|;
  }

  /** Twelve Deployments each owning one of twelve ReplicaSets leave no ReplicaSet without one. */
  lemma NoOrphanReplicaSet(ds: seq<Deployment>, rss: seq<ReplicaSet>)
    requires |ds| == |rss| && Distinct(ds, DeploymentKey) && Distinct(rss, ReplicaSetOwner)
    requires forall d | d in ds :: exists r :: r in rss && ReplicaSetOwner(r) == DeploymentAsOwner(d)
    ensures Keys(rss, ReplicaSetOwner) == Keys(ds, DeploymentAsOwner)
  {
    assert Distinct(ds, DeploymentAsOwner);
    KeysCount(ds, DeploymentAsOwner);
    KeysCount(rss, ReplicaSetOwner);
    forall k | k in Keys(ds, DeploymentAsOwner) ensures k in Keys(rss, ReplicaSetOwner) {
      var i :| 0 <= i < |ds| && DeploymentAsOwner(ds[i]) == k;
      assert ds[i] in ds;
      var r :| r in rss && ReplicaSetOwner(r) == k;
      var j :| 0 <= j < |rss| && rss[j] == r;
    }
    SubsetOfSameSize(Keys(ds, DeploymentAsOwner), Keys(rss, ReplicaSetOwner));
  }

  function SumCounts(pods: seq<Pod>, ks: seq<OwnerKey>): nat {
    if ks == [] then 0 else |OwnedPods(pods, ks[0])| + SumCounts(pods, ks[1..])
  }

  ghost predicate NoRepeats(ks: seq<OwnerKey>) {
    forall i, j | 0 <= i < j < |ks| :: ks[i] != ks[j]
  }

  lemma {:induction false} SumCountsStep(pods: seq<Pod>, p: Pod, ks: seq<OwnerKey>)
    requires NoRepeats(ks)
    ensures SumCounts(pods + [p], ks) == SumCounts(pods, ks) + if PodOwner(p) in ks then 1 else 0
  {
    if ks != [] {
      SumCountsStep(pods, p, ks[1..]);
      assert (pods + [p])[..|pods|] == pods;
      assert ks == [ks[0]] + ks[1..];
    }
  }

  /** Counting owner by owner counts each Pod once at most, and all of them only if every Pod has its owner there. */
  lemma {:induction false} CountedOnce(pods: seq<Pod>, ks: seq<OwnerKey>)
    requires NoRepeats(ks)
    ensures SumCounts(pods, ks) <= |pods|
    ensures SumCounts(pods, ks) == |pods| ==> forall p | p in pods :: PodOwner(p) in ks
    decreases |pods|
  {
    if pods == [] {
      NothingToCount(ks);
    } else {
      var n := |pods| - 1;
      CountedOnce(pods[..n], ks);
      SumCountsStep(pods[..n], pods[n], ks);
      assert pods == pods[..n] + [pods[n]];
    }
  }

  lemma {:induction false} NothingToCount(ks: seq<OwnerKey>)
    ensures SumCounts([], ks) == 0
  {
    if ks != [] { NothingToCount(ks[1..]); }
  }

  /** The ReplicaSet owned through a key, if there is one. */
  function FindOwned(rss: seq<ReplicaSet>, k: OwnerKey): (r: Option<ReplicaSet>)
    ensures r.Some? ==> r.value in rss && ReplicaSetOwner(r.value) == k
    ensures r.None? ==> forall s | s in rss :: ReplicaSetOwner(s) != k
  {
    if rss == [] then None else
    var last := rss[|rss| - 1];
    assert rss == rss[..|rss| - 1] + [last];
    if ReplicaSetOwner(last) == k then Some(last) else FindOwned(rss[..|rss| - 1], k)
  }

  lemma FoundIsTheOne(rss: seq<ReplicaSet>, r: ReplicaSet)
    requires Distinct(rss, ReplicaSetOwner) && r in rss
    ensures FindOwned(rss, ReplicaSetOwner(r)) == Some(r)
  {
    var found := FindOwned(rss, ReplicaSetOwner(r)).value;
    var i :| 0 <= i < |rss| && rss[i] == r;
    var j :| 0 <= j < |rss| && rss[j] == found;
  }

  /** For each Deployment, the owner key of its ReplicaSet. */
  function OwnersFor(ds: seq<Deployment>, rss: seq<ReplicaSet>): (ks: seq<OwnerKey>)
    requires forall d | d in ds :: FindOwned(rss, DeploymentAsOwner(d)).Some?
    ensures |ks| == |ds|
    ensures forall i | 0 <= i < |ds| :: ks[i] == ReplicaSetAsOwner(FindOwned(rss, DeploymentAsOwner(ds[i])).value)
  {
    if ds == [] then [] else
    [ReplicaSetAsOwner(FindOwned(rss, DeploymentAsOwner(ds[0])).value)] + OwnersFor(ds[1..], rss)
  }

  /** An identity with the number of Pods it asks for. */
  datatype Demand = Demand(key: Key, replicas: int)

  function DemandKey(d: Demand): Key { d.key }

  function Demands(ds: seq<Deployment>): (r: seq<Demand>)
    ensures |r| == |ds| && forall i | 0 <= i < |ds| :: r[i] == Demand(DeploymentKey(ds[i]), ds[i].replicas)
  {
    if ds == [] then [] else [Demand(DeploymentKey(ds[0]), ds[0].replicas)] + Demands(ds[1..])
  }

  function Total(ms: seq<Demand>): int {
    if ms == [] then 0 else ms[0].replicas + Total(ms[1..])
  }

  function CountKey(ms: seq<Demand>, k: Key): nat {
    if ms == [] then 0 else (if ms[0].key == k then 1 else 0) + CountKey(ms[1..], k)
  }

  lemma {:induction false} CountKeyOnce(ms: seq<Demand>, k: Key)
    requires Distinct(ms, DemandKey)
    ensures CountKey(ms, k) == if exists m :: m in ms && DemandKey(m) == k then 1 else 0
  {
    if ms != [] {
      CountKeyOnce(ms[1..], k);
      assert ms == [ms[0]] + ms[1..];
    }
  }

  const COREDNS := Key("kube-system", "coredns")

  lemma ExpectedCounts(k: Key)
    requires k in EXPECTED
    ensures EXPECTED[k] == if k == COREDNS then 2 else 1
  {
  }

  predicate AsExpected(m: Demand) {
    m.key in EXPECTED && EXPECTED[m.key] == m.replicas
  }

  lemma {:induction false} TotalIs(ms: seq<Demand>)
    requires forall m | m in ms :: AsExpected(m)
    ensures Total(ms) == |ms| + CountKey(ms, COREDNS)
  {
    if ms != [] {
      assert ms[0] in ms;
      ExpectedCounts(ms[0].key);
      hide EXPECTED;
      TotalIs(ms[1..]);
    }
  }

  lemma CorednsExpected()
    ensures COREDNS in EXPECTED
  {
  }

  /** The expected inventory asks for one Pod each, and one more for coredns. */
  lemma InventoryTotal(ms: seq<Demand>)
    requires Distinct(ms, DemandKey) && forall m | m in ms :: AsExpected(m)
    requires exists m :: m in ms && DemandKey(m) == COREDNS
    ensures Total(ms) == |ms| + 1
  {
    hide EXPECTED;
    TotalIs(ms);
    CountKeyOnce(ms, COREDNS);
  }

  lemma DeploymentsTotal(ds: seq<Deployment>)
    requires |ds| == 12 && Distinct(ds, DeploymentKey) && Inventory(ds)
    ensures Total(Demands(ds)) == 13
  {
    CorednsExpected();
    hide EXPECTED;
    var d :| d in ds && DeploymentKey(d) == COREDNS;
    var i :| 0 <= i < |ds| && ds[i] == d;
    assert DemandKey(Demands(ds)[i]) == COREDNS;
    forall m | m in Demands(ds) ensures AsExpected(m) {
      var j :| 0 <= j < |ds| && Demands(ds)[j] == m;
      assert ds[j] in ds;
    }
    InventoryTotal(Demands(ds));
  }

  lemma {:induction false} CountsAreReplicas(ds: seq<Deployment>, rss: seq<ReplicaSet>, pods: seq<Pod>)
    requires forall d | d in ds :: FindOwned(rss, DeploymentAsOwner(d)).Some?
    requires forall d | d in ds ::
      |OwnedPods(pods, ReplicaSetAsOwner(FindOwned(rss, DeploymentAsOwner(d)).value))| == d.replicas
    ensures SumCounts(pods, OwnersFor(ds, rss)) == Total(Demands(ds))
  {
    if ds != [] {
      assert ds[0] in ds;
      CountsAreReplicas(ds[1..], rss, pods);
      assert OwnersFor(ds, rss)[1..] == OwnersFor(ds[1..], rss);
      assert Demands(ds)[1..] == Demands(ds[1..]);
    }
  }

  lemma OwnersForDistinct(ds: seq<Deployment>, rss: seq<ReplicaSet>)
    requires Distinct(ds, DeploymentKey)
    requires Distinct(rss, ReplicaSetKey)
    requires forall d | d in ds :: FindOwned(rss, DeploymentAsOwner(d)).Some?
    ensures NoRepeats(OwnersFor(ds, rss))
  {
    var ks := OwnersFor(ds, rss);
    forall i, j | 0 <= i < j < |ks| ensures ks[i] != ks[j] {
      var a, b := FindOwned(rss, DeploymentAsOwner(ds[i])).value, FindOwned(rss, DeploymentAsOwner(ds[j])).value;
      assert ReplicaSetOwner(a) == DeploymentAsOwner(ds[i]) && ReplicaSetOwner(b) == DeploymentAsOwner(ds[j]);
      var m :| 0 <= m < |rss| && rss[m] == a;
      var n :| 0 <= n < |rss| && rss[n] == b;
    }
  }

  /** The Deployment's ReplicaSet is the one found through its key, and it satisfies the join. */
  lemma FoundOwns(ds: seq<Deployment>, rss: seq<ReplicaSet>, pods: seq<Pod>, d: Deployment)
    requires Distinct(rss, ReplicaSetOwner) && d in ds
    requires forall d | d in ds :: exists r :: r in rss && Owns(d, r, pods)
    ensures var found := FindOwned(rss, DeploymentAsOwner(d)); found.Some? && Owns(d, found.value, pods)
  {
    var r :| r in rss && Owns(d, r, pods);
    FoundIsTheOne(rss, r);
  }

  /** Exact replica counts that add up to the number of Pods leave no Pod without one. */
  lemma NoOrphanPod(ds: seq<Deployment>, rss: seq<ReplicaSet>, pods: seq<Pod>)
    requires Accepts(ds, rss, pods)
    ensures forall d | d in ds :: FindOwned(rss, DeploymentAsOwner(d)).Some?
    ensures forall p | p in pods :: PodOwner(p) in OwnersFor(ds, rss)
  {
    hide EXPECTED, DeploymentOk, ReplicaSetOk, PodOk, Inventory, OwnedPods;
    forall d | d in ds
      ensures FindOwned(rss, DeploymentAsOwner(d)).Some?
      ensures |OwnedPods(pods, ReplicaSetAsOwner(FindOwned(rss, DeploymentAsOwner(d)).value))| == d.replicas
    {
      FoundOwns(ds, rss, pods, d);
    }
    CountsAreReplicas(ds, rss, pods);
    DeploymentsTotal(ds);
    OwnersForDistinct(ds, rss);
    CountedOnce(pods, OwnersFor(ds, rss));
  }

  /** Accepted records form a partition: Deployments and ReplicaSets correspond one to one, and every Pod lies
      under exactly one of them, with the exact replica count and template. */
  lemma OwnershipIsAPartition(ds: seq<Deployment>, rss: seq<ReplicaSet>, pods: seq<Pod>)
    requires Accepts(ds, rss, pods)
    ensures forall r | r in rss :: exists d :: d in ds && Owns(d, r, pods)
    ensures forall d, r, s | d in ds && r in rss && s in rss && Owns(d, r, pods) && Owns(d, s, pods) :: r == s
    ensures forall c, d, r | c in ds && d in ds && r in rss && Owns(c, r, pods) && Owns(d, r, pods) :: c == d
    ensures forall p | p in pods :: exists d, r ::
      d in ds && r in rss && Owns(d, r, pods) && PodOwner(p) == ReplicaSetAsOwner(r) && p.hash == r.hash
    ensures forall p, r, s | p in pods && r in rss && s in rss
              && PodOwner(p) == ReplicaSetAsOwner(r) && PodOwner(p) == ReplicaSetAsOwner(s) :: r == s
  {
    hide *;
    AdmissibleIs(ds, rss, pods);
    forall r | r in rss ensures exists d :: d in ds && Owns(d, r, pods) {
      OwnerOfReplicaSet(ds, rss, pods, r);
    }
    forall d, r, s | d in ds && r in rss && s in rss && Owns(d, r, pods) && Owns(d, s, pods) ensures r == s {
      OwnsIs(d, r, pods);
      OwnsIs(d, s, pods);
      FoundIsTheOne(rss, r);
      FoundIsTheOne(rss, s);
    }
    forall c, d, r | c in ds && d in ds && r in rss && Owns(c, r, pods) && Owns(d, r, pods) ensures c == d {
      OwnsIs(c, r, pods);
      OwnsIs(d, r, pods);
      SameKey(ds, c, d);
    }
    forall p | p in pods ensures exists d, r ::
      d in ds && r in rss && Owns(d, r, pods) && PodOwner(p) == ReplicaSetAsOwner(r) && p.hash == r.hash
    {
      OwnerOfPod(ds, rss, pods, p);
    }
    forall p, r, s | p in pods && r in rss && s in rss
      && PodOwner(p) == ReplicaSetAsOwner(r) && PodOwner(p) == ReplicaSetAsOwner(s) ensures r == s
    {
      SameReplicaSet(rss, r, s);
    }
  }

  lemma AdmissibleIs(ds: seq<Deployment>, rss: seq<ReplicaSet>, pods: seq<Pod>)
    requires Accepts(ds, rss, pods)
    ensures |ds| == |rss| && Distinct(ds, DeploymentKey) && Distinct(rss, ReplicaSetKey) && Distinct(rss, ReplicaSetOwner)
    ensures forall d | d in ds :: exists r :: r in rss && Owns(d, r, pods)
  {
  }

  lemma OwnsIs(d: Deployment, r: ReplicaSet, pods: seq<Pod>)
    requires Owns(d, r, pods)
    ensures ReplicaSetOwner(r) == DeploymentAsOwner(d)
    ensures forall p | p in pods && PodOwner(p) == ReplicaSetAsOwner(r) :: p.hash == r.hash
  {
  }

  lemma OwnerOfReplicaSet(ds: seq<Deployment>, rss: seq<ReplicaSet>, pods: seq<Pod>, r: ReplicaSet)
    requires Accepts(ds, rss, pods) && r in rss
    ensures exists d :: d in ds && Owns(d, r, pods)
  {
    AdmissibleIs(ds, rss, pods);
    hide Accepts, Admissible, Owns, FindOwned;
    forall d | d in ds ensures exists r :: r in rss && ReplicaSetOwner(r) == DeploymentAsOwner(d) {
      var r :| r in rss && Owns(d, r, pods);
      OwnsIs(d, r, pods);
    }
    NoOrphanReplicaSet(ds, rss);
    var j :| 0 <= j < |rss| && rss[j] == r;
    assert ReplicaSetOwner(r) in Keys(rss, ReplicaSetOwner);
    var i :| 0 <= i < |ds| && DeploymentAsOwner(ds[i]) == ReplicaSetOwner(r);
    FoundOwns(ds, rss, pods, ds[i]);
    FoundIsTheOne(rss, r);
  }

  lemma OwnerOfPod(ds: seq<Deployment>, rss: seq<ReplicaSet>, pods: seq<Pod>, p: Pod)
    requires Accepts(ds, rss, pods) && p in pods
    ensures exists d, r ::
      d in ds && r in rss && Owns(d, r, pods) && PodOwner(p) == ReplicaSetAsOwner(r) && p.hash == r.hash
  {
    AdmissibleIs(ds, rss, pods);
    NoOrphanPod(ds, rss, pods);
    hide *;
    var i :| 0 <= i < |ds| && OwnersFor(ds, rss)[i] == PodOwner(p);
    FoundOwns(ds, rss, pods, ds[i]);
    var r := FindOwned(rss, DeploymentAsOwner(ds[i])).value;
    OwnsIs(ds[i], r, pods);
    assert ds[i] in ds && r in rss && Owns(ds[i], r, pods);
  }

  lemma SameKey(ds: seq<Deployment>, c: Deployment, d: Deployment)
    requires Distinct(ds, DeploymentKey) && c in ds && d in ds && DeploymentAsOwner(c) == DeploymentAsOwner(d)
    ensures c == d
  {
    var i :| 0 <= i < |ds| && ds[i] == c;
    var j :| 0 <= j < |ds| && ds[j] == d;
  }

  lemma SameReplicaSet(rss: seq<ReplicaSet>, r: ReplicaSet, s: ReplicaSet)
    requires Distinct(rss, ReplicaSetKey) && r in rss && s in rss && ReplicaSetAsOwner(r) == ReplicaSetAsOwner(s)
    ensures r == s
  {
    var i :| 0 <= i < |rss| && rss[i] == r;
    var j :| 0 <= j < |rss| && rss[j] == s;
  }
}
