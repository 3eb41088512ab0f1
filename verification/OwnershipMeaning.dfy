/** What an accepted cluster is, field by field, and one cluster that is accepted. */
module OwnershipMeaning {
  import opened Basics
  import opened Digits
  import opened Sorting
  import opened Ownership

  // ---------- Acceptance, field by field ----------

  ghost function OwnedPlaces(pods: seq<Pod>, k: OwnerKey): set<int> {
    set i | 0 <= i < |pods| && PodOwner(pods[i]) == k
  }

  lemma PlacesStep(pods: seq<Pod>, k: OwnerKey)
    requires pods != []
    ensures OwnedPlaces(pods, k)
         == OwnedPlaces(pods[..|pods| - 1], k) + if PodOwner(pods[|pods| - 1]) == k then {|pods| - 1} else {}
    ensures |pods| - 1 !in OwnedPlaces(pods[..|pods| - 1], k)
  {
    hide PodOwner;
  }

  lemma {:induction false} OwnedAre(pods: seq<Pod>, k: OwnerKey)
    ensures |OwnedPods(pods, k)| == |OwnedPlaces(pods, k)|
  {
    if pods == [] {
      assert OwnedPlaces(pods, k) == {};
    } else {
      OwnedAre(pods[..|pods| - 1], k);
      PlacesStep(pods, k);
      hide OwnedPlaces, PodOwner;
    }
  }

  lemma PartsOk(ds: seq<Deployment>, rss: seq<ReplicaSet>, pods: seq<Pod>)
    requires Accepts(ds, rss, pods)
    ensures forall d | d in ds :: DeploymentOk(d) && DeploymentKey(d) in EXPECTED && EXPECTED[DeploymentKey(d)] == d.replicas
    ensures forall r | r in rss :: ReplicaSetOk(r)
    ensures forall p | p in pods :: PodOk(p)
  {
    hide DeploymentOk, ReplicaSetOk, PodOk, OwnedPods, UidsDistinct, EXPECTED, Distinct, Owns;
  }

  lemma ExpectedMeans(k: Key)
    requires k in EXPECTED
    ensures EXPECTED[k] == if k.namespace == "kube-system" && k.name == "coredns" then 2 else 1
    ensures
      || (k.namespace in {"kil-v3-baseline", "kil-v3-local-reduce", "kil-v3-signed"} && k.name in {"authz", "envoy", "target"})
      || (k.namespace == "kube-system" && k.name in {"coredns", "calico-kube-controllers"})
      || (k.namespace == "local-path-storage" && k.name == "local-path-provisioner")
  {
    ExpectedCounts(k);
    assert k == Key(k.namespace, k.name);
  }

  /** Every Deployment is one of the twelve expected, at its first revision, with its one replica, or two for coredns. */
  lemma DeploymentsMean(ds: seq<Deployment>, rss: seq<ReplicaSet>, pods: seq<Pod>, d: Deployment)
    requires Accepts(ds, rss, pods) && d in ds
    ensures d.meta.apiVersion == "apps/v1" && d.meta.kind == "Deployment" && d.revision == "1"
    ensures d.replicas == if d.meta.namespace == "kube-system" && d.meta.name == "coredns" then 2 else 1
    ensures
      || (d.meta.namespace in {"kil-v3-baseline", "kil-v3-local-reduce", "kil-v3-signed"} && d.meta.name in {"authz", "envoy", "target"})
      || (d.meta.namespace == "kube-system" && d.meta.name in {"coredns", "calico-kube-controllers"})
      || (d.meta.namespace == "local-path-storage" && d.meta.name == "local-path-provisioner")
  {
    PartsOk(ds, rss, pods);
    ExpectedMeans(DeploymentKey(d));
    hide Accepts, EXPECTED, IsName, IsUid, IsUint64;
  }

  /** Every ReplicaSet is of the first revision and controlled by the Deployment of its namespace that its name extends
      by its template hash, and owns as many Pods as that asks for. */
  lemma ReplicaSetsMean(ds: seq<Deployment>, rss: seq<ReplicaSet>, pods: seq<Pod>, r: ReplicaSet)
    requires Accepts(ds, rss, pods) && r in rss
    ensures r.meta.apiVersion == "apps/v1" && r.meta.kind == "ReplicaSet" && r.revision == "1" && |r.hash| == 10
    ensures exists d :: (
      && d in ds && r.meta.namespace == d.meta.namespace && r.meta.name == d.meta.name + "-" + r.hash
      && r.owner == Owner("apps/v1", "Deployment", d.meta.name, d.meta.uid, true, true)
      && d.replicas == |OwnedPlaces(pods, OwnerKey(r.meta.namespace, r.meta.name, r.meta.uid))|)
  {
    PartsOk(ds, rss, pods);
    ReplicaSetFields(r);
    OwnershipIsAPartition(ds, rss, pods);
    OwnedAre(pods, ReplicaSetAsOwner(r));
    hide Accepts, OwnedPods, ReplicaSetOk, OwnedPlaces;
    var d :| d in ds && Owns(d, r, pods);
    assert ReplicaSetOwner(r) == DeploymentAsOwner(d);
  }

  lemma ReplicaSetFields(r: ReplicaSet)
    requires ReplicaSetOk(r)
    ensures r.meta.apiVersion == "apps/v1" && r.meta.kind == "ReplicaSet" && r.revision == "1" && |r.hash| == 10
    ensures r.owner == Owner("apps/v1", "Deployment", r.owner.name, r.owner.uid, true, true)
    ensures r.meta.name == r.owner.name + "-" + r.hash
  {
    hide IsName, IsUid, IsUint64, AllAlphanumeric;
  }

  /** Every Pod is controlled by the ReplicaSet of its namespace that its name extends by five characters, and is of its
      template. */
  lemma PodsMean(ds: seq<Deployment>, rss: seq<ReplicaSet>, pods: seq<Pod>, p: Pod)
    requires Accepts(ds, rss, pods) && p in pods
    ensures p.meta.apiVersion == "v1" && p.meta.kind == "Pod"
    ensures exists r :: (
      && r in rss && p.meta.namespace == r.meta.namespace && p.hash == r.hash
      && p.owner == Owner("apps/v1", "ReplicaSet", r.meta.name, r.meta.uid, true, true)
      && |p.meta.name| == |r.meta.name| + 6 && StartsWith(p.meta.name, r.meta.name + "-"))
  {
    PartsOk(ds, rss, pods);
    PodFields(p);
    OwnershipIsAPartition(ds, rss, pods);
    hide Accepts, OwnedPods, Owns, PodOk, StartsWith;
    var d, r :| d in ds && r in rss && Owns(d, r, pods) && PodOwner(p) == ReplicaSetAsOwner(r) && p.hash == r.hash;
  }

  lemma PodFields(p: Pod)
    requires PodOk(p)
    ensures p.meta.apiVersion == "v1" && p.meta.kind == "Pod"
    ensures p.owner == Owner("apps/v1", "ReplicaSet", p.owner.name, p.owner.uid, true, true)
    ensures |p.meta.name| == |p.owner.name| + 6 && StartsWith(p.meta.name, p.owner.name + "-")
  {
    hide IsName, IsUid, IsUint64, AllAlphanumeric, StartsWith;
  }

  // ---------- One cluster ----------

  const NAMESPACES := [
    "kube-system", "kube-system", "local-path-storage", "kil-v3-baseline", "kil-v3-baseline", "kil-v3-baseline",
    "kil-v3-local-reduce", "kil-v3-local-reduce", "kil-v3-local-reduce", "kil-v3-signed", "kil-v3-signed", "kil-v3-signed"]
  const NAMES := [
    "coredns", "calico-kube-controllers", "local-path-provisioner", "authz", "envoy", "target",
    "authz", "envoy", "target", "authz", "envoy", "target"]

  lemma TwelveNames()
    ensures |NAMESPACES| == |NAMES| == 12
  {
  }

  function Uid(n: nat): string {
    "u" + NatText(n)
  }

  function ExampleDeployment(i: nat): Deployment
    requires i < 12
  {
    TwelveNames();
    Deployment(Meta("apps/v1", "Deployment", NAMESPACES[i], NAMES[i], Uid(i), "7"), "1", if i == 0 then 2 else 1)
  }

  function SetName(i: nat): string
    requires i < 12
  {
    TwelveNames();
    NAMES[i] + "-" + "0123456789"
  }

  function ExampleSet(i: nat): ReplicaSet
    requires i < 12
  {
    TwelveNames();
    ReplicaSet(Meta("apps/v1", "ReplicaSet", NAMESPACES[i], SetName(i), Uid(12 + i), "8"), "1", "0123456789",
               Owner("apps/v1", "Deployment", NAMES[i], Uid(i), true, true))
  }

  /** The last Pod is the second of the first Deployment. */
  function ExamplePod(j: nat): Pod
    requires j < 13
  {
    TwelveNames();
    var i := if j == 12 then 0 else j;
    Pod(Meta("v1", "Pod", NAMESPACES[i], SetName(i) + "-" + (if j == 12 then "bbbbb" else "aaaaa"), Uid(24 + j), "9"), "0123456789",
        Owner("apps/v1", "ReplicaSet", SetName(i), Uid(12 + i), true, true))
  }

  function ExampleDeployments(): (r: seq<Deployment>)
    ensures |r| == 12 && forall i | 0 <= i < 12 :: r[i] == ExampleDeployment(i)
  {
    seq(12, i requires 0 <= i < 12 => ExampleDeployment(i))
  }

  function ExampleSets(): (r: seq<ReplicaSet>)
    ensures |r| == 12 && forall i | 0 <= i < 12 :: r[i] == ExampleSet(i)
  {
    seq(12, i requires 0 <= i < 12 => ExampleSet(i))
  }

  function ExamplePods(): (r: seq<Pod>)
    ensures |r| == 13 && forall j | 0 <= j < 13 :: r[j] == ExamplePod(j)
  {
    seq(13, j requires 0 <= j < 13 => ExamplePod(j))
  }

  lemma NameOk(s: string, t: string)
    requires IsName(s) && AllAlphanumeric(t) && t != "" && |s| + |t| < 63
    ensures IsName(s + "-" + t)
  {
    var n := s + "-" + t;
    assert n[0] == s[0] && n[|n| - 1] == t[|t| - 1];
    forall k | 0 <= k < |n| ensures IsAlphanumeric(n[k]) || n[k] == '-' {
      if k > |s| {
        assert n[k] == t[k - |s| - 1];
      }
    }
  }

  lemma LiteralNames1()
    ensures IsName("coredns") && IsName("calico-kube-controllers") && IsName("local-path-provisioner")
    ensures IsName("authz") && IsName("envoy") && IsName("target")
  {
  }

  lemma LiteralNames2()
    ensures IsName("kube-system") && IsName("local-path-storage") && IsName("kil-v3-baseline")
    ensures IsName("kil-v3-local-reduce") && IsName("kil-v3-signed")
  {
  }

  lemma LiteralParts()
    ensures AllAlphanumeric("0123456789") && AllAlphanumeric("aaaaa") && AllAlphanumeric("bbbbb") && IsHash("0123456789")
    ensures IsUint64("7") && IsUint64("8") && IsUint64("9")
  {
    assert NatValue("") == 0;
    assert "7"[..0] == "" && "8"[..0] == "" && "9"[..0] == "";
  }

  lemma NamesOk(i: nat)
    requires i < 12
    ensures |NAMESPACES| == |NAMES| == 12 && IsName(NAMESPACES[i]) && IsName(NAMES[i]) && |NAMES[i]| <= 23
    ensures IsName(SetName(i)) && |SetName(i)| <= 34
  {
    LiteralNames1();
    LiteralNames2();
    LiteralParts();
    hide IsName, AllAlphanumeric;
    NameOk(NAMES[i], "0123456789");
  }

  lemma UidOk(n: nat)
    requires n < 100
    ensures IsUid(Uid(n))
  {
    assert Pow10(2) == 100 by { assert Pow10(1) == 10; }
    NatTextLength(n, 2);
    AsciiLength(Uid(n));
  }

  lemma {:induction false} AsciiLength(s: string)
    ensures Utf8Length(s) <= 4 * |s|
  {
    if s != "" {
      AsciiLength(s[1..]);
    }
  }

  lemma UidsDiffer(m: nat, n: nat)
    requires Uid(m) == Uid(n)
    ensures m == n
  {
    assert Uid(m)[1..] == NatText(m) && Uid(n)[1..] == NatText(n);
    NatTextInjective(m, n);
  }

  lemma DeploymentIsOk(i: nat)
    requires i < 12
    ensures DeploymentOk(ExampleDeployment(i))
  {
    LiteralParts();
    NamesOk(i);
    UidOk(i);
    hide IsName, IsUid, IsUint64, NAMES, NAMESPACES, Uid;
  }

  lemma SetIsOk(i: nat)
    requires i < 12
    ensures ReplicaSetOk(ExampleSet(i))
  {
    LiteralParts();
    NamesOk(i);
    UidOk(i);
    UidOk(12 + i);
    hide IsName, IsUid, IsUint64, IsHash, NAMES, NAMESPACES, Uid;
  }

  lemma PodIsOk(j: nat)
    requires j < 13
    ensures PodOk(ExamplePod(j))
  {
    var k := if j == 12 then 0 else j;
    LiteralParts();
    NamesOk(k);
    UidOk(12 + k);
    UidOk(24 + j);
    hide IsName, IsUid, IsUint64, AllAlphanumeric, IsHash, NAMES, NAMESPACES, Uid, SetName, HasPodSuffix;
    NameOk(SetName(k), if j == 12 then "bbbbb" else "aaaaa");
    PodNameOk(SetName(k), if j == 12 then "bbbbb" else "aaaaa");
  }

  lemma PodNameOk(s: string, t: string)
    requires |t| == 5 && AllAlphanumeric(t)
    ensures HasPodSuffix(s + "-" + t, s + "-")
  {
    hide AllAlphanumeric;
    assert (s + "-" + t)[..|s| + 1] == s + "-" && (s + "-" + t)[|s| + 1..] == t;
  }

  /** Which Deployment a key is of. */
  function Place(k: Key): nat {
    if k.namespace == "kube-system" then (if k.name == "coredns" then 0 else 1)
    else if k.namespace == "local-path-storage" then 2
    else
      (if k.namespace == "kil-v3-baseline" then 3 else if k.namespace == "kil-v3-local-reduce" then 6 else 9)
      + if k.name == "authz" then 0 else if k.name == "envoy" then 1 else 2
  }

  lemma PlaceOf(i: nat)
    requires i < 12
    ensures |NAMESPACES| == |NAMES| == 12 && Place(Key(NAMESPACES[i], NAMES[i])) == i
  {
  }

  lemma StockOf(i: nat)
    requires i < 12
    ensures |NAMESPACES| == |NAMES| == 12
    ensures Key(NAMESPACES[i], NAMES[i]) in EXPECTED && EXPECTED[Key(NAMESPACES[i], NAMES[i])] == if i == 0 then 2 else 1
  {
  }

  lemma AllStocked(k: Key)
    requires k in EXPECTED
    ensures |NAMESPACES| == |NAMES| == 12 && Place(k) < 12 && k == Key(NAMESPACES[Place(k)], NAMES[Place(k)])
  {
  }

  lemma ExampleKeysDiffer()
    ensures Distinct(ExampleDeployments(), DeploymentKey) && Inventory(ExampleDeployments())
  {
    hide EXPECTED, NAMES, NAMESPACES, Place, Uid;
    var ds := ExampleDeployments();
    forall i, j | 0 <= i < j < 12 ensures DeploymentKey(ds[i]) != DeploymentKey(ds[j]) {
      PlaceOf(i);
      PlaceOf(j);
    }
    forall d | d in ds ensures DeploymentKey(d) in EXPECTED && EXPECTED[DeploymentKey(d)] == d.replicas {
      var i :| 0 <= i < 12 && ds[i] == d;
      StockOf(i);
    }
    forall k | k in EXPECTED ensures exists d :: d in ds && DeploymentKey(d) == k {
      AllStocked(k);
      assert DeploymentKey(ds[Place(k)]) == k;
    }
  }

  lemma ExampleUidsDiffer()
    ensures UidsDistinct(ExampleDeployments(), ExampleSets(), ExamplePods())
  {
    hide Uid;
    var ds, rss, pods := ExampleDeployments(), ExampleSets(), ExamplePods();
    forall m, n | Uid(m) == Uid(n) ensures m == n {
      UidsDiffer(m, n);
    }
    forall d | d in ds ensures exists n: nat :: n < 12 && d.meta.uid == Uid(n) {
      var i :| 0 <= i < 12 && ds[i] == d;
    }
    forall r | r in rss ensures exists n: nat :: 12 <= n < 24 && r.meta.uid == Uid(n) {
      var i :| 0 <= i < 12 && rss[i] == r;
    }
    forall p | p in pods ensures exists n: nat :: 24 <= n && p.meta.uid == Uid(n) {
      var j :| 0 <= j < 13 && pods[j] == p;
    }
  }

  lemma ExampleSetsDiffer()
    ensures Distinct(ExampleSets(), ReplicaSetKey) && Distinct(ExampleSets(), ReplicaSetOwner)
    ensures Distinct(ExamplePods(), PodKey)
  {
    hide NAMES, NAMESPACES, Place, Uid;
    TwelveNames();
    var rss, pods := ExampleSets(), ExamplePods();
    forall i, j | 0 <= i < j < 12
      ensures ReplicaSetKey(rss[i]) != ReplicaSetKey(rss[j]) && ReplicaSetOwner(rss[i]) != ReplicaSetOwner(rss[j])
    {
      PlaceOf(i);
      PlaceOf(j);
      SameStem(NAMES[i], NAMES[j], "-0123456789");
      assert SetName(i) == NAMES[i] + "-0123456789" && SetName(j) == NAMES[j] + "-0123456789";
    }
    forall i, j | 0 <= i < j < 13 ensures PodKey(pods[i]) != PodKey(pods[j]) {
      PodsDiffer(i, j);
    }
  }

  lemma SameStem(a: string, b: string, tail: string)
    ensures a + tail == b + tail ==> a == b
  {
    assert (a + tail)[..|a + tail| - |tail|] == a && (b + tail)[..|b + tail| - |tail|] == b;
  }

  lemma PodsDiffer(i: nat, j: nat)
    requires i < j < 13
    ensures PodKey(ExamplePod(i)) != PodKey(ExamplePod(j))
  {
    hide NAMES, NAMESPACES, Place, Uid;
    TwelveNames();
    var k := if j == 12 then 0 else j;
    var a, b := SetName(i), SetName(k);
    if i == k {
      var x, y := a + "-" + "aaaaa", b + "-" + "bbbbb";
      assert x[|a| + 1] == 'a' && y[|a| + 1] == 'b';
    } else {
      PlaceOf(i);
      PlaceOf(k);
      SameStem(NAMES[i], NAMES[k], "-0123456789");
      assert a == NAMES[i] + "-0123456789" && b == NAMES[k] + "-0123456789";
      var s, t := "-aaaaa", if j == 12 then "-bbbbb" else "-aaaaa";
      assert a + "-" + "aaaaa" == a + s && (b + "-" + (if j == 12 then "bbbbb" else "aaaaa")) == b + t;
      SameLengthEnds(a, s, b, t);
    }
  }

  lemma SameLengthEnds(a: string, s: string, b: string, t: string)
    requires |s| == |t|
    ensures a + s == b + t ==> a == b
  {
    if a + s == b + t {
      assert |a| == |b|;
      assert (a + s)[..|a|] == a && (b + t)[..|b|] == b;
    }
  }

  lemma OwnerOf(j: nat, i: nat)
    requires j < 13 && i < 12
    ensures PodOwner(ExamplePod(j)) == ReplicaSetAsOwner(ExampleSet(i)) <==> i == if j == 12 then 0 else j
  {
    hide NAMES, NAMESPACES, Uid, SetName;
    TwelveNames();
    var k := if j == 12 then 0 else j;
    if Uid(12 + k) == Uid(12 + i) {
      UidsDiffer(12 + k, 12 + i);
    }
  }

  lemma OwnedStep(pods: seq<Pod>, p: Pod, k: OwnerKey)
    ensures |OwnedPods(pods + [p], k)| == |OwnedPods(pods, k)| + if PodOwner(p) == k then 1 else 0
  {
    hide PodOwner;
    assert (pods + [p])[..|pods|] == pods;
  }

  lemma {:induction false} OwnedSoFar(n: nat, i: nat)
    requires n <= 13 && i < 12
    ensures |OwnedPods(ExamplePods()[..n], ReplicaSetAsOwner(ExampleSet(i)))|
         == (if i < n then 1 else 0) + (if i == 0 && n == 13 then 1 else 0)
  {
    hide *;
    if n == 0 {
      NoneYet(ReplicaSetAsOwner(ExampleSet(i)));
    } else {
      OwnedSoFar(n - 1, i);
      OwnerOf(n - 1, i);
      OneMorePod(n);
      OwnedStep(ExamplePods()[..n - 1], ExamplePod(n - 1), ReplicaSetAsOwner(ExampleSet(i)));
    }
  }

  lemma NoneYet(k: OwnerKey)
    ensures OwnedPods(ExamplePods()[..0], k) == []
  {
    hide ExamplePod;
    assert ExamplePods()[..0] == [];
  }

  lemma OneMorePod(n: nat)
    requires 0 < n <= 13
    ensures ExamplePods()[..n] == ExamplePods()[..n - 1] + [ExamplePod(n - 1)]
  {
    hide ExamplePod;
  }

  lemma ExampleOwns(i: nat)
    requires i < 12
    ensures Owns(ExampleDeployment(i), ExampleSet(i), ExamplePods())
  {
    OwnedSoFar(13, i);
    var pods := ExamplePods();
    assert pods[..13] == pods;
    TwelveNames();
    hide NAMES, NAMESPACES, Uid, SetName;
    forall p | p in OwnedPods(pods, ReplicaSetAsOwner(ExampleSet(i))) ensures p.hash == ExampleSet(i).hash {
      assert p in pods;
      var j :| 0 <= j < 13 && pods[j] == p;
    }
  }

  /** A cluster of the twelve Deployments, each with its ReplicaSet and Pods, is accepted. */
  lemma ExampleIsAccepted()
    ensures Accepts(ExampleDeployments(), ExampleSets(), ExamplePods())
  {
    var ds, rss, pods := ExampleDeployments(), ExampleSets(), ExamplePods();
    ExampleKeysDiffer();
    ExampleUidsDiffer();
    ExampleSetsDiffer();
    hide DeploymentOk, ReplicaSetOk, PodOk, Inventory, Distinct, UidsDistinct, ExampleDeployment, ExampleSet, ExamplePod, Owns;
    forall d | d in ds ensures DeploymentOk(d) && exists r :: r in rss && Owns(d, r, pods) {
      var i :| 0 <= i < 12 && ds[i] == d;
      DeploymentIsOk(i);
      ExampleOwns(i);
      assert rss[i] in rss;
    }
    forall r | r in rss ensures ReplicaSetOk(r) {
      var i :| 0 <= i < 12 && rss[i] == r;
      SetIsOk(i);
    }
    forall p | p in pods ensures PodOk(p) {
      var j :| 0 <= j < 13 && pods[j] == p;
      PodIsOk(j);
    }
  }
}
