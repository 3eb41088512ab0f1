/** The validator that joins the three record lists, and its indifference to their order. */
module OwnershipJoin {
  import opened Basics
  import opened Digits
  import opened Sorting
  import opened Ownership
  import opened OwnershipProof

  // ---------- The validator ----------

  lemma AppendOne<T>(xs: seq<T>, i: nat)
    requires i < |xs|
    ensures xs[..i + 1] == xs[..i] + [xs[i]] && xs[..i + 1][..i] == xs[..i]
  {
  }

  lemma DistinctAppend<T, K>(xs: seq<T>, i: nat, key: T -> K)
    requires i < |xs|
    ensures Distinct(xs[..i + 1], key) <==> Distinct(xs[..i], key) && forall j | 0 <= j < i :: key(xs[j]) != key(xs[i])
  {
    var a, b := xs[..i], xs[..i + 1];
    assert forall j | 0 <= j < i :: a[j] == xs[j] && b[j] == xs[j];
    assert b[i] == xs[i];
    if Distinct(b, key) {
      forall j, k | 0 <= j < k < |a| ensures key(a[j]) != key(a[k]) {
        assert key(b[j]) != key(b[k]);
      }
    }
  }

  lemma DistinctPrefix<T, K>(xs: seq<T>, i: nat, key: T -> K)
    requires i <= |xs| && Distinct(xs, key)
    ensures Distinct(xs[..i], key)
  {
  }

  method IndexDeployments(ds: seq<Deployment>) returns (ok: bool, uids: seq<string>)
    ensures ok <==> (forall d | d in ds :: DeploymentOk(d)) && Distinct(ds, DeploymentKey) && Inventory(ds)
    ensures ok ==> UidsOf(uids, ds, DeploymentUid)
  {
    hide DeploymentOk, EXPECTED;
    var byKey: map<Key, Deployment>;
    byKey, uids := map[], [];
    for i := 0 to |ds|
      invariant forall j | 0 <= j < i :: DeploymentOk(ds[j])
      invariant Distinct(ds[..i], DeploymentKey)
      invariant |uids| == i && forall j | 0 <= j < i :: uids[j] == ds[j].meta.uid
      invariant forall j | 0 <= j < i :: DeploymentKey(ds[j]) in byKey && byKey[DeploymentKey(ds[j])] == ds[j]
      invariant forall k | k in byKey :: exists j :: 0 <= j < i && DeploymentKey(ds[j]) == k
    {
      var d := ds[i];
      DistinctAppend(ds, i, DeploymentKey);
      if !DeploymentOk(d) || DeploymentKey(d) in byKey {
        assert d in ds;
        if Distinct(ds, DeploymentKey) { DistinctPrefix(ds, i + 1, DeploymentKey); }
        return false, uids;
      }
      byKey, uids := byKey[DeploymentKey(d) := d], uids + [d.meta.uid];
      assert DeploymentKey(ds[i]) == DeploymentKey(d);
    }
    assert ds[..|ds|] == ds;
    var stock := map k | k in byKey :: byKey[k].replicas;
    ok := stock == EXPECTED;
    StockedExactly(ds, byKey, stock);
  }

  lemma StockedExactly(ds: seq<Deployment>, byKey: map<Key, Deployment>, stock: map<Key, int>)
    requires forall j | 0 <= j < |ds| :: DeploymentKey(ds[j]) in byKey && byKey[DeploymentKey(ds[j])] == ds[j]
    requires forall k | k in byKey :: exists j :: 0 <= j < |ds| && DeploymentKey(ds[j]) == k
    requires stock.Keys == byKey.Keys && forall k | k in stock :: stock[k] == byKey[k].replicas
    ensures stock == EXPECTED <==> Inventory(ds)
  {
    hide EXPECTED;
    if stock == EXPECTED {
      forall d | d in ds ensures DeploymentKey(d) in EXPECTED && EXPECTED[DeploymentKey(d)] == d.replicas {
        var j :| 0 <= j < |ds| && ds[j] == d;
      }
      forall k | k in EXPECTED ensures exists d :: d in ds && DeploymentKey(d) == k {
        var j :| 0 <= j < |ds| && DeploymentKey(ds[j]) == k;
        assert ds[j] in ds;
      }
    }
    if Inventory(ds) {
      forall k | k in stock ensures k in EXPECTED && EXPECTED[k] == stock[k] {
        var j :| 0 <= j < |ds| && DeploymentKey(ds[j]) == k;
        assert ds[j] in ds;
      }
      forall k | k in EXPECTED ensures k in stock {
        var d :| d in ds && DeploymentKey(d) == k;
      }
    }
  }

  ghost predicate UidsOf<T>(uids: seq<string>, xs: seq<T>, uid: T -> string) {
    |uids| == |xs| && forall i | 0 <= i < |xs| :: uids[i] == uid(xs[i])
  }

  lemma UidsStep<T>(uids: seq<string>, xs: seq<T>, i: nat, uid: T -> string)
    requires i < |xs| && UidsOf(uids, xs[..i], uid)
    ensures UidsOf(uids + [uid(xs[i])], xs[..i + 1], uid)
  {
  }

  /** The identities seen in a list, and whether one more repeats them. */
  ghost predicate Seen<T(!new)>(keys: set<Key>, xs: seq<T>, key: T -> Key) {
    keys == Keys(xs, key)
  }

  lemma SeenStep<T(!new)>(keys: set<Key>, xs: seq<T>, i: nat, key: T -> Key)
    requires i < |xs| && Seen(keys, xs[..i], key) && Distinct(xs[..i], key)
    ensures Seen(keys + {key(xs[i])}, xs[..i + 1], key)
    ensures key(xs[i]) !in keys <==> Distinct(xs[..i + 1], key)
    ensures Distinct(xs, key) ==> Distinct(xs[..i + 1], key)
  {
    AppendOne(xs, i);
    KeysAppend(xs[..i], xs[i], key);
    DistinctAppend(xs, i, key);
    assert forall j | 0 <= j < i :: xs[..i][j] == xs[j];
    assert key(xs[i]) in keys <==> exists j :: 0 <= j < i && key(xs[..i][j]) == key(xs[i]);
  }

  ghost predicate Indexed(byOwner: map<OwnerKey, ReplicaSet>, rss: seq<ReplicaSet>) {
    && (forall k :: k in byOwner <==> FindOwned(rss, k).Some?)
    && (forall k | k in byOwner :: FindOwned(rss, k) == Some(byOwner[k]))
  }

  lemma IndexedStep(byOwner: map<OwnerKey, ReplicaSet>, rss: seq<ReplicaSet>, i: nat)
    requires i < |rss| && Indexed(byOwner, rss[..i]) && Distinct(rss[..i], ReplicaSetOwner)
    ensures Indexed(byOwner[ReplicaSetOwner(rss[i]) := rss[i]], rss[..i + 1])
    ensures ReplicaSetOwner(rss[i]) !in byOwner <==> Distinct(rss[..i + 1], ReplicaSetOwner)
    ensures Distinct(rss, ReplicaSetOwner) ==> Distinct(rss[..i + 1], ReplicaSetOwner)
  {
    var s, before := rss[i], rss[..i];
    AppendOne(rss, i);
    DistinctAppend(rss, i, ReplicaSetOwner);
    if Distinct(rss, ReplicaSetOwner) {
      DistinctPrefix(rss, i + 1, ReplicaSetOwner);
    }
    forall k ensures FindOwned(rss[..i + 1], k) == if ReplicaSetOwner(s) == k then Some(s) else FindOwned(before, k) {
      FoundStep(before, s, k);
    }
    FoundBefore(rss, i, ReplicaSetOwner(s));
    hide Distinct, FindOwned;
  }

  lemma FoundStep(before: seq<ReplicaSet>, s: ReplicaSet, k: OwnerKey)
    ensures FindOwned(before + [s], k) == if ReplicaSetOwner(s) == k then Some(s) else FindOwned(before, k)
  {
    assert (before + [s])[..|before|] == before;
  }

  lemma FoundBefore(rss: seq<ReplicaSet>, i: nat, k: OwnerKey)
    requires i <= |rss|
    ensures FindOwned(rss[..i], k).Some? <==> exists j :: 0 <= j < i && ReplicaSetOwner(rss[j]) == k
  {
    var before := rss[..i];
    hide ReplicaSetOwner;
    forall j | 0 <= j < i ensures before[j] == rss[j] && before[j] in before {
    }
    if FindOwned(before, k).Some? {
      var found := FindOwned(before, k).value;
      var j :| 0 <= j < i && before[j] == found;
    }
  }

  method IndexReplicaSets(rss: seq<ReplicaSet>) returns (r: Option<map<OwnerKey, ReplicaSet>>, uids: seq<string>)
    ensures r.Some? <==> (forall s | s in rss :: ReplicaSetOk(s)) && Distinct(rss, ReplicaSetKey) && Distinct(rss, ReplicaSetOwner)
    ensures r.Some? ==> UidsOf(uids, rss, ReplicaSetUid) && Indexed(r.value, rss)
  {
    hide ReplicaSetOk, Distinct, Seen, Indexed, FindOwned, UidsOf;
    var byOwner: map<OwnerKey, ReplicaSet> := map[];
    var identities: set<Key> := {};
    uids := [];
    EmptyReplicaSets();
    for i := 0 to |rss|
      invariant forall j | 0 <= j < i :: ReplicaSetOk(rss[j])
      invariant Distinct(rss[..i], ReplicaSetKey) && Distinct(rss[..i], ReplicaSetOwner)
      invariant UidsOf(uids, rss[..i], ReplicaSetUid) && Seen(identities, rss[..i], ReplicaSetKey)
      invariant Indexed(byOwner, rss[..i])
    {
      var s := rss[i];
      SeenStep(identities, rss, i, ReplicaSetKey);
      IndexedStep(byOwner, rss, i);
      UidsStep(uids, rss, i, ReplicaSetUid);
      if !ReplicaSetOk(s) || ReplicaSetKey(s) in identities || ReplicaSetOwner(s) in byOwner {
        assert s in rss;
        return None, uids;
      }
      identities := identities + {ReplicaSetKey(s)};
      byOwner := byOwner[ReplicaSetOwner(s) := s];
      uids := uids + [ReplicaSetUid(s)];
    }
    assert rss[..|rss|] == rss;
    r := Some(byOwner);
  }

  lemma EmptyReplicaSets()
    ensures forall rss: seq<ReplicaSet> {:trigger rss[..0]} ::
      && Distinct(rss[..0], ReplicaSetKey) && Distinct(rss[..0], ReplicaSetOwner) && UidsOf([], rss[..0], ReplicaSetUid)
      && Seen({}, rss[..0], ReplicaSetKey) && Indexed(map[], rss[..0])
  {
    forall rss: seq<ReplicaSet> ensures rss[..0] == [] {}
    assert forall k :: FindOwned([], k).None?;
  }

  ghost predicate Grouped(groups: map<OwnerKey, seq<Pod>>, pods: seq<Pod>) {
    && (forall k :: k in groups <==> OwnedPods(pods, k) != [])
    && (forall k | k in groups :: groups[k] == OwnedPods(pods, k))
  }

  lemma GroupedStep(groups: map<OwnerKey, seq<Pod>>, pods: seq<Pod>, i: nat)
    requires i < |pods| && Grouped(groups, pods[..i])
    ensures var k, p := PodOwner(pods[i]), pods[i];
      Grouped(groups[k := (if k in groups then groups[k] else []) + [p]], pods[..i + 1])
  {
    AppendOne(pods, i);
  }

  method GroupPods(pods: seq<Pod>) returns (r: Option<map<OwnerKey, seq<Pod>>>, uids: seq<string>)
    ensures r.Some? <==> (forall p | p in pods :: PodOk(p)) && Distinct(pods, PodKey)
    ensures r.Some? ==> UidsOf(uids, pods, PodUid) && Grouped(r.value, pods)
  {
    hide PodOk, Distinct, Seen, Grouped, OwnedPods, UidsOf;
    var groups: map<OwnerKey, seq<Pod>> := map[];
    var identities: set<Key> := {};
    uids := [];
    EmptyPods();
    for i := 0 to |pods|
      invariant forall j | 0 <= j < i :: PodOk(pods[j])
      invariant Distinct(pods[..i], PodKey)
      invariant UidsOf(uids, pods[..i], PodUid) && Seen(identities, pods[..i], PodKey)
      invariant Grouped(groups, pods[..i])
    {
      var p := pods[i];
      SeenStep(identities, pods, i, PodKey);
      GroupedStep(groups, pods, i);
      UidsStep(uids, pods, i, PodUid);
      if !PodOk(p) || PodKey(p) in identities {
        assert p in pods;
        return None, uids;
      }
      identities := identities + {PodKey(p)};
      groups := groups[PodOwner(p) := (if PodOwner(p) in groups then groups[PodOwner(p)] else []) + [p]];
      uids := uids + [PodUid(p)];
    }
    assert pods[..|pods|] == pods;
    r := Some(groups);
  }

  lemma EmptyPods()
    ensures forall pods: seq<Pod> {:trigger pods[..0]} ::
      Distinct(pods[..0], PodKey) && UidsOf([], pods[..0], PodUid) && Seen({}, pods[..0], PodKey) && Grouped(map[], pods[..0])
  {
    forall pods: seq<Pod> ensures pods[..0] == [] {}
    assert forall k :: OwnedPods([], k) == [];
  }

  // ---------- The join ----------

  lemma NoDupSplits(a: seq<string>, b: seq<string>)
    ensures NoDup(a + b) <==> NoDup(a) && NoDup(b) && forall x | x in a :: x !in b
  {
    if NoDup(a + b) {
      forall i, j | 0 <= i < j < |a| ensures a[i] != a[j] { assert (a + b)[i] != (a + b)[j]; }
      forall i, j | 0 <= i < j < |b| ensures b[i] != b[j] { assert (a + b)[|a| + i] != (a + b)[|a| + j]; }
      forall x | x in a ensures x !in b {
        var i :| 0 <= i < |a| && a[i] == x;
        forall j | 0 <= j < |b| ensures b[j] != x { assert (a + b)[i] != (a + b)[|a| + j]; }
      }
    }
    if NoDup(a) && NoDup(b) && forall x | x in a :: x !in b {
      forall i, j | 0 <= i < j < |a + b| ensures (a + b)[i] != (a + b)[j] {
        if i < |a| <= j { assert a[i] in a && b[j - |a|] in b; }
      }
    }
  }

  lemma NoDupIsDistinct<T>(uids: seq<string>, xs: seq<T>, uid: T -> string)
    requires UidsOf(uids, xs, uid)
    ensures NoDup(uids) <==> Distinct(xs, uid)
    ensures forall x :: x in uids <==> exists y :: y in xs && uid(y) == x
  {
    if NoDup(uids) {
      forall i, j | 0 <= i < j < |xs| ensures uid(xs[i]) != uid(xs[j]) { assert uids[i] != uids[j]; }
    }
    if Distinct(xs, uid) {
      forall i, j | 0 <= i < j < |uids| ensures uids[i] != uids[j] { assert uid(xs[i]) != uid(xs[j]); }
    }
    forall x ensures x in uids <==> exists y :: y in xs && uid(y) == x {
      if x in uids {
        var i :| 0 <= i < |uids| && uids[i] == x;
        assert xs[i] in xs && uid(xs[i]) == x;
      }
      if exists y :: y in xs && uid(y) == x {
        var y :| y in xs && uid(y) == x;
        var i :| 0 <= i < |xs| && xs[i] == y;
        assert uids[i] == x;
      }
    }
  }

  /** One list without repetition, over the three families together. */
  lemma UidsAreDistinct(a: seq<string>, b: seq<string>, c: seq<string>, ds: seq<Deployment>, rss: seq<ReplicaSet>, pods: seq<Pod>)
    requires UidsOf(a, ds, DeploymentUid) && UidsOf(b, rss, ReplicaSetUid) && UidsOf(c, pods, PodUid)
    ensures NoDup((a + b) + c) <==> UidsDistinct(ds, rss, pods)
  {
    NoDupIsDistinct(a, ds, DeploymentUid);
    NoDupIsDistinct(b, rss, ReplicaSetUid);
    NoDupIsDistinct(c, pods, PodUid);
    NoDupSplits(a + b, c);
    NoDupSplits(a, b);
    hide NoDup, Distinct, UidsOf;
    if NoDup((a + b) + c) {
      forall d, r | d in ds && r in rss ensures d.meta.uid != r.meta.uid {
        assert DeploymentUid(d) in a && ReplicaSetUid(r) in b;
      }
      forall d, p | d in ds && p in pods ensures d.meta.uid != p.meta.uid {
        assert DeploymentUid(d) in a + b && PodUid(p) in c;
      }
      forall r, p | r in rss && p in pods ensures r.meta.uid != p.meta.uid {
        assert ReplicaSetUid(r) in a + b && PodUid(p) in c;
      }
    }
  }

  /** What the join has established for the first Deployments. */
  ghost predicate JoinedSo(ds: seq<Deployment>, rss: seq<ReplicaSet>, pods: seq<Pod>, i: nat, bindings: seq<Binding>)
    requires i <= |ds|
  {
    && |bindings| == i
    && forall j | 0 <= j < i ::
         && FindOwned(rss, DeploymentAsOwner(ds[j])).Some?
         && Owns(ds[j], FindOwned(rss, DeploymentAsOwner(ds[j])).value, pods)
         && bindings[j] == BindingFor(ds[j], rss, pods)
  }

  lemma JoinedAll(ds: seq<Deployment>, rss: seq<ReplicaSet>, pods: seq<Pod>, bindings: seq<Binding>)
    requires Admissible(ds, rss, pods) && JoinedSo(ds, rss, pods, |ds|, bindings)
    ensures Accepts(ds, rss, pods) && AllFound(ds, rss) && bindings == Bindings(ds, rss, pods)
  {
    hide Admissible, Owns, FindOwned, BindingFor;
    forall d | d in ds ensures exists r :: r in rss && Owns(d, r, pods) {
      var i :| 0 <= i < |ds| && ds[i] == d;
      assert Owns(d, FindOwned(rss, DeploymentAsOwner(ds[i])).value, pods);
    }
  }

  lemma JoinFails(ds: seq<Deployment>, rss: seq<ReplicaSet>, pods: seq<Pod>, d: Deployment)
    requires d in ds
    requires var found := FindOwned(rss, DeploymentAsOwner(d)); found.None? || !Owns(d, found.value, pods)
    ensures !Accepts(ds, rss, pods)
  {
    hide FindOwned, Owns;
    if Accepts(ds, rss, pods) {
      AdmissibleIs(ds, rss, pods);
      FoundOwns(ds, rss, pods, d);
    }
  }

  /** The owners that some Pod names are those of the joined ReplicaSets, no more and no fewer. */
  lemma NoOrphanGroup(ds: seq<Deployment>, rss: seq<ReplicaSet>, pods: seq<Pod>, groups: map<OwnerKey, seq<Pod>>, k: OwnerKey)
    requires Accepts(ds, rss, pods) && Grouped(groups, pods)
    requires forall d | d in ds :: FindOwned(rss, DeploymentAsOwner(d)).Some?
    ensures k in groups <==> k in OwnersFor(ds, rss)
  {
    NoOrphanPod(ds, rss, pods);
    if k in groups {
      assert OwnedPods(pods, k)[0] in OwnedPods(pods, k);
    }
    hide OwnedPods, FindOwned;
    AdmissibleIs(ds, rss, pods);
    if k in OwnersFor(ds, rss) {
      var i :| 0 <= i < |ds| && OwnersFor(ds, rss)[i] == k;
      FoundOwns(ds, rss, pods, ds[i]);
      AtLeastOne(ds, rss, pods, ds[i]);
    }
  }

  lemma AtLeastOne(ds: seq<Deployment>, rss: seq<ReplicaSet>, pods: seq<Pod>, d: Deployment)
    requires Accepts(ds, rss, pods) && d in ds
    ensures d.replicas > 0
  {
    assert DeploymentOk(d);
  }

  lemma ConsumedAll(ds: seq<Deployment>, rss: seq<ReplicaSet>, pods: seq<Pod>,
                    byOwner: map<OwnerKey, ReplicaSet>, groups: map<OwnerKey, seq<Pod>>)
    requires Accepts(ds, rss, pods) && AllFound(ds, rss) && Indexed(byOwner, rss) && Grouped(groups, pods)
    ensures byOwner.Keys == Keys(ds, DeploymentAsOwner)
    ensures forall d | d in ds :: FindOwned(rss, DeploymentAsOwner(d)).Some?
    ensures groups.Keys == (set k | k in OwnersFor(ds, rss))
  {
    hide *;
    AdmissibleIs(ds, rss, pods);
    forall d | d in ds
      ensures FindOwned(rss, DeploymentAsOwner(d)).Some? && exists r :: r in rss && ReplicaSetOwner(r) == DeploymentAsOwner(d)
    {
      FoundOwns(ds, rss, pods, d);
    }
    NoOrphanReplicaSet(ds, rss);
    IndexedKeys(byOwner, rss);
    forall k ensures k in groups <==> k in OwnersFor(ds, rss) {
      NoOrphanGroup(ds, rss, pods, groups, k);
    }
  }

  lemma IndexedKeys(byOwner: map<OwnerKey, ReplicaSet>, rss: seq<ReplicaSet>)
    requires Indexed(byOwner, rss)
    ensures byOwner.Keys == Keys(rss, ReplicaSetOwner)
  {
    forall k ensures k in byOwner <==> k in Keys(rss, ReplicaSetOwner) {
      if k in byOwner {
        var r := FindOwned(rss, k).value;
        var j :| 0 <= j < |rss| && rss[j] == r;
      }
      if k in Keys(rss, ReplicaSetOwner) {
        var j :| 0 <= j < |rss| && ReplicaSetOwner(rss[j]) == k;
        assert rss[j] in rss;
      }
    }
  }

  /** `_validate_deployment_ownership`: the closed join of the three record lists. */
  method Validate(ds: seq<Deployment>, rss: seq<ReplicaSet>, pods: seq<Pod>, namespaces: seq<string>) returns (r: Option<Proof>)
    ensures r.Some? <==> namespaces == APPLICATION_NAMESPACES && Accepts(ds, rss, pods)
    ensures r.Some? ==> AllFound(ds, rss) && r.value == Proof(APPLICATION_NAMESPACES, SortedBindings(ds, rss, pods), false)
  {
    hide *;
    RefusedBy(ds, rss, pods);
    if namespaces != APPLICATION_NAMESPACES || |ds| != 12 || |rss| != 12 || |pods| != 13 {
      return None;
    }
    var known, deploymentUids := IndexDeployments(ds);
    if !known {
      return None;
    }
    var byOwner, replicaSetUids := IndexReplicaSets(rss);
    if byOwner.None? {
      return None;
    }
    var groups, podUids := GroupPods(pods);
    if groups.None? {
      return None;
    }
    UidsAreDistinct(deploymentUids, replicaSetUids, podUids, ds, rss, pods);
    if !NoDup((deploymentUids + replicaSetUids) + podUids) {
      return None;
    }
    var bindings := Join(ds, rss, pods, byOwner.value, groups.value);
    if bindings.None? {
      return None;
    }
    ProofIsOk(ds, rss, pods);
    var proof := Proof(namespaces, SortBy(bindings.value, BindingKey), false);
    SortedBindingsIs(ds, rss, pods);
    if !ProofOk(proof) {
      return None;
    }
    return Some(proof);
  }

  lemma SortedBindingsIs(ds: seq<Deployment>, rss: seq<ReplicaSet>, pods: seq<Pod>)
    requires AllFound(ds, rss)
    ensures SortedBindings(ds, rss, pods) == SortBy(Bindings(ds, rss, pods), BindingKey)
  {
  }

  /** Whatever fails one of the separate checks is not accepted, and what passes them all is admissible. */
  lemma RefusedBy(ds: seq<Deployment>, rss: seq<ReplicaSet>, pods: seq<Pod>)
    ensures Accepts(ds, rss, pods) ==> Admissible(ds, rss, pods)
    ensures Admissible(ds, rss, pods) <==>
      && |ds| == 12 && |rss| == 12 && |pods| == 13
      && ((forall d | d in ds :: DeploymentOk(d)) && Distinct(ds, DeploymentKey) && Inventory(ds))
      && ((forall s | s in rss :: ReplicaSetOk(s)) && Distinct(rss, ReplicaSetKey) && Distinct(rss, ReplicaSetOwner))
      && ((forall p | p in pods :: PodOk(p)) && Distinct(pods, PodKey))
      && UidsDistinct(ds, rss, pods)
  {
    hide DeploymentOk, ReplicaSetOk, PodOk, Distinct, Inventory, UidsDistinct;
  }

  /** The join, with its checks that nothing is left over. */
  method Join(ds: seq<Deployment>, rss: seq<ReplicaSet>, pods: seq<Pod>,
              byOwner: map<OwnerKey, ReplicaSet>, groups: map<OwnerKey, seq<Pod>>) returns (r: Option<seq<Binding>>)
    requires Admissible(ds, rss, pods) && Indexed(byOwner, rss) && Grouped(groups, pods)
    ensures r.Some? <==> Accepts(ds, rss, pods)
    ensures r.Some? ==> AllFound(ds, rss) && r.value == Bindings(ds, rss, pods)
  {
    hide *;
    var bindings: seq<Binding> := [];
    var consumedReplicaSets: set<OwnerKey>, consumedPods: set<OwnerKey> := {}, {};
    ghost var owners: seq<OwnerKey> := [];
    NothingJoined(ds, rss, pods);
    for i := 0 to |ds|
      invariant JoinedSo(ds, rss, pods, i, bindings)
      invariant consumedReplicaSets == Keys(ds[..i], DeploymentAsOwner)
      invariant consumedPods == (set k | k in owners) && OwnersSo(ds, rss, i, owners)
    {
      var d := ds[i];
      LookUp(rss, pods, byOwner, groups, d);
      if DeploymentAsOwner(d) !in byOwner {
        JoinFails(ds, rss, pods, d);
        return None;
      }
      var replicaSet := byOwner[DeploymentAsOwner(d)];
      var owner := ReplicaSetAsOwner(replicaSet);
      var owned := if owner in groups then groups[owner] else [];
      if |owned| != d.replicas || exists p | p in owned :: p.hash != replicaSet.hash {
        JoinFails(ds, rss, pods, d);
        return None;
      }
      BindIsOk(ds, rss, pods, d, replicaSet);
      BindParts(d, replicaSet, pods);
      var binding := Binding(
        d.meta.namespace, d.meta.name, d.meta.uid, d.meta.version, d.revision, d.replicas,
        replicaSet.meta.name, replicaSet.meta.uid, replicaSet.meta.version, replicaSet.hash, SortedProofs(owned));
      assert binding == Bind(d, replicaSet, pods);
      if !BindingOk(binding) {
        return None;
      }
      AppendOne(ds, i);
      KeysAppend(ds[..i], d, DeploymentAsOwner);
      JoinedStep(ds, rss, pods, i, bindings, owners);
      consumedReplicaSets := consumedReplicaSets + {DeploymentAsOwner(d)};
      consumedPods := consumedPods + {owner};
      owners := owners + [owner];
      bindings := bindings + [binding];
    }
    assert ds[..|ds|] == ds;
    JoinedAll(ds, rss, pods, bindings);
    ConsumedAll(ds, rss, pods, byOwner, groups);
    OwnersAre(ds, rss, owners);
    if consumedReplicaSets != byOwner.Keys {
      return None;
    }
    if consumedPods != groups.Keys {
      return None;
    }
    return Some(bindings);
  }

  ghost predicate OwnersSo(ds: seq<Deployment>, rss: seq<ReplicaSet>, i: nat, owners: seq<OwnerKey>)
    requires i <= |ds|
  {
    && |owners| == i
    && forall j | 0 <= j < i :: FindOwned(rss, DeploymentAsOwner(ds[j])).Some?
                                && owners[j] == ReplicaSetAsOwner(FindOwned(rss, DeploymentAsOwner(ds[j])).value)
  }

  lemma OwnersAre(ds: seq<Deployment>, rss: seq<ReplicaSet>, owners: seq<OwnerKey>)
    requires OwnersSo(ds, rss, |ds|, owners)
    requires forall d | d in ds :: FindOwned(rss, DeploymentAsOwner(d)).Some?
    ensures owners == OwnersFor(ds, rss)
  {
  }

  lemma NothingJoined(ds: seq<Deployment>, rss: seq<ReplicaSet>, pods: seq<Pod>)
    ensures JoinedSo(ds, rss, pods, 0, []) && Keys(ds[..0], DeploymentAsOwner) == {} && OwnersSo(ds, rss, 0, [])
  {
  }

  /** What the two indexes answer for a Deployment is what the join asks about. */
  lemma LookUp(rss: seq<ReplicaSet>, pods: seq<Pod>, byOwner: map<OwnerKey, ReplicaSet>, groups: map<OwnerKey, seq<Pod>>, d: Deployment)
    requires Indexed(byOwner, rss) && Grouped(groups, pods)
    ensures var k := DeploymentAsOwner(d);
      && (k in byOwner <==> FindOwned(rss, k).Some?)
      && (k in byOwner ==>
            var r := byOwner[k];
            var owner := ReplicaSetAsOwner(r);
            var owned := if owner in groups then groups[owner] else [];
            && r in rss && FindOwned(rss, k) == Some(r) && owned == OwnedPods(pods, owner)
            && (Owns(d, r, pods) <==> |owned| == d.replicas && !exists p | p in owned :: p.hash != r.hash))
  {
    hide FindOwned, OwnedPods;
    var k := DeploymentAsOwner(d);
    if k in byOwner {
      FoundIsOwned(rss, k);
    }
  }

  lemma FoundIsOwned(rss: seq<ReplicaSet>, k: OwnerKey)
    requires FindOwned(rss, k).Some?
    ensures FindOwned(rss, k).value in rss && ReplicaSetOwner(FindOwned(rss, k).value) == k
  {
  }

  lemma JoinedStep(ds: seq<Deployment>, rss: seq<ReplicaSet>, pods: seq<Pod>, i: nat, bindings: seq<Binding>, owners: seq<OwnerKey>)
    requires i < |ds| && JoinedSo(ds, rss, pods, i, bindings) && OwnersSo(ds, rss, i, owners)
    requires FindOwned(rss, DeploymentAsOwner(ds[i])).Some?
    requires Owns(ds[i], FindOwned(rss, DeploymentAsOwner(ds[i])).value, pods)
    ensures var r := FindOwned(rss, DeploymentAsOwner(ds[i])).value;
      && JoinedSo(ds, rss, pods, i + 1, bindings + [Bind(ds[i], r, pods)])
      && OwnersSo(ds, rss, i + 1, owners + [ReplicaSetAsOwner(r)])
  {
    hide FindOwned, Owns, Bind, ReplicaSetAsOwner;
  }

  // ---------- The order of the three lists does not matter ----------

  lemma {:induction false} OwnedCount(pods: seq<Pod>, k: OwnerKey, p: Pod)
    ensures multiset(OwnedPods(pods, k))[p] == if PodOwner(p) == k then multiset(pods)[p] else 0
  {
    if pods != [] {
      var n := |pods| - 1;
      OwnedCount(pods[..n], k, p);
      assert pods == pods[..n] + [pods[n]];
    }
  }

  lemma OwnedPermutation(xs: seq<Pod>, ys: seq<Pod>, k: OwnerKey)
    requires multiset(xs) == multiset(ys)
    ensures multiset(OwnedPods(xs, k)) == multiset(OwnedPods(ys, k)) && |OwnedPods(xs, k)| == |OwnedPods(ys, k)|
  {
    forall p ensures multiset(OwnedPods(xs, k))[p] == multiset(OwnedPods(ys, k))[p] {
      OwnedCount(xs, k, p);
      OwnedCount(ys, k, p);
    }
    assert multiset(OwnedPods(xs, k)) == multiset(OwnedPods(ys, k));
    assert |multiset(OwnedPods(xs, k))| == |OwnedPods(xs, k)| && |multiset(OwnedPods(ys, k))| == |OwnedPods(ys, k)|;
  }

  lemma BindPermutation(d: Deployment, r: ReplicaSet, xs: seq<Pod>, ys: seq<Pod>)
    requires multiset(xs) == multiset(ys) && Distinct(xs, PodUid)
    ensures Bind(d, r, xs) == Bind(d, r, ys)
  {
    var k := ReplicaSetAsOwner(r);
    var us, vs := OwnedPods(xs, k), OwnedPods(ys, k);
    OwnedPermutation(xs, ys, k);
    OwnedPodsDistinct(xs, k);
    hide OwnedPods;
    MapPermutation(us, vs, PodProofs(us), PodProofs(vs));
    PodProofsDistinct(us);
    SortForgets(PodProofs(us), PodProofs(vs), PodProofKey);
  }

  lemma FindPermutation(xs: seq<ReplicaSet>, ys: seq<ReplicaSet>, k: OwnerKey)
    requires multiset(xs) == multiset(ys) && Distinct(xs, ReplicaSetOwner)
    ensures FindOwned(xs, k) == FindOwned(ys, k)
  {
    SameMembers(xs, ys);
    var found := FindOwned(ys, k);
    if found.Some? {
      FoundIsTheOne(xs, found.value);
    }
  }

  lemma AdmissiblePermutation(ds: seq<Deployment>, rss: seq<ReplicaSet>, pods: seq<Pod>,
                              ds': seq<Deployment>, rss': seq<ReplicaSet>, pods': seq<Pod>)
    requires multiset(ds) == multiset(ds') && multiset(rss) == multiset(rss') && multiset(pods) == multiset(pods')
    requires Admissible(ds, rss, pods)
    ensures Admissible(ds', rss', pods')
  {
    hide DeploymentOk, ReplicaSetOk, PodOk, EXPECTED;
    SameMembers(ds, ds');
    SameMembers(rss, rss');
    SameMembers(pods, pods');
    DistinctPermutation(ds, ds', DeploymentKey);
    DistinctPermutation(ds, ds', DeploymentUid);
    DistinctPermutation(rss, rss', ReplicaSetKey);
    DistinctPermutation(rss, rss', ReplicaSetOwner);
    DistinctPermutation(rss, rss', ReplicaSetUid);
    DistinctPermutation(pods, pods', PodKey);
    DistinctPermutation(pods, pods', PodUid);
    hide Distinct;
    assert Inventory(ds') by {
      forall k | k in EXPECTED ensures exists d :: d in ds' && DeploymentKey(d) == k {
        var d :| d in ds && DeploymentKey(d) == k;
        assert d in ds';
      }
    }
  }

  lemma AcceptsPermutation(ds: seq<Deployment>, rss: seq<ReplicaSet>, pods: seq<Pod>,
                           ds': seq<Deployment>, rss': seq<ReplicaSet>, pods': seq<Pod>)
    requires multiset(ds) == multiset(ds') && multiset(rss) == multiset(rss') && multiset(pods) == multiset(pods')
    requires Accepts(ds, rss, pods)
    ensures Accepts(ds', rss', pods')
  {
    AdmissiblePermutation(ds, rss, pods, ds', rss', pods');
    SameMembers(ds, ds');
    SameMembers(rss, rss');
    hide Admissible;
    forall d | d in ds' ensures exists r :: r in rss' && Owns(d, r, pods') {
      assert d in ds;
      var r :| r in rss && Owns(d, r, pods);
      OwnsPermutation(d, r, pods, pods');
    }
  }

  lemma OwnsPermutation(d: Deployment, r: ReplicaSet, xs: seq<Pod>, ys: seq<Pod>)
    requires multiset(xs) == multiset(ys) && Owns(d, r, xs)
    ensures Owns(d, r, ys)
  {
    OwnedPermutation(xs, ys, ReplicaSetAsOwner(r));
    SameMembers(OwnedPods(xs, ReplicaSetAsOwner(r)), OwnedPods(ys, ReplicaSetAsOwner(r)));
    hide OwnedPods;
  }

  /** Permuting any of the three lists changes neither acceptance nor the proof. */
  lemma OrderDoesNotMatter(ds: seq<Deployment>, rss: seq<ReplicaSet>, pods: seq<Pod>,
                           ds': seq<Deployment>, rss': seq<ReplicaSet>, pods': seq<Pod>)
    requires multiset(ds) == multiset(ds') && multiset(rss) == multiset(rss') && multiset(pods) == multiset(pods')
    ensures Accepts(ds, rss, pods) <==> Accepts(ds', rss', pods')
    ensures Accepts(ds, rss, pods) ==>
      AllFound(ds, rss) && AllFound(ds', rss') && SortedBindings(ds, rss, pods) == SortedBindings(ds', rss', pods')
  {
    hide *;
    if Accepts(ds, rss, pods) {
      AcceptsPermutation(ds, rss, pods, ds', rss', pods');
      AcceptedAreFound(ds, rss, pods);
      AcceptedAreFound(ds', rss', pods');
      AdmissibleIs(ds, rss, pods);
      PodsDistinct(ds, rss, pods);
      var us, vs := Bindings(ds, rss, pods), Bindings(ds', rss', pods');
      forall i, j | 0 <= i < |ds| && 0 <= j < |ds'| && ds[i] == ds'[j] ensures us[i] == vs[j] {
        FindPermutation(rss, rss', DeploymentAsOwner(ds[i]));
        SameBinding(ds[i], rss, rss', pods, pods');
      }
      MapPermutation(ds, ds', us, vs);
      BindingsDistinct(ds, rss, pods);
      SortForgets(us, vs, BindingKey);
      SortedBindingsIs(ds, rss, pods);
      SortedBindingsIs(ds', rss', pods');
    }
    if Accepts(ds', rss', pods') {
      AcceptsPermutation(ds', rss', pods', ds, rss, pods);
    }
  }

  lemma SameBinding(d: Deployment, rss: seq<ReplicaSet>, rss': seq<ReplicaSet>, pods: seq<Pod>, pods': seq<Pod>)
    requires FindOwned(rss, DeploymentAsOwner(d)).Some? && FindOwned(rss, DeploymentAsOwner(d)) == FindOwned(rss', DeploymentAsOwner(d))
    requires multiset(pods) == multiset(pods') && Distinct(pods, PodUid)
    ensures BindingFor(d, rss, pods) == BindingFor(d, rss', pods')
  {
    hide FindOwned, Bind;
    BindPermutation(d, FindOwned(rss, DeploymentAsOwner(d)).value, pods, pods');
  }

  lemma PodsDistinct(ds: seq<Deployment>, rss: seq<ReplicaSet>, pods: seq<Pod>)
    requires Accepts(ds, rss, pods)
    ensures Distinct(pods, PodUid)
  {
  }
}
