/** The static configuration of an API object: runtime metadata dropped, server defaults filled in. */
module ApiDefaults {
  import opened Basics
  import opened ApiRules

  /** Whether a runtime metadata value is of the form the API gives it (uid, version, generation, times, owners). */
  datatype Policy = Policy(runtimeOk: (string, Value) -> bool)

  const LAST_APPLIED := "kubectl.kubernetes.io/last-applied-configuration"
  const REVISION := "deployment.kubernetes.io/revision"

  // ---------- Roots ----------

  datatype Root = Root(apiVersion: Value, kind: Value)

  predicate Is(root: Root, apiVersion: string, kind: string) {
    root == Root(Str(apiVersion), Str(kind))
  }

  predicate IsWorkload(root: Root) {
    Is(root, "apps/v1", "Deployment") || Is(root, "apps/v1", "DaemonSet")
  }

  predicate IsNamespaced(root: Root) {
    || Is(root, "v1", "Pod") || Is(root, "v1", "Service") || Is(root, "v1", "ServiceAccount") || Is(root, "v1", "ConfigMap")
    || IsWorkload(root) || Is(root, "policy/v1", "PodDisruptionBudget") || Is(root, "networking.k8s.io/v1", "NetworkPolicy")
    || Is(root, "rbac.authorization.k8s.io/v1", "Role") || Is(root, "rbac.authorization.k8s.io/v1", "RoleBinding")
  }

  predicate IsCluster(root: Root) {
    || Is(root, "v1", "Namespace") || Is(root, "apiextensions.k8s.io/v1", "CustomResourceDefinition")
    || Is(root, "rbac.authorization.k8s.io/v1", "ClusterRole") || Is(root, "rbac.authorization.k8s.io/v1", "ClusterRoleBinding")
  }

  lemma NeverBoth(root: Root)
    ensures !(IsNamespaced(root) && IsCluster(root))
  {
  }

  /** Lists and dictionaries cannot be looked up in a set of roots. */
  predicate Hashable(v: Value) {
    !v.List? && !v.Dict?
  }

  function RootOf(d: Object): Option<Root> {
    if "apiVersion" in d && "kind" in d && Hashable(d["apiVersion"]) && Hashable(d["kind"]) then
      Some(Root(d["apiVersion"], d["kind"]))
    else None
  }

  // ---------- Tables ----------

  const PORT := [KeyRule("protocol", Default(Str("TCP")))]
  const MOUNT := [KeyRule("readOnly", OmitFalse)]
  const FIELD_REF := [KeyRule("apiVersion", Default(Str("v1")))]
  const VALUE_FROM := [KeyRule("fieldRef", WithinSome(FIELD_REF))]
  const ENV := [KeyRule("valueFrom", Within(VALUE_FROM, {}))]
  const PROBE := [
    KeyRule("timeoutSeconds", Default(Int(1))), KeyRule("periodSeconds", Default(Int(10))),
    KeyRule("successThreshold", Default(Int(1))), KeyRule("failureThreshold", Default(Int(3)))]
  const ACTIONS := {"exec", "httpGet", "tcpSocket", "grpc"}
  const CONTAINER := [
    KeyRule("terminationMessagePath", Default(Str("/dev/termination-log"))),
    KeyRule("terminationMessagePolicy", Default(Str("File"))), KeyRule("resources", Default(Dict(map[]))),
    KeyRule("tty", OmitFalse), KeyRule("ports", Each(PORT, {})), KeyRule("volumeMounts", Each(MOUNT, {})),
    KeyRule("env", Each(ENV, {})), KeyRule("livenessProbe", Within(PROBE, ACTIONS)),
    KeyRule("readinessProbe", Within(PROBE, ACTIONS)), KeyRule("startupProbe", Within(PROBE, ACTIONS))]
  const HOST_PATH := [KeyRule("type", Default(Str("")))]
  const CONFIG_MAP := [KeyRule("defaultMode", Default(Int(420)))]
  const VOLUME := [KeyRule("hostPath", Within(HOST_PATH, {})), KeyRule("configMap", Within(CONFIG_MAP, {}))]
  const VOLUME_KEYS := {"hostPath", "configMap"}

  const POD_DEFAULTS := [
    KeyRule("dnsPolicy", Default(Str("ClusterFirst"))), KeyRule("restartPolicy", Default(Str("Always"))),
    KeyRule("securityContext", Default(Dict(map[]))), KeyRule("terminationGracePeriodSeconds", Default(Int(30))),
    KeyRule("schedulerName", Default(Str("default-scheduler")))]
  const POD_LISTS := [
    KeyRule("containers", Each(CONTAINER, {})), KeyRule("initContainers", Each(CONTAINER, {})),
    KeyRule("volumes", Each(VOLUME, VOLUME_KEYS))]

  /** Only a Pod of its own, not a template, gains service links; the account follows the account name. */
  function PodTable(direct: bool, account: Option<Value>): seq<KeyRule> {
    POD_DEFAULTS + (if direct then [KeyRule("enableServiceLinks", Default(Bool(true)))] else [])
      + (if account.Some? then [KeyRule("serviceAccount", Default(account.value))] else []) + POD_LISTS
  }

  /** `_pod_spec`. */
  function PodSpec(o: Object, direct: bool): Option<Object> {
    Rewrite(o, PodTable(direct, Get(o, "serviceAccountName")))
  }

  // ---------- Metadata ----------

  const RUNTIME := {"uid", "resourceVersion", "generation", "creationTimestamp", "managedFields"}

  predicate RuntimeOk(m: Object, p: Policy) {
    && "deletionTimestamp" !in m && "deletionGracePeriodSeconds" !in m
    && forall k | k in m && k in RUNTIME :: p.runtimeOk(k, m[k])
  }

  /** Runtime annotations go; a dictionary they leave empty goes with them. */
  function Annotations(e: Option<Value>, isDeployment: bool): Option<Option<Value>> {
    if e.None? then Some(e)
    else if !e.value.Dict? then None
    else
      var a := e.value.entries;
      var hasLast, hasRevision := LAST_APPLIED in a, isDeployment && REVISION in a;
      if hasLast && !(a[LAST_APPLIED].Str? && Utf8Length(a[LAST_APPLIED].s) <= 262144) then None
      else if hasRevision && a[REVISION] != Str("1") then None
      else
        var rest := (a - {LAST_APPLIED}) - (if isDeployment then {REVISION} else {});
        if (hasLast || hasRevision) && rest == map[] then Some(None) else Some(Some(Dict(rest)))
  }

  function Namespace(e: Option<Value>, root: Root): Option<Value> {
    if e.None? && IsNamespaced(root) then Some(Str("default")) else e
  }

  /** `_metadata`. */
  function Metadata(m: Object, root: Root, p: Policy): Option<Object> {
    if !RuntimeOk(m, p) || (IsCluster(root) && "namespace" in m) then None else
    var a := Annotations(Get(m, "annotations"), Is(root, "apps/v1", "Deployment"));
    if a.None? then None else
    Some(Put(Put(m - RUNTIME, "namespace", Namespace(Get(m, "namespace"), root)), "annotations", a.value))
  }

  /** A dictionary at a key, made if absent, with one more default inside it. */
  function DefaultInside(e: Option<Value>, k: string, v: Value): Option<Value> {
    if e.None? then Some(Dict(map[k := v]))
    else if e.value.Dict? then Some(Dict(Put(e.value.entries, k, Some(if k in e.value.entries then e.value.entries[k] else v))))
    else None
  }

  const NAME_LABEL := "kubernetes.io/metadata.name"

  /** A Namespace is labelled with its own name. */
  function NamespaceLabels(m: Object): Option<Object> {
    if "name" !in m then None else
    var labels := DefaultInside(Get(m, "labels"), NAME_LABEL, m["name"]);
    if labels.None? then None else Some(Put(m, "labels", labels))
  }

  // ---------- Specifications ----------

  function TemplateMetadata(e: Option<Value>): Option<Option<Value>> {
    if e.None? then Some(e)
    else
      match e.value
      case Dict(m) => Some(Some(Dict(if Get(m, "creationTimestamp") == Some(Null) then m - {"creationTimestamp"} else m)))
      case List(_) => if Passes(e.value, {"creationTimestamp"}) then Some(e) else None
      case Str(_) => if Passes(e.value, {"creationTimestamp"}) then Some(e) else None
      case _ => None
  }

  function Template(e: Option<Value>): Option<Option<Value>> {
    if e.None? then Some(e)
    else if !e.value.Dict? then None
    else
      var t := e.value.entries;
      var m := TemplateMetadata(Get(t, "metadata"));
      if m.None? || "spec" !in t || !t["spec"].Dict? then None else
      var s := PodSpec(t["spec"].entries, false);
      if s.None? then None else Some(Some(Dict(Put(Put(t, "metadata", m.value), "spec", Some(Dict(s.value))))))
  }

  /** Python compares the number, so a true or a 1.0 counts as one. */
  predicate IsOne(e: Option<Value>) {
    e.Some? && e.value in {Int(1), Bool(true), Float(Finite(1.0))}
  }

  function UpdateStrategy(e: Option<Value>): Option<Option<Value>> {
    if e.None? then Some(e)
    else if !e.value.Dict? then None
    else
      var s := e.value.entries;
      var rolling := Get(s, "rollingUpdate");
      if Get(s, "type") == Some(Str("RollingUpdate")) && rolling.Some? && rolling.value.Dict?
         && IsOne(Get(rolling.value.entries, "maxUnavailable")) then
        var r := rolling.value.entries;
        Some(Some(Dict(Put(s, "rollingUpdate", Some(Dict(if "maxSurge" in r then r else r["maxSurge" := Int(0)]))))))
      else Some(e)
  }

  const SERVICE := [
    KeyRule("sessionAffinity", Default(Str("None"))), KeyRule("internalTrafficPolicy", Default(Str("Cluster")))]
  const CRD := [
    KeyRule("preserveUnknownFields", OmitFalse),
    KeyRule("conversion", Default(Dict(map["strategy" := Str("None")])))]
  const DEPLOYMENT := [
    KeyRule("revisionHistoryLimit", Default(Int(10))), KeyRule("progressDeadlineSeconds", Default(Int(600)))]
  const DAEMON_SET := [KeyRule("revisionHistoryLimit", Default(Int(10)))]

  function Workload(o: Object, isDeployment: bool): Option<Object> {
    var r := Rewrite(o, if isDeployment then DEPLOYMENT else DAEMON_SET);
    var u := if isDeployment then Some(Get(o, "updateStrategy")) else UpdateStrategy(Get(o, "updateStrategy"));
    var t := Template(Get(o, "template"));
    if r.None? || u.None? || t.None? then None
    else Some(Put(Put(r.value, "updateStrategy", u.value), "template", t.value))
  }

  predicate SpecMatters(root: Root) {
    || Is(root, "v1", "Service") || Is(root, "apiextensions.k8s.io/v1", "CustomResourceDefinition")
    || Is(root, "v1", "Pod") || IsWorkload(root)
  }

  function SpecObject(o: Object, root: Root): Option<Object> {
    if Is(root, "v1", "Service") then
      if Get(o, "type") == Some(Str("ClusterIP")) then Rewrite(o, SERVICE) else Some(o)
    else if Is(root, "apiextensions.k8s.io/v1", "CustomResourceDefinition") then Rewrite(o, CRD)
    else if Is(root, "v1", "Pod") then PodSpec(o, true)
    else if IsWorkload(root) then Workload(o, Is(root, "apps/v1", "Deployment"))
    else Some(o)
  }

  /** A Namespace gets its finalizer; an absent or null specification stays; most kinds leave it alone. */
  function Spec(e: Option<Value>, root: Root): Option<Option<Value>> {
    if Is(root, "v1", "Namespace") then
      var r := DefaultInside(e, "finalizers", List([Str("kubernetes")]));
      if r.None? then None else Some(r)
    else if e.None? || e.value.Null? || !SpecMatters(root) then Some(e)
    else if !e.value.Dict? then None
    else
      var r := SpecObject(e.value.entries, root);
      if r.None? then None else Some(Some(Dict(r.value)))
  }

  // ---------- The configuration ----------

  function FullMetadata(m: Object, root: Root, p: Policy): Option<Object> {
    var r := Metadata(m, root, p);
    if r.Some? && Is(root, "v1", "Namespace") then NamespaceLabels(r.value) else r
  }

  /** `configuration`. */
  function Configuration(document: Value, p: Policy): Option<Value> {
    if !document.Dict? then None else
    var d := document.entries;
    var root := RootOf(d);
    if root.None? || "metadata" !in d || !d["metadata"].Dict? then None else
    var m := FullMetadata(d["metadata"].entries, root.value, p);
    var s := Spec(Get(d, "spec"), root.value);
    if m.None? || s.None? then None
    else Some(Dict(Put(Put(d - {"status"}, "metadata", Some(Dict(m.value))), "spec", s.value)))
  }

  /** `object_key`. */
  function ObjectKey(document: Value): Option<(Root, Value, Value)> {
    if !document.Dict? then None else
    var d := document.entries;
    var root := RootOf(d);
    if root.None? || "metadata" !in d || !d["metadata"].Dict? || "name" !in d["metadata"].entries then None else
    var m := d["metadata"].entries;
    Some((root.value,
          if "namespace" in m then m["namespace"] else Str(if IsNamespaced(root.value) then "default" else ""),
          m["name"]))
  }

  /** `matches_configuration`. */
  predicate Matches(expected: Value, observed: Value, p: Policy) {
    var a, b := Configuration(expected, p), Configuration(observed, p);
    a.Some? && b.Some? && Equal(a.value, b.value)
  }

  // ---------- The tables are sound ----------

  lemma SmallTablesAreSound()
    ensures SoundTable(PORT) && SoundTable(MOUNT) && SoundTable(FIELD_REF) && SoundTable(HOST_PATH) && SoundTable(CONFIG_MAP)
  {
  }

  lemma ProbeIsSound()
    ensures SoundTable(PROBE) && forall k | k in ACTIONS :: !HasKey(PROBE, k)
  {
  }

  lemma EnvIsSound()
    ensures SoundTable(VALUE_FROM) && SoundTable(ENV)
  {
    SmallTablesAreSound();
    assert SoundTable(VALUE_FROM);
  }

  lemma VolumeIsSound()
    ensures SoundTable(VOLUME)
  {
    SmallTablesAreSound();
  }

  lemma ContainerIsSound()
    ensures SoundTable(CONTAINER)
  {
    SmallTablesAreSound();
    EnvIsSound();
    ProbeIsSound();
    hide PORT, MOUNT, ENV, PROBE, ACTIONS;
    ContainerKeys();
    forall i | 0 <= i < |CONTAINER| ensures Sound(CONTAINER[i].rule) {
    }
  }

  lemma ContainerKeys()
    ensures DistinctKeys(CONTAINER)
  {
  }

  /** Every key a Pod table may speak of, in order, and then the one it only looks at. */
  const POD_KEYS := [
    "dnsPolicy", "restartPolicy", "securityContext", "terminationGracePeriodSeconds", "schedulerName",
    "enableServiceLinks", "serviceAccount", "containers", "initContainers", "volumes", "serviceAccountName"]

  lemma PodKeysDiffer(i: nat, j: nat)
    requires i < j < 11
    ensures POD_KEYS[i] != POD_KEYS[j]
  {
  }

  /** The place of a table's `i`th key among all of them. */
  function PodKeyPlace(direct: bool, named: bool, i: nat): nat {
    if i < 5 then i else if direct && named then i else if direct then (if i == 5 then 5 else i + 1) else if named then i + 1 else i + 2
  }

  lemma PodTableKeys(direct: bool, account: Option<Value>, i: nat)
    requires i < |PodTable(direct, account)|
    ensures PodKeyPlace(direct, account.Some?, i) < 10
    ensures PodTable(direct, account)[i].key == POD_KEYS[PodKeyPlace(direct, account.Some?, i)]
  {
  }

  lemma PodKeys(direct: bool, account: Option<Value>)
    ensures DistinctKeys(PodTable(direct, account)) && !HasKey(PodTable(direct, account), "serviceAccountName")
  {
    hide POD_KEYS, PodTable;
    var t := PodTable(direct, account);
    LastPodKey();
    forall i, j | 0 <= i < j < |t| ensures t[i].key != t[j].key {
      PodTableKeys(direct, account, i);
      PodTableKeys(direct, account, j);
      PodKeysDiffer(PodKeyPlace(direct, account.Some?, i), PodKeyPlace(direct, account.Some?, j));
    }
    forall i | 0 <= i < |t| ensures t[i].key != "serviceAccountName" {
      PodTableKeys(direct, account, i);
      PodKeysDiffer(PodKeyPlace(direct, account.Some?, i), 10);
    }
  }

  lemma LastPodKey()
    ensures |POD_KEYS| == 11 && POD_KEYS[10] == "serviceAccountName"
  {
  }

  lemma PodIsSound(direct: bool, account: Option<Value>)
    ensures SoundTable(PodTable(direct, account))
  {
    ContainerIsSound();
    VolumeIsSound();
    PodKeys(direct, account);
    hide CONTAINER, VOLUME, DistinctKeys;
    var t := PodTable(direct, account);
    forall i | 0 <= i < |t| ensures Sound(t[i].rule) {
    }
  }

  lemma SpecTablesAreSound()
    ensures SoundTable(SERVICE) && SoundTable(CRD) && SoundTable(DEPLOYMENT) && SoundTable(DAEMON_SET)
  {
  }

  // ---------- Once is for good ----------

  lemma PodSpecIdempotent(o: Object, direct: bool)
    requires PodSpec(o, direct).Some?
    ensures PodSpec(PodSpec(o, direct).value, direct) == PodSpec(o, direct)
  {
    var t := PodTable(direct, Get(o, "serviceAccountName"));
    PodIsSound(direct, Get(o, "serviceAccountName"));
    PodKeys(direct, Get(o, "serviceAccountName"));
    hide PodTable, Rewrite;
    RewriteIdempotent(o, t);
    RewriteIsPointwise(o, t);
  }

  lemma MetadataFixed(m: Object, root: Root, p: Policy)
    requires RuntimeOk(m, p) && !(IsCluster(root) && "namespace" in m) && forall k | k in RUNTIME :: k !in m
    requires Annotations(Get(m, "annotations"), Is(root, "apps/v1", "Deployment")) == Some(Get(m, "annotations"))
    requires Namespace(Get(m, "namespace"), root) == Get(m, "namespace")
    ensures Metadata(m, root, p) == Some(m)
  {
    hide RuntimeOk, IsCluster, Annotations, Namespace, Is, RUNTIME;
    var r := Metadata(m, root, p).value;
    assert m - RUNTIME == m;
    forall k ensures Get(r, k) == Get(m, k) {
    }
    SameObject(r, m);
  }

  lemma AnnotationsIdempotent(e: Option<Value>, isDeployment: bool)
    requires Annotations(e, isDeployment).Some?
    ensures var r := Annotations(e, isDeployment); Annotations(r.value, isDeployment) == r
  {
    var r := Annotations(e, isDeployment).value;
    if r.Some? {
      var gone := {LAST_APPLIED} + (if isDeployment then {REVISION} else {});
      var a := r.value.entries;
      assert (a - {LAST_APPLIED}) - (if isDeployment then {REVISION} else {}) == a;
    }
  }

  /** What the metadata rewriting leaves: nothing of the runtime, a settled namespace, settled annotations. */
  lemma MetadataParts(m: Object, root: Root, p: Policy)
    requires Metadata(m, root, p).Some?
    ensures var r := Metadata(m, root, p).value;
      && "deletionTimestamp" !in r && "deletionGracePeriodSeconds" !in r && (forall k | k in RUNTIME :: k !in r)
      && Get(r, "namespace") == Namespace(Get(m, "namespace"), root)
      && Some(Get(r, "annotations")) == Annotations(Get(m, "annotations"), Is(root, "apps/v1", "Deployment"))
      && (forall k | k !in RUNTIME && k != "namespace" && k != "annotations" :: Get(r, k) == Get(m, k))
      && !(IsCluster(root) && "namespace" in m)
  {
    hide Annotations, Namespace, IsCluster, IsNamespaced, Is;
    var r := Metadata(m, root, p).value;
    RuntimeKeys();
    assert forall k | k != "namespace" && k != "annotations" :: Get(r, k) == Get(m - RUNTIME, k);
    assert Get(r, "deletionTimestamp") == None && Get(r, "deletionGracePeriodSeconds") == None;
    forall k | k in RUNTIME ensures k !in r {
      assert Get(r, k) == Get(m - RUNTIME, k);
    }
  }

  lemma RuntimeKeys()
    ensures "namespace" !in RUNTIME && "annotations" !in RUNTIME && "labels" !in RUNTIME && "name" !in RUNTIME
    ensures "deletionTimestamp" !in RUNTIME && "deletionGracePeriodSeconds" !in RUNTIME
  {
  }

  lemma Settled(m: Object, root: Root, p: Policy, r: Object)
    requires Metadata(m, root, p).Some?
    requires forall k | k != "labels" :: Get(r, k) == Get(Metadata(m, root, p).value, k)
    ensures Metadata(r, root, p) == Some(r)
  {
    MetadataParts(m, root, p);
    AnnotationsIdempotent(Get(m, "annotations"), Is(root, "apps/v1", "Deployment"));
    NeverBoth(root);
    hide Annotations, IsCluster, IsNamespaced, Is, Metadata;
    RuntimeKeys();
    assert Get(r, "deletionTimestamp") == None && Get(r, "deletionGracePeriodSeconds") == None;
    forall k | k in RUNTIME ensures k !in r {
      assert k != "labels" && Get(r, k) == Get(Metadata(m, root, p).value, k);
    }
    assert RuntimeOk(r, p);
    MetadataFixed(r, root, p);
  }

  lemma FullMetadataIdempotent(m: Object, root: Root, p: Policy)
    requires FullMetadata(m, root, p).Some?
    ensures FullMetadata(FullMetadata(m, root, p).value, root, p) == FullMetadata(m, root, p)
  {
    var r := FullMetadata(m, root, p).value;
    hide Metadata, Is;
    Settled(m, root, p, r);
    if Is(root, "v1", "Namespace") {
      LabelsIdempotent(Metadata(m, root, p).value);
    }
  }

  lemma DefaultInsideIdempotent(e: Option<Value>, k: string, v: Value)
    requires DefaultInside(e, k, v).Some?
    ensures DefaultInside(DefaultInside(e, k, v), k, v) == DefaultInside(e, k, v)
  {
    var r := DefaultInside(e, k, v).value.entries;
    SameObject(Put(r, k, Some(r[k])), r);
  }

  lemma LabelsIdempotent(m: Object)
    requires NamespaceLabels(m).Some?
    ensures NamespaceLabels(NamespaceLabels(m).value) == NamespaceLabels(m)
  {
    var r := NamespaceLabels(m).value;
    DefaultInsideIdempotent(Get(m, "labels"), NAME_LABEL, m["name"]);
    hide DefaultInside;
    assert Get(r, "name") == Get(m, "name");
    SameObject(Put(r, "labels", Get(r, "labels")), r);
  }

  lemma TemplateMetadataIdempotent(e: Option<Value>)
    requires TemplateMetadata(e).Some?
    ensures TemplateMetadata(TemplateMetadata(e).value) == TemplateMetadata(e)
  {
    hide Passes;
  }

  lemma PutBack(o: Object, k: string)
    ensures Put(o, k, Get(o, k)) == o
  {
    SameObject(Put(o, k, Get(o, k)), o);
  }

  lemma TemplateIdempotent(e: Option<Value>)
    requires Template(e).Some?
    ensures Template(Template(e).value) == Template(e)
  {
    if e.Some? {
      var t := e.value.entries;
      TemplateMetadataIdempotent(Get(t, "metadata"));
      PodSpecIdempotent(t["spec"].entries, false);
      var r := Template(e).value.value.entries;
      hide TemplateMetadata, PodSpec;
      assert Get(r, "spec") == Some(Dict(PodSpec(t["spec"].entries, false).value));
      assert Get(r, "metadata") == TemplateMetadata(Get(t, "metadata")).value;
      PutBack(r, "metadata");
      PutBack(r, "spec");
    }
  }

  lemma UpdateStrategyIdempotent(e: Option<Value>)
    requires UpdateStrategy(e).Some?
    ensures UpdateStrategy(UpdateStrategy(e).value) == UpdateStrategy(e)
  {
    var r := UpdateStrategy(e).value;
    if r != e {
      var s, u := e.value.entries, r.value.entries;
      assert Get(u, "type") == Get(s, "type");
      var rolling := u["rollingUpdate"].entries;
      assert Get(u, "rollingUpdate") == Some(Dict(rolling));
      assert Get(rolling, "maxUnavailable") == Get(s["rollingUpdate"].entries, "maxUnavailable");
      PutBack(u, "rollingUpdate");
    }
  }

  lemma WorkloadTables(isDeployment: bool)
    ensures var t := if isDeployment then DEPLOYMENT else DAEMON_SET;
      SoundTable(t) && !HasKey(t, "updateStrategy") && !HasKey(t, "template")
  {
    SpecTablesAreSound();
  }

  lemma WorkloadIdempotent(o: Object, isDeployment: bool)
    requires Workload(o, isDeployment).Some?
    ensures Workload(Workload(o, isDeployment).value, isDeployment) == Workload(o, isDeployment)
  {
    var t := if isDeployment then DEPLOYMENT else DAEMON_SET;
    WorkloadTables(isDeployment);
    hide DEPLOYMENT, DAEMON_SET, Template, UpdateStrategy, Rewrite, Get, Put;
    var r := Workload(o, isDeployment).value;
    RewriteIsPointwise(o, t);
    TemplateIdempotent(Get(o, "template"));
    if !isDeployment {
      UpdateStrategyIdempotent(Get(o, "updateStrategy"));
    }
    RewriteIdempotent(o, t);
    var a := Rewrite(o, t).value;
    UnrelatedKeys(a, r, t);
    PutBack(r, "updateStrategy");
    PutBack(r, "template");
  }

  /** A rewriting that has nothing left to do has nothing to do either after a change elsewhere. */
  lemma UnrelatedKeys(a: Object, r: Object, rules: seq<KeyRule>)
    requires DistinctKeys(rules) && Rewrite(a, rules) == Some(a)
    requires forall k | HasKey(rules, k) :: Get(r, k) == Get(a, k)
    ensures Rewrite(r, rules) == Some(r)
  {
    RewriteIsPointwise(a, rules);
    hide Rewrite, Apply, Get;
    forall i | 0 <= i < |rules| ensures Apply(rules[i].rule, Get(r, rules[i].key)) == Some(Get(r, rules[i].key)) {
      assert HasKey(rules, rules[i].key);
    }
    NothingToRewrite(r, rules);
  }

  lemma SpecObjectIdempotent(o: Object, root: Root)
    requires SpecObject(o, root).Some?
    ensures SpecObject(SpecObject(o, root).value, root) == SpecObject(o, root)
  {
    SpecTablesAreSound();
    if Is(root, "v1", "Service") {
      if Get(o, "type") == Some(Str("ClusterIP")) {
        RewriteIdempotent(o, SERVICE);
        RewriteIsPointwise(o, SERVICE);
        assert !HasKey(SERVICE, "type");
      }
    } else if Is(root, "apiextensions.k8s.io/v1", "CustomResourceDefinition") {
      RewriteIdempotent(o, CRD);
    } else if Is(root, "v1", "Pod") {
      PodSpecIdempotent(o, true);
    } else if IsWorkload(root) {
      WorkloadIdempotent(o, Is(root, "apps/v1", "Deployment"));
    }
  }

  lemma SpecIdempotent(e: Option<Value>, root: Root)
    requires Spec(e, root).Some?
    ensures Spec(Spec(e, root).value, root) == Spec(e, root)
  {
    hide SpecObject, DefaultInside, Is, SpecMatters;
    if Is(root, "v1", "Namespace") {
      DefaultInsideIdempotent(e, "finalizers", List([Str("kubernetes")]));
    } else if !(e.None? || e.value.Null? || !SpecMatters(root)) {
      SpecObjectIdempotent(e.value.entries, root);
    }
  }

  lemma ConfigurationParts(document: Value, p: Policy)
    requires Configuration(document, p).Some?
    ensures document.Dict? && "metadata" in document.entries && document.entries["metadata"].Dict?
    ensures RootOf(document.entries).Some?
    ensures
      var root, r := RootOf(document.entries).value, Configuration(document, p).value;
      && r.Dict? && RootOf(r.entries) == Some(root) && "status" !in r.entries
      && Some(Get(r.entries, "spec")) == Spec(Get(document.entries, "spec"), root)
      && var m := FullMetadata(document.entries["metadata"].entries, root, p);
         m.Some? && Get(r.entries, "metadata") == Some(Dict(m.value))
  {
    hide FullMetadata, Spec;
    var d, r := document.entries, Configuration(document, p).value.entries;
    assert Get(r, "apiVersion") == Get(d, "apiVersion") && Get(r, "kind") == Get(d, "kind") && Get(r, "status") == None;
  }

  /** Filling in the defaults a second time changes nothing. */
  lemma ConfigurationIdempotent(document: Value, p: Policy)
    requires Configuration(document, p).Some?
    ensures Configuration(Configuration(document, p).value, p) == Configuration(document, p)
  {
    ConfigurationParts(document, p);
    var root, r := RootOf(document.entries).value, Configuration(document, p).value.entries;
    hide FullMetadata, Spec, RootOf;
    FullMetadataIdempotent(document.entries["metadata"].entries, root, p);
    SpecIdempotent(Get(document.entries, "spec"), root);
    assert r["metadata"] == Dict(FullMetadata(document.entries["metadata"].entries, root, p).value);
    assert r - {"status"} == r;
    PutBack(r, "metadata");
    PutBack(r, "spec");
  }

  lemma FullMetadataKeepsIdentity(m: Object, root: Root, p: Policy)
    requires FullMetadata(m, root, p).Some?
    ensures var r := FullMetadata(m, root, p).value;
      Get(r, "name") == Get(m, "name") && Get(r, "namespace") == Namespace(Get(m, "namespace"), root)
  {
    MetadataParts(m, root, p);
    RuntimeKeys();
    hide Metadata, Is, Namespace, DefaultInside;
    if Is(root, "v1", "Namespace") {
      var a := Metadata(m, root, p).value;
      var r := NamespaceLabels(a).value;
      assert Get(r, "name") == Get(a, "name") && Get(r, "namespace") == Get(a, "namespace");
    }
  }

  /** The configuration is of the same object, under the same default for a namespace left out. */
  lemma ConfigurationKeepsKey(document: Value, p: Policy)
    requires Configuration(document, p).Some?
    ensures ObjectKey(Configuration(document, p).value) == ObjectKey(document)
  {
    ConfigurationParts(document, p);
    var root, r := RootOf(document.entries).value, Configuration(document, p).value.entries;
    var m := document.entries["metadata"].entries;
    hide FullMetadata, Spec, RootOf, Configuration, IsNamespaced;
    FullMetadataKeepsIdentity(m, root, p);
    var n := r["metadata"].entries;
    assert Get(n, "name") == Get(m, "name") && Get(n, "namespace") == Namespace(Get(m, "namespace"), root);
  }

  // ---------- Matching ----------

  /** Matching means having the same configuration, one that equals itself. */
  lemma MatchesIsSameConfiguration(a: Value, b: Value, p: Policy)
    ensures Matches(a, b, p) <==>
      && Configuration(a, p).Some? && Configuration(a, p) == Configuration(b, p) && Comparable(Configuration(a, p).value)
  {
    hide Configuration, Equal, Comparable;
    if Configuration(a, p).Some? && Configuration(b, p).Some? {
      EqualIsExact(Configuration(a, p).value, Configuration(b, p).value);
    }
  }

  lemma MatchingIsAnEquivalence(a: Value, b: Value, c: Value, p: Policy)
    ensures Matches(a, b, p) <==> Matches(b, a, p)
    ensures Matches(a, b, p) && Matches(b, c, p) ==> Matches(a, c, p)
    ensures Matches(a, a, p) <==> Configuration(a, p).Some? && Comparable(Configuration(a, p).value)
    ensures Matches(a, a, p) ==> Matches(a, Configuration(a, p).value, p)
    ensures Matches(a, b, p) ==> ObjectKey(a) == ObjectKey(b)
  {
    hide Configuration, Equal, Comparable, Matches, ObjectKey;
    MatchesIsSameConfiguration(a, b, p);
    MatchesIsSameConfiguration(b, a, p);
    MatchesIsSameConfiguration(b, c, p);
    MatchesIsSameConfiguration(a, c, p);
    MatchesIsSameConfiguration(a, a, p);
    if Configuration(a, p).Some? {
      ConfigurationIdempotent(a, p);
      ConfigurationKeepsKey(a, p);
      MatchesIsSameConfiguration(a, Configuration(a, p).value, p);
    }
    if Configuration(b, p).Some? {
      ConfigurationKeepsKey(b, p);
    }
  }
}
