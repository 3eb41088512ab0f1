/** What a configuration is, said of documents before and after without the tables it is computed by. */
module ApiMeaning {
  import opened Basics
  import opened ApiRules
  import opened ApiDefaults

  // ---------- Before and after ----------

  /** A value that is there stays; otherwise there is this one. */
  predicate Defaulted(o: Object, r: Object, k: string, v: Value) {
    k in r && r[k] == if k in o then o[k] else v
  }

  /** An explicit false goes; anything else stays as it was. */
  predicate FalseOmitted(o: Object, r: Object, k: string) {
    if k in o && o[k] == Bool(false) then k !in r else Get(r, k) == Get(o, k)
  }

  ghost predicate Untouched(o: Object, r: Object, keys: set<string>) {
    forall k | k !in keys :: Get(r, k) == Get(o, k)
  }

  predicate IsAt(s: string, t: string, i: nat) {
    i + |t| <= |s| && s[i..i + |t|] == t
  }

  /** Whether `t` occurs in `s`. */
  predicate Occurs(s: string, t: string) {
    exists i :: 0 <= i <= |s| && IsAt(s, t, i)
  }

  /** An element that a Pod's volumes may have besides dictionaries: it speaks of neither kind of source. */
  predicate Aside(v: Value) {
    match v
    case Str(s) => !Occurs(s, "hostPath") && !Occurs(s, "configMap")
    case List(items) => Str("hostPath") !in items && Str("configMap") !in items
    case _ => false
  }

  /** Every dictionary in a list is related to its counterpart; other elements are refused, or left when `loose`. An
      empty dictionary or string has nothing to go through. */
  predicate EachRelated(a: Option<Value>, b: Option<Value>, rel: (Object, Object) -> bool, loose: bool) {
    match a
    case None => b == None
    case Some(List(items)) =>
      && b.Some? && b.value.List? && |b.value.items| == |items|
      && forall i | 0 <= i < |items| ::
           if items[i].Dict? then b.value.items[i].Dict? && rel(items[i].entries, b.value.items[i].entries)
           else loose && Aside(items[i]) && b.value.items[i] == items[i]
    case Some(Dict(o)) => b == a && forall k | k in o :: loose && Aside(Str(k))
    case Some(Str(s)) => b == a && forall v | v in Letters(s) :: loose && Aside(v)
    case _ => false
  }

  /** A dictionary, if there, is related to its counterpart. */
  predicate Related(a: Option<Value>, b: Option<Value>, rel: (Object, Object) -> bool) {
    match a
    case None => b == None
    case Some(Dict(o)) => b.Some? && b.value.Dict? && rel(o, b.value.entries)
    case _ => false
  }

  /** The same, but a null stays. */
  predicate RelatedOrNull(a: Option<Value>, b: Option<Value>, rel: (Object, Object) -> bool) {
    if a == Some(Null) then b == a else Related(a, b, rel)
  }

  // ---------- Containers ----------

  ghost predicate PortMeans(o: Object, r: Object) {
    Defaulted(o, r, "protocol", Str("TCP")) && Untouched(o, r, {"protocol"})
  }

  ghost predicate MountMeans(o: Object, r: Object) {
    FalseOmitted(o, r, "readOnly") && Untouched(o, r, {"readOnly"})
  }

  ghost predicate FieldRefMeans(o: Object, r: Object) {
    Defaulted(o, r, "apiVersion", Str("v1")) && Untouched(o, r, {"apiVersion"})
  }

  ghost predicate ValueFromMeans(o: Object, r: Object) {
    RelatedOrNull(Get(o, "fieldRef"), Get(r, "fieldRef"), FieldRefMeans) && Untouched(o, r, {"fieldRef"})
  }

  ghost predicate EnvMeans(o: Object, r: Object) {
    Related(Get(o, "valueFrom"), Get(r, "valueFrom"), ValueFromMeans) && Untouched(o, r, {"valueFrom"})
  }

  /** A probe has exactly one action. */
  ghost predicate ProbeMeans(o: Object, r: Object) {
    && |{"exec", "httpGet", "tcpSocket", "grpc"} * o.Keys| == 1
    && Defaulted(o, r, "timeoutSeconds", Int(1)) && Defaulted(o, r, "periodSeconds", Int(10))
    && Defaulted(o, r, "successThreshold", Int(1)) && Defaulted(o, r, "failureThreshold", Int(3))
    && Untouched(o, r, {"timeoutSeconds", "periodSeconds", "successThreshold", "failureThreshold"})
  }

  /** What a container's configuration says of one key. */
  ghost predicate ContainerKey(o: Object, r: Object, k: string) {
    if k == "terminationMessagePath" then Defaulted(o, r, k, Str("/dev/termination-log"))
    else if k == "terminationMessagePolicy" then Defaulted(o, r, k, Str("File"))
    else if k == "resources" then Defaulted(o, r, k, Dict(map[]))
    else if k == "tty" then FalseOmitted(o, r, k)
    else if k == "ports" then EachRelated(Get(o, k), Get(r, k), PortMeans, false)
    else if k == "volumeMounts" then EachRelated(Get(o, k), Get(r, k), MountMeans, false)
    else if k == "env" then EachRelated(Get(o, k), Get(r, k), EnvMeans, false)
    else if k == "livenessProbe" || k == "readinessProbe" || k == "startupProbe" then Related(Get(o, k), Get(r, k), ProbeMeans)
    else Get(r, k) == Get(o, k)
  }

  ghost predicate ContainerMeans(o: Object, r: Object) {
    forall k :: ContainerKey(o, r, k)
  }

  // ---------- Specifications ----------

  ghost predicate HostPathMeans(o: Object, r: Object) {
    Defaulted(o, r, "type", Str("")) && Untouched(o, r, {"type"})
  }

  ghost predicate ConfigMapMeans(o: Object, r: Object) {
    Defaulted(o, r, "defaultMode", Int(420)) && Untouched(o, r, {"defaultMode"})
  }

  ghost predicate VolumeMeans(o: Object, r: Object) {
    && Related(Get(o, "hostPath"), Get(r, "hostPath"), HostPathMeans)
    && Related(Get(o, "configMap"), Get(r, "configMap"), ConfigMapMeans)
    && Untouched(o, r, {"hostPath", "configMap"})
  }

  /** What a Pod's configuration says of one key: only a Pod of its own, not a template, gains service links, and the
      account follows the account name. */
  ghost predicate PodKey(o: Object, r: Object, direct: bool, k: string) {
    if k == "dnsPolicy" then Defaulted(o, r, k, Str("ClusterFirst"))
    else if k == "restartPolicy" then Defaulted(o, r, k, Str("Always"))
    else if k == "securityContext" then Defaulted(o, r, k, Dict(map[]))
    else if k == "terminationGracePeriodSeconds" then Defaulted(o, r, k, Int(30))
    else if k == "schedulerName" then Defaulted(o, r, k, Str("default-scheduler"))
    else if k == "enableServiceLinks" && direct then Defaulted(o, r, k, Bool(true))
    else if k == "serviceAccount" && "serviceAccountName" in o then Defaulted(o, r, k, o["serviceAccountName"])
    else if k == "containers" || k == "initContainers" then EachRelated(Get(o, k), Get(r, k), ContainerMeans, false)
    else if k == "volumes" then EachRelated(Get(o, k), Get(r, k), VolumeMeans, true)
    else Get(r, k) == Get(o, k)
  }

  ghost predicate PodMeans(o: Object, r: Object, direct: bool) {
    forall k :: PodKey(o, r, direct, k)
  }

  /** An explicit null creation time of a template goes. */
  predicate TemplateMetadataMeans(a: Option<Value>, b: Option<Value>) {
    match a
    case None => b == None
    case Some(Dict(m)) =>
      && b.Some? && b.value.Dict?
      && var n := b.value.entries;
         && (if Get(m, "creationTimestamp") == Some(Null) then "creationTimestamp" !in n
             else Get(n, "creationTimestamp") == Get(m, "creationTimestamp"))
         && forall k | k in m.Keys + n.Keys && k != "creationTimestamp" :: Get(n, k) == Get(m, k)
    case Some(List(items)) => b == a && Str("creationTimestamp") !in items
    case Some(Str(s)) => b == a && !Occurs(s, "creationTimestamp")
    case _ => false
  }

  ghost predicate TemplateMeans(o: Object, r: Object) {
    && "spec" in o && o["spec"].Dict? && "spec" in r && r["spec"].Dict? && PodMeans(o["spec"].entries, r["spec"].entries, false)
    && TemplateMetadataMeans(Get(o, "metadata"), Get(r, "metadata")) && Untouched(o, r, {"spec", "metadata"})
  }

  /** A rolling update of one at a time surges by none. */
  ghost predicate StrategyMeans(o: Object, r: Object) {
    && Untouched(o, r, {"rollingUpdate"})
    && if Get(o, "type") == Some(Str("RollingUpdate")) && "rollingUpdate" in o && o["rollingUpdate"].Dict?
          && Get(o["rollingUpdate"].entries, "maxUnavailable")
             in {Some(Int(1)), Some(Bool(true)), Some(Float(Finite(1.0)))} then
         && "rollingUpdate" in r && r["rollingUpdate"].Dict?
         && Defaulted(o["rollingUpdate"].entries, r["rollingUpdate"].entries, "maxSurge", Int(0))
         && Untouched(o["rollingUpdate"].entries, r["rollingUpdate"].entries, {"maxSurge"})
       else Get(r, "rollingUpdate") == Get(o, "rollingUpdate")
  }

  ghost predicate WorkloadMeans(o: Object, r: Object, isDeployment: bool) {
    && Defaulted(o, r, "revisionHistoryLimit", Int(10))
    && (if isDeployment then Defaulted(o, r, "progressDeadlineSeconds", Int(600))
        else Get(r, "progressDeadlineSeconds") == Get(o, "progressDeadlineSeconds"))
    && (if isDeployment then Get(r, "updateStrategy") == Get(o, "updateStrategy")
        else Related(Get(o, "updateStrategy"), Get(r, "updateStrategy"), StrategyMeans))
    && Related(Get(o, "template"), Get(r, "template"), TemplateMeans)
    && Untouched(o, r, {"revisionHistoryLimit", "progressDeadlineSeconds", "updateStrategy", "template"})
  }

  ghost predicate ServiceMeans(o: Object, r: Object) {
    if Get(o, "type") == Some(Str("ClusterIP")) then
      && Defaulted(o, r, "sessionAffinity", Str("None")) && Defaulted(o, r, "internalTrafficPolicy", Str("Cluster"))
      && Untouched(o, r, {"sessionAffinity", "internalTrafficPolicy"})
    else r == o
  }

  ghost predicate DefinitionMeans(o: Object, r: Object) {
    && FalseOmitted(o, r, "preserveUnknownFields") && Defaulted(o, r, "conversion", Dict(map["strategy" := Str("None")]))
    && Untouched(o, r, {"preserveUnknownFields", "conversion"})
  }

  predicate IsKind(root: Root, apiVersion: string, kinds: set<string>) {
    root.apiVersion == Str(apiVersion) && root.kind.Str? && root.kind.s in kinds
  }

  ghost predicate SpecObjectMeans(o: Object, r: Object, root: Root) {
    if IsKind(root, "v1", {"Pod"}) then PodMeans(o, r, true)
    else if IsKind(root, "v1", {"Service"}) then ServiceMeans(o, r)
    else if IsKind(root, "apps/v1", {"Deployment"}) then WorkloadMeans(o, r, true)
    else if IsKind(root, "apps/v1", {"DaemonSet"}) then WorkloadMeans(o, r, false)
    else DefinitionMeans(o, r)
  }

  /** A dictionary with one more default in it, made if absent. */
  ghost predicate InsideMeans(a: Option<Value>, b: Option<Value>, k: string, v: Value) {
    match a
    case None => b == Some(Dict(map[k := v]))
    case Some(Dict(o)) => b.Some? && b.value.Dict? && Defaulted(o, b.value.entries, k, v) && Untouched(o, b.value.entries, {k})
    case _ => false
  }

  ghost predicate SpecMeans(a: Option<Value>, b: Option<Value>, root: Root) {
    if IsKind(root, "v1", {"Namespace"}) then InsideMeans(a, b, "finalizers", List([Str("kubernetes")]))
    else if a in {None, Some(Null)}
            || !(IsKind(root, "v1", {"Pod", "Service"}) || IsKind(root, "apps/v1", {"Deployment", "DaemonSet"})
                 || IsKind(root, "apiextensions.k8s.io/v1", {"CustomResourceDefinition"})) then
      b == a
    else
      && a.value.Dict? && b.Some? && b.value.Dict?
      && SpecObjectMeans(a.value.entries, b.value.entries, root)
  }

  // ---------- Metadata ----------

  predicate Removed(k: string, isDeployment: bool) {
    || k == "kubectl.kubernetes.io/last-applied-configuration"
    || (isDeployment && k == "deployment.kubernetes.io/revision")
  }

  /** The two runtime annotations go, in their expected form, and a dictionary left empty by that goes too. */
  ghost predicate AnnotationsMean(a: Option<Value>, b: Option<Value>, isDeployment: bool) {
    match a
    case None => b == None
    case Some(Dict(o)) =>
      && (forall v | Get(o, "kubectl.kubernetes.io/last-applied-configuration") == Some(v) :: v.Str? && Utf8Length(v.s) <= 262144)
      && (isDeployment && "deployment.kubernetes.io/revision" in o ==> o["deployment.kubernetes.io/revision"] == Str("1"))
      && (if o != map[] && forall k | k in o :: Removed(k, isDeployment) then b == None
          else
            && b.Some? && b.value.Dict?
            && forall k :: Get(b.value.entries, k) == if Removed(k, isDeployment) then None else Get(o, k))
    case _ => false
  }

  predicate Namespaced(root: Root) {
    || IsKind(root, "v1", {"Pod", "Service", "ServiceAccount", "ConfigMap"}) || IsKind(root, "apps/v1", {"Deployment", "DaemonSet"})
    || IsKind(root, "policy/v1", {"PodDisruptionBudget"}) || IsKind(root, "networking.k8s.io/v1", {"NetworkPolicy"})
    || IsKind(root, "rbac.authorization.k8s.io/v1", {"Role", "RoleBinding"})
  }

  predicate ClusterWide(root: Root) {
    || IsKind(root, "v1", {"Namespace"}) || IsKind(root, "apiextensions.k8s.io/v1", {"CustomResourceDefinition"})
    || IsKind(root, "rbac.authorization.k8s.io/v1", {"ClusterRole", "ClusterRoleBinding"})
  }

  ghost predicate MetadataMeans(o: Object, r: Object, root: Root, p: Policy) {
    && "deletionTimestamp" !in o && "deletionGracePeriodSeconds" !in o
    && (forall k | k in {"uid", "resourceVersion", "generation", "creationTimestamp", "managedFields"} ::
          k !in r && (k in o ==> p.runtimeOk(k, o[k])))
    && (ClusterWide(root) ==> "namespace" !in o)
    && (if Namespaced(root) then Defaulted(o, r, "namespace", Str("default")) else Get(r, "namespace") == Get(o, "namespace"))
    && AnnotationsMean(Get(o, "annotations"), Get(r, "annotations"), IsKind(root, "apps/v1", {"Deployment"}))
    && (if IsKind(root, "v1", {"Namespace"}) then
          "name" in o && InsideMeans(Get(o, "labels"), Get(r, "labels"), "kubernetes.io/metadata.name", o["name"])
        else Get(r, "labels") == Get(o, "labels"))
    && Untouched(o, r, {"uid", "resourceVersion", "generation", "creationTimestamp", "managedFields", "namespace", "annotations",
                        "labels"})
  }

  // ---------- Whole documents ----------

  ghost predicate ConfigurationMeans(document: Value, c: Value, p: Policy) {
    && document.Dict? && c.Dict?
    && var o, r := document.entries, c.entries;
       && "apiVersion" in o && Hashable(o["apiVersion"]) && "kind" in o && Hashable(o["kind"])
       && "metadata" in o && o["metadata"].Dict? && "metadata" in r && r["metadata"].Dict?
       && var root := Root(o["apiVersion"], o["kind"]);
          && MetadataMeans(o["metadata"].entries, r["metadata"].entries, root, p)
          && SpecMeans(Get(o, "spec"), Get(r, "spec"), root)
          && "status" !in r && Untouched(o, r, {"status", "metadata", "spec"})
  }

  // ---------- The tables compute exactly that ----------

  lemma {:induction false} OccursExactly(s: string, t: string)
    ensures Contains(s, t) <==> Occurs(s, t)
  {
    assert StartsWith(s, t) <==> IsAt(s, t, 0);
    if s != "" {
      OccursExactly(s[1..], t);
      forall i | 0 <= i <= |s[1..]| ensures IsAt(s[1..], t, i) <==> IsAt(s, t, i + 1) {
        if i + 1 + |t| <= |s| {
          assert s[1..][i..i + |t|] == s[i + 1..i + 1 + |t|];
        }
      }
      if Occurs(s, t) && !IsAt(s, t, 0) {
        var i :| 0 <= i <= |s| && IsAt(s, t, i);
        assert IsAt(s[1..], t, i - 1);
      }
    }
  }

  lemma AsideExactly(v: Value)
    ensures Passes(v, {"hostPath", "configMap"}) <==> Aside(v)
    ensures !Passes(v, {})
  {
    match v {
      case Str(s) =>
        OccursExactly(s, "hostPath");
        OccursExactly(s, "configMap");
        hide Contains, Occurs;
        assert "hostPath" in {"hostPath", "configMap"} && "configMap" in {"hostPath", "configMap"};
      case List(items) =>
        assert "hostPath" in {"hostPath", "configMap"} && "configMap" in {"hostPath", "configMap"};
      case _ =>
    }
  }

  lemma TableExactly(o: Object, rules: seq<KeyRule>, r: Object)
    requires DistinctKeys(rules)
    ensures Rewrite(o, rules) == Some(r) <==>
      && (forall i | 0 <= i < |rules| :: Apply(rules[i].rule, Get(o, rules[i].key)) == Some(Get(r, rules[i].key)))
      && forall k | !HasKey(rules, k) :: Get(r, k) == Get(o, k)
  {
    RewriteIsPointwise(o, rules);
    hide Rewrite, Apply;
    if (forall i | 0 <= i < |rules| :: Apply(rules[i].rule, Get(o, rules[i].key)) == Some(Get(r, rules[i].key)))
       && forall k | !HasKey(rules, k) :: Get(r, k) == Get(o, k) {
      var w := Rewrite(o, rules).value;
      forall k ensures Get(w, k) == Get(r, k) {
        if HasKey(rules, k) {
          var i :| 0 <= i < |rules| && rules[i].key == k;
          assert Apply(rules[i].rule, Get(o, rules[i].key)) == Some(Get(w, rules[i].key));
        }
      }
      SameObject(w, r);
    }
  }

  lemma DefaultExactly(o: Object, r: Object, k: string, v: Value)
    ensures Apply(Default(v), Get(o, k)) == Some(Get(r, k)) <==> Defaulted(o, r, k, v)
  {
  }

  lemma OmitExactly(o: Object, r: Object, k: string)
    ensures Apply(OmitFalse, Get(o, k)) == Some(Get(r, k)) <==> FalseOmitted(o, r, k)
  {
  }

  ghost predicate Computes(rules: seq<KeyRule>, rel: (Object, Object) -> bool) {
    forall x, y :: rel(x, y) <==> Rewrite(x, rules) == Some(y)
  }

  lemma {:induction false} ElementsExactly(items: seq<Value>, rules: seq<KeyRule>, mentions: set<string>,
                                           rel: (Object, Object) -> bool, loose: bool, outs: seq<Value>)
    requires Computes(rules, rel) && mentions == if loose then {"hostPath", "configMap"} else {}
    ensures Elements(items, rules, mentions) == Some(outs) <==>
      && |outs| == |items|
      && forall i | 0 <= i < |items| ::
           if items[i].Dict? then outs[i].Dict? && rel(items[i].entries, outs[i].entries)
           else loose && Aside(items[i]) && outs[i] == items[i]
    decreases |items|
  {
    hide Rewrite, Aside, Passes;
    if items != [] && |outs| == |items| {
      var n := |items| - 1;
      ElementsExactly(items[..n], rules, mentions, rel, loose, outs[..n]);
      AsideExactly(items[n]);
      assert outs == outs[..n] + [outs[n]];
      assert Element(items[n], rules, mentions) == Some(outs[n]) <==>
        if items[n].Dict? then outs[n].Dict? && rel(items[n].entries, outs[n].entries)
        else loose && Aside(items[n]) && outs[n] == items[n];
      hide Element;
    }
  }

  lemma EachExactly(rules: seq<KeyRule>, mentions: set<string>, rel: (Object, Object) -> bool, loose: bool,
                    a: Option<Value>, b: Option<Value>)
    requires Computes(rules, rel) && mentions == if loose then {"hostPath", "configMap"} else {}
    ensures Apply(Each(rules, mentions), a) == Some(b) <==> EachRelated(a, b, rel, loose)
  {
    hide Computes, Aside, Passes, Elements;
    if a.Some? {
      match a.value {
        case List(items) =>
          if b.Some? && b.value.List? {
            ElementsExactly(items, rules, mentions, rel, loose, b.value.items);
          }
        case Dict(o) =>
          forall k | k in o ensures Passes(Str(k), mentions) <==> loose && Aside(Str(k)) {
            AsideExactly(Str(k));
          }
        case Str(s) =>
          forall v | v in Letters(s) ensures Passes(v, mentions) <==> loose && Aside(v) {
            AsideExactly(v);
          }
        case _ =>
      }
    }
  }

  lemma WithinExactly(rules: seq<KeyRule>, keys: set<string>, rel: (Object, Object) -> bool, a: Option<Value>, b: Option<Value>)
    requires forall x, y :: rel(x, y) <==> ExactlyOne(keys, x) && Rewrite(x, rules) == Some(y)
    ensures Apply(Within(rules, keys), a) == Some(b) <==> Related(a, b, rel)
  {
    hide Rewrite, ExactlyOne;
  }

  lemma WithinSomeExactly(rules: seq<KeyRule>, rel: (Object, Object) -> bool, a: Option<Value>, b: Option<Value>)
    requires Computes(rules, rel)
    ensures Apply(WithinSome(rules), a) == Some(b) <==> RelatedOrNull(a, b, rel)
  {
    hide Rewrite;
  }

  lemma OneRule(o: Object, rule: KeyRule, r: Object)
    ensures Rewrite(o, [rule]) == Some(r) <==>
      Apply(rule.rule, Get(o, rule.key)) == Some(Get(r, rule.key)) && Untouched(o, r, {rule.key})
  {
    hide Rewrite, Apply;
    TableExactly(o, [rule], r);
    assert HasKey([rule], rule.key) by { assert [rule][0].key == rule.key; }
  }

  lemma SmallTables()
    ensures Computes(PORT, PortMeans) && Computes(MOUNT, MountMeans) && Computes(FIELD_REF, FieldRefMeans)
    ensures Computes(HOST_PATH, HostPathMeans) && Computes(CONFIG_MAP, ConfigMapMeans)
  {
    hide Rewrite, Apply, Defaulted, FalseOmitted;
    forall o, r
      ensures PortMeans(o, r) <==> Rewrite(o, PORT) == Some(r)
      ensures MountMeans(o, r) <==> Rewrite(o, MOUNT) == Some(r)
      ensures FieldRefMeans(o, r) <==> Rewrite(o, FIELD_REF) == Some(r)
      ensures HostPathMeans(o, r) <==> Rewrite(o, HOST_PATH) == Some(r)
      ensures ConfigMapMeans(o, r) <==> Rewrite(o, CONFIG_MAP) == Some(r)
    {
      OneRule(o, PORT[0], r);
      OneRule(o, MOUNT[0], r);
      OneRule(o, FIELD_REF[0], r);
      OneRule(o, HOST_PATH[0], r);
      OneRule(o, CONFIG_MAP[0], r);
      DefaultExactly(o, r, "protocol", Str("TCP"));
      OmitExactly(o, r, "readOnly");
      DefaultExactly(o, r, "apiVersion", Str("v1"));
      DefaultExactly(o, r, "type", Str(""));
      DefaultExactly(o, r, "defaultMode", Int(420));
    }
  }

  lemma EnvTable()
    ensures Computes(ENV, EnvMeans)
  {
    SmallTables();
    hide Rewrite, Apply, FieldRefMeans, FIELD_REF;
    forall o, r ensures ValueFromMeans(o, r) <==> Rewrite(o, VALUE_FROM) == Some(r) {
      OneRule(o, VALUE_FROM[0], r);
      WithinSomeExactly(FIELD_REF, FieldRefMeans, Get(o, "fieldRef"), Get(r, "fieldRef"));
    }
    hide ValueFromMeans, VALUE_FROM;
    forall o, r ensures EnvMeans(o, r) <==> Rewrite(o, ENV) == Some(r) {
      OneRule(o, ENV[0], r);
      NoDemand();
      WithinExactly(VALUE_FROM, {}, ValueFromMeans, Get(o, "valueFrom"), Get(r, "valueFrom"));
    }
  }

  lemma NoDemand()
    ensures forall o :: ExactlyOne({}, o)
  {
  }

  lemma VolumeTable()
    ensures Computes(VOLUME, VolumeMeans)
  {
    SmallTables();
    NoDemand();
    hide Rewrite, Apply, ExactlyOne, HostPathMeans, HOST_PATH, ConfigMapMeans, CONFIG_MAP;
    forall o, r ensures VolumeMeans(o, r) <==> Rewrite(o, VOLUME) == Some(r) {
      TableExactly(o, VOLUME, r);
      WithinExactly(HOST_PATH, {}, HostPathMeans, Get(o, "hostPath"), Get(r, "hostPath"));
      WithinExactly(CONFIG_MAP, {}, ConfigMapMeans, Get(o, "configMap"), Get(r, "configMap"));
      hide Get;
      assert VOLUME[0].key == "hostPath" && VOLUME[1].key == "configMap";
      assert forall k :: HasKey(VOLUME, k) <==> k in {"hostPath", "configMap"};
    }
  }

  lemma ProbeTable(o: Object, r: Object)
    ensures ProbeMeans(o, r) <==> ExactlyOne(ACTIONS, o) && Rewrite(o, PROBE) == Some(r)
  {
    hide Rewrite, Apply, Defaulted;
    assert ACTIONS != {} by { assert "exec" in ACTIONS; }
    TableExactly(o, PROBE, r);
    DefaultExactly(o, r, "timeoutSeconds", Int(1));
    DefaultExactly(o, r, "periodSeconds", Int(10));
    DefaultExactly(o, r, "successThreshold", Int(1));
    DefaultExactly(o, r, "failureThreshold", Int(3));
    hide Get;
    assert PROBE[0].key == "timeoutSeconds" && PROBE[1].key == "periodSeconds" && PROBE[2].key == "successThreshold"
      && PROBE[3].key == "failureThreshold";
    assert forall k :: HasKey(PROBE, k) <==> k in {"timeoutSeconds", "periodSeconds", "successThreshold", "failureThreshold"};
  }

  // ---------- Larger tables, key by key ----------

  /** The rule a table has for a key. */
  function Lookup(rules: seq<KeyRule>, k: string): Option<Rule> {
    if rules == [] then None else if rules[0].key == k then Some(rules[0].rule) else Lookup(rules[1..], k)
  }

  lemma {:induction false} LookupAppend(a: seq<KeyRule>, b: seq<KeyRule>, k: string)
    ensures Lookup(a + b, k) == if Lookup(a, k).Some? then Lookup(a, k) else Lookup(b, k)
  {
    if a == [] {
      assert a + b == b;
    } else {
      LookupAppend(a[1..], b, k);
      assert (a + b)[1..] == a[1..] + b;
    }
  }

  lemma {:induction false} LookupIs(rules: seq<KeyRule>, k: string)
    requires DistinctKeys(rules)
    ensures Lookup(rules, k).Some? <==> HasKey(rules, k)
    ensures forall i | 0 <= i < |rules| && rules[i].key == k :: Lookup(rules, k) == Some(rules[i].rule)
  {
    if rules != [] {
      var tail := rules[1..];
      assert forall i | 0 <= i < |tail| :: tail[i] == rules[i + 1];
      LookupIs(tail, k);
      assert HasKey(rules, k) <==> rules[0].key == k || HasKey(tail, k);
    }
  }

  /** What a table makes of one key. */
  ghost predicate KeyMeans(rule: Option<Rule>, e: Option<Value>, f: Option<Value>) {
    if rule.None? then f == e else Apply(rule.value, e) == Some(f)
  }

  lemma TableByKey(o: Object, rules: seq<KeyRule>, r: Object)
    requires DistinctKeys(rules)
    ensures Rewrite(o, rules) == Some(r) <==> forall k :: KeyMeans(Lookup(rules, k), Get(o, k), Get(r, k))
  {
    TableExactly(o, rules, r);
    forall k ensures
      && (Lookup(rules, k).Some? <==> HasKey(rules, k))
      && (forall i | 0 <= i < |rules| && rules[i].key == k :: Lookup(rules, k) == Some(rules[i].rule))
    {
      LookupIs(rules, k);
    }
    hide Rewrite, Apply, Get, Lookup;
    if forall k :: KeyMeans(Lookup(rules, k), Get(o, k), Get(r, k)) {
      forall i | 0 <= i < |rules| ensures Apply(rules[i].rule, Get(o, rules[i].key)) == Some(Get(r, rules[i].key)) {
        assert KeyMeans(Lookup(rules, rules[i].key), Get(o, rules[i].key), Get(r, rules[i].key));
      }
      forall k | !HasKey(rules, k) ensures Get(r, k) == Get(o, k) {
        assert KeyMeans(Lookup(rules, k), Get(o, k), Get(r, k));
      }
    }
  }

  lemma ContainerLookup(k: string)
    ensures Lookup(CONTAINER, k) ==
      if k == "terminationMessagePath" then Some(Default(Str("/dev/termination-log")))
      else if k == "terminationMessagePolicy" then Some(Default(Str("File")))
      else if k == "resources" then Some(Default(Dict(map[])))
      else if k == "tty" then Some(OmitFalse)
      else if k == "ports" then Some(Each(PORT, {}))
      else if k == "volumeMounts" then Some(Each(MOUNT, {}))
      else if k == "env" then Some(Each(ENV, {}))
      else if k == "livenessProbe" || k == "readinessProbe" || k == "startupProbe" then Some(Within(PROBE, ACTIONS))
      else None
  {
    ContainerKeys();
    LookupIs(CONTAINER, k);
    ContainerRules();
    hide CONTAINER, PORT, MOUNT, ENV, PROBE, ACTIONS, Lookup;
    if HasKey(CONTAINER, k) {
      var i :| 0 <= i < |CONTAINER| && CONTAINER[i].key == k;
      assert Lookup(CONTAINER, k) == Some(CONTAINER[i].rule);
    }
  }

  lemma ContainerRules()
    ensures |CONTAINER| == 10
    ensures CONTAINER[0] == KeyRule("terminationMessagePath", Default(Str("/dev/termination-log")))
    ensures CONTAINER[1] == KeyRule("terminationMessagePolicy", Default(Str("File")))
    ensures CONTAINER[2] == KeyRule("resources", Default(Dict(map[]))) && CONTAINER[3] == KeyRule("tty", OmitFalse)
    ensures CONTAINER[4] == KeyRule("ports", Each(PORT, {})) && CONTAINER[5] == KeyRule("volumeMounts", Each(MOUNT, {}))
    ensures CONTAINER[6] == KeyRule("env", Each(ENV, {})) && CONTAINER[7] == KeyRule("livenessProbe", Within(PROBE, ACTIONS))
    ensures CONTAINER[8] == KeyRule("readinessProbe", Within(PROBE, ACTIONS))
    ensures CONTAINER[9] == KeyRule("startupProbe", Within(PROBE, ACTIONS))
  {
    hide PORT, MOUNT, ENV, PROBE, ACTIONS;
  }

  lemma ContainerTable()
    ensures Computes(CONTAINER, ContainerMeans)
  {
    ContainerKeys();
    forall o, r ensures ContainerMeans(o, r) <==> Rewrite(o, CONTAINER) == Some(r) {
      TableByKey(o, CONTAINER, r);
      ContainerByKey(o, r);
    }
  }

  lemma ContainerByKey(o: Object, r: Object)
    ensures ContainerMeans(o, r) <==> forall k :: KeyMeans(Lookup(CONTAINER, k), Get(o, k), Get(r, k))
  {
    hide *;
    ContainerIs(o, r);
    forall k ensures KeyMeans(Lookup(CONTAINER, k), Get(o, k), Get(r, k)) <==> ContainerKey(o, r, k) {
      ContainerKeyIs(o, r, k);
    }
  }

  lemma ContainerIs(o: Object, r: Object)
    ensures ContainerMeans(o, r) <==> forall k :: ContainerKey(o, r, k)
  {
    hide ContainerKey;
  }

  lemma ContainerKeyIs(o: Object, r: Object, k: string)
    ensures KeyMeans(Lookup(CONTAINER, k), Get(o, k), Get(r, k)) <==> ContainerKey(o, r, k)
  {
    ContainerLookup(k);
    SmallTables();
    EnvTable();
    forall x, y ensures ProbeMeans(x, y) <==> ExactlyOne(ACTIONS, x) && Rewrite(x, PROBE) == Some(y) {
      ProbeTable(x, y);
    }
    var e, f := Get(o, k), Get(r, k);
    DefaultExactly(o, r, k, Str("/dev/termination-log"));
    DefaultExactly(o, r, k, Str("File"));
    DefaultExactly(o, r, k, Dict(map[]));
    OmitExactly(o, r, k);
    EachExactly(PORT, {}, PortMeans, false, e, f);
    EachExactly(MOUNT, {}, MountMeans, false, e, f);
    EachExactly(ENV, {}, EnvMeans, false, e, f);
    WithinExactly(PROBE, ACTIONS, ProbeMeans, e, f);
    hide Apply, Get, Lookup, Rewrite, Computes, Defaulted, FalseOmitted, EachRelated, Related, ProbeMeans;
  }

  lemma PodLookup(direct: bool, account: Option<Value>, k: string)
    ensures Lookup(PodTable(direct, account), k) ==
      if k == "dnsPolicy" then Some(Default(Str("ClusterFirst")))
      else if k == "restartPolicy" then Some(Default(Str("Always")))
      else if k == "securityContext" then Some(Default(Dict(map[])))
      else if k == "terminationGracePeriodSeconds" then Some(Default(Int(30)))
      else if k == "schedulerName" then Some(Default(Str("default-scheduler")))
      else if k == "enableServiceLinks" && direct then Some(Default(Bool(true)))
      else if k == "serviceAccount" && account.Some? then Some(Default(account.value))
      else if k == "containers" || k == "initContainers" then Some(Each(CONTAINER, {}))
      else if k == "volumes" then Some(Each(VOLUME, VOLUME_KEYS))
      else None
  {
    hide CONTAINER, VOLUME, VOLUME_KEYS;
    var links: seq<KeyRule> := if direct then [KeyRule("enableServiceLinks", Default(Bool(true)))] else [];
    var named: seq<KeyRule> := if account.Some? then [KeyRule("serviceAccount", Default(account.value))] else [];
    LookupAppend(POD_DEFAULTS + links + named, POD_LISTS, k);
    LookupAppend(POD_DEFAULTS + links, named, k);
    LookupAppend(POD_DEFAULTS, links, k);
    DefaultsLookup(k);
    ListsLookup(k);
    OneLookup(KeyRule("enableServiceLinks", Default(Bool(true))), k);
    if account.Some? {
      OneLookup(KeyRule("serviceAccount", Default(account.value)), k);
    }
    hide POD_DEFAULTS, POD_LISTS;
  }

  lemma OneLookup(rule: KeyRule, k: string)
    ensures Lookup([rule], k) == if rule.key == k then Some(rule.rule) else None
    ensures Lookup([], k) == None
  {
    assert [rule][1..] == [];
  }

  lemma DefaultsLookup(k: string)
    ensures Lookup(POD_DEFAULTS, k) ==
      if k == "dnsPolicy" then Some(Default(Str("ClusterFirst")))
      else if k == "restartPolicy" then Some(Default(Str("Always")))
      else if k == "securityContext" then Some(Default(Dict(map[])))
      else if k == "terminationGracePeriodSeconds" then Some(Default(Int(30)))
      else if k == "schedulerName" then Some(Default(Str("default-scheduler")))
      else None
  {
    var t := POD_DEFAULTS;
    assert DistinctKeys(t);
    LookupIs(t, k);
    assert |t| == 5 && t[0] == KeyRule("dnsPolicy", Default(Str("ClusterFirst")));
    assert t[1] == KeyRule("restartPolicy", Default(Str("Always"))) && t[2] == KeyRule("securityContext", Default(Dict(map[])));
    assert t[3] == KeyRule("terminationGracePeriodSeconds", Default(Int(30)));
    assert t[4] == KeyRule("schedulerName", Default(Str("default-scheduler")));
    hide POD_DEFAULTS, Lookup;
    if HasKey(t, k) {
      var i :| 0 <= i < |t| && t[i].key == k;
      assert Lookup(t, k) == Some(t[i].rule);
    }
  }

  lemma ListsLookup(k: string)
    ensures Lookup(POD_LISTS, k) ==
      if k == "containers" || k == "initContainers" then Some(Each(CONTAINER, {}))
      else if k == "volumes" then Some(Each(VOLUME, VOLUME_KEYS))
      else None
  {
    hide CONTAINER, VOLUME, VOLUME_KEYS;
    var t := POD_LISTS;
    assert DistinctKeys(t);
    LookupIs(t, k);
    assert |t| == 3 && t[0] == KeyRule("containers", Each(CONTAINER, {})) && t[1] == KeyRule("initContainers", Each(CONTAINER, {}));
    assert t[2] == KeyRule("volumes", Each(VOLUME, VOLUME_KEYS));
    hide POD_LISTS, Lookup;
    if HasKey(t, k) {
      var i :| 0 <= i < |t| && t[i].key == k;
      assert Lookup(t, k) == Some(t[i].rule);
    }
  }

  lemma PodKeyIs(o: Object, r: Object, direct: bool, k: string)
    ensures KeyMeans(Lookup(PodTable(direct, Get(o, "serviceAccountName")), k), Get(o, k), Get(r, k)) <==> PodKey(o, r, direct, k)
  {
    var account := Get(o, "serviceAccountName");
    PodLookup(direct, account, k);
    ContainerTable();
    VolumeTable();
    var e, f := Get(o, k), Get(r, k);
    DefaultExactly(o, r, k, Str("ClusterFirst"));
    DefaultExactly(o, r, k, Str("Always"));
    DefaultExactly(o, r, k, Dict(map[]));
    DefaultExactly(o, r, k, Int(30));
    DefaultExactly(o, r, k, Str("default-scheduler"));
    DefaultExactly(o, r, k, Bool(true));
    if account.Some? {
      DefaultExactly(o, r, k, account.value);
    }
    VolumeKeys();
    EachExactly(CONTAINER, {}, ContainerMeans, false, e, f);
    EachExactly(VOLUME, VOLUME_KEYS, VolumeMeans, true, e, f);
    hide Apply, Lookup, Rewrite, Computes, Defaulted, EachRelated, PodTable, CONTAINER, VOLUME, VOLUME_KEYS;
  }

  lemma VolumeKeys()
    ensures VOLUME_KEYS == {"hostPath", "configMap"}
  {
  }

  /** A Pod specification is accepted, with this result, exactly when each of its keys is. */
  lemma PodSpecExactly(o: Object, direct: bool, r: Object)
    ensures PodSpec(o, direct) == Some(r) <==> PodMeans(o, r, direct)
  {
    hide *;
    var account := Get(o, "serviceAccountName");
    PodKeys(direct, account);
    PodSpecIs(o, direct);
    TableByKey(o, PodTable(direct, account), r);
    PodIs(o, r, direct);
    forall k ensures KeyMeans(Lookup(PodTable(direct, account), k), Get(o, k), Get(r, k)) <==> PodKey(o, r, direct, k) {
      PodKeyIs(o, r, direct, k);
    }
  }

  lemma PodSpecIs(o: Object, direct: bool)
    ensures PodSpec(o, direct) == Rewrite(o, PodTable(direct, Get(o, "serviceAccountName")))
  {
    hide Rewrite, PodTable;
  }

  lemma PodIs(o: Object, r: Object, direct: bool)
    ensures PodMeans(o, r, direct) <==> forall k :: PodKey(o, r, direct, k)
  {
    hide PodKey;
  }

  // ---------- Specifications exactly ----------

  lemma TemplateMetadataExactly(a: Option<Value>, b: Option<Value>)
    ensures TemplateMetadata(a) == Some(b) <==> TemplateMetadataMeans(a, b)
  {
    match a {
      case Some(Dict(m)) =>
        if TemplateMetadataMeans(a, b) {
          var n := b.value.entries;
          var w := if Get(m, "creationTimestamp") == Some(Null) then m - {"creationTimestamp"} else m;
          forall k ensures Get(w, k) == Get(n, k) {
          }
          SameObject(w, n);
        }
      case Some(Str(s)) =>
        OccursExactly(s, "creationTimestamp");
        PassesOne(Str(s), "creationTimestamp");
        hide Contains, Occurs, Passes;
      case Some(List(items)) => PassesOne(List(items), "creationTimestamp");
      case _ =>
    }
  }

  lemma PassesOne(v: Value, t: string)
    ensures v.Str? ==> (Passes(v, {t}) <==> !Contains(v.s, t))
    ensures v.List? ==> (Passes(v, {t}) <==> Str(t) !in v.items)
  {
    hide Contains;
    assert t in {t};
  }

  lemma PutExactly(o: Object, k: string, e: Option<Value>, r: Object)
    ensures r == Put(o, k, e) <==> Get(r, k) == e && forall j | j != k :: Get(r, j) == Get(o, j)
  {
    hide Get, Put;
    if Get(r, k) == e && forall j | j != k :: Get(r, j) == Get(o, j) {
      forall j ensures Get(r, j) == Get(Put(o, k, e), j) {
      }
      SameObject(r, Put(o, k, e));
    }
  }

  lemma TwoPuts(o: Object, k: string, e: Option<Value>, l: string, f: Option<Value>, r: Object)
    requires k != l
    ensures r == Put(Put(o, k, e), l, f) <==>
      Get(r, k) == e && Get(r, l) == f && forall j | j !in {k, l} :: Get(r, j) == Get(o, j)
  {
    hide Get, Put;
    if Get(r, k) == e && Get(r, l) == f && forall j | j !in {k, l} :: Get(r, j) == Get(o, j) {
      forall j ensures Get(r, j) == Get(Put(Put(o, k, e), l, f), j) {
      }
      SameObject(r, Put(Put(o, k, e), l, f));
    }
  }

  lemma TemplateExactly(a: Option<Value>, b: Option<Value>)
    ensures Template(a) == Some(b) <==> Related(a, b, TemplateMeans)
  {
    if a.Some? && a.value.Dict? && "spec" in a.value.entries && a.value.entries["spec"].Dict? {
      var t := a.value.entries;
      var m, s := TemplateMetadata(Get(t, "metadata")), PodSpec(t["spec"].entries, false);
      if b.Some? && b.value.Dict? {
        var r := b.value.entries;
        TemplateMetadataExactly(Get(t, "metadata"), Get(r, "metadata"));
        if "spec" in r && r["spec"].Dict? {
          PodSpecExactly(t["spec"].entries, false, r["spec"].entries);
        }
        if m.Some? && s.Some? {
          TwoPuts(t, "metadata", m.value, "spec", Some(Dict(s.value)), r);
        }
        hide PodSpec, PodMeans, TemplateMetadata, TemplateMetadataMeans, Put;
      }
    }
  }

  lemma StrategyExactly(a: Option<Value>, b: Option<Value>)
    ensures UpdateStrategy(a) == Some(b) <==> Related(a, b, StrategyMeans)
  {
    if a.Some? && a.value.Dict? && b.Some? && b.value.Dict? {
      var s, u := a.value.entries, b.value.entries;
      var rolling := Get(s, "rollingUpdate");
      if Get(s, "type") == Some(Str("RollingUpdate")) && rolling.Some? && rolling.value.Dict?
         && IsOne(Get(rolling.value.entries, "maxUnavailable")) {
        var x := rolling.value.entries;
        var y := if "maxSurge" in x then x else x["maxSurge" := Int(0)];
        PutExactly(s, "rollingUpdate", Some(Dict(y)), u);
        hide Put;
        assert UpdateStrategy(a) == Some(b) <==> u == Put(s, "rollingUpdate", Some(Dict(y)));
        if "rollingUpdate" in u && u["rollingUpdate"].Dict? {
          var z := u["rollingUpdate"].entries;
          if Defaulted(x, z, "maxSurge", Int(0)) && Untouched(x, z, {"maxSurge"}) {
            forall k ensures Get(z, k) == Get(y, k) {
            }
            SameObject(z, y);
          }
          assert z == y <==> Defaulted(x, z, "maxSurge", Int(0)) && Untouched(x, z, {"maxSurge"});
        }
      } else if Untouched(s, u, {"rollingUpdate"}) && Get(u, "rollingUpdate") == Get(s, "rollingUpdate") {
        forall k ensures Get(u, k) == Get(s, k) {
        }
        SameObject(u, s);
      }
    }
  }

  lemma WorkloadDefaultsMean(o: Object, isDeployment: bool)
    ensures var w := Rewrite(o, if isDeployment then DEPLOYMENT else DAEMON_SET);
      && w.Some? && Defaulted(o, w.value, "revisionHistoryLimit", Int(10))
      && (if isDeployment then Defaulted(o, w.value, "progressDeadlineSeconds", Int(600))
          else Get(w.value, "progressDeadlineSeconds") == Get(o, "progressDeadlineSeconds"))
      && Untouched(o, w.value, {"revisionHistoryLimit", "progressDeadlineSeconds"})
  {
    WorkloadTables(isDeployment);
    var t := if isDeployment then DEPLOYMENT else DAEMON_SET;
    RewriteIsPointwise(o, t);
    assert t[0] == KeyRule("revisionHistoryLimit", Default(Int(10)));
    assert isDeployment ==> |t| == 2 && t[1] == KeyRule("progressDeadlineSeconds", Default(Int(600)));
    assert !isDeployment ==> |t| == 1;
    hide Rewrite, DEPLOYMENT, DAEMON_SET;
    var w := Rewrite(o, t).value;
    DefaultExactly(o, w, "revisionHistoryLimit", Int(10));
    DefaultExactly(o, w, "progressDeadlineSeconds", Int(600));
  }

  lemma WorkloadExactly(o: Object, isDeployment: bool, r: Object)
    ensures Workload(o, isDeployment) == Some(r) <==> WorkloadMeans(o, r, isDeployment)
  {
    WorkloadDefaultsMean(o, isDeployment);
    StrategyExactly(Get(o, "updateStrategy"), Get(r, "updateStrategy"));
    TemplateExactly(Get(o, "template"), Get(r, "template"));
    var w := Rewrite(o, if isDeployment then DEPLOYMENT else DAEMON_SET).value;
    var u := if isDeployment then Some(Get(o, "updateStrategy")) else UpdateStrategy(Get(o, "updateStrategy"));
    var t := Template(Get(o, "template"));
    hide Rewrite, DEPLOYMENT, DAEMON_SET, UpdateStrategy, Template, StrategyMeans, TemplateMeans, Related, Put;
    if u.Some? && t.Some? {
      TwoPuts(w, "updateStrategy", u.value, "template", t.value, r);
      SameElsewhere(o, w, r);
    }
  }

  /** Two results that differ at most in the strategy and the template default the same keys. */
  lemma SameElsewhere(o: Object, w: Object, r: Object)
    requires Untouched(o, w, {"revisionHistoryLimit", "progressDeadlineSeconds"})
    requires Defaulted(o, w, "revisionHistoryLimit", Int(10))
    requires Defaulted(o, w, "progressDeadlineSeconds", Int(600))
          || Get(w, "progressDeadlineSeconds") == Get(o, "progressDeadlineSeconds")
    ensures (forall j | j !in {"updateStrategy", "template"} :: Get(r, j) == Get(w, j)) <==>
      && Get(r, "revisionHistoryLimit") == Get(w, "revisionHistoryLimit")
      && Get(r, "progressDeadlineSeconds") == Get(w, "progressDeadlineSeconds")
      && Untouched(o, r, {"revisionHistoryLimit", "progressDeadlineSeconds", "updateStrategy", "template"})
  {
    hide Get, Defaulted;
  }

  lemma ServiceExactly(o: Object, r: Object)
    ensures (if Get(o, "type") == Some(Str("ClusterIP")) then Rewrite(o, SERVICE) else Some(o)) == Some(r) <==> ServiceMeans(o, r)
  {
    SpecTablesAreSound();
    TableExactly(o, SERVICE, r);
    DefaultExactly(o, r, "sessionAffinity", Str("None"));
    DefaultExactly(o, r, "internalTrafficPolicy", Str("Cluster"));
    assert SERVICE[0].key == "sessionAffinity" && SERVICE[1].key == "internalTrafficPolicy";
    assert forall k :: HasKey(SERVICE, k) <==> k in {"sessionAffinity", "internalTrafficPolicy"};
    hide Rewrite, Apply, Defaulted;
  }

  lemma DefinitionExactly(o: Object, r: Object)
    ensures Rewrite(o, CRD) == Some(r) <==> DefinitionMeans(o, r)
  {
    SpecTablesAreSound();
    TableExactly(o, CRD, r);
    OmitExactly(o, r, "preserveUnknownFields");
    DefaultExactly(o, r, "conversion", Dict(map["strategy" := Str("None")]));
    assert CRD[0].key == "preserveUnknownFields" && CRD[1].key == "conversion";
    assert forall k :: HasKey(CRD, k) <==> k in {"preserveUnknownFields", "conversion"};
    hide Rewrite, Apply, Defaulted, FalseOmitted;
  }

  lemma KindsAre(root: Root)
    ensures Is(root, "v1", "Pod") <==> IsKind(root, "v1", {"Pod"})
    ensures Is(root, "v1", "Service") <==> IsKind(root, "v1", {"Service"})
    ensures Is(root, "v1", "Namespace") <==> IsKind(root, "v1", {"Namespace"})
    ensures Is(root, "apps/v1", "Deployment") <==> IsKind(root, "apps/v1", {"Deployment"})
    ensures IsWorkload(root) <==> IsKind(root, "apps/v1", {"Deployment", "DaemonSet"})
    ensures IsKind(root, "apps/v1", {"Deployment", "DaemonSet"}) ==>
      (IsKind(root, "apps/v1", {"DaemonSet"}) <==> !IsKind(root, "apps/v1", {"Deployment"}))
    ensures Is(root, "apiextensions.k8s.io/v1", "CustomResourceDefinition")
       <==> IsKind(root, "apiextensions.k8s.io/v1", {"CustomResourceDefinition"})
    ensures SpecMatters(root) <==>
      IsKind(root, "v1", {"Pod", "Service"}) || IsKind(root, "apps/v1", {"Deployment", "DaemonSet"})
      || IsKind(root, "apiextensions.k8s.io/v1", {"CustomResourceDefinition"})
    ensures IsNamespaced(root) <==> Namespaced(root)
    ensures IsCluster(root) <==> ClusterWide(root)
  {
  }

  lemma KindsDiffer(root: Root)
    ensures IsKind(root, "v1", {"Pod", "Service"}) <==> IsKind(root, "v1", {"Pod"}) || IsKind(root, "v1", {"Service"})
    ensures !(IsKind(root, "v1", {"Pod"}) && IsKind(root, "v1", {"Service"}))
    ensures !(IsKind(root, "v1", {"Pod", "Service"}) && IsKind(root, "apps/v1", {"Deployment", "DaemonSet"}))
    ensures !(IsKind(root, "v1", {"Pod", "Service"}) && IsKind(root, "apiextensions.k8s.io/v1", {"CustomResourceDefinition"}))
    ensures !(IsKind(root, "apps/v1", {"Deployment", "DaemonSet"})
              && IsKind(root, "apiextensions.k8s.io/v1", {"CustomResourceDefinition"}))
    ensures IsKind(root, "apps/v1", {"Deployment"}) || IsKind(root, "apps/v1", {"DaemonSet"})
       <==> IsKind(root, "apps/v1", {"Deployment", "DaemonSet"})
  {
  }

  lemma SpecObjectExactly(o: Object, root: Root, r: Object)
    requires SpecMatters(root)
    ensures SpecObject(o, root) == Some(r) <==> SpecObjectMeans(o, r, root)
  {
    hide *;
    KindsAre(root);
    KindsDiffer(root);
    SpecObjectIs(o, root, r);
    ServiceExactly(o, r);
    DefinitionExactly(o, r);
    PodSpecExactly(o, true, r);
    WorkloadExactly(o, true, r);
    WorkloadExactly(o, false, r);
  }

  lemma SpecObjectIs(o: Object, root: Root, r: Object)
    ensures SpecObject(o, root) ==
      if Is(root, "v1", "Service") then (if Get(o, "type") == Some(Str("ClusterIP")) then Rewrite(o, SERVICE) else Some(o))
      else if Is(root, "apiextensions.k8s.io/v1", "CustomResourceDefinition") then Rewrite(o, CRD)
      else if Is(root, "v1", "Pod") then PodSpec(o, true)
      else if IsWorkload(root) then Workload(o, Is(root, "apps/v1", "Deployment"))
      else Some(o)
    ensures SpecObjectMeans(o, r, root) ==
      if IsKind(root, "v1", {"Pod"}) then PodMeans(o, r, true)
      else if IsKind(root, "v1", {"Service"}) then ServiceMeans(o, r)
      else if IsKind(root, "apps/v1", {"Deployment"}) then WorkloadMeans(o, r, true)
      else if IsKind(root, "apps/v1", {"DaemonSet"}) then WorkloadMeans(o, r, false)
      else DefinitionMeans(o, r)
  {
    hide Rewrite, PodSpec, Workload, Is, IsWorkload, IsKind, PodMeans, ServiceMeans, WorkloadMeans, DefinitionMeans, SERVICE, CRD;
  }

  lemma InsideExactly(a: Option<Value>, b: Option<Value>, k: string, v: Value)
    ensures DefaultInside(a, k, v).Some? && Some(DefaultInside(a, k, v).value) == b <==> InsideMeans(a, b, k, v)
  {
    if a.Some? && a.value.Dict? && b.Some? && b.value.Dict? {
      var o := a.value.entries;
      PutExactly(o, k, Some(if k in o then o[k] else v), b.value.entries);
    }
  }

  lemma SpecExactly(a: Option<Value>, root: Root, b: Option<Value>)
    ensures Spec(a, root) == Some(b) <==> SpecMeans(a, b, root)
  {
    KindsAre(root);
    InsideExactly(a, b, "finalizers", List([Str("kubernetes")]));
    if SpecMatters(root) && a.Some? && a.value.Dict? && b.Some? && b.value.Dict? {
      SpecObjectExactly(a.value.entries, root, b.value.entries);
    }
    hide Is, IsKind, IsWorkload, SpecMatters, SpecObject, SpecObjectMeans, DefaultInside, InsideMeans;
  }

  // ---------- Metadata exactly ----------

  lemma AnnotationsExactly(a: Option<Value>, isDeployment: bool, b: Option<Value>)
    ensures Annotations(a, isDeployment) == Some(b) <==> AnnotationsMean(a, b, isDeployment)
  {
    if a.Some? && a.value.Dict? {
      var o := a.value.entries;
      var rest := (o - {LAST_APPLIED}) - (if isDeployment then {REVISION} else {});
      forall k ensures Get(rest, k) == if Removed(k, isDeployment) then None else Get(o, k) {
      }
      var removed := LAST_APPLIED in o || (isDeployment && REVISION in o);
      EmptyRest(o, isDeployment, rest);
      if b.Some? && b.value.Dict? && (forall k :: Get(b.value.entries, k) == if Removed(k, isDeployment) then None else Get(o, k)) {
        SameObject(b.value.entries, rest);
      }
    }
  }

  /** Nothing is left of a dictionary that had something removed exactly when it had nothing else. */
  lemma EmptyRest(o: Object, isDeployment: bool, rest: Object)
    requires rest == (o - {LAST_APPLIED}) - (if isDeployment then {REVISION} else {})
    ensures (LAST_APPLIED in o || (isDeployment && REVISION in o)) && rest == map[] <==>
      o != map[] && forall k | k in o :: Removed(k, isDeployment)
  {
    hide LAST_APPLIED, REVISION;
    RemovedIs(isDeployment);
    if rest == map[] {
      forall k | k in o ensures Removed(k, isDeployment) {
        assert k !in rest;
      }
    }
    if o != map[] && forall k | k in o :: Removed(k, isDeployment) {
      assert o.Keys != {};
      var k :| k in o;
      assert Removed(k, isDeployment);
      assert rest.Keys == {};
    }
  }

  lemma RemovedIs(isDeployment: bool)
    ensures forall k :: Removed(k, isDeployment) <==> k == LAST_APPLIED || (isDeployment && k == REVISION)
  {
  }

  lemma NamespaceExactly(o: Object, r: Object, root: Root)
    ensures Get(r, "namespace") == Namespace(Get(o, "namespace"), root) <==>
      if IsNamespaced(root) then Defaulted(o, r, "namespace", Str("default")) else Get(r, "namespace") == Get(o, "namespace")
  {
    hide IsNamespaced;
  }

  lemma RuntimeIs()
    ensures RUNTIME == {"uid", "resourceVersion", "generation", "creationTimestamp", "managedFields"}
  {
  }

  /** What root metadata becomes, the labels of a Namespace left aside. */
  ghost predicate MetadataCore(m: Object, root: Root, p: Policy, r: Object) {
    && "deletionTimestamp" !in m && "deletionGracePeriodSeconds" !in m
    && (forall k | k in RUNTIME :: k !in r && (k in m ==> p.runtimeOk(k, m[k])))
    && !(IsCluster(root) && "namespace" in m)
    && Get(r, "namespace") == Namespace(Get(m, "namespace"), root)
    && Annotations(Get(m, "annotations"), Is(root, "apps/v1", "Deployment")) == Some(Get(r, "annotations"))
    && (forall k | k !in RUNTIME && k !in {"namespace", "annotations"} :: Get(r, k) == Get(m, k))
  }

  lemma MetadataExactly(m: Object, root: Root, p: Policy, r: Object)
    ensures Metadata(m, root, p) == Some(r) <==> MetadataCore(m, root, p, r)
  {
    RuntimeKeys();
    var rest := m - RUNTIME;
    var a := Annotations(Get(m, "annotations"), Is(root, "apps/v1", "Deployment"));
    assert forall k :: Get(rest, k) == if k in RUNTIME then None else Get(m, k);
    hide RUNTIME, Annotations, Namespace, IsCluster, Is, Put;
    if a.Some? {
      TwoPuts(rest, "namespace", Namespace(Get(m, "namespace"), root), "annotations", a.value, r);
    }
    if Metadata(m, root, p) == Some(r) {
      forall k | k in RUNTIME ensures k !in r {
        assert Get(r, k) == Get(rest, k);
      }
    } else if (forall k | k in RUNTIME :: k !in r) && (forall k | k !in RUNTIME && k !in {"namespace", "annotations"} :: Get(r, k) == Get(m, k)) {
      forall k | k !in {"namespace", "annotations"} ensures Get(r, k) == Get(rest, k) {
      }
    }
  }

  lemma CoreMeans(m: Object, root: Root, p: Policy, r: Object)
    ensures MetadataCore(m, root, p, r) <==>
      && "deletionTimestamp" !in m && "deletionGracePeriodSeconds" !in m
      && (forall k | k in {"uid", "resourceVersion", "generation", "creationTimestamp", "managedFields"} ::
            k !in r && (k in m ==> p.runtimeOk(k, m[k])))
      && (ClusterWide(root) ==> "namespace" !in m)
      && (if Namespaced(root) then Defaulted(m, r, "namespace", Str("default")) else Get(r, "namespace") == Get(m, "namespace"))
      && AnnotationsMean(Get(m, "annotations"), Get(r, "annotations"), IsKind(root, "apps/v1", {"Deployment"}))
      && Get(r, "labels") == Get(m, "labels")
      && Untouched(m, r, {"uid", "resourceVersion", "generation", "creationTimestamp", "managedFields", "namespace", "annotations",
                          "labels"})
  {
    KindsAre(root);
    AnnotationsExactly(Get(m, "annotations"), Is(root, "apps/v1", "Deployment"), Get(r, "annotations"));
    NamespaceExactly(m, r, root);
    RuntimeIs();
    RuntimeKeys();
    hide Is, IsKind, IsNamespaced, Namespaced, IsCluster, ClusterWide, Annotations, AnnotationsMean, Namespace, Defaulted, Get;
  }

  lemma MetadataMeansIs(m: Object, root: Root, p: Policy, r: Object, q: Object)
    requires q == Put(r, "labels", Get(m, "labels"))
    ensures MetadataMeans(m, r, root, p) <==>
      && MetadataCore(m, root, p, q)
      && (if IsKind(root, "v1", {"Namespace"}) then
            "name" in m && InsideMeans(Get(m, "labels"), Get(r, "labels"), "kubernetes.io/metadata.name", m["name"])
          else Get(r, "labels") == Get(m, "labels"))
  {
    CoreMeans(m, root, p, q);
    PutExactly(r, "labels", Get(m, "labels"), q);
    RuntimeIs();
    RuntimeKeys();
    TouchedIs();
    hide RUNTIME;
    SameButLabels(m, r, q, Str("default"), RUNTIME + {"namespace", "annotations", "labels"});
    assert Get(q, "namespace") == Get(r, "namespace") && Get(q, "annotations") == Get(r, "annotations");
    hide MetadataCore, IsKind, Namespaced, ClusterWide, AnnotationsMean, InsideMeans, Put, Get, Untouched, Defaulted;
  }

  lemma TouchedIs()
    ensures {"uid", "resourceVersion", "generation", "creationTimestamp", "managedFields", "namespace", "annotations", "labels"}
         == RUNTIME + {"namespace", "annotations", "labels"}
  {
  }

  lemma SameButLabels(m: Object, r: Object, q: Object, v: Value, keys: set<string>)
    requires (forall k | k != "labels" :: Get(q, k) == Get(r, k)) && "labels" in keys && "labels" !in RUNTIME
    ensures forall k | k in RUNTIME :: k in q <==> k in r
    ensures Defaulted(m, q, "namespace", v) <==> Defaulted(m, r, "namespace", v)
    ensures Untouched(m, q, keys) <==> Untouched(m, r, keys)
  {
    hide RUNTIME;
    forall k | k in RUNTIME ensures k in q <==> k in r {
      assert Get(q, k) == Get(r, k);
    }
    assert Get(q, "namespace") == Get(r, "namespace");
  }

  lemma FullMetadataExactly(m: Object, root: Root, p: Policy, r: Object)
    ensures FullMetadata(m, root, p) == Some(r) <==> MetadataMeans(m, r, root, p)
  {
    hide *;
    var q := Put(r, "labels", Get(m, "labels"));
    KindsAre(root);
    MetadataMeansIs(m, root, p, r, q);
    MetadataExactly(m, root, p, q);
    if Is(root, "v1", "Namespace") {
      LabelsExactly(m, root, p, r, q);
    } else {
      MetadataExactly(m, root, p, r);
      PlainMetadata(m, root, p, r, q);
    }
  }

  lemma PlainMetadata(m: Object, root: Root, p: Policy, r: Object, q: Object)
    requires !Is(root, "v1", "Namespace") && q == Put(r, "labels", Get(m, "labels"))
    ensures FullMetadata(m, root, p) == Metadata(m, root, p)
    ensures Metadata(m, root, p) == Some(r) ==> Get(r, "labels") == Get(m, "labels")
    ensures Get(r, "labels") == Get(m, "labels") ==> q == r
  {
    hide Is;
    if Metadata(m, root, p) == Some(r) {
      MetadataParts(m, root, p);
      RuntimeKeys();
    }
    PutBack(r, "labels");
  }

  lemma LabelsExactly(m: Object, root: Root, p: Policy, r: Object, q: Object)
    requires Is(root, "v1", "Namespace") && q == Put(r, "labels", Get(m, "labels"))
    ensures FullMetadata(m, root, p) == Some(r) <==>
      && Metadata(m, root, p) == Some(q) && "name" in m
      && InsideMeans(Get(m, "labels"), Get(r, "labels"), "kubernetes.io/metadata.name", m["name"])
  {
    hide Is;
    if Metadata(m, root, p).Some? {
      var w := Metadata(m, root, p).value;
      MetadataParts(m, root, p);
      RuntimeKeys();
      assert Get(w, "labels") == Get(m, "labels") && Get(w, "name") == Get(m, "name");
      hide Metadata;
      if "name" in m {
        InsideExactly(Get(m, "labels"), Get(r, "labels"), "kubernetes.io/metadata.name", m["name"]);
        var l := DefaultInside(Get(m, "labels"), NAME_LABEL, m["name"]);
        hide DefaultInside, InsideMeans;
        if l.Some? {
          PutExactly(w, "labels", l, r);
          PutExactly(r, "labels", Get(m, "labels"), w);
        }
      }
    }
  }

  // ---------- Documents exactly ----------

  lemma BodyExactly(o: Object, m: Value, s: Option<Value>, r: Object)
    ensures r == Put(Put(o - {"status"}, "metadata", Some(m)), "spec", s) <==>
      && Get(r, "metadata") == Some(m) && Get(r, "spec") == s && "status" !in r && Untouched(o, r, {"status", "metadata", "spec"})
  {
    var rest := o - {"status"};
    TwoPuts(rest, "metadata", Some(m), "spec", s, r);
    assert forall k :: Get(rest, k) == if k == "status" then None else Get(o, k);
    assert "status" !in r <==> Get(r, "status") == None;
    hide Put, Get;
  }

  lemma ConfiguredParts(document: Value, p: Policy, c: Value)
    requires document.Dict? && RootOf(document.entries).Some? && "metadata" in document.entries
          && document.entries["metadata"].Dict? && c.Dict?
    ensures
      var o, root := document.entries, RootOf(document.entries).value;
      var m, s := FullMetadata(o["metadata"].entries, root, p), Spec(Get(o, "spec"), root);
      Configuration(document, p) == Some(c) <==>
        m.Some? && s.Some? && c.entries == Put(Put(o - {"status"}, "metadata", Some(Dict(m.value))), "spec", s.value)
  {
    hide FullMetadata, Spec, RootOf, Put;
  }

  lemma RootsAre(o: Object)
    ensures RootOf(o).Some? <==> "apiVersion" in o && Hashable(o["apiVersion"]) && "kind" in o && Hashable(o["kind"])
    ensures RootOf(o).Some? ==> RootOf(o).value == Root(o["apiVersion"], o["kind"])
  {
    hide Hashable;
  }

  /** The configuration exists, and is this one, exactly when the two documents are related key by key as written out. */
  lemma ConfigurationExactly(document: Value, p: Policy, c: Value)
    ensures Configuration(document, p) == Some(c) <==> ConfigurationMeans(document, c, p)
  {
    hide RootOf, Hashable, FullMetadata, MetadataMeans, Spec, SpecMeans, Put, Untouched;
    if document.Dict? && c.Dict? {
      var o, r := document.entries, c.entries;
      RootsAre(o);
      if RootOf(o).Some? && "metadata" in o && o["metadata"].Dict? {
        var root := RootOf(o).value;
        ConfiguredParts(document, p, c);
        hide Configuration;
        var m, s := FullMetadata(o["metadata"].entries, root, p), Spec(Get(o, "spec"), root);
        SpecExactly(Get(o, "spec"), root, Get(r, "spec"));
        if "metadata" in r && r["metadata"].Dict? {
          FullMetadataExactly(o["metadata"].entries, root, p, r["metadata"].entries);
        }
        if m.Some? && s.Some? {
          BodyExactly(o, Dict(m.value), s.value, r);
        }
      }
    }
  }
}
