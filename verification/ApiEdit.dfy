/** The normaliser as it edits its copy, step by step; each edit is the rewriting its table describes. */
module ApiEdit {
  import opened Basics
  import opened ApiRules
  import opened ApiDefaults

  /** One rule at its key. */
  function StepAt(o: Object, step: KeyRule): Option<Object> {
    var e := Apply(step.rule, Get(o, step.key));
    if e.None? then None else Some(Put(o, step.key, e.value))
  }

  function AndThen(o: Option<Object>, rules: seq<KeyRule>): Option<Object> {
    if o.None? then None else Rewrite(o.value, rules)
  }

  lemma {:induction false} RewriteAppend(o: Object, a: seq<KeyRule>, b: seq<KeyRule>)
    ensures Rewrite(o, a + b) == AndThen(Rewrite(o, a), b)
    decreases |b|
  {
    hide Apply;
    if b == [] {
      assert a + b == a;
    } else {
      var n := |b| - 1;
      RewriteAppend(o, a, b[..n]);
      assert (a + b)[..|a + b| - 1] == a + b[..n];
    }
  }

  lemma RewriteOne(o: Object, step: KeyRule)
    ensures Rewrite(o, [step]) == StepAt(o, step)
  {
    hide Apply;
    assert [step][..0] == [];
    assert Rewrite(o, []) == Some(o);
  }

  /** A table does its rules from the `i`th on after those before it. */
  lemma RewriteNext(o: Object, rules: seq<KeyRule>, i: nat)
    requires i < |rules|
    ensures Rewrite(o, rules[i..]) ==
      var s := StepAt(o, rules[i]); if s.None? then None else Rewrite(s.value, rules[i + 1..])
  {
    hide Apply;
    RewriteOne(o, rules[i]);
    RewriteAppend(o, [rules[i]], rules[i + 1..]);
    assert rules[i..] == [rules[i]] + rules[i + 1..];
  }

  lemma RewriteNone(o: Object)
    ensures Rewrite(o, []) == Some(o)
  {
  }

  /** `_defaults`. */
  method SetDefaults(value: Object, defaults: seq<KeyRule>) returns (r: Object)
    requires forall i | 0 <= i < |defaults| :: defaults[i].rule.Default?
    ensures Rewrite(value, defaults) == Some(r)
  {
    r := value;
    RewriteNone(value);
    for i := 0 to |defaults|
      invariant Rewrite(value, defaults[..i]) == Some(r)
    {
      var d := defaults[i];
      assert defaults[..i + 1] == defaults[..i] + [d];
      RewriteAppend(value, defaults[..i], [d]);
      RewriteOne(r, d);
      PutBack(r, d.key);
      if d.key !in r {
        r := r[d.key := d.rule.value];
      }
    }
    assert defaults[..|defaults|] == defaults;
  }

  /** `_omit_false`. */
  method DropFalse(value: Object, key: string) returns (r: Object)
    ensures StepAt(value, KeyRule(key, OmitFalse)) == Some(r)
  {
    r := value;
    PutBack(value, key);
    if key in value && value[key] == Bool(false) {
      r := value - {key};
    }
  }

  /** A loop over what a key holds, changing each element. */
  method EditEach(value: Object, key: string, rules: seq<KeyRule>, mentions: set<string>) returns (r: Option<Object>)
    ensures r == StepAt(value, KeyRule(key, Each(rules, mentions)))
  {
    PutBack(value, key);
    if key !in value {
      return Some(value);
    }
    match value[key] {
      case List(items) =>
        var edited := EditElements(items, rules, mentions);
        if edited.None? {
          return None;
        }
        return Some(value[key := List(edited.value)]);
      case Dict(o) =>
        return if forall k | k in o :: Passes(Str(k), mentions) then Some(value) else None;
      case Str(s) =>
        return if forall v | v in Letters(s) :: Passes(v, mentions) then Some(value) else None;
      case _ =>
        return None;
    }
  }

  method EditElements(items: seq<Value>, rules: seq<KeyRule>, mentions: set<string>) returns (r: Option<seq<Value>>)
    ensures r == Elements(items, rules, mentions)
  {
    var edited: seq<Value> := [];
    ElementsNone(rules, mentions);
    for i := 0 to |items|
      invariant Elements(items[..i], rules, mentions) == Some(edited)
    {
      hide Element;
      assert items[..i + 1][..i] == items[..i];
      var e := Element(items[i], rules, mentions);
      if e.None? {
        ElementsFail(items, i + 1, rules, mentions);
        return None;
      }
      edited := edited + [e.value];
    }
    assert items[..|items|] == items;
    return Some(edited);
  }

  lemma ElementsNone(rules: seq<KeyRule>, mentions: set<string>)
    ensures forall items: seq<Value> {:trigger items[..0]} :: Elements(items[..0], rules, mentions) == Some([])
  {
    forall items: seq<Value> ensures items[..0] == [] {}
  }

  lemma {:induction false} ElementsFail(items: seq<Value>, i: nat, rules: seq<KeyRule>, mentions: set<string>)
    requires i <= |items| && Elements(items[..i], rules, mentions).None?
    ensures Elements(items, rules, mentions).None?
    decreases |items|
  {
    hide Element;
    if i < |items| {
      var n := |items| - 1;
      assert items[..n][..i] == items[..i];
      ElementsFail(items[..n], i, rules, mentions);
    } else {
      assert items[..i] == items;
    }
  }

  /** A probe has exactly one action, and gets its four defaults. */
  method EditProbe(container: Object, key: string) returns (r: Option<Object>)
    ensures r == StepAt(container, KeyRule(key, Within(PROBE, ACTIONS)))
  {
    PutBack(container, key);
    if key !in container {
      return Some(container);
    }
    if !container[key].Dict? {
      return None;
    }
    var probe := container[key].entries;
    if |ACTIONS * probe.Keys| != 1 {
      return None;
    }
    var edited := SetDefaults(probe, PROBE);
    return Some(container[key := Dict(edited)]);
  }


  /** `_container`. */
  method EditContainer(container: Object) returns (r: Option<Object>)
    ensures r == Rewrite(container, CONTAINER)
  {
    hide Apply, Rewrite, Get;
    SplitContainer();
    RewriteAppend(container, CONTAINER[..3], CONTAINER[3..]);
    var c := SetDefaults(container, CONTAINER[..3]);
    RewriteNext(c, CONTAINER, 3);
    c := DropFalse(c, "tty");
    RewriteNext(c, CONTAINER, 4);
    var ports := EditEach(c, "ports", PORT, {});
    if ports.None? {
      return None;
    }
    RewriteNext(ports.value, CONTAINER, 5);
    var mounts := EditEach(ports.value, "volumeMounts", MOUNT, {});
    if mounts.None? {
      return None;
    }
    RewriteNext(mounts.value, CONTAINER, 6);
    var env := EditEach(mounts.value, "env", ENV, {});
    if env.None? {
      return None;
    }
    c := env.value;
    var probes := ["livenessProbe", "readinessProbe", "startupProbe"];
    for i := 0 to 3
      invariant Rewrite(container, CONTAINER) == Rewrite(c, CONTAINER[7 + i..])
    {
      RewriteNext(c, CONTAINER, 7 + i);
      ProbeRule(i);
      var probe := EditProbe(c, probes[i]);
      if probe.None? {
        return None;
      }
      c := probe.value;
    }
    RewriteNone(c);
    assert CONTAINER[10..] == [];
    return Some(c);
  }

  lemma SplitContainer()
    ensures |CONTAINER| == 10 && CONTAINER == CONTAINER[..3] + CONTAINER[3..]
    ensures forall i | 0 <= i < 3 :: CONTAINER[..3][i].rule.Default?
    ensures CONTAINER[3] == KeyRule("tty", OmitFalse) && CONTAINER[4] == KeyRule("ports", Each(PORT, {}))
    ensures CONTAINER[5] == KeyRule("volumeMounts", Each(MOUNT, {})) && CONTAINER[6] == KeyRule("env", Each(ENV, {}))
  {
  }

  lemma ProbeRule(i: nat)
    requires i < 3
    ensures |CONTAINER| == 10
    ensures CONTAINER[7 + i] == KeyRule(["livenessProbe", "readinessProbe", "startupProbe"][i], Within(PROBE, ACTIONS))
  {
  }

  /** The containers of a Pod, one after another. */
  method EditContainers(spec: Object, key: string) returns (r: Option<Object>)
    ensures r == StepAt(spec, KeyRule(key, Each(CONTAINER, {})))
  {
    hide CONTAINER, Rewrite;
    PutBack(spec, key);
    if key !in spec {
      return Some(spec);
    }
    if !spec[key].List? {
      r := EditEach(spec, key, CONTAINER, {});
      return;
    }
    var items := spec[key].items;
    var edited: seq<Value> := [];
    ElementsNone(CONTAINER, {});
    for i := 0 to |items|
      invariant Elements(items[..i], CONTAINER, {}) == Some(edited)
    {
      assert items[..i + 1][..i] == items[..i];
      if !items[i].Dict? {
        ElementsFail(items, i + 1, CONTAINER, {});
        return None;
      }
      var container := EditContainer(items[i].entries);
      if container.None? {
        ElementsFail(items, i + 1, CONTAINER, {});
        return None;
      }
      edited := edited + [Dict(container.value)];
    }
    assert items[..|items|] == items;
    return Some(spec[key := List(edited)]);
  }

  /** `_pod_spec`. */
  method EditPodSpec(spec: Object, direct: bool) returns (r: Option<Object>)
    ensures r == PodSpec(spec, direct)
  {
    hide Rewrite, Apply, POD_DEFAULTS, POD_LISTS, CONTAINER, VOLUME, VOLUME_KEYS;
    DefaultsAreDefaults();
    ListsAre();
    var links: seq<KeyRule> := if direct then [KeyRule("enableServiceLinks", Default(Bool(true)))] else [];
    ghost var account: seq<KeyRule> :=
      if "serviceAccountName" in spec then [KeyRule("serviceAccount", Default(spec["serviceAccountName"]))] else [];
    RewriteAppend(spec, POD_DEFAULTS + links + account, POD_LISTS);
    RewriteAppend(spec, POD_DEFAULTS + links, account);
    RewriteAppend(spec, POD_DEFAULTS, links);
    var s := SetDefaults(spec, POD_DEFAULTS);
    s := SetDefaults(s, links);
    if "serviceAccountName" in spec {
      AccountNameStays(spec, direct, s);
      s := SetDefaults(s, [KeyRule("serviceAccount", Default(s["serviceAccountName"]))]);
    } else {
      AccountNameStays(spec, direct, s);
      RewriteNone(s);
    }
    assert Rewrite(spec, POD_DEFAULTS + links + account) == Some(s);
    assert POD_LISTS[0..] == POD_LISTS;
    RewriteNext(s, POD_LISTS, 0);
    var containers := EditContainers(s, "containers");
    if containers.None? {
      return None;
    }
    RewriteNext(containers.value, POD_LISTS, 1);
    var initContainers := EditContainers(containers.value, "initContainers");
    if initContainers.None? {
      return None;
    }
    RewriteNext(initContainers.value, POD_LISTS, 2);
    r := EditEach(initContainers.value, "volumes", VOLUME, VOLUME_KEYS);
    if r.Some? {
      assert POD_LISTS[3..] == [];
      RewriteNone(r.value);
    }
  }

  lemma DefaultsAreDefaults()
    ensures forall i | 0 <= i < |POD_DEFAULTS| :: POD_DEFAULTS[i].rule.Default?
  {
  }

  lemma ListsAre()
    ensures |POD_LISTS| == 3 && POD_LISTS[0] == KeyRule("containers", Each(CONTAINER, {}))
    ensures POD_LISTS[1] == KeyRule("initContainers", Each(CONTAINER, {}))
    ensures POD_LISTS[2] == KeyRule("volumes", Each(VOLUME, VOLUME_KEYS))
  {
  }

  lemma AccountNameStays(spec: Object, direct: bool, s: Object)
    requires var links: seq<KeyRule> := if direct then [KeyRule("enableServiceLinks", Default(Bool(true)))] else [];
      Rewrite(spec, POD_DEFAULTS + links) == Some(s)
    ensures Get(s, "serviceAccountName") == Get(spec, "serviceAccountName")
  {
    var links: seq<KeyRule> := if direct then [KeyRule("enableServiceLinks", Default(Bool(true)))] else [];
    var t := POD_DEFAULTS + links;
    assert DistinctKeys(t) && !HasKey(t, "serviceAccountName");
    hide Rewrite, Apply, Get;
    RewriteIsPointwise(spec, t);
  }

  method DropRuntime(metadata: Object) returns (m: Object)
    ensures m == metadata - RUNTIME
  {
    m := metadata;
    var keys := ["uid", "resourceVersion", "generation", "creationTimestamp", "managedFields"];
    for i := 0 to |keys|
      invariant m == metadata - (set j | 0 <= j < i :: keys[j])
    {
      m := m - {keys[i]};
    }
    ghost var gone := set j | 0 <= j < 5 :: keys[j];
    assert keys[0] in gone && keys[1] in gone && keys[2] in gone && keys[3] in gone && keys[4] in gone;
    assert gone == RUNTIME;
  }

  method EditAnnotations(value: Value, isDeployment: bool) returns (r: Option<Option<Value>>)
    ensures r == Annotations(Some(value), isDeployment)
  {
    if !value.Dict? {
      return None;
    }
    var annotations := value.entries;
    var removed := false;
    TwoAnnotations();
    if LAST_APPLIED in annotations {
      var last := annotations[LAST_APPLIED];
      annotations := annotations - {LAST_APPLIED};
      if !last.Str? || Utf8Length(last.s) > 262144 {
        return None;
      }
      removed := true;
    }
    if isDeployment && REVISION in annotations {
      var revision := annotations[REVISION];
      annotations := annotations - {REVISION};
      if revision != Str("1") {
        return None;
      }
      removed := true;
    }
    hide LAST_APPLIED, REVISION;
    AnnotationsLeft(value.entries, isDeployment, annotations);
    return Some(if removed && annotations == map[] then None else Some(Dict(annotations)));
  }

  /** `_metadata`. */
  method EditMetadata(metadata: Object, root: Root, p: Policy) returns (r: Option<Object>)
    ensures r == Metadata(metadata, root, p)
  {
    hide Is, IsNamespaced, IsCluster, RUNTIME, RuntimeOk, Annotations;
    if !RuntimeOk(metadata, p) {
      return None;
    }
    var m := DropRuntime(metadata);
    NotRuntime(metadata);
    if IsCluster(root) && "namespace" in m {
      return None;
    }
    PutBack(m, "namespace");
    if IsNamespaced(root) && "namespace" !in m {
      m := m["namespace" := Str("default")];
    }
    assert m == Put(metadata - RUNTIME, "namespace", Namespace(Get(metadata, "namespace"), root));
    PutBack(m, "annotations");
    if "annotations" !in m {
      NoAnnotations(Is(root, "apps/v1", "Deployment"));
      return Some(m);
    }
    var annotations := EditAnnotations(m["annotations"], Is(root, "apps/v1", "Deployment"));
    if annotations.None? {
      return None;
    }
    return Some(Put(m, "annotations", annotations.value));
  }

  lemma NoAnnotations(isDeployment: bool)
    ensures Annotations(None, isDeployment) == Some(None)
  {
  }

  lemma TwoAnnotations()
    ensures LAST_APPLIED != REVISION
  {
  }

  lemma AnnotationsLeft(a: Object, isDeployment: bool, rest: Object)
    requires forall k :: k in rest <==> k in a && k != LAST_APPLIED && (isDeployment ==> k != REVISION)
    requires forall k | k in rest :: rest[k] == a[k]
    ensures rest == (a - {LAST_APPLIED}) - (if isDeployment then {REVISION} else {})
  {
  }

  lemma NotRuntime(metadata: Object)
    ensures Get(metadata - RUNTIME, "namespace") == Get(metadata, "namespace")
    ensures Get(metadata - RUNTIME, "annotations") == Get(metadata, "annotations")
  {
  }

  /** The edit of a dictionary made on demand. */
  method EditInside(value: Object, key: string, inner: string, default: Value) returns (r: Option<Object>)
    ensures r == var e := DefaultInside(Get(value, key), inner, default); if e.None? then None else Some(Put(value, key, e))
  {
    var o := if key in value then value else value[key := Dict(map[])];
    if !o[key].Dict? {
      return None;
    }
    var nested := o[key].entries;
    SameObject(Put(nested, inner, Some(if inner in nested then nested[inner] else default)),
               if inner in nested then nested else nested[inner := default]);
    r := Some(o[key := Dict(if inner in nested then nested else nested[inner := default])]);
    var e := DefaultInside(Get(value, key), inner, default);
    SameObject(r.value, Put(value, key, e));
  }

  /** The template of a workload. */
  method EditTemplate(spec: Object) returns (r: Option<Object>)
    ensures r == var t := Template(Get(spec, "template")); if t.None? then None else Some(Put(spec, "template", t.value))
  {
    hide PodSpec, Passes;
    PutBack(spec, "template");
    if "template" !in spec {
      return Some(spec);
    }
    if !spec["template"].Dict? {
      return None;
    }
    var template := spec["template"].entries;
    PutBack(template, "metadata");
    if "metadata" in template {
      match template["metadata"] {
        case Dict(metadata) =>
          if "creationTimestamp" in metadata && metadata["creationTimestamp"] == Null {
            template := template["metadata" := Dict(metadata - {"creationTimestamp"})];
          }
        case List(_) =>
          if !Passes(template["metadata"], {"creationTimestamp"}) {
            return None;
          }
        case Str(_) =>
          if !Passes(template["metadata"], {"creationTimestamp"}) {
            return None;
          }
        case _ =>
          return None;
      }
    }
    assert Some(Get(template, "metadata")) == TemplateMetadata(Get(spec["template"].entries, "metadata"));
    assert template == Put(spec["template"].entries, "metadata", Get(template, "metadata"));
    if "spec" !in template || !template["spec"].Dict? {
      return None;
    }
    var pod := EditPodSpec(template["spec"].entries, false);
    if pod.None? {
      return None;
    }
    return Some(spec["template" := Dict(template["spec" := Dict(pod.value)])]);
  }

  /** The specification of a Deployment or DaemonSet. */
  method EditWorkload(spec: Object, isDeployment: bool) returns (r: Option<Object>)
    ensures r == Workload(spec, isDeployment)
  {
    WorkloadDefaults(isDeployment);
    WorkloadTables(isDeployment);
    hide DEPLOYMENT, DAEMON_SET, Template, Rewrite, Apply;
    ghost var t := if isDeployment then DEPLOYMENT else DAEMON_SET;
    var s := SetDefaults(spec, if isDeployment then DEPLOYMENT else DAEMON_SET);
    RewriteIsPointwise(spec, t);
    assert Get(s, "updateStrategy") == Get(spec, "updateStrategy") && Get(s, "template") == Get(spec, "template");
    PutBack(s, "updateStrategy");
    if !isDeployment && "updateStrategy" in s {
      if !s["updateStrategy"].Dict? {
        return None;
      }
      var strategy := s["updateStrategy"].entries;
      if "type" in strategy && strategy["type"] == Str("RollingUpdate") && "rollingUpdate" in strategy
         && strategy["rollingUpdate"].Dict? && IsOne(Get(strategy["rollingUpdate"].entries, "maxUnavailable")) {
        var rolling := strategy["rollingUpdate"].entries;
        if "maxSurge" !in rolling {
          rolling := rolling["maxSurge" := Int(0)];
        }
        s := s["updateStrategy" := Dict(strategy["rollingUpdate" := Dict(rolling)])];
      }
    }
    r := EditTemplate(s);
  }

  lemma WorkloadDefaults(isDeployment: bool)
    ensures var t := if isDeployment then DEPLOYMENT else DAEMON_SET; forall i | 0 <= i < |t| :: t[i].rule.Default?
  {
  }

  lemma ServiceDefaults()
    ensures forall i | 0 <= i < |SERVICE| :: SERVICE[i].rule.Default?
    ensures |CRD| == 2 && CRD[0] == KeyRule("preserveUnknownFields", OmitFalse)
    ensures CRD[1..] == [CRD[1]] && CRD[1].rule.Default?
  {
  }

  method EditSpec(spec: Object, root: Root) returns (r: Option<Object>)
    ensures r == SpecObject(spec, root)
  {
    ServiceDefaults();
    hide SERVICE, CRD, PodSpec, Workload, Rewrite, Is, IsWorkload;
    if Is(root, "v1", "Service") {
      if Get(spec, "type") == Some(Str("ClusterIP")) {
        var s := SetDefaults(spec, SERVICE);
        return Some(s);
      }
      return Some(spec);
    }
    if Is(root, "apiextensions.k8s.io/v1", "CustomResourceDefinition") {
      assert CRD[0..] == CRD;
      RewriteNext(spec, CRD, 0);
      var s := DropFalse(spec, "preserveUnknownFields");
      s := SetDefaults(s, [CRD[1]]);
      return Some(s);
    }
    if Is(root, "v1", "Pod") {
      r := EditPodSpec(spec, true);
      return;
    }
    if IsWorkload(root) {
      r := EditWorkload(spec, Is(root, "apps/v1", "Deployment"));
      return;
    }
    return Some(spec);
  }

  /** `configuration`, on a copy of the document. */
  method EditConfiguration(document: Value, p: Policy) returns (r: Option<Value>)
    ensures r == Configuration(document, p)
  {
    hide Metadata, SpecObject, Is, IsNamespaced, IsCluster, DefaultInside, RootOf, SpecMatters;
    if !document.Dict? || RootOf(document.entries).None? {
      return None;
    }
    var root := RootOf(document.entries).value;
    var value := document.entries - {"status"};
    if "metadata" !in value || !value["metadata"].Dict? {
      return None;
    }
    var metadata := EditMetadata(value["metadata"].entries, root, p);
    if metadata.None? {
      return None;
    }
    value := value["metadata" := Dict(metadata.value)];
    assert Get(value, "spec") == Get(document.entries, "spec");
    if Is(root, "v1", "Namespace") {
      if "name" !in metadata.value {
        return None;
      }
      var labelled := EditInside(metadata.value, "labels", NAME_LABEL, metadata.value["name"]);
      if labelled.None? {
        return None;
      }
      value := value["metadata" := Dict(labelled.value)];
      assert FullMetadata(document.entries["metadata"].entries, root, p) == Some(labelled.value);
      assert value == Put(document.entries - {"status"}, "metadata", Some(Dict(labelled.value)));
      assert Get(value, "spec") == Get(document.entries, "spec");
      var finalized := EditInside(value, "spec", "finalizers", List([Str("kubernetes")]));
      if finalized.None? {
        return None;
      }
      return Some(Dict(finalized.value));
    }
    PutBack(value, "spec");
    if "spec" !in value || value["spec"].Null? || !SpecMatters(root) {
      return Some(Dict(value));
    }
    if !value["spec"].Dict? {
      return None;
    }
    var spec := EditSpec(value["spec"].entries, root);
    if spec.None? {
      return None;
    }
    return Some(Dict(value["spec" := Dict(spec.value)]));
  }
}
