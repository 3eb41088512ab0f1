/** What follows from the exact form of configurations: explicit values count, and one document in full. */
module ApiExamples {
  import opened Basics
  import opened ApiRules
  import opened ApiDefaults
  import opened ApiMeaning

  /** The keys of a specification whose values are looked into, or dropped when false. */
  const LOOKED_INTO := {"containers", "initContainers", "volumes", "preserveUnknownFields", "updateStrategy", "template"}

  lemma SpecKeeps(o: Object, r: Object, root: Root, k: string)
    requires SpecObjectMeans(o, r, root) && k in o && k !in LOOKED_INTO
    ensures Get(r, k) == Some(o[k])
  {
    hide IsKind, EachRelated, Related, ContainerMeans, VolumeMeans, StrategyMeans, TemplateMeans;
    assert IsKind(root, "v1", {"Pod"}) ==> PodKey(o, r, true, k);
    assert "containers" in LOOKED_INTO && "initContainers" in LOOKED_INTO && "volumes" in LOOKED_INTO;
    assert "preserveUnknownFields" in LOOKED_INTO && "updateStrategy" in LOOKED_INTO && "template" in LOOKED_INTO;
    hide LOOKED_INTO;
  }

  /** A document of a kind whose specification is defaulted, with this specification. */
  predicate HasSpec(document: Value, root: Root, spec: Object) {
    && document.Dict? && RootOf(document.entries) == Some(root) && SpecMatters(root)
    && Get(document.entries, "spec") == Some(Dict(spec))
  }

  lemma ConfiguredSpec(document: Value, p: Policy, root: Root, spec: Object)
    requires HasSpec(document, root, spec) && Configuration(document, p).Some?
    ensures var c := Configuration(document, p).value;
      && c.Dict? && "spec" in c.entries && c.entries["spec"].Dict?
      && SpecObjectMeans(spec, c.entries["spec"].entries, root)
  {
    ConfigurationExactly(document, p, Configuration(document, p).value);
    KindsAre(root);
    NamespaceHasNoTable(root);
    hide Configuration, MetadataMeans, SpecObjectMeans, InsideMeans, IsKind, SpecMatters;
  }

  lemma NamespaceHasNoTable(root: Root)
    ensures !(SpecMatters(root) && Is(root, "v1", "Namespace"))
  {
  }

  /** Two documents that give one key of their specifications different explicit values never match. */
  lemma ExplicitValuesMatter(a: Value, b: Value, p: Policy, root: Root, x: Object, y: Object, k: string)
    requires HasSpec(a, root, x) && HasSpec(b, root, y)
    requires k in x && k in y && x[k] != y[k] && k !in LOOKED_INTO
    ensures !Matches(a, b, p)
  {
    MatchesIsSameConfiguration(a, b, p);
    hide Matches, Configuration, HasSpec, LOOKED_INTO, SpecObjectMeans, Comparable;
    if Matches(a, b, p) {
      ConfiguredSpec(a, p, root, x);
      ConfiguredSpec(b, p, root, y);
      var r := Configuration(a, p).value.entries["spec"].entries;
      SpecKeeps(x, r, root, k);
      SpecKeeps(y, r, root, k);
    }
  }

  /** Nor do two workloads whose templates do so in their Pod specifications. */
  lemma ExplicitTemplateValuesMatter(a: Value, b: Value, p: Policy, root: Root, x: Object, y: Object, k: string)
    requires HasSpec(a, root, x) && HasSpec(b, root, y) && IsWorkload(root)
    requires "template" in x && x["template"].Dict? && "template" in y && y["template"].Dict?
    requires var s, t := Get(x["template"].entries, "spec"), Get(y["template"].entries, "spec");
      && s.Some? && s.value.Dict? && t.Some? && t.value.Dict?
      && k in s.value.entries && k in t.value.entries && s.value.entries[k] != t.value.entries[k]
    requires k !in LOOKED_INTO
    ensures !Matches(a, b, p)
  {
    MatchesIsSameConfiguration(a, b, p);
    hide Matches, Configuration, HasSpec, LOOKED_INTO, SpecObjectMeans, Comparable;
    if Matches(a, b, p) {
      ConfiguredSpec(a, p, root, x);
      ConfiguredSpec(b, p, root, y);
      var r := Configuration(a, p).value.entries["spec"].entries;
      TemplateKeeps(x, r, root, k);
      TemplateKeeps(y, r, root, k);
    }
  }

  lemma TemplateKeeps(o: Object, r: Object, root: Root, k: string)
    requires SpecObjectMeans(o, r, root) && IsWorkload(root) && "template" in o && o["template"].Dict? && k !in LOOKED_INTO
    requires var s := Get(o["template"].entries, "spec"); s.Some? && s.value.Dict? && k in s.value.entries
    ensures "template" in r && r["template"].Dict? && "spec" in r["template"].entries && r["template"].entries["spec"].Dict?
    ensures Get(r["template"].entries["spec"].entries, k) == Some(o["template"].entries["spec"].entries[k])
  {
    KindsAre(root);
    KindsDiffer(root);
    assert TemplateMeans(o["template"].entries, r["template"].entries);
    var s, t := o["template"].entries["spec"].entries, r["template"].entries["spec"].entries;
    assert PodKey(s, t, false, k);
    assert "containers" in LOOKED_INTO && "initContainers" in LOOKED_INTO && "volumes" in LOOKED_INTO;
    hide LOOKED_INTO, IsKind, EachRelated;
  }

  // ---------- One Pod in full ----------

  function ExamplePod(restartPolicy: string): Value {
    Dict(map[
      "apiVersion" := Str("v1"), "kind" := Str("Pod"), "status" := Dict(map[]),
      "metadata" := Dict(map["name" := Str("driver"), "uid" := Str("u-1")]),
      "spec" := Dict(ExampleSpec(restartPolicy))])
  }

  function ExampleSpec(restartPolicy: string): Object {
    map["restartPolicy" := Str(restartPolicy), "serviceAccountName" := Str("driver"),
        "containers" := List([Dict(ExampleContainer())])]
  }

  function ExampleContainer(): Object {
    map["name" := Str("main"), "tty" := Bool(false), "terminationMessagePolicy" := Str("FallbackToLogsOnError"),
        "ports" := List([Dict(map["containerPort" := Int(8080)])])]
  }

  function ConfiguredContainer(): Object {
    map["name" := Str("main"), "terminationMessagePolicy" := Str("FallbackToLogsOnError"),
        "terminationMessagePath" := Str("/dev/termination-log"), "resources" := Dict(map[]),
        "ports" := List([Dict(map["containerPort" := Int(8080), "protocol" := Str("TCP")])])]
  }

  function ConfiguredSpecOf(restartPolicy: string): Object {
    map["restartPolicy" := Str(restartPolicy), "serviceAccountName" := Str("driver"), "serviceAccount" := Str("driver"),
        "dnsPolicy" := Str("ClusterFirst"), "securityContext" := Dict(map[]), "terminationGracePeriodSeconds" := Int(30),
        "schedulerName" := Str("default-scheduler"), "enableServiceLinks" := Bool(true),
        "containers" := List([Dict(ConfiguredContainer())])]
  }

  function ConfiguredPod(restartPolicy: string): Value {
    Dict(map[
      "apiVersion" := Str("v1"), "kind" := Str("Pod"),
      "metadata" := Dict(map["name" := Str("driver"), "namespace" := Str("default")]),
      "spec" := Dict(ConfiguredSpecOf(restartPolicy))])
  }

  lemma ExampleContainerMeans()
    ensures ContainerMeans(ExampleContainer(), ConfiguredContainer())
  {
    forall k ensures ContainerKey(ExampleContainer(), ConfiguredContainer(), k) {
    }
  }

  lemma ExampleSpecMeans(restartPolicy: string)
    ensures PodMeans(ExampleSpec(restartPolicy), ConfiguredSpecOf(restartPolicy), true)
  {
    ExampleContainerMeans();
    hide ContainerMeans, ExampleContainer, ConfiguredContainer;
    forall k ensures PodKey(ExampleSpec(restartPolicy), ConfiguredSpecOf(restartPolicy), true, k) {
    }
  }

  /** This Pod has this configuration; whatever its restart policy says, it keeps it. */
  lemma ExampleConfiguration(restartPolicy: string, p: Policy)
    requires p.runtimeOk("uid", Str("u-1"))
    ensures Configuration(ExamplePod(restartPolicy), p) == Some(ConfiguredPod(restartPolicy))
  {
    ExampleSpecMeans(restartPolicy);
    ExampleMetadata(p);
    hide *;
    ExamplePodMeans(restartPolicy, p);
    ConfigurationExactly(ExamplePod(restartPolicy), p, ConfiguredPod(restartPolicy));
  }

  lemma ExamplePodMeans(restartPolicy: string, p: Policy)
    requires PodMeans(ExampleSpec(restartPolicy), ConfiguredSpecOf(restartPolicy), true)
    requires MetadataMeans(map["name" := Str("driver"), "uid" := Str("u-1")],
                           map["name" := Str("driver"), "namespace" := Str("default")], Root(Str("v1"), Str("Pod")), p)
    ensures ConfigurationMeans(ExamplePod(restartPolicy), ConfiguredPod(restartPolicy), p)
  {
    hide ExampleSpec, ConfiguredSpecOf, PodMeans, MetadataMeans;
    var o, r := ExamplePod(restartPolicy).entries, ConfiguredPod(restartPolicy).entries;
    ExampleSpecIs(restartPolicy);
    hide SpecMeans;
    forall k | k !in {"status", "metadata", "spec"} ensures Get(r, k) == Get(o, k) {
    }
  }

  lemma ExampleSpecIs(restartPolicy: string)
    requires PodMeans(ExampleSpec(restartPolicy), ConfiguredSpecOf(restartPolicy), true)
    ensures SpecMeans(Some(Dict(ExampleSpec(restartPolicy))), Some(Dict(ConfiguredSpecOf(restartPolicy))), Root(Str("v1"), Str("Pod")))
  {
    hide ExampleSpec, ConfiguredSpecOf, PodMeans;
  }

  lemma ExampleMetadata(p: Policy)
    requires p.runtimeOk("uid", Str("u-1"))
    ensures MetadataMeans(map["name" := Str("driver"), "uid" := Str("u-1")],
                          map["name" := Str("driver"), "namespace" := Str("default")], Root(Str("v1"), Str("Pod")), p)
  {
  }

  /** A Pod never restarted and one always restarted do not match, though the second says only what the default is. */
  lemma RestartPolicyMatters(p: Policy)
    ensures !Matches(ExamplePod("Never"), ExamplePod("Always"), p)
  {
    var root := Root(Str("v1"), Str("Pod"));
    assert "restartPolicy" !in LOOKED_INTO;
    hide Matches, LOOKED_INTO;
    ExplicitValuesMatter(ExamplePod("Never"), ExamplePod("Always"), p, root, ExampleSpec("Never"), ExampleSpec("Always"),
                         "restartPolicy");
  }

  /** Keys of objects: a namespaced kind falls back to the default namespace, a cluster kind has none. */
  lemma ExampleKeys(restartPolicy: string)
    ensures ObjectKey(ExamplePod(restartPolicy)) == Some((Root(Str("v1"), Str("Pod")), Str("default"), Str("driver")))
    ensures ObjectKey(Dict(map["apiVersion" := Str("v1"), "kind" := Str("Namespace"), "metadata" := Dict(map["name" := Str("n")])]))
         == Some((Root(Str("v1"), Str("Namespace")), Str(""), Str("n")))
    ensures ObjectKey(Dict(map["apiVersion" := Str("v1"), "kind" := Str("Pod"),
                               "metadata" := Dict(map["name" := Str("n"), "namespace" := Str("s")])]))
         == Some((Root(Str("v1"), Str("Pod")), Str("s"), Str("n")))
  {
    hide ExampleSpec;
  }
}
