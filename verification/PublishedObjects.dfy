/**
 What the reconciler publishes and reports, in terms of the resource: the fields of the objects
 it leaves in the cluster, and those of the status it writes.
 */
module PublishedObjects {
  import opened Wrappers
  import opened Controller
  import opened ControllerRuns

  // ----- Objects -----

  /** The labels the resource gives its ConfigMap. */
  function OwnLabels(cr: Resource): map<string, string> {
    if cr.spec.configMap.Some? then cr.spec.configMap.value.labels else map[]
  }

  /** Labels, annotations and owner of an object that belongs to `cr`. */
  ghost predicate BelongsTo(lib: Library, cr: Resource, meta: ObjectMeta) {
    && (forall l :: l in meta.labels <==>
          l == "app.kubernetes.io/managed-by" || l == "stellar.anchor-tools.io/kind" || l in OwnLabels(cr))
    && (forall l | l in OwnLabels(cr) :: meta.labels[l] == OwnLabels(cr)[l])
    && ("app.kubernetes.io/managed-by" !in OwnLabels(cr) ==> meta.labels["app.kubernetes.io/managed-by"] == "stellar-toml-lint")
    && ("stellar.anchor-tools.io/kind" !in OwnLabels(cr) ==> meta.labels["stellar.anchor-tools.io/kind"] == "StellarInfoFile")
    && meta.annotations.Keys == {"stellar.anchor-tools.io/resource", "stellar.toml.lint/checksum-sha256"}
    && meta.annotations["stellar.anchor-tools.io/resource"] == cr.namespace + "/" + cr.name
    && meta.annotations["stellar.toml.lint/checksum-sha256"] == lib.checksum(cr.spec.toml)
    && meta.owner == (if cr.uid == Some("") then None else cr.uid)
  }

  /** The name of the resource's ConfigMap. */
  function MapName(cr: Resource): string {
    match cr.spec.configMap
    case Some(ConfigMapSpec(Some(name), _, _)) => name
    case _ => cr.name + "-stellar-toml"
  }

  /** `o` is the ConfigMap of `cr`: one key, holding the spec's text. */
  ghost predicate ConfigMapOf(lib: Library, cr: Resource, o: Stored<ConfigData>) {
    && o.meta.namespace == cr.namespace && o.meta.name == MapName(cr) && BelongsTo(lib, cr, o.meta)
    && match cr.spec.configMap
       case Some(ConfigMapSpec(_, Some(key), _)) => o.body == map[key := cr.spec.toml]
       case _ => o.body == map["stellar.toml" := cr.spec.toml]
  }

  /** `o` is the Ingress of `cr`, which asks for one. */
  ghost predicate IngressOf(lib: Library, cr: Resource, o: Stored<IngressBody>) {
    && cr.spec.ingress.Some?
    && var i := cr.spec.ingress.value;
    && o.meta.namespace == cr.namespace && o.meta.name == cr.name + "-stellar-toml" && BelongsTo(lib, cr, o.meta)
    && o.body.host == i.host && o.body.service == i.service
    && (match i.path case Some(path) => o.body.path == path case None => o.body.path == "/.well-known/stellar.toml")
    && (match i.pathType case Some(kind) => o.body.pathType == kind case None => o.body.pathType == "Prefix")
    && (match i.port case Some(port) => o.body.port == port case None => o.body.port == Number(80))
    && o.body.className == (if i.className == Some("") then None else i.className)
  }

  /** The linter passes the resource's text. */
  predicate Passes(lib: Library, cr: Resource) {
    lib.lint(cr.spec.toml, cr.spec.domain, cr.spec.strict).valid
  }

  lemma MetaIs(lib: Library, cr: Resource, name: string)
    ensures var meta := CommonMeta(lib, cr, name); meta.name == name && meta.namespace == cr.namespace && BelongsTo(lib, cr, meta)
  {
    LabelsAre(cr);
    AnnotationsAre(lib, cr);
  }

  lemma LabelsAre(cr: Resource)
    ensures var own := map["app.kubernetes.io/managed-by" := "stellar-toml-lint", "stellar.anchor-tools.io/kind" := "StellarInfoFile"];
      && "app.kubernetes.io/managed-by" != "stellar.anchor-tools.io/kind"
      && (cr.spec.configMap.None? ==> own + OwnLabels(cr) == own)
  {
    assert "app.kubernetes.io/managed-by"[0] == 'a' && "stellar.anchor-tools.io/kind"[0] == 's';
  }

  lemma AnnotationsAre(lib: Library, cr: Resource)
    ensures "stellar.anchor-tools.io/resource" != "stellar.toml.lint/checksum-sha256"
  {
    assert "stellar.anchor-tools.io/resource"[8] == 'a' && "stellar.toml.lint/checksum-sha256"[8] == 't';
  }

  lemma BelongsWithout(lib: Library, cr: Resource, a: ObjectMeta, b: ObjectMeta)
    requires a.(resourceVersion := None) == b.(resourceVersion := None) && BelongsTo(lib, cr, b)
    ensures a.name == b.name && a.namespace == b.namespace && BelongsTo(lib, cr, a)
  {
    hide OwnLabels;
    assert a.labels == a.(resourceVersion := None).labels == b.labels;
    assert a.annotations == a.(resourceVersion := None).annotations == b.annotations;
    assert a.owner == a.(resourceVersion := None).owner == b.owner;
    assert a.name == a.(resourceVersion := None).name == b.name;
    assert a.namespace == a.(resourceVersion := None).namespace == b.namespace;
  }

  lemma ConfigMapIs(lib: Library, cr: Resource, o: Stored<ConfigData>)
    requires Renders(o, BuildConfigMap(lib, cr))
    ensures ConfigMapOf(lib, cr, o) && KeyOf(BuildConfigMap(lib, cr)) == (cr.namespace, MapName(cr))
  {
    hide BelongsTo, CommonMeta;
    var desired := BuildConfigMap(lib, cr);
    MetaIs(lib, cr, desired.meta.name);
    MetaIs(lib, cr, MapName(cr));
    BelongsWithout(lib, cr, o.meta, desired.meta);
  }

  lemma IngressIs(lib: Library, cr: Resource, o: Stored<IngressBody>)
    requires BuildIngress(lib, cr).Some? && Renders(o, BuildIngress(lib, cr).value)
    ensures IngressOf(lib, cr, o) && KeyOf(BuildIngress(lib, cr).value) == (cr.namespace, cr.name + "-stellar-toml")
  {
    hide BelongsTo, CommonMeta;
    var desired := BuildIngress(lib, cr).value;
    MetaIs(lib, cr, cr.name + "-stellar-toml");
    BelongsWithout(lib, cr, o.meta, desired.meta);
  }

  lemma IngressAsked(lib: Library, cr: Resource)
    ensures BuildIngress(lib, cr).Some? <==> cr.spec.ingress.Some?
  {
  }

  // ----- Along a run -----

  /**
   Along every run, whichever calls fail, each object in the cluster was there before or has
   the fields that a resource of the run asks for, whose text the linter passed.
   */
  lemma RunPublishes(lib: Library, faults: nat -> Fault, w: World, steps: seq<Step>)
    ensures var w1 := Run(lib, faults, w, steps);
      && (forall k | k in w1.configMaps.objects ::
            || (k in w.configMaps.objects && w1.configMaps.objects[k] == w.configMaps.objects[k])
            || exists i | 0 <= i < |steps| ::
                 && Passes(lib, steps[i].cr) && k == (steps[i].cr.namespace, MapName(steps[i].cr))
                 && ConfigMapOf(lib, steps[i].cr, w1.configMaps.objects[k]))
      && (forall k | k in w1.ingresses.objects ::
            || (k in w.ingresses.objects && w1.ingresses.objects[k] == w.ingresses.objects[k])
            || exists i | 0 <= i < |steps| ::
                 && Passes(lib, steps[i].cr) && k == (steps[i].cr.namespace, steps[i].cr.name + "-stellar-toml")
                 && IngressOf(lib, steps[i].cr, w1.ingresses.objects[k]))
  {
    hide Run, BuildConfigMap, BuildIngress, Renders, ConfigMapOf, IngressOf, MapName;
    OnlyValidatedContent(lib, faults, w, steps);
    var w1 := Run(lib, faults, w, steps);
    forall k | k in w1.configMaps.objects
      && !(k in w.configMaps.objects && w1.configMaps.objects[k] == w.configMaps.objects[k])
      ensures exists i | 0 <= i < |steps| ::
        && Passes(lib, steps[i].cr) && k == (steps[i].cr.namespace, MapName(steps[i].cr))
        && ConfigMapOf(lib, steps[i].cr, w1.configMaps.objects[k])
    {
      var i :| 0 <= i < |steps| && WantedConfigMap(lib, steps[i], k, w1.configMaps.objects[k]);
      ConfigMapIs(lib, steps[i].cr, w1.configMaps.objects[k]);
    }
    forall k | k in w1.ingresses.objects
      && !(k in w.ingresses.objects && w1.ingresses.objects[k] == w.ingresses.objects[k])
      ensures exists i | 0 <= i < |steps| ::
        && Passes(lib, steps[i].cr) && k == (steps[i].cr.namespace, steps[i].cr.name + "-stellar-toml")
        && IngressOf(lib, steps[i].cr, w1.ingresses.objects[k])
    {
      var i :| 0 <= i < |steps| && WantedIngress(lib, steps[i], k, w1.ingresses.objects[k]);
      IngressIs(lib, steps[i].cr, w1.ingresses.objects[k]);
    }
  }

  /**
   A pass over a resource whose text the linter passes: when it reports no sync error, the
   cluster holds the resource's ConfigMap, and its Ingress if it asks for one, with the fields
   it asks for; and without faults it reports none.
   */
  lemma SuccessPublishes(lib: Library, faults: nat -> Fault, w: World, s: Step)
    requires Passes(lib, s.cr)
    ensures var (w1, outcome) := StepOf(lib, faults, w, s); var cr := s.cr;
      && |outcome.conditions| == 2
      && (!outcome.conditions[1].status ==>
            && (cr.namespace, MapName(cr)) in w1.configMaps.objects
            && ConfigMapOf(lib, cr, w1.configMaps.objects[(cr.namespace, MapName(cr))])
            && outcome.published.configMapName == Some(MapName(cr))
            && outcome.published.lastSyncedTime == Some(s.clock.synced)
            && (cr.spec.ingress.Some? ==>
                  && (cr.namespace, cr.name + "-stellar-toml") in w1.ingresses.objects
                  && IngressOf(lib, cr, w1.ingresses.objects[(cr.namespace, cr.name + "-stellar-toml")])
                  && outcome.published.ingressName == Some(cr.name + "-stellar-toml")))
    ensures (forall n :: faults(n).Fine?) ==>
      var outcome := StepOf(lib, faults, w, s).1; |outcome.conditions| == 2 && !outcome.conditions[1].status && outcome.syncError.None?
  {
    hide BuildConfigMap, BuildIngress, Renders, ConfigMapOf, IngressOf, MapName, StepOf, FindCondition;
    PublishedIsTrue(lib, faults, w, s);
    PublishedNames(lib, faults, w, s);
    IngressAsked(lib, s.cr);
    var (w1, outcome) := StepOf(lib, faults, w, s);
    if !outcome.conditions[1].status {
      var key := KeyOf(BuildConfigMap(lib, s.cr));
      ConfigMapIs(lib, s.cr, w1.configMaps.objects[key]);
      if s.cr.spec.ingress.Some? {
        IngressIs(lib, s.cr, w1.ingresses.objects[KeyOf(BuildIngress(lib, s.cr).value)]);
      }
    }
  }

  lemma PublishedNames(lib: Library, faults: nat -> Fault, w: World, s: Step)
    requires Verdict(lib, s.cr.spec).valid
    ensures var outcome := StepOf(lib, faults, w, s).1;
      && |outcome.conditions| == 2
      && (!outcome.conditions[1].status ==>
            && outcome.published.configMapName == Some(KeyOf(BuildConfigMap(lib, s.cr)).1)
            && outcome.published.lastSyncedTime == Some(s.clock.synced)
            && (BuildIngress(lib, s.cr).Some? ==>
                  outcome.published.ingressName == Some(KeyOf(BuildIngress(lib, s.cr).value).1)))
  {
    hide BuildConfigMap, BuildIngress, Applied, FindCondition;
  }

  // ----- The status -----

  /** What the message of a published ConfigMap calls it. */
  function UpToDate(name: string): string {
    "ConfigMap " + name + " is up to date"
  }

  /**
   What every pass reports: whether the linter passed the text, with its message and counts; and
   whether publishing failed, was done, or was not tried. A pass that publishes nothing leaves
   what the resource's status says is published.
   */
  lemma PassReports(lib: Library, faults: nat -> Fault, w: World, s: Step)
    ensures var (w1, outcome) := StepOf(lib, faults, w, s); var verdict := lib.lint(s.cr.spec.toml, s.cr.spec.domain, s.cr.spec.strict);
      && |outcome.conditions| == 2 && outcome.validation == verdict
      && var valid, sync := outcome.conditions[0], outcome.conditions[1];
      && valid.kind == Valid && valid.status == verdict.valid && valid.message == verdict.message
      && valid.reason == (if Passes(lib, s.cr) then "LintPassed" else "LintFailed")
      && valid.observedGeneration == s.cr.generation && sync.observedGeneration == s.cr.generation
      && sync.kind == SyncError
      && (sync.status ==> Passes(lib, s.cr) && sync.reason == "PublishFailed")
      && (!sync.status && Passes(lib, s.cr) ==> sync.reason == "Published" && sync.message == UpToDate(MapName(s.cr)))
      && (!Passes(lib, s.cr) ==>
            && sync.reason == "Skipped" && sync.message == "sync skipped until the spec passes validation"
            && w1.configMaps == w.configMaps && w1.ingresses == w.ingresses
            && outcome.published == PreviouslyPublished(StatusIn(w, s.cr)))
  {
    hide BuildConfigMap, BuildIngress, Applied, FindCondition, MapName;
    NameIs(lib, s.cr);
  }

  /**
   The status that is written holds what the pass reports. A pass that ends without an error has
   written it; one that ends with one says that publishing failed, with that error, or that the
   status could not be written.
   */
  lemma StatusIsKept(lib: Library, faults: nat -> Fault, w: World, s: Step)
    ensures var (w1, outcome) := StepOf(lib, faults, w, s); var key := (s.cr.namespace, s.cr.name);
      && |outcome.conditions| == 2
      && (forall k | k in w1.statuses && k != key :: k in w.statuses && w1.statuses[k] == w.statuses[k])
      && (w1.statuses == w.statuses || (key in w1.statuses && w1.statuses[key] == Written(lib, s.cr, outcome)))
      && (outcome.syncError.None? ==>
            key in w1.statuses && w1.statuses[key] == Written(lib, s.cr, outcome) && !outcome.conditions[1].status)
      && (outcome.conditions[1].status ==>
            outcome.syncError.Some? && outcome.conditions[1].message == "failed to publish: " + outcome.syncError.value)
      && (outcome.syncError.Some? && !outcome.conditions[1].status ==>
            exists e :: outcome.syncError.value == "status patch failed: " + e)
  {
    hide BuildConfigMap, BuildIngress, Applied, FindCondition, PublishedTo;
    var before := PreviouslyPublished(StatusIn(w, s.cr));
    StatusesStay(lib, faults, w, s.cr, before, s.clock.synced);
    var w1 := if Passes(lib, s.cr) then PublishedTo(lib, faults, w, s.cr, before, s.clock.synced).0 else w;
    var outcome := StepOf(lib, faults, w, s).1;
    if outcome.syncError.Some? && !outcome.conditions[1].status {
      assert outcome.syncError.value == "status patch failed: " + faults(w1.calls).error;
    }
  }

  lemma StatusesStay(lib: Library, faults: nat -> Fault, w: World, cr: Resource, before: Published, now: Time)
    ensures PublishedTo(lib, faults, w, cr, before, now).0.statuses == w.statuses
  {
    hide BuildConfigMap, BuildIngress, Applied;
  }

  function Written(lib: Library, cr: Resource, outcome: Outcome): Status {
    Status(cr.generation, outcome.conditions, lib.lint(cr.spec.toml, cr.spec.domain, cr.spec.strict).counts, outcome.published)
  }

  lemma NameIs(lib: Library, cr: Resource)
    ensures BuildConfigMap(lib, cr).meta.name == MapName(cr)
  {
  }
}
