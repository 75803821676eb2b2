/**
 The reconciler of `integrations/k8s/controller.ts` against an API server that may
 fail any call, before or after it took effect. Linting and the checksum are
 functions the code imports, kept as parameters.
 */
module Controller {
  import opened Wrappers

  // ----- Objects -----

  type Time = string
  type Key = (string, string)

  datatype ObjectMeta = ObjectMeta(
    name: string,
    namespace: string,
    labels: map<string, string>,
    annotations: map<string, string>,
    owner: Option<string>,
    resourceVersion: Option<nat>)

  datatype Stored<+T> = Stored(meta: ObjectMeta, body: T)

  type ConfigData = map<string, string>

  datatype Port = Number(n: int) | Name(s: string)

  datatype IngressBody = IngressBody(
    className: Option<string>, host: string, path: string, pathType: string, service: string, port: Port)

  datatype ConfigMapSpec = ConfigMapSpec(name: Option<string>, key: Option<string>, labels: map<string, string>)

  datatype IngressSpec = IngressSpec(
    host: string, path: Option<string>, pathType: Option<string>, className: Option<string>, service: string,
    port: Option<Port>)

  datatype Spec = Spec(
    toml: string, domain: Option<string>, strict: Option<bool>, configMap: Option<ConfigMapSpec>,
    ingress: Option<IngressSpec>)

  datatype Resource = Resource(name: string, namespace: string, uid: Option<string>, generation: Option<nat>, spec: Spec)

  datatype ConditionType = Valid | SyncError

  datatype Condition = Condition(
    kind: ConditionType, status: bool, reason: string, message: string, lastTransitionTime: Time,
    observedGeneration: Option<nat>)

  datatype Published = Published(configMapName: Option<string>, ingressName: Option<string>, lastSyncedTime: Option<Time>)

  datatype Status = Status(observedGeneration: Option<nat>, conditions: seq<Condition>, counts: (nat, nat, nat), published: Published)

  datatype Validation = Validation(valid: bool, counts: (nat, nat, nat), message: string)

  /** What the controller imports: the linter and the checksum. */
  datatype Library = Library(lint: (string, Option<string>, Option<bool>) -> Validation, checksum: string -> string)

  function Verdict(lib: Library, spec: Spec): Validation {
    lib.lint(spec.toml, spec.domain, spec.strict)
  }

  // ----- Building the objects -----

  function CommonMeta(lib: Library, cr: Resource, name: string): ObjectMeta {
    var own := map["app.kubernetes.io/managed-by" := "stellar-toml-lint", "stellar.anchor-tools.io/kind" := "StellarInfoFile"];
    ObjectMeta(
      name, cr.namespace,
      if cr.spec.configMap.Some? then own + cr.spec.configMap.value.labels else own,
      map["stellar.anchor-tools.io/resource" := cr.namespace + "/" + cr.name,
          "stellar.toml.lint/checksum-sha256" := lib.checksum(cr.spec.toml)],
      if cr.uid.Some? && cr.uid.value != "" then cr.uid else None,
      None)
  }

  function Or<T>(o: Option<T>, default: T): T {
    if o.Some? then o.value else default
  }

  function DefaultName(cr: Resource): string {
    cr.name + "-stellar-toml"
  }

  function BuildConfigMap(lib: Library, cr: Resource): Stored<ConfigData> {
    var named := if cr.spec.configMap.Some? then Or(cr.spec.configMap.value.name, DefaultName(cr)) else DefaultName(cr);
    var key := if cr.spec.configMap.Some? then Or(cr.spec.configMap.value.key, "stellar.toml") else "stellar.toml";
    Stored(CommonMeta(lib, cr, named), map[key := cr.spec.toml])
  }

  function BuildIngress(lib: Library, cr: Resource): Option<Stored<IngressBody>> {
    match cr.spec.ingress
    case None => None
    case Some(i) =>
      Some(Stored(
        CommonMeta(lib, cr, DefaultName(cr)),
        IngressBody(
          if i.className.Some? && i.className.value != "" then i.className else None,
          i.host, Or(i.path, "/.well-known/stellar.toml"), Or(i.pathType, "Prefix"), i.service, Or(i.port, Number(80)))))
  }

  // ----- The API server -----

  /** What becomes of one call: it works, it fails, or it takes effect and its answer is lost. */
  datatype Fault = Fine | Refused(error: string) | Lost(error: string)

  datatype Store<+T> = Store(objects: map<Key, Stored<T>>, version: nat)

  datatype World = World(configMaps: Store<ConfigData>, ingresses: Store<IngressBody>, statuses: map<Key, Status>, calls: nat)

  function KeyOf<T>(o: Stored<T>): Key {
    (o.meta.namespace, o.meta.name)
  }

  function Put<T>(store: Store<T>, o: Stored<T>): Store<T> {
    Store(store.objects[KeyOf(o) := o.(meta := o.meta.(resourceVersion := Some(store.version + 1)))], store.version + 1)
  }

  /** A failed call's error, if the call failed. */
  function ErrorOf(fault: Fault): Option<string> {
    if fault.Fine? then None else Some(fault.error)
  }

  function Get<T>(store: Store<T>, key: Key): Option<Stored<T>> {
    if key in store.objects then Some(store.objects[key]) else None
  }

  /** A create is rejected for an object that exists. */
  function Create<T>(fault: Fault, store: Store<T>, o: Stored<T>): (Store<T>, Option<string>) {
    if fault.Refused? then (store, Some(fault.error))
    else if KeyOf(o) in store.objects then (store, Some("AlreadyExists"))
    else (Put(store, o), ErrorOf(fault))
  }

  /** An update is rejected for an object that does not exist, or that changed since it was read. */
  function Update<T>(fault: Fault, store: Store<T>, o: Stored<T>): (Store<T>, Option<string>) {
    if fault.Refused? then (store, Some(fault.error))
    else if KeyOf(o) !in store.objects then (store, Some("NotFound"))
    else if o.meta.resourceVersion.Some? && o.meta.resourceVersion != store.objects[KeyOf(o)].meta.resourceVersion then
      (store, Some("Conflict"))
    else (Put(store, o), ErrorOf(fault))
  }

  /** The API the reconciler is handed. Each call consumes one fault. */
  class KubeApi {
    const faults: nat -> Fault
    var world: World

    constructor (faults: nat -> Fault, world: World)
      ensures this.faults == faults && this.world == world
    {
      this.faults, this.world := faults, world;
    }

    method GetConfigMap(key: Key) returns (found: Option<Stored<ConfigData>>, error: Option<string>)
      modifies this
      ensures world == old(world).(calls := old(world.calls) + 1)
      ensures error == ErrorOf(faults(old(world.calls))) && found == Get(old(world.configMaps), key)
    {
      found, error := Get(world.configMaps, key), ErrorOf(faults(world.calls));
      world := world.(calls := world.calls + 1);
    }

    method CreateConfigMap(o: Stored<ConfigData>) returns (error: Option<string>)
      modifies this
      ensures var r := Create(faults(old(world.calls)), old(world.configMaps), o);
        world == old(world).(calls := old(world.calls) + 1, configMaps := r.0) && error == r.1
    {
      var r := Create(faults(world.calls), world.configMaps, o);
      world, error := world.(calls := world.calls + 1, configMaps := r.0), r.1;
    }

    method UpdateConfigMap(o: Stored<ConfigData>) returns (error: Option<string>)
      modifies this
      ensures var r := Update(faults(old(world.calls)), old(world.configMaps), o);
        world == old(world).(calls := old(world.calls) + 1, configMaps := r.0) && error == r.1
    {
      var r := Update(faults(world.calls), world.configMaps, o);
      world, error := world.(calls := world.calls + 1, configMaps := r.0), r.1;
    }

    method GetIngress(key: Key) returns (found: Option<Stored<IngressBody>>, error: Option<string>)
      modifies this
      ensures world == old(world).(calls := old(world.calls) + 1)
      ensures error == ErrorOf(faults(old(world.calls))) && found == Get(old(world.ingresses), key)
    {
      found, error := Get(world.ingresses, key), ErrorOf(faults(world.calls));
      world := world.(calls := world.calls + 1);
    }

    method CreateIngress(o: Stored<IngressBody>) returns (error: Option<string>)
      modifies this
      ensures var r := Create(faults(old(world.calls)), old(world.ingresses), o);
        world == old(world).(calls := old(world.calls) + 1, ingresses := r.0) && error == r.1
    {
      var r := Create(faults(world.calls), world.ingresses, o);
      world, error := world.(calls := world.calls + 1, ingresses := r.0), r.1;
    }

    method UpdateIngress(o: Stored<IngressBody>) returns (error: Option<string>)
      modifies this
      ensures var r := Update(faults(old(world.calls)), old(world.ingresses), o);
        world == old(world).(calls := old(world.calls) + 1, ingresses := r.0) && error == r.1
    {
      var r := Update(faults(world.calls), world.ingresses, o);
      world, error := world.(calls := world.calls + 1, ingresses := r.0), r.1;
    }

    method PatchStatus(key: Key, status: Status) returns (error: Option<string>)
      modifies this
      ensures world == Patched(faults, old(world), key, status) && error == ErrorOf(faults(old(world.calls)))
    {
      error := ErrorOf(faults(world.calls));
      world := Patched(faults, world, key, status);
    }
  }

  function Patched(faults: nat -> Fault, w: World, key: Key, status: Status): World {
    w.(calls := w.calls + 1, statuses := if faults(w.calls).Refused? then w.statuses else w.statuses[key := status])
  }

  // ----- One pass -----

  /** Create or replace: the new store, the error if any, and the calls made. */
  function Applied<T>(faults: nat -> Fault, calls: nat, store: Store<T>, desired: Stored<T>): (Store<T>, Option<string>, nat) {
    if !faults(calls).Fine? then (store, Some(faults(calls).error), calls + 1)
    else
      match Get(store, KeyOf(desired))
      case None =>
        var r := Create(faults(calls + 1), store, desired);
        (r.0, r.1, calls + 2)
      case Some(existing) =>
        var r := Update(faults(calls + 1), store, desired.(meta := desired.meta.(resourceVersion := existing.meta.resourceVersion)));
        (r.0, r.1, calls + 2)
  }

  method ApplyConfigMap(api: KubeApi, desired: Stored<ConfigData>) returns (error: Option<string>)
    modifies api
    ensures var r := Applied(api.faults, old(api.world.calls), old(api.world.configMaps), desired);
      api.world == old(api.world).(configMaps := r.0, calls := r.2) && error == r.1
  {
    var existing;
    existing, error := api.GetConfigMap(KeyOf(desired));
    if error.Some? {
      return;
    }
    if existing.None? {
      error := api.CreateConfigMap(desired);
    } else {
      error := api.UpdateConfigMap(desired.(meta := desired.meta.(resourceVersion := existing.value.meta.resourceVersion)));
    }
  }

  method ApplyIngress(api: KubeApi, desired: Stored<IngressBody>) returns (error: Option<string>)
    modifies api
    ensures var r := Applied(api.faults, old(api.world.calls), old(api.world.ingresses), desired);
      api.world == old(api.world).(ingresses := r.0, calls := r.2) && error == r.1
  {
    var existing;
    existing, error := api.GetIngress(KeyOf(desired));
    if error.Some? {
      return;
    }
    if existing.None? {
      error := api.CreateIngress(desired);
    } else {
      error := api.UpdateIngress(desired.(meta := desired.meta.(resourceVersion := existing.value.meta.resourceVersion)));
    }
  }

  /** What the clock shows when each of the three times of a pass is taken. */
  datatype Clock = Clock(synced: Time, valid: Time, sync: Time)

  function FindCondition(conditions: seq<Condition>, kind: ConditionType): Option<Condition> {
    if conditions == [] then None
    else if conditions[0].kind == kind then Some(conditions[0])
    else FindCondition(conditions[1..], kind)
  }

  /** `lastTransitionTime` only moves when `status` flips. */
  function BuildCondition(previous: Option<Condition>, next: Condition, now: Time): Condition {
    next.(lastTransitionTime :=
      if previous.Some? && previous.value.status == next.status then previous.value.lastTransitionTime else now)
  }

  datatype Outcome = Outcome(validation: Validation, conditions: seq<Condition>, published: Published, syncError: Option<string>)

  /** What publishing did: the world, what is published now, and the error if a call failed. */
  function PublishedTo(lib: Library, faults: nat -> Fault, w: World, cr: Resource, before: Published, now: Time)
    : (World, Published, Option<string>)
  {
    var cm := BuildConfigMap(lib, cr);
    var r := Applied(faults, w.calls, w.configMaps, cm);
    var w1 := w.(configMaps := r.0, calls := r.2);
    if r.1.Some? then (w1, before, r.1)
    else
      var p1 := before.(configMapName := Some(cm.meta.name));
      match BuildIngress(lib, cr)
      case None => (w1, p1.(lastSyncedTime := Some(now)), None)
      case Some(ingress) =>
        var s := Applied(faults, w1.calls, w1.ingresses, ingress);
        var w2 := w1.(ingresses := s.0, calls := s.2);
        if s.1.Some? then (w2, p1, s.1)
        else (w2, p1.(ingressName := Some(ingress.meta.name), lastSyncedTime := Some(now)), None)
  }

  function ConditionsOf(cr: Resource, validation: Validation, published: Published, syncError: Option<string>,
                        previous: seq<Condition>, clock: Clock): seq<Condition>
  {
    var valid := Condition(
      Valid, validation.valid, if validation.valid then "LintPassed" else "LintFailed", validation.message, "", cr.generation);
    var sync :=
      if syncError.Some? then Condition(SyncError, true, "PublishFailed", "failed to publish: " + syncError.value, "", cr.generation)
      else
        Condition(SyncError, false, if validation.valid then "Published" else "Skipped",
                  if validation.valid then "ConfigMap " + Or(published.configMapName, DefaultName(cr)) + " is up to date"
                  else "sync skipped until the spec passes validation",
                  "", cr.generation);
    [BuildCondition(FindCondition(previous, Valid), valid, clock.valid),
     BuildCondition(FindCondition(previous, SyncError), sync, clock.sync)]
  }

  function PreviousConditions(status: Option<Status>): seq<Condition> {
    if status.Some? then status.value.conditions else []
  }

  function PreviouslyPublished(status: Option<Status>): Published {
    if status.Some? then status.value.published else Published(None, None, None)
  }

  /** One reconcile pass over a resource that came with `status`. */
  function Pass(lib: Library, faults: nat -> Fault, w: World, cr: Resource, status: Option<Status>, clock: Clock)
    : (World, Outcome)
  {
    var validation := Verdict(lib, cr.spec);
    var before := PreviouslyPublished(status);
    var (w1, published, syncError) :=
      if validation.valid then PublishedTo(lib, faults, w, cr, before, clock.synced) else (w, before, None);
    var conditions := ConditionsOf(cr, validation, published, syncError, PreviousConditions(status), clock);
    var w2 := Patched(faults, w1, (cr.namespace, cr.name), Status(cr.generation, conditions, validation.counts, published));
    var patchError := ErrorOf(faults(w1.calls));
    var error :=
      if syncError.Some? || patchError.None? then syncError else Some("status patch failed: " + patchError.value);
    (w2, Outcome(validation, conditions, published, error))
  }

  method Reconcile(lib: Library, api: KubeApi, cr: Resource, status: Option<Status>, clock: Clock) returns (outcome: Outcome)
    modifies api
    ensures (api.world, outcome) == Pass(lib, api.faults, old(api.world), cr, status, clock)
  {
    hide Applied, BuildIngress, BuildConfigMap;
    var validation := Verdict(lib, cr.spec);
    var published := PreviouslyPublished(status);
    var syncError: Option<string> := None;
    if validation.valid {
      syncError := ApplyConfigMap(api, BuildConfigMap(lib, cr));
      if syncError.None? {
        published := published.(configMapName := Some(BuildConfigMap(lib, cr).meta.name));
        var ingress := BuildIngress(lib, cr);
        if ingress.Some? {
          syncError := ApplyIngress(api, ingress.value);
          if syncError.None? {
            published := published.(ingressName := Some(ingress.value.meta.name));
          }
        }
        if syncError.None? {
          published := published.(lastSyncedTime := Some(clock.synced));
        }
      }
    }
    var conditions := ConditionsOf(cr, validation, published, syncError, PreviousConditions(status), clock);
    var patchError :=
      api.PatchStatus((cr.namespace, cr.name), Status(cr.generation, conditions, validation.counts, published));
    if patchError.Some? && syncError.None? {
      syncError := Some("status patch failed: " + patchError.value);
    }
    outcome := Outcome(validation, conditions, published, syncError);
  }
}
