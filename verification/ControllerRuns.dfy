/** What holds along every run of the reconciler, whatever the specs and whichever calls fail. */
module ControllerRuns {
  import opened Wrappers
  import opened Controller

  /** One pass of a run: a resource as it stands in the cluster, and the clock. */
  datatype Step = Step(cr: Resource, clock: Clock)

  function ResourceKey(cr: Resource): Key {
    (cr.namespace, cr.name)
  }

  function StatusIn(w: World, cr: Resource): Option<Status> {
    if ResourceKey(cr) in w.statuses then Some(w.statuses[ResourceKey(cr)]) else None
  }

  /** A pass reads the status that was persisted last. */
  function StepOf(lib: Library, faults: nat -> Fault, w: World, s: Step): (World, Outcome) {
    Pass(lib, faults, w, s.cr, StatusIn(w, s.cr), s.clock)
  }

  function Run(lib: Library, faults: nat -> Fault, w: World, steps: seq<Step>): World {
    if steps == [] then w
    else StepOf(lib, faults, Run(lib, faults, w, steps[..|steps| - 1]), steps[|steps| - 1]).0
  }

  // ----- What is written -----

  /** `o` is `desired`, but for the version the server gave it. */
  predicate Renders<T(==)>(o: Stored<T>, desired: Stored<T>) {
    o.body == desired.body && o.meta.(resourceVersion := None) == desired.meta.(resourceVersion := None)
  }

  /** Applying an object changes nothing else, and what it leaves under its key is the old object or the desired one. */
  lemma AppliedWrites<T>(faults: nat -> Fault, calls: nat, store: Store<T>, desired: Stored<T>)
    ensures var r := Applied(faults, calls, store, desired);
      && (forall k | k in r.0.objects && k != KeyOf(desired) :: k in store.objects && r.0.objects[k] == store.objects[k])
      && (forall k | k in store.objects :: k in r.0.objects)
      && (KeyOf(desired) in r.0.objects ==>
            || (KeyOf(desired) in store.objects && r.0.objects[KeyOf(desired)] == store.objects[KeyOf(desired)])
            || Renders(r.0.objects[KeyOf(desired)], desired))
      && (r.1.None? ==> KeyOf(desired) in r.0.objects && Renders(r.0.objects[KeyOf(desired)], desired))
      && (faults(calls).Fine? && faults(calls + 1).Fine? ==> r.1.None?)
      && r.2 > calls
  {
  }

  /** The object a valid pass wants under `key`, if it is that pass's object. */
  ghost predicate WantedConfigMap(lib: Library, s: Step, key: Key, o: Stored<ConfigData>) {
    Verdict(lib, s.cr.spec).valid && KeyOf(BuildConfigMap(lib, s.cr)) == key && Renders(o, BuildConfigMap(lib, s.cr))
  }

  ghost predicate WantedIngress(lib: Library, s: Step, key: Key, o: Stored<IngressBody>) {
    && Verdict(lib, s.cr.spec).valid && BuildIngress(lib, s.cr).Some?
    && KeyOf(BuildIngress(lib, s.cr).value) == key && Renders(o, BuildIngress(lib, s.cr).value)
  }

  lemma PassWrites(lib: Library, faults: nat -> Fault, w: World, s: Step)
    ensures var w1 := StepOf(lib, faults, w, s).0;
      && (forall k | k in w1.configMaps.objects ::
            || (k in w.configMaps.objects && w1.configMaps.objects[k] == w.configMaps.objects[k])
            || WantedConfigMap(lib, s, k, w1.configMaps.objects[k]))
      && (forall k | k in w1.ingresses.objects ::
            || (k in w.ingresses.objects && w1.ingresses.objects[k] == w.ingresses.objects[k])
            || WantedIngress(lib, s, k, w1.ingresses.objects[k]))
      && (forall k | k in w.configMaps.objects :: k in w1.configMaps.objects)
  {
    hide Applied, BuildConfigMap, BuildIngress, ConditionsOf, Renders;
    if Verdict(lib, s.cr.spec).valid {
      var cm := BuildConfigMap(lib, s.cr);
      AppliedWrites(faults, w.calls, w.configMaps, cm);
      if BuildIngress(lib, s.cr).Some? {
        var calls := Applied(faults, w.calls, w.configMaps, cm).2;
        AppliedWrites(faults, calls, w.ingresses, BuildIngress(lib, s.cr).value);
      }
    }
  }

  /**
   Along every run, each ConfigMap is the one that was there at the start or the one
   a pass built from a spec that validated on that pass; and the same for Ingresses.
   */
  lemma {:induction false} OnlyValidatedContent(lib: Library, faults: nat -> Fault, w: World, steps: seq<Step>)
    ensures var w1 := Run(lib, faults, w, steps);
      && (forall k | k in w1.configMaps.objects ::
            || (k in w.configMaps.objects && w1.configMaps.objects[k] == w.configMaps.objects[k])
            || exists i | 0 <= i < |steps| :: WantedConfigMap(lib, steps[i], k, w1.configMaps.objects[k]))
      && (forall k | k in w1.ingresses.objects ::
            || (k in w.ingresses.objects && w1.ingresses.objects[k] == w.ingresses.objects[k])
            || exists i | 0 <= i < |steps| :: WantedIngress(lib, steps[i], k, w1.ingresses.objects[k]))
    decreases |steps|
  {
    hide StepOf, WantedConfigMap, WantedIngress;
    if steps != [] {
      var front, last := steps[..|steps| - 1], steps[|steps| - 1];
      OnlyValidatedContent(lib, faults, w, front);
      PassWrites(lib, faults, Run(lib, faults, w, front), last);
    }
  }

  /** The pass publishes under `key`: its spec validates, and one of its objects has that key. */
  predicate PublishesConfigMap(lib: Library, s: Step, key: Key) {
    Verdict(lib, s.cr.spec).valid && KeyOf(BuildConfigMap(lib, s.cr)) == key
  }

  predicate PublishesIngress(lib: Library, s: Step, key: Key) {
    Verdict(lib, s.cr.spec).valid && BuildIngress(lib, s.cr).Some? && KeyOf(BuildIngress(lib, s.cr).value) == key
  }

  function Lookup<T>(store: Store<T>, key: Key): Option<Stored<T>> {
    if key in store.objects then Some(store.objects[key]) else None
  }

  lemma PassLeavesOthers(lib: Library, faults: nat -> Fault, w: World, s: Step, key: Key)
    ensures var w1 := StepOf(lib, faults, w, s).0;
      && (!PublishesConfigMap(lib, s, key) ==> Lookup(w1.configMaps, key) == Lookup(w.configMaps, key))
      && (!PublishesIngress(lib, s, key) ==> Lookup(w1.ingresses, key) == Lookup(w.ingresses, key))
  {
    hide Applied, BuildConfigMap, BuildIngress, ConditionsOf, Renders;
    if Verdict(lib, s.cr.spec).valid {
      var cm := BuildConfigMap(lib, s.cr);
      AppliedWrites(faults, w.calls, w.configMaps, cm);
      if BuildIngress(lib, s.cr).Some? {
        var calls := Applied(faults, w.calls, w.configMaps, cm).2;
        AppliedWrites(faults, calls, w.ingresses, BuildIngress(lib, s.cr).value);
      }
    }
  }

  /**
   What was published stays, whatever happens to the spec and to the calls: an object
   changes only in a pass whose spec validates and publishes under its key. A run of
   specs that stopped validating leaves every ConfigMap and every Ingress alone.
   */
  lemma {:induction false} PublishedStays(lib: Library, faults: nat -> Fault, w: World, steps: seq<Step>, key: Key)
    ensures var w1 := Run(lib, faults, w, steps);
      && ((forall s | s in steps :: !PublishesConfigMap(lib, s, key)) ==> Lookup(w1.configMaps, key) == Lookup(w.configMaps, key))
      && ((forall s | s in steps :: !PublishesIngress(lib, s, key)) ==> Lookup(w1.ingresses, key) == Lookup(w.ingresses, key))
    decreases |steps|
  {
    hide StepOf, PublishesConfigMap, PublishesIngress, Lookup;
    if steps != [] {
      var front, last := steps[..|steps| - 1], steps[|steps| - 1];
      PublishedStays(lib, faults, w, front, key);
      PassLeavesOthers(lib, faults, Run(lib, faults, w, front), last, key);
      assert forall s | s in front :: s in steps;
    }
  }

  // ----- What is reported -----

  /** When a pass reports a spec as published, the cluster holds it; and without faults it always gets there. */
  lemma PublishedIsTrue(lib: Library, faults: nat -> Fault, w: World, s: Step)
    requires Verdict(lib, s.cr.spec).valid
    ensures var (w1, outcome) := StepOf(lib, faults, w, s);
      && |outcome.conditions| == 2 && outcome.conditions[1].kind == SyncError
      && (!outcome.conditions[1].status ==>
            && KeyOf(BuildConfigMap(lib, s.cr)) in w1.configMaps.objects
            && Renders(w1.configMaps.objects[KeyOf(BuildConfigMap(lib, s.cr))], BuildConfigMap(lib, s.cr))
            && (BuildIngress(lib, s.cr).Some? ==>
                  && KeyOf(BuildIngress(lib, s.cr).value) in w1.ingresses.objects
                  && Renders(w1.ingresses.objects[KeyOf(BuildIngress(lib, s.cr).value)], BuildIngress(lib, s.cr).value)))
    ensures (forall n :: faults(n).Fine?) ==>
      var (w1, outcome) := StepOf(lib, faults, w, s);
      && |outcome.conditions| == 2 && !outcome.conditions[1].status && outcome.syncError.None?
      && StatusIn(w1, s.cr).Some? && StatusIn(w1, s.cr).value.conditions == outcome.conditions
  {
    hide Applied, BuildConfigMap, BuildIngress, Renders;
    var cm := BuildConfigMap(lib, s.cr);
    AppliedWrites(faults, w.calls, w.configMaps, cm);
    if BuildIngress(lib, s.cr).Some? {
      var calls := Applied(faults, w.calls, w.configMaps, cm).2;
      AppliedWrites(faults, calls, w.ingresses, BuildIngress(lib, s.cr).value);
    }
  }

  // ----- When conditions change -----

  /** What a pass persisted for a resource: each condition's status, and what the clock showed. */
  datatype Mark = Mark(valid: bool, sync: bool, clock: Clock)

  /** The status patch is the last call of a pass; it persists unless it is refused. */
  function Persists(lib: Library, faults: nat -> Fault, w: World, s: Step): bool {
    !faults(PatchCall(lib, faults, w, s)).Refused?
  }

  function PatchCall(lib: Library, faults: nat -> Fault, w: World, s: Step): nat {
    if Verdict(lib, s.cr.spec).valid then
      PublishedTo(lib, faults, w, s.cr, PreviouslyPublished(StatusIn(w, s.cr)), s.clock.synced).0.calls
    else w.calls
  }

  function SyncFails(lib: Library, faults: nat -> Fault, w: World, s: Step): bool {
    && Verdict(lib, s.cr.spec).valid
    && PublishedTo(lib, faults, w, s.cr, PreviouslyPublished(StatusIn(w, s.cr)), s.clock.synced).2.Some?
  }

  /** The marks a run left on the resource `key`, oldest first. */
  function History(lib: Library, faults: nat -> Fault, w: World, steps: seq<Step>, key: Key): seq<Mark> {
    if steps == [] then []
    else
      var front, last := steps[..|steps| - 1], steps[|steps| - 1];
      var before := Run(lib, faults, w, front);
      History(lib, faults, w, front, key)
      + if ResourceKey(last.cr) == key && Persists(lib, faults, before, last)
        then [Mark(Verdict(lib, last.cr.spec).valid, SyncFails(lib, faults, before, last), last.clock)] else []
  }

  function StatusAt(m: Mark, kind: ConditionType): bool {
    if kind == Valid then m.valid else m.sync
  }

  function TimeAt(m: Mark, kind: ConditionType): Time {
    if kind == Valid then m.clock.valid else m.clock.sync
  }

  /** The condition the resource came with, if it had one of this kind. */
  function Initial(w: World, key: Key, kind: ConditionType): Option<Condition> {
    if key in w.statuses then FindCondition(w.statuses[key].conditions, kind) else None
  }

  /**
   The time of the persisted pass at which the status last flipped; if it never did, the
   time the initial condition carried, or that of the first pass if there was none.
   */
  function FlipTime(initial: Option<Condition>, history: seq<Mark>, kind: ConditionType): Time
    requires history != []
    decreases |history|
  {
    var last := history[|history| - 1];
    if |history| == 1 then
      if initial.Some? && initial.value.status == StatusAt(last, kind) then initial.value.lastTransitionTime
      else TimeAt(last, kind)
    else if StatusAt(history[|history| - 2], kind) != StatusAt(last, kind) then TimeAt(last, kind)
    else FlipTime(initial, history[..|history| - 1], kind)
  }

  /** The conditions that a history calls for. */
  ghost predicate Reflects(conditions: seq<Condition>, valid: Option<Condition>, sync: Option<Condition>, history: seq<Mark>) {
    && history != [] && |conditions| == 2
    && conditions[0].kind == Valid && conditions[1].kind == SyncError
    && conditions[0].status == history[|history| - 1].valid
    && conditions[0].lastTransitionTime == FlipTime(valid, history, Valid)
    && conditions[1].status == history[|history| - 1].sync
    && conditions[1].lastTransitionTime == FlipTime(sync, history, SyncError)
  }

  lemma PassPersists(lib: Library, faults: nat -> Fault, w: World, s: Step, key: Key)
    ensures var w1 := StepOf(lib, faults, w, s).0;
      if ResourceKey(s.cr) == key && Persists(lib, faults, w, s) then
        && key in w1.statuses
        && w1.statuses[key].conditions == StepOf(lib, faults, w, s).1.conditions
      else (key in w1.statuses <==> key in w.statuses) && (key in w.statuses ==> w1.statuses[key] == w.statuses[key])
  {
    hide Applied, BuildConfigMap, BuildIngress, ConditionsOf;
  }

  lemma ConditionsOfPass(lib: Library, faults: nat -> Fault, w: World, s: Step)
    ensures var conditions := StepOf(lib, faults, w, s).1.conditions;
      var previous := PreviousConditions(StatusIn(w, s.cr));
      && |conditions| == 2 && conditions[0].kind == Valid && conditions[1].kind == SyncError
      && conditions[0].status == Verdict(lib, s.cr.spec).valid && conditions[1].status == SyncFails(lib, faults, w, s)
      && conditions[0].lastTransitionTime == KeptOr(FindCondition(previous, Valid), conditions[0].status, s.clock.valid)
      && conditions[1].lastTransitionTime == KeptOr(FindCondition(previous, SyncError), conditions[1].status, s.clock.sync)
  {
    hide Applied, BuildConfigMap, BuildIngress, FindCondition;
  }

  function KeptOr(previous: Option<Condition>, status: bool, now: Time): Time {
    if previous.Some? && previous.value.status == status then previous.value.lastTransitionTime else now
  }

  lemma FlipOfNext(initial: Option<Condition>, history: seq<Mark>, m: Mark, kind: ConditionType)
    ensures FlipTime(initial, history + [m], kind) ==
      if history == [] then KeptOr(initial, StatusAt(m, kind), TimeAt(m, kind))
      else if StatusAt(history[|history| - 1], kind) != StatusAt(m, kind) then TimeAt(m, kind)
      else FlipTime(initial, history, kind)
  {
    var next := history + [m];
    assert next[..|next| - 1] == history;
    assert history != [] ==> next[|next| - 2] == history[|history| - 1];
  }

  lemma FindsBoth(conditions: seq<Condition>)
    ensures |conditions| == 2 && conditions[0].kind == Valid && conditions[1].kind == SyncError ==>
      FindCondition(conditions, Valid) == Some(conditions[0]) && FindCondition(conditions, SyncError) == Some(conditions[1])
  {
    if |conditions| == 2 {
      assert conditions[1..][0] == conditions[1];
    }
  }

  lemma NextReflects(previous: seq<Condition>, valid: Option<Condition>, sync: Option<Condition>, history: seq<Mark>,
                     m: Mark, conditions: seq<Condition>)
    requires if history == [] then FindCondition(previous, Valid) == valid && FindCondition(previous, SyncError) == sync
             else Reflects(previous, valid, sync, history)
    requires |conditions| == 2 && conditions[0].kind == Valid && conditions[1].kind == SyncError
    requires conditions[0].status == m.valid && conditions[1].status == m.sync
    requires conditions[0].lastTransitionTime == KeptOr(FindCondition(previous, Valid), m.valid, m.clock.valid)
    requires conditions[1].lastTransitionTime == KeptOr(FindCondition(previous, SyncError), m.sync, m.clock.sync)
    ensures Reflects(conditions, valid, sync, history + [m])
  {
    hide FlipTime, FindCondition;
    FindsBoth(previous);
    FlipOfNext(valid, history, m, Valid);
    FlipOfNext(sync, history, m, SyncError);
    assert (history + [m])[|history|] == m;
  }

  /**
   Along the persisted statuses of every run, each condition carries the time of the pass at
   which its status last flipped; as long as it has not, the time it came with.
   */
  lemma {:induction false} TransitionTimes(lib: Library, faults: nat -> Fault, w: World, steps: seq<Step>, key: Key)
    ensures var w1, history := Run(lib, faults, w, steps), History(lib, faults, w, steps, key);
      if history == [] then (key in w1.statuses <==> key in w.statuses) && (key in w.statuses ==> w1.statuses[key] == w.statuses[key])
      else
        && key in w1.statuses
        && Reflects(w1.statuses[key].conditions, Initial(w, key, Valid), Initial(w, key, SyncError), history)
    decreases |steps|
  {
    hide StepOf, Persists, SyncFails, FlipTime, Reflects, FindCondition;
    if steps != [] {
      var front, last := steps[..|steps| - 1], steps[|steps| - 1];
      TransitionTimes(lib, faults, w, front, key);
      var before, history := Run(lib, faults, w, front), History(lib, faults, w, front, key);
      PassPersists(lib, faults, before, last, key);
      if ResourceKey(last.cr) == key && Persists(lib, faults, before, last) {
        var m := Mark(Verdict(lib, last.cr.spec).valid, SyncFails(lib, faults, before, last), last.clock);
        var previous := PreviousConditions(StatusIn(before, last.cr));
        ConditionsOfPass(lib, faults, before, last);
        NothingFound();
        NextReflects(previous, Initial(w, key, Valid), Initial(w, key, SyncError), history, m,
                     StepOf(lib, faults, before, last).1.conditions);
        assert History(lib, faults, w, steps, key) == history + [m];
      } else {
        assert History(lib, faults, w, steps, key) == history;
      }
    }
  }

  lemma NothingFound()
    ensures FindCondition([], Valid) == None && FindCondition([], SyncError) == None
  {
  }
}
