/**
 What comes of a service, stated over its labels, constraints and entries:
 enabled services are served, and disabled ones are cleaned up.
 */
module Outcomes {
  import opened Wrappers
  import opened Text
  import opened Environment
  import opened Labels
  import opened Desired
  import opened Service
  import opened Decision
  import opened Protocol
  import opened Convergence
  import opened Runs
  import opened Progress
  import opened Delivery
  import opened Declaration

  /** No state, or exactly what one injection wrote, whatever its configuration was. */
  ghost predicate StateIs(codec: Codec, spec: Spec, injection: Option<Injection>) {
    match injection
    case None => AllStateEmpty(spec.labels)
    case Some(past) =>
      && AllRepresentable(past.values.Keys)
      && Labelled(spec.labels, APPLIED_VERSIONS, codec.versionsText(past.versions))
      && Labelled(spec.labels, MANAGED_ENV, codec.namesText(SortedNames(past.values.Keys)))
      && Labelled(spec.labels, STATE_HASH, codec.digest(Encoded(past.values)))
      && Labelled(spec.labels, CONFIG_HASH,
                  codec.digest(codec.configText(past.config.bootstrapGate, past.config.secrets)))
  }

  ghost predicate SameConfiguration(past: Injection, config: Config) {
    past.config.secrets == config.secrets && past.config.bootstrapGate == config.bootstrapGate
  }

  /**
   There is something to inject and nothing against it: the gate is there only
   if it is asked for, and if it is asked for it is there unless the state is
   that of this very configuration; and the state, if any, is not that of this
   configuration at the current versions without a gate.
   */
  ghost predicate Outstanding(codec: Codec, vault: Vault, spec: Spec, config: Config, state: Option<Injection>) {
    && spec.container.Some? && StateIs(codec, spec, state)
    && (HasGate(spec) ==> config.bootstrapGate)
    && (config.bootstrapGate && !HasGate(spec) ==> state.Some? && SameConfiguration(state.value, config))
    && (HasGate(spec) || state.None? || !SameConfiguration(state.value, config)
        || state.value.versions != VersionsNow(vault, config.secrets))
  }

  lemma PastStateReads(codec: Codec, spec: Spec, past: Injection)
    requires StateIs(codec, spec, Some(past))
    ensures StateOf(spec.labels) == codec.StateFor(past.config, past.versions, past.values)
  {
    hide Encoded;
  }

  lemma OutstandingPasses(codec: Codec, vault: Vault, spec: Spec, config: Config, state: Option<Injection>)
    requires codec.Faithful() && Outstanding(codec, vault, spec, config, state)
    ensures Admitted(codec, spec, config).Some?
    ensures state.None? ==> Admitted(codec, spec, config).value.applied == map[]
    ensures state.Some? ==> Admitted(codec, spec, config).value.applied == state.value.versions
  {
    hide IsGate, Encoded, Sort;
    if state.Some? {
      PastStateReads(codec, spec, state.value);
      StateReadsBack(codec, spec.labels, state.value.config, state.value.versions, state.value.values);
    }
  }

  lemma OutstandingIsNotCurrent(codec: Codec, vault: Vault, spec: Spec, config: Config, state: Option<Injection>)
    requires codec.Faithful() && codec.CollisionFree() && Outstanding(codec, vault, spec, config, state)
    requires Admitted(codec, spec, config).Some?
    ensures !IsCurrent(codec, spec, Admitted(codec, spec, config).value, VersionsNow(vault, config.secrets))
  {
    hide IsGate, Encoded, Selected, Admitted, VersionsNow;
    OutstandingPasses(codec, vault, spec, config, state);
    AdmittedExactly(codec, spec, config);
    if state.Some? && !SameConfiguration(state.value, config) {
      DigestsDiffer(codec, state.value.config, config);
    }
  }

  lemma DigestsDiffer(codec: Codec, a: Config, b: Config)
    requires codec.CollisionFree() && (a.secrets != b.secrets || a.bootstrapGate != b.bootstrapGate)
    ensures codec.digest(codec.configText(a.bootstrapGate, a.secrets)) != codec.digest(codec.configText(b.bootstrapGate,
                                                                                                        b.secrets))
  {
  }

  /**
   Service. Whatever else is in flight, an enabled service with something to
   inject - gated or not, new, reconfigured or with newer versions - is led by
   the controller's own steps to a specification without the gate whose
   variables mean the texts that Vault holds at the current versions.
   */
  lemma ServicesAreServed(codec: Codec, w: World, service: string, t: nat, config: Config, state: Option<Injection>)
    returns (actions: seq<Action>, w': World)
    requires codec.Faithful() && codec.CollisionFree() && t !in w.tasks
    requires service in w.services && w.services[service].live && w.services[service].history != []
    requires var spec := w.services[service].Current();
             && SaysFlags(spec.labels, config.bootstrapGate) && SaysSources(spec.labels, config.secrets)
                && config.enabled
             && Outstanding(codec, w.vault, spec, config, state)
    requires Resolvable(w.vault, config.secrets)
    ensures Leads(codec, w, actions, w') && w'.vault == w.vault && w'.tasks == w.tasks && service in w'.services
    ensures |w'.services[service].history| == |w.services[service].history| + 1
    ensures w.services[service].history <= w'.services[service].history
    ensures var now := w'.services[service].Current();
            && Delivers(w.vault, now, config.secrets, VersionsNow(w.vault, config.secrets)) && !HasGate(now)
            && Records(codec, now.labels, VersionsNow(w.vault, config.secrets))
  {
    hide Leads, CurrentVersion, HasGate, Configured, VersionsNow, DesiredValues, DocumentsAt, Admitted, IsCurrent,
         Outstanding, SaysFlags, SaysSources, Delivers, HoldsDesired;
    var spec := w.services[service].Current();
    EnabledExactly(spec.labels, config.bootstrapGate, config.secrets);
    OutstandingPasses(codec, w.vault, spec, config, state);
    OutstandingIsNotCurrent(codec, w.vault, spec, config, state);
    AdmittedHasContainer(codec, spec, config);
    actions, w' := InjectionHappens(codec, w, service, t, config);
    var now := w'.services[service].Current();
    var versions := VersionsNow(w.vault, config.secrets);
    var values := DesiredValues(config.secrets, DocumentsAt(w.vault, config.secrets, versions)).value;
    HeldIsDelivered(codec, w.vault, now, versions, values);
    HeldIsRecorded(codec, w.vault, now, versions, values);
  }

  /**
   From nothing: a new service without state whose gate is there exactly if it
   is asked for is created and served in a run that keeps every discipline.
   */
  lemma NewServicesAreServed(codec: Codec, vault: Vault, service: string, spec: Spec, config: Config)
    returns (trace: seq<World>, actions: seq<Action>)
    requires codec.Faithful() && codec.CollisionFree() && spec.container.Some? && AllStateEmpty(spec.labels)
    requires SaysFlags(spec.labels, config.bootstrapGate) && SaysSources(spec.labels, config.secrets) && config.enabled
    requires (HasGate(spec) <==> config.bootstrapGate) && Resolvable(vault, config.secrets)
    ensures IsRun(codec, trace, actions) && KeepsDiscipline(codec, trace, actions)
            && ForgesNothing(codec, trace, actions)
    ensures trace[0].vault == vault && actions != [] && actions[0] == Create(service, spec)
    ensures trace[|actions|].vault == vault && service in trace[|actions|].services
            && trace[|actions|].services[service].history != []
    ensures var now := trace[|actions|].services[service].Current();
            && Delivers(vault, now, config.secrets, VersionsNow(vault, config.secrets)) && !HasGate(now)
            && Records(codec, now.labels, VersionsNow(vault, config.secrets))
  {
    hide Leads, Resolvable, Configured, VersionsNow, SaysFlags, SaysSources, Delivers, Records, HasGate, AllStateEmpty,
         Enabled, Apply, Disciplined, Unforged;
    var nothing := World(vault, map[], map[]);
    var created := World(vault, map[][service := Record([spec], [], true)], map[]);
    var rest, end := ServicesAreServed(codec, created, service, 0, config, None);
    var passed := Passed(codec, created, rest, end);
    trace, actions := [nothing] + passed, [Create(service, spec)] + rest;
    EmptyStateIsNone(spec.labels);
    EnabledExactly(spec.labels, config.bootstrapGate, config.secrets);
    CreationIsOrderly(codec, vault, service, spec, config);
    forall i | 0 <= i < |actions|
      ensures Step(codec, trace[i], actions[i], trace[i + 1])
      ensures Disciplined(codec, trace[i], actions[i]) && Unforged(codec, trace[i], actions[i])
    {
      if i > 0 {
        PassedSteps(codec, created, rest, end, i - 1);
      }
    }
  }

  lemma EmptyStateIsNone(labels: LabelSet)
    ensures AllStateEmpty(labels) <==> StateOf(labels) == NO_STATE
  {
  }

  lemma CreationIsOrderly(codec: Codec, vault: Vault, service: string, spec: Spec, config: Config)
    requires StateOf(spec.labels) == NO_STATE && Configured(spec.labels) == Some(config)
    requires HasGate(spec) <==> config.bootstrapGate
    ensures Disciplined(codec, World(vault, map[], map[]), Create(service, spec))
    ensures Unforged(codec, World(vault, map[], map[]), Create(service, spec))
    ensures Step(codec, World(vault, map[], map[]), Create(service, spec),
                 World(vault, map[][service := Record([spec], [], true)], map[]))
  {
    hide Configured, IsGate;
  }

  // ---------------------------------------------------------------------
  // Disabling
  // ---------------------------------------------------------------------

  /** The names the managed-env label records; none when it is empty. */
  ghost function RecordedNames(codec: Codec, labels: LabelSet): set<string>
    requires StateParses(codec, labels)
  {
    if Empty(labels, MANAGED_ENV) then {} else set name | name in codec.parseNames(labels[MANAGED_ENV]).value
  }

  /** The service after its clean-up: no state label, no recorded name, all else as it was. */
  ghost predicate CleanedUp(codec: Codec, before: Spec, after: Spec, picked: seq<nat>)
    requires before.container.Some? && StateParses(codec, before.labels)
  {
    var entries, names := before.container.value.env, RecordedNames(codec, before.labels);
    && after.labels == before.labels - {APPLIED_VERSIONS, MANAGED_ENV, STATE_HASH, CONFIG_HASH}
    && after.container.Some?
    && Picks(entries, after.container.value.env, picked)
    && (forall i: nat :: i in picked <==> i < |entries| && EntryName(entries[i]) !in names)
    && after == before.(labels := after.labels,
                        container := Some(before.container.value.(env := after.container.value.env)))
  }

  /**
   Disabling happens: a service with state whose enabled label is gone or says
   one of the false texts is led by the controller's own steps to its cleaned
   form, whatever its other labels say and whatever Vault holds.
   */
  lemma DisablingHappens(codec: Codec, w: World, service: string, t: nat)
    returns (actions: seq<Action>, w': World, picked: seq<nat>)
    requires t !in w.tasks && service in w.services && w.services[service].live && w.services[service].history != []
    requires var spec := w.services[service].Current();
             && (ENABLED !in spec.labels || spec.labels[ENABLED] in FALSE_TEXTS)
             && !AllStateEmpty(spec.labels) && spec.container.Some? && StateParses(codec, spec.labels)
    ensures Leads(codec, w, actions, w') && w'.vault == w.vault && w'.tasks == w.tasks && service in w'.services
    ensures |w'.services[service].history| == |w.services[service].history| + 1
    ensures w.services[service].history <= w'.services[service].history
    ensures CleanedUp(codec, w.services[service].Current(), w'.services[service].Current(), picked)
  {
    hide Leads, Configured, Sending, Decide, StateParses, AllStateEmpty, CleanedUp;
    var spec := w.services[service].Current();
    var task := LoneTask(w, service, Answers(map[], map[]));
    DisabledExactly(spec.labels);
    picked := DisabledIsCleaned(codec, spec, task);
    OneStep(codec, w, Start(t, service, task.version));
    w' := UpdateLands(codec, w, t, task);
    LeadsOn(codec, w, [Start(t, service, task.version)], WithTask(w, t, task), [Update(t)], w');
    actions := [Start(t, service, task.version)] + [Update(t)];
  }

  lemma DisabledIsCleaned(codec: Codec, spec: Spec, task: Task) returns (picked: seq<nat>)
    requires Configured(spec.labels).Some? && !Configured(spec.labels).value.enabled && task.spec == spec
    requires !AllStateEmpty(spec.labels) && spec.container.Some? && StateParses(codec, spec.labels)
    ensures Sending(codec, task) && CleanedUp(codec, spec, Decide(codec, spec, task.answers).spec, picked)
  {
    hide Configured, Sort, Sorted, Picks, HasGate, EntryName, Without;
    var names := codec.ManagedEnvironment(spec.labels);
    ManagedNamesExactly(codec, spec.labels);
    if !Empty(spec.labels, MANAGED_ENV) {
      SameMembers(names.value, codec.parseNames(spec.labels[MANAGED_ENV]).value);
    }
    CleansExactly(codec, spec, task.answers);
    picked := WithoutExactly(spec.container.value.env, Members(names.value));
  }
}
