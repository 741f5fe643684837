/**
 Theorems about every run of the protocol: gate safety, exact versions, the
 exactness of the fast path, and that no update overwrites an unseen change.
 */
module Runs {
  import opened Wrappers
  import opened Text
  import opened Environment
  import opened Labels
  import opened Desired
  import opened Service
  import opened Decision
  import opened Protocol

  ghost predicate Step(codec: Codec, w: World, a: Action, w': World) {
    Enabled(codec, w, a) && w' == Apply(codec, w, a)
  }

  /** A run starts with no service and no reconcile, over any Vault. */
  ghost predicate IsRun(codec: Codec, trace: seq<World>, actions: seq<Action>) {
    && |trace| == |actions| + 1
    && trace[0].services == map[] && trace[0].tasks == map[]
    && forall i :: 0 <= i < |actions| ==> Step(codec, trace[i], actions[i], trace[i + 1])
  }

  /** In this run operators keep the gate discipline. */
  ghost predicate KeepsDiscipline(codec: Codec, trace: seq<World>, actions: seq<Action>) {
    |trace| == |actions| + 1 && forall i :: 0 <= i < |actions| ==> Disciplined(codec, trace[i], actions[i])
  }

  /** In this run operators make up no state labels. */
  ghost predicate ForgesNothing(codec: Codec, trace: seq<World>, actions: seq<Action>) {
    |trace| == |actions| + 1 && forall i :: 0 <= i < |actions| ==> Unforged(codec, trace[i], actions[i])
  }

  lemma {:induction false} RunsAreConsistent(codec: Codec, trace: seq<World>, actions: seq<Action>, i: nat)
    requires IsRun(codec, trace, actions) && i < |trace|
    ensures Consistent(trace[i])
  {
    hide Enabled, Apply;
    if i > 0 {
      RunsAreConsistent(codec, trace, actions, i - 1);
      assert Step(codec, trace[i - 1], actions[i - 1], trace[i]);
      StepKeepsConsistent(codec, trace[i - 1], actions[i - 1]);
    }
  }

  lemma {:induction false} RunsAreKnown(codec: Codec, trace: seq<World>, actions: seq<Action>, i: nat)
    requires codec.Faithful() && IsRun(codec, trace, actions) && ForgesNothing(codec, trace, actions) && i < |trace|
    ensures AllKnown(codec, trace[i])
  {
    hide Enabled, Apply, Unforged;
    if i > 0 {
      RunsAreKnown(codec, trace, actions, i - 1);
      assert Step(codec, trace[i - 1], actions[i - 1], trace[i]);
      StepKeepsKnown(codec, trace[i - 1], actions[i - 1]);
    }
  }

  // ---------------------------------------------------------------------
  // Gate safety
  // ---------------------------------------------------------------------

  /** The injection is recorded for this very configuration and its values are in place. */
  ghost predicate Backs(codec: Codec, spec: Spec, injection: Injection) {
    && Recorded(codec, spec, injection)
    && Configured(spec.labels) == Some(injection.config)
    && spec.container.Some?
    && Selected(spec.container.value.env, injection.values.Keys) == injection.values
  }

  ghost predicate GateSafe(codec: Codec, spec: Spec, injections: seq<Injection>) {
    BootstrapGated(spec) && !HasGate(spec) ==>
      exists injection :: injection in injections && Backs(codec, spec, injection)
  }

  /** Every specification the service ever had is safe, so each may be restored. */
  ghost predicate SafeRecord(codec: Codec, record: Record) {
    forall spec :: spec in record.history ==> GateSafe(codec, spec, record.injections)
  }

  ghost predicate Safe(codec: Codec, w: World) {
    forall service :: service in w.services ==> SafeRecord(codec, w.services[service])
  }

  lemma EditKeepsSafe(codec: Codec, before: Spec, after: Spec, injections: seq<Injection>)
    requires codec.Faithful() && GateSafe(codec, before, injections) && GateDiscipline(codec, before, after)
    requires forall injection :: injection in injections ==> AllRepresentable(injection.values.Keys)
    ensures GateSafe(codec, after, injections)
  {
    hide Configured, HasGate, Backs, LeavesInjectionAlone;
    if BootstrapGated(after) && !HasGate(after) {
      SameConfiguration(codec, before, after);
      var injection :| injection in injections && Backs(codec, before, injection);
      BackingStays(codec, before, after, injection);
    }
  }

  lemma SameConfiguration(codec: Codec, before: Spec, after: Spec)
    requires LeavesInjectionAlone(codec, before, after)
    ensures Configured(after.labels) == Configured(before.labels) && StateOf(after.labels) == StateOf(before.labels)
  {
    hide Configured, Selected;
    ForeignLabelsAreIgnored(before.labels, after.labels);
  }

  lemma BackingStays(codec: Codec, before: Spec, after: Spec, injection: Injection)
    requires codec.Faithful() && Backs(codec, before, injection) && LeavesInjectionAlone(codec, before, after)
    requires AllRepresentable(injection.values.Keys)
    ensures Backs(codec, after, injection)
  {
    hide Configured, Selected, StateOf;
    SameConfiguration(codec, before, after);
    StateReadsBack(codec, before.labels, injection.config, injection.versions, injection.values);
    assert Members(SortedNames(injection.values.Keys)) == injection.values.Keys;
  }

  lemma UpdateIsSafe(codec: Codec, record: Record, task: Task)
    requires codec.Faithful() && Sending(codec, task)
    ensures GateSafe(codec, Decide(codec, task.spec, task.answers).spec, Updated(codec, record, task).injections)
  {
    hide Decide, Recorded, Selected, Configured, Injected, HasGate;
    SendingIsConfigured(codec, task);
    var sent := Decide(codec, task.spec, task.answers).spec;
    if Configured(task.spec.labels).value.enabled {
      SentIsBacked(codec, task);
      assert InjectionBy(task) in Updated(codec, record, task).injections;
    } else {
      SentStaysDisabled(codec, task);
    }
  }

  lemma SentStaysDisabled(codec: Codec, task: Task)
    requires Sending(codec, task) && Configured(task.spec.labels).Some? && !Configured(task.spec.labels).value.enabled
    ensures Configured(Decide(codec, task.spec, task.answers).spec.labels) == Configured(task.spec.labels)
  {
    hide Configured;
    StateRoundTrip(task.spec.labels, NO_STATE);
    assert WithoutState(WithoutState(task.spec.labels)) == WithoutState(task.spec.labels);
    ConfigurationIgnoresState(Decide(codec, task.spec, task.answers).spec.labels, task.spec.labels);
  }

  lemma SentIsBacked(codec: Codec, task: Task)
    requires codec.Faithful() && Sending(codec, task)
    requires Configured(task.spec.labels).Some? && Configured(task.spec.labels).value.enabled
    ensures Backs(codec, Decide(codec, task.spec, task.answers).spec, InjectionBy(task))
  {
    hide Decide, IsInjection, Recorded, Selected, Configured, WithState, DesiredValues, Merged;
    var inputs, versions, values := SubmitShape(codec, task.spec, task.answers);
    InjectionNames(codec, task.spec, task.answers, inputs, versions, values);
    InjectionFacts(codec, task.spec, task.answers, inputs, versions, values);
    InjectedLabels(codec, task.spec, inputs, versions, values);
    SentCarriesInjection(codec, task);
    SelectAfterMerge(task.spec.container.value.env, Members(inputs.managed), values);
  }

  lemma StepKeepsSafe(codec: Codec, w: World, a: Action)
    requires codec.Faithful() && Consistent(w) && Safe(codec, w)
    requires Enabled(codec, w, a) && Disciplined(codec, w, a)
    ensures Safe(codec, Apply(codec, w, a))
  {
    hide SafeRecord, Disciplined, Sending, GoodTask, GoodRecord, WantsMetadata, WantsData, Updated, SourceOf,
         VersionData;
    match a {
      case Create(service, spec) =>
        CreatedIsSafe(codec, w, a);
      case Edit(service, spec) =>
        EditedRecordIsSafe(codec, w, a);
      case Update(t) =>
        if Accepts(w, w.tasks[t]) {
          UpdatedRecordIsSafe(codec, w.services[w.tasks[t].service], w.tasks[t]);
        }
      case Delete(service) =>
        DeletedRecordIsSafe(codec, w.services[service]);
      case _ =>
    }
  }

  lemma EditedRecordIsSafe(codec: Codec, w: World, a: Action)
    requires codec.Faithful() && a.Edit? && a.service in w.services && Disciplined(codec, w, a)
    requires var record := w.services[a.service]; GoodRecord(w.vault, record) && SafeRecord(codec, record)
    ensures var record := w.services[a.service];
            SafeRecord(codec, record.(history := record.history + [a.spec]))
  {
    hide GateSafe, GateDiscipline;
    var record := w.services[a.service];
    if a.spec !in record.history {
      assert record.Current() in record.history;
      GoodInjections(w.vault, record);
      EditKeepsSafe(codec, record.Current(), a.spec, record.injections);
    }
  }

  lemma UpdatedRecordIsSafe(codec: Codec, record: Record, task: Task)
    requires codec.Faithful() && Sending(codec, task) && SafeRecord(codec, record)
    ensures SafeRecord(codec, Updated(codec, record, task))
  {
    hide GateSafe, Sending, Decide, InjectionBy;
    SendingIsConfigured(codec, task);
    UpdateIsSafe(codec, record, task);
    var updated := Updated(codec, record, task);
    forall spec | spec in record.history ensures GateSafe(codec, spec, updated.injections) {
      SafeStays(codec, spec, record.injections, updated.injections);
    }
  }

  lemma SafeStays(codec: Codec, spec: Spec, injections: seq<Injection>, more: seq<Injection>)
    requires GateSafe(codec, spec, injections) && injections <= more
    ensures GateSafe(codec, spec, more)
  {
    hide Backs, BootstrapGated, HasGate;
    if BootstrapGated(spec) && !HasGate(spec) {
      var injection :| injection in injections && Backs(codec, spec, injection);
      assert injection in more;
    }
  }

  lemma DeletedRecordIsSafe(codec: Codec, record: Record)
    requires SafeRecord(codec, record)
    ensures SafeRecord(codec, record.(live := false))
  {
    hide GateSafe;
  }

  lemma GoodInjections(vault: Vault, record: Record)
    requires GoodRecord(vault, record)
    ensures forall injection :: injection in record.injections ==> AllRepresentable(injection.values.Keys)
  {
    hide DesiredValues, DocumentsAt;
  }

  lemma CreatedIsSafe(codec: Codec, w: World, a: Action)
    requires a.Create? && Disciplined(codec, w, a)
    ensures SafeRecord(codec, Record([a.spec], [], true))
  {
    hide HasGate, BootstrapGated;
  }

  lemma {:induction false} RunsAreSafe(codec: Codec, trace: seq<World>, actions: seq<Action>, i: nat)
    requires codec.Faithful() && IsRun(codec, trace, actions) && KeepsDiscipline(codec, trace, actions) && i < |trace|
    ensures Safe(codec, trace[i])
  {
    hide Enabled, Apply, Disciplined, SafeRecord;
    if i > 0 {
      RunsAreSafe(codec, trace, actions, i - 1);
      RunsAreConsistent(codec, trace, actions, i - 1);
      assert Step(codec, trace[i - 1], actions[i - 1], trace[i]);
      StepKeepsSafe(codec, trace[i - 1], actions[i - 1]);
    }
  }

  /** All four state labels, and the desired values of the recorded versions in place. */
  ghost predicate HoldsDesired(codec: Codec, vault: Vault, spec: Spec, versions: map<string, int>, values: Env) {
    var state, secrets := StateOf(spec.labels), SecretsFor(Configured(spec.labels));
    && state.versions != "" && state.managed != "" && state.digest != "" && state.config != ""
    && codec.AppliedVersions(spec.labels) == Some(versions)
    && codec.ManagedEnvironment(spec.labels) == Some(SortedNames(values.Keys))
    && DesiredValues(secrets, DocumentsAt(vault, secrets, versions)) == Some(values)
    && spec.container.Some?
    && Selected(spec.container.value.env, values.Keys) == values
  }

  /** The service asks for the gate, and its current specification has none. */
  ghost predicate Exposed(w: World, service: string) {
    && service in w.services && w.services[service].history != []
    && BootstrapGated(w.services[service].Current()) && !HasGate(w.services[service].Current())
  }

  /**
   Gate safety. In every run in which operators keep the gate discipline - and
   Swarm may roll back to anything the service had before - a service that asks
   for the gate and has none holds exactly the values its configuration desires
   at the versions its labels record.
   */
  lemma GateSafety(codec: Codec, trace: seq<World>, actions: seq<Action>, i: nat, service: string)
    requires codec.Faithful() && IsRun(codec, trace, actions) && KeepsDiscipline(codec, trace, actions) && i < |trace|
    requires Exposed(trace[i], service)
    ensures exists versions, values ::
              HoldsDesired(codec, trace[i].vault, trace[i].services[service].Current(), versions, values)
  {
    hide BootstrapGated, HasGate, Backs, VaultAgrees, HoldsDesired, IsRun, KeepsDiscipline;
    RunsAreSafe(codec, trace, actions, i);
    RunsAreConsistent(codec, trace, actions, i);
    var record := trace[i].services[service];
    var spec := record.Current();
    assert GoodRecord(trace[i].vault, record) && SafeRecord(codec, record);
    assert spec in record.history && GateSafe(codec, spec, record.injections);
    var injection :| injection in record.injections && Backs(codec, spec, injection);
    BackedHoldsDesired(codec, trace[i].vault, spec, injection);
    assert HoldsDesired(codec, trace[i].vault, spec, injection.versions, injection.values);
  }

  // ---------------------------------------------------------------------
  // No lost writes, all or nothing
  // ---------------------------------------------------------------------

  /** The names an update of this task may add, change or remove. */
  ghost function NamesTouched(codec: Codec, task: Task): set<string>
    requires Sending(codec, task)
  {
    var managed := codec.ManagedEnvironment(task.spec.labels);
    (if managed.Some? then Members(managed.value) else {})
    + if Configured(task.spec.labels).Some? && Configured(task.spec.labels).value.enabled
      then InjectionBy(task).values.Keys else {}
  }

  lemma SentOwnership(codec: Codec, task: Task)
    requires codec.Faithful() && Sending(codec, task)
    ensures OnlyOwnPartsChanged(task.spec, Decide(codec, task.spec, task.answers).spec, NamesTouched(codec, task))
  {
    hide Decide, IsInjection, Injected, Configured, DesiredValues, OnlyOwnPartsChanged;
    SendingIsConfigured(codec, task);
    if Configured(task.spec.labels).value.enabled {
      var inputs, versions, values := SubmitShape(codec, task.spec, task.answers);
      InjectionNames(codec, task.spec, task.answers, inputs, versions, values);
      InjectionFacts(codec, task.spec, task.answers, inputs, versions, values);
      InjectionManaged(codec, task.spec, task.answers, inputs, versions, values);
      InjectionOwnership(codec, task.spec, inputs, versions, values);
    } else {
      var managed := CleanupShape(codec, task.spec, task.answers);
      CleanupOwnership(task.spec, managed);
      assert Members(managed) + {} == Members(managed);
    }
  }

  lemma InjectionManaged(codec: Codec, spec: Spec, answers: Answers, inputs: Inputs, versions: map<string, int>,
                         values: Env)
    requires IsInjection(codec, spec, answers, inputs, versions, values)
    ensures codec.ManagedEnvironment(spec.labels) == Some(inputs.managed)
  {
  }

  lemma CleanupShape(codec: Codec, spec: Spec, answers: Answers) returns (managed: seq<string>)
    requires Decide(codec, spec, answers).Submit? && Configured(spec.labels).Some?
             && !Configured(spec.labels).value.enabled
    ensures codec.ManagedEnvironment(spec.labels) == Some(managed) && spec.container.Some?
    ensures Decide(codec, spec, answers).spec == Cleaned(spec, managed)
  {
    managed := codec.ManagedEnvironment(spec.labels).value;
  }

  /**
   No lost writes. An accepted update replaces exactly the specification it was
   computed from, however old the listing was that started it, and in one new
   specification; everything the controller does not own is carried over.
   */
  lemma NoLostWrites(codec: Codec, trace: seq<World>, actions: seq<Action>, i: nat)
    requires codec.Faithful() && IsRun(codec, trace, actions) && i < |actions|
    requires actions[i].Update? && Enabled(codec, trace[i], actions[i])
    requires Accepts(trace[i], trace[i].tasks[actions[i].task])
    ensures var task := trace[i].tasks[actions[i].task];
            var before, after := trace[i].services[task.service], trace[i + 1].services[task.service];
            && before.history != [] && before.Current() == task.spec
            && after.history == before.history + [Decide(codec, task.spec, task.answers).spec]
            && OnlyOwnPartsChanged(before.Current(), after.Current(), NamesTouched(codec, task))
            && after.Current() != before.Current()
            && forall other :: other in trace[i].services && other != task.service ==>
                 other in trace[i + 1].services && trace[i + 1].services[other] == trace[i].services[other]
  {
    hide Decide, OnlyOwnPartsChanged, NamesTouched;
    RunsAreConsistent(codec, trace, actions, i);
    var task := trace[i].tasks[actions[i].task];
    assert GoodTask(trace[i], task) && GoodRecord(trace[i].vault, trace[i].services[task.service]);
    assert Step(codec, trace[i], actions[i], trace[i + 1]);
    SentOwnership(codec, task);
    SentChanges(codec, task);
  }

  /** What is sent always differs from what it was computed from. */
  lemma SentChanges(codec: Codec, task: Task)
    requires codec.Faithful() && Sending(codec, task)
    ensures Decide(codec, task.spec, task.answers).spec != task.spec
  {
    hide Decide, IsInjection, Injected, Configured;
    SendingIsConfigured(codec, task);
    if Configured(task.spec.labels).value.enabled {
      var inputs, versions, values := SubmitShape(codec, task.spec, task.answers);
      SlowPathAlwaysChanges(codec, task.spec, task.answers, inputs, versions, values);
    } else {
      CleanupChanges(codec, task);
    }
  }

  lemma CleanupChanges(codec: Codec, task: Task)
    requires Sending(codec, task) && Configured(task.spec.labels).Some? && !Configured(task.spec.labels).value.enabled
    ensures Decide(codec, task.spec, task.answers).spec != task.spec
  {
    hide Configured;
    StateRoundTrip(task.spec.labels, NO_STATE);
    assert HasControllerState(task.spec.labels);
  }

  /** Nothing went wrong: the labels parse and pass, and every source was read at its answered version. */
  ghost predicate NothingFailed(codec: Codec, vault: Vault, task: Task) {
    && Configured(task.spec.labels).Some? && task.spec.container.Some?
    && var config := Configured(task.spec.labels).value;
       if config.enabled then
         && Admitted(codec, task.spec, config).Some? && AllResolve(config.secrets, task.answers)
         && ReadFrom(vault, config.secrets, task.answers)
       else HasControllerState(task.spec.labels) && codec.ManagedEnvironment(task.spec.labels).Some?
  }

  /** What was read of each source is what Vault holds at the version it named. */
  ghost predicate ReadFrom(vault: Vault, secrets: map<string, SecretSource>, answers: Answers) {
    forall id :: id in secrets ==>
      && id in answers.current && id in answers.read
      && VersionData(vault, secrets[id], answers.current[id]) == Some(answers.read[id].data)
  }

  /**
   All or nothing. In every run, a step that is not an operator's changes a
   service only if it is an update that Docker accepts and nothing failed before
   it; then it changes that one service. So any unreadable source, wrong
   version, unparsable label, failed check, unusable field, name collision or
   version conflict leaves every service as it was.
   */
  lemma OnlyAcceptedUpdatesWrite(codec: Codec, trace: seq<World>, actions: seq<Action>, i: nat)
    requires codec.Faithful() && IsRun(codec, trace, actions) && i < |actions|
    requires !(actions[i].Create? || actions[i].Edit? || actions[i].Delete?)
    ensures trace[i + 1].services != trace[i].services ==>
              && actions[i].Update? && actions[i].task in trace[i].tasks
              && var task := trace[i].tasks[actions[i].task];
                 && Sending(codec, task) && Accepts(trace[i], task)
                 && NothingFailed(codec, trace[i].vault, task)
                 && trace[i + 1].services
                    == trace[i].services[task.service := Updated(codec, trace[i].services[task.service], task)]
  {
    hide Sending, Updated, Accepts, NothingFailed, Consistent, WantsMetadata, WantsData, SourceOf, VersionData,
         CurrentVersion;
    assert Step(codec, trace[i], actions[i], trace[i + 1]);
    if trace[i + 1].services != trace[i].services {
      RunsAreConsistent(codec, trace, actions, i);
      SendingDidNotFail(codec, trace[i], actions[i].task);
    }
  }

  lemma SendingDidNotFail(codec: Codec, w: World, t: nat)
    requires codec.Faithful() && Consistent(w) && t in w.tasks && Sending(codec, w.tasks[t])
    ensures NothingFailed(codec, w.vault, w.tasks[t])
  {
    hide Decide, Configured, Admitted, IsCurrent, Contribution, GoodRecord, VersionData, HasControllerState;
    var task := w.tasks[t];
    assert GoodTask(w, task);
    SendingIsConfigured(codec, task);
    var config := Configured(task.spec.labels).value;
    if config.enabled {
      SubmitsWhenAdmitted(codec, task.spec, task.answers, config);
      forall id | id in config.secrets ensures id in task.answers.read && id in task.answers.current {
        assert SourceResolves(config.secrets[id], id, task.answers);
      }
    } else {
      CleansExactly(codec, task.spec, task.answers);
    }
  }

  /** An accepted injection changes entries, labels and gate together. */
  lemma InjectionIsAtomic(codec: Codec, task: Task)
    requires codec.Faithful() && Sending(codec, task)
    requires Configured(task.spec.labels).Some? && Configured(task.spec.labels).value.enabled
    ensures var sent, injection := Decide(codec, task.spec, task.answers).spec, InjectionBy(task);
            && Backs(codec, sent, injection)
            && !HasGate(sent)
            && Constraints(sent) == Ungated(Constraints(task.spec))
            && (HasGate(task.spec) ==> injection.config.bootstrapGate)
  {
    hide Decide, IsInjection, Injected, Configured, DesiredValues, HasGate, Ungated;
    SentIsBacked(codec, task);
    var inputs, versions, values := SubmitShape(codec, task.spec, task.answers);
    InjectionFacts(codec, task.spec, task.answers, inputs, versions, values);
    InjectedConstraints(codec, task.spec, inputs, versions, values);
  }

  // ---------------------------------------------------------------------
  // Exact versions
  // ---------------------------------------------------------------------

  lemma {:induction false} AgreementLasts(codec: Codec, trace: seq<World>, actions: seq<Action>,
                                         i: nat, j: nat, injection: Injection)
    requires IsRun(codec, trace, actions) && i <= j < |trace|
    requires VaultAgrees(trace[i].vault, injection)
    ensures VaultAgrees(trace[j].vault, injection)
  {
    hide DesiredValues, DocumentsAt, Enabled, Disciplined;
    if i < j {
      AgreementLasts(codec, trace, actions, i, j - 1, injection);
      var a := actions[j - 1];
      assert Step(codec, trace[j - 1], a, trace[j]);
      VaultAfter(codec, trace[j - 1], a);
      if a.WriteVault? {
        DesiredStays(trace[j - 1].vault, (a.mount, a.path), a.data, injection.config.secrets, injection.versions);
      }
    }
  }

  lemma VaultAfter(codec: Codec, w: World, a: Action)
    requires Enabled(codec, w, a)
    ensures Apply(codec, w, a).vault == if a.WriteVault? then Appended(w.vault, (a.mount, a.path), a.data) else w.vault
  {
    hide Enabled, Updated;
  }

  /**
   Exact versions. Whatever is written to Vault while a reconcile runs, or ever
   after, the entries it sends are the values desired at the versions it
   records in the labels - a function of the configuration and those versions.
   */
  lemma ExactVersions(codec: Codec, trace: seq<World>, actions: seq<Action>, i: nat, j: nat, t: nat)
    requires codec.Faithful() && IsRun(codec, trace, actions) && i <= j < |trace|
    requires t in trace[i].tasks && Sending(codec, trace[i].tasks[t])
    requires Configured(trace[i].tasks[t].spec.labels).Some? && Configured(trace[i].tasks[t].spec.labels).value.enabled
    ensures var task := trace[i].tasks[t];
            var sent, injection := Decide(codec, task.spec, task.answers).spec, InjectionBy(task);
            HoldsDesired(codec, trace[j].vault, sent, injection.versions, injection.values)
  {
    hide Decide, IsInjection, Recorded, Selected, DesiredValues, DocumentsAt, Configured, IsRun;
    var task := trace[i].tasks[t];
    RunsAreConsistent(codec, trace, actions, i);
    assert GoodTask(trace[i], task);
    TaskAgrees(codec, trace[i], task);
    AgreementLasts(codec, trace, actions, i, j, InjectionBy(task));
    SentIsBacked(codec, task);
    BackedHoldsDesired(codec, trace[j].vault, Decide(codec, task.spec, task.answers).spec, InjectionBy(task));
  }

  lemma BackedHoldsDesired(codec: Codec, vault: Vault, spec: Spec, injection: Injection)
    requires codec.Faithful() && Backs(codec, spec, injection) && VaultAgrees(vault, injection)
    ensures HoldsDesired(codec, vault, spec, injection.versions, injection.values)
  {
    hide DesiredValues, DocumentsAt, Configured, Selected;
    StateReadsBack(codec, spec.labels, injection.config, injection.versions, injection.values);
  }

  // ---------------------------------------------------------------------
  // Ungated injections
  // ---------------------------------------------------------------------

  /**
   An update of a service that asks for the gate and has none repeats the
   configuration of the injection that wrote its state labels: always when no
   state labels are made up, and when they are, still under the gate discipline.
   */
  lemma UngatedInjectionsRepeat(codec: Codec, trace: seq<World>, actions: seq<Action>, i: nat, t: nat)
    requires codec.Faithful() && IsRun(codec, trace, actions) && i < |trace|
    requires (ForgesNothing(codec, trace, actions) && codec.CollisionFree()) || KeepsDiscipline(codec, trace, actions)
    requires t in trace[i].tasks && Sending(codec, trace[i].tasks[t])
    requires BootstrapGated(trace[i].tasks[t].spec) && !HasGate(trace[i].tasks[t].spec)
    ensures var task := trace[i].tasks[t];
            task.service in trace[i].services &&
            exists injection :: injection in trace[i].services[task.service].injections
              && Recorded(codec, task.spec, injection)
              && injection.config.bootstrapGate == Configured(task.spec.labels).value.bootstrapGate
              && injection.config.secrets == Configured(task.spec.labels).value.secrets
  {
    hide IsRun, ForgesNothing, KeepsDiscipline, Sending, HasGate, SafeRecord, KnownRecord, GoodRecord, GoodReads;
    var task := trace[i].tasks[t];
    RunsAreConsistent(codec, trace, actions, i);
    assert GoodTask(trace[i], task);
    var record := trace[i].services[task.service];
    if KeepsDiscipline(codec, trace, actions) {
      RunsAreSafe(codec, trace, actions, i);
      BackedRepeats(codec, record, task.spec);
    } else {
      RunsAreKnown(codec, trace, actions, i);
      KnownRepeats(codec, record, task);
    }
  }

  ghost predicate Repeats(codec: Codec, record: Record, spec: Spec)
    requires Configured(spec.labels).Some?
  {
    exists injection :: injection in record.injections && Recorded(codec, spec, injection)
      && injection.config.bootstrapGate == Configured(spec.labels).value.bootstrapGate
      && injection.config.secrets == Configured(spec.labels).value.secrets
  }

  lemma BackedRepeats(codec: Codec, record: Record, spec: Spec)
    requires SafeRecord(codec, record) && spec in record.history && BootstrapGated(spec) && !HasGate(spec)
    ensures Repeats(codec, record, spec)
  {
    hide Configured, HasGate, Recorded;
    assert GateSafe(codec, spec, record.injections);
    var injection :| injection in record.injections && Backs(codec, spec, injection);
  }

  lemma KnownRepeats(codec: Codec, record: Record, task: Task)
    requires codec.Faithful() && codec.CollisionFree() && KnownRecord(codec, record) && task.spec in record.history
    requires Sending(codec, task) && BootstrapGated(task.spec) && !HasGate(task.spec)
    ensures Repeats(codec, record, task.spec)
  {
    hide Decide, IsInjection, Injected, Configured, DesiredValues, HasGate;
    var inputs, versions, values := SubmitShape(codec, task.spec, task.answers);
    InjectionFacts(codec, task.spec, task.answers, inputs, versions, values);
    assert StateIsKnown(codec, task.spec, record.injections);
    var injection :| injection in record.injections && Recorded(codec, task.spec, injection);
    ConfigHashDetermines(codec, injection.config, inputs.config);
  }

  // ---------------------------------------------------------------------
  // The fast path, in every run
  // ---------------------------------------------------------------------

  /** Labels are not made up; or the service asks for the gate, and its discipline is kept. */
  ghost predicate Traceable(codec: Codec, trace: seq<World>, actions: seq<Action>, config: Config) {
    ForgesNothing(codec, trace, actions) || (KeepsDiscipline(codec, trace, actions) && config.bootstrapGate)
  }

  /**
   In every run, the cheap check says that a service is current exactly when
   reading all the data at those versions would resolve and recomputing would
   keep the meaning of the environment, the labels and the constraints. Names
   and values must be NUL-free.
   */
  lemma FastPathIsExactInRuns(codec: Codec, trace: seq<World>, actions: seq<Action>, i: nat,
                              service: string, spec: Spec, inputs: Inputs, versions: map<string, int>)
    requires codec.Faithful() && codec.CollisionFree() && IsRun(codec, trace, actions) && i < |trace|
    requires Traceable(codec, trace, actions, inputs.config)
    requires service in trace[i].services && spec in trace[i].services[service].history
    requires Configured(spec.labels) == Some(inputs.config) && inputs.config.enabled
    requires Admitted(codec, spec, inputs.config) == Some(inputs) && spec.container.Some?
    requires NulFree(Selected(spec.container.value.env, Members(inputs.managed)))
    requires var desired := DesiredValues(inputs.config.secrets,
                                          DocumentsAt(trace[i].vault, inputs.config.secrets, versions));
             desired.Some? ==> NulFree(desired.value)
    ensures IsCurrent(codec, spec, inputs, versions)
            <==> RecomputeKeeps(codec, spec, inputs, versions,
                                DocumentsAt(trace[i].vault, inputs.config.secrets, versions))
  {
    hide *;
    var docs := DocumentsAt(trace[i].vault, inputs.config.secrets, versions);
    if IsCurrent(codec, spec, inputs, versions) {
      var injection := PastInjection(codec, trace, actions, i, service, spec, inputs, versions);
      RecordedInputs(codec, spec, inputs, versions, injection.config, injection.versions, injection.values);
      FastPathIsSound(codec, spec, inputs, versions, docs, injection.config, injection.versions, injection.values);
    } else if RecomputeKeeps(codec, spec, inputs, versions, docs) {
      FastPathIsComplete(codec, spec, inputs, versions, docs);
    }
  }

  lemma PastInjection(codec: Codec, trace: seq<World>, actions: seq<Action>, i: nat,
                      service: string, spec: Spec, inputs: Inputs, versions: map<string, int>)
    returns (injection: Injection)
    requires codec.Faithful() && IsRun(codec, trace, actions) && i < |trace|
    requires Traceable(codec, trace, actions, inputs.config)
    requires service in trace[i].services && spec in trace[i].services[service].history
    requires Configured(spec.labels) == Some(inputs.config) && inputs.config.enabled
    requires spec.container.Some? && IsCurrent(codec, spec, inputs, versions)
    ensures CarriesInjection(codec, spec, injection.config, injection.versions, injection.values)
    ensures AllRepresentable(injection.values.Keys)
    ensures DesiredValues(injection.config.secrets,
                          DocumentsAt(trace[i].vault, injection.config.secrets, injection.versions))
            == Some(injection.values)
  {
    hide IsRun, ForgesNothing, KeepsDiscipline, Consistent, AllKnown, Safe, Configured, IsCurrent, AllRepresentable,
         CarriesInjection, DesiredValues, DocumentsAt;
    RunsAreConsistent(codec, trace, actions, i);
    if ForgesNothing(codec, trace, actions) {
      RunsAreKnown(codec, trace, actions, i);
      injection := RecordedInjection(codec, trace[i], service, spec, inputs, versions);
    } else {
      RunsAreSafe(codec, trace, actions, i);
      injection := BackingInjection(codec, trace[i], service, spec, inputs, versions);
    }
  }

  /** The past injection that a current service carries in its labels. */
  lemma RecordedInjection(codec: Codec, w: World, service: string, spec: Spec, inputs: Inputs,
                          versions: map<string, int>)
    returns (injection: Injection)
    requires codec.Faithful() && Consistent(w) && AllKnown(codec, w)
    requires service in w.services && spec in w.services[service].history
    requires spec.container.Some? && IsCurrent(codec, spec, inputs, versions)
    ensures CarriesInjection(codec, spec, injection.config, injection.versions, injection.values)
    ensures AllRepresentable(injection.values.Keys)
    ensures DesiredValues(injection.config.secrets, DocumentsAt(w.vault, injection.config.secrets, injection.versions))
            == Some(injection.values)
  {
    hide DesiredValues, DocumentsAt, HasGate, Encoded, Selected, GoodTask, CarriesInjection;
    CurrentIsRecorded(codec, spec, inputs, versions);
    var record := w.services[service];
    assert GoodRecord(w.vault, record) && KnownRecord(codec, record);
    assert StateIsKnown(codec, spec, record.injections);
    injection :| injection in record.injections && Recorded(codec, spec, injection);
    assert VaultAgrees(w.vault, injection);
  }

  /** The same for a service that asks for the gate, by gate safety. */
  lemma BackingInjection(codec: Codec, w: World, service: string, spec: Spec, inputs: Inputs,
                         versions: map<string, int>)
    returns (injection: Injection)
    requires Consistent(w) && Safe(codec, w)
    requires service in w.services && spec in w.services[service].history
    requires Configured(spec.labels) == Some(inputs.config) && inputs.config.enabled && inputs.config.bootstrapGate
    requires spec.container.Some? && IsCurrent(codec, spec, inputs, versions)
    ensures CarriesInjection(codec, spec, injection.config, injection.versions, injection.values)
    ensures AllRepresentable(injection.values.Keys)
    ensures DesiredValues(injection.config.secrets, DocumentsAt(w.vault, injection.config.secrets, injection.versions))
            == Some(injection.values)
  {
    hide DesiredValues, DocumentsAt, HasGate, Encoded, Selected, GoodTask, CarriesInjection, Configured;
    var record := w.services[service];
    assert GoodRecord(w.vault, record) && SafeRecord(codec, record);
    assert GateSafe(codec, spec, record.injections);
    injection :| injection in record.injections && Backs(codec, spec, injection);
    assert VaultAgrees(w.vault, injection);
  }

  lemma CurrentIsRecorded(codec: Codec, spec: Spec, inputs: Inputs, versions: map<string, int>)
    requires codec.Faithful() && spec.container.Some? && IsCurrent(codec, spec, inputs, versions)
    ensures StateOf(spec.labels) != NO_STATE
  {
    hide HasGate, Encoded, Selected;
  }
}
