/**
 The protocol around one reconcile: services with version indexes, a growing
 Vault, operators, and any number of reconciles in flight, interleaved step by
 step.
 */
module Protocol {
  import opened Wrappers
  import opened Text
  import opened Environment
  import opened Labels
  import opened Desired
  import opened Service
  import opened Decision

  // ---------------------------------------------------------------------
  // The world
  // ---------------------------------------------------------------------

  /** Every version ever written of every document; a version never changes. */
  type Vault = map<(string, string), seq<Document>>

  function CurrentVersion(vault: Vault, source: SecretSource): int {
    var key := (source.mount, source.path);
    if key in vault then |vault[key]| else 0
  }

  function VersionData(vault: Vault, source: SecretSource, version: int): Option<Document> {
    if 1 <= version <= CurrentVersion(vault, source) then Some(vault[(source.mount, source.path)][version - 1])
    else None
  }

  /** An accepted injection: configuration, versions read, and values installed. */
  datatype Injection = Injection(config: Config, versions: map<string, int>, values: Env)

  /**
   A service with all the specifications it ever had, the last being current;
   its version index is the position of the current one. `injections` is history.
   */
  datatype Record = Record(history: seq<Spec>, injections: seq<Injection>, live: bool)
  {
    function Current(): Spec
      requires history != []
    {
      history[|history| - 1]
    }
  }

  /** One reconcile in flight: the service it was given and what Vault told it so far. */
  datatype Task = Task(service: string, version: nat, spec: Spec, answers: Answers)

  datatype World = World(vault: Vault, services: map<string, Record>, tasks: map<nat, Task>)

  datatype Action =
    | WriteVault(mount: string, path: string, data: Document)
    | Create(service: string, spec: Spec)
    | Edit(service: string, spec: Spec)
    | Delete(service: string)
    | Start(task: nat, service: string, version: nat)
    | ReadMetadata(task: nat, source: string)
    | ReadData(task: nat, source: string)
    | Update(task: nat)
    | Stop(task: nat)

  // ---------------------------------------------------------------------
  // What operators may do
  // ---------------------------------------------------------------------

  /** The state labels are absent together, or those of one past injection. */
  ghost predicate StateIsKnown(codec: Codec, spec: Spec, injections: seq<Injection>) {
    StateOf(spec.labels) == NO_STATE || exists injection :: injection in injections && Recorded(codec, spec, injection)
  }

  ghost predicate Recorded(codec: Codec, spec: Spec, injection: Injection) {
    CarriesInjection(codec, spec, injection.config, injection.versions, injection.values)
  }

  ghost predicate BootstrapGated(spec: Spec) {
    && Configured(spec.labels).Some?
    && Configured(spec.labels).value.enabled && Configured(spec.labels).value.bootstrapGate
  }

  /** The edit leaves every injector label and every managed entry as it was. */
  ghost predicate LeavesInjectionAlone(codec: Codec, before: Spec, after: Spec) {
    && (forall key :: HasPrefix(key, PREFIX) ==>
          (key in before.labels <==> key in after.labels)
          && (key in before.labels ==> before.labels[key] == after.labels[key]))
    && before.container.Some? && after.container.Some?
    && codec.ManagedEnvironment(before.labels).Some?
    && var managed := Members(codec.ManagedEnvironment(before.labels).value);
       Selected(after.container.value.env, managed) == Selected(before.container.value.env, managed)
  }

  /**
   The documented discipline of gated services: a specification without the
   reserved constraint comes only from one without it, injection untouched.
   */
  ghost predicate GateDiscipline(codec: Codec, before: Spec, after: Spec) {
    BootstrapGated(after) && !HasGate(after) ==> !HasGate(before) && LeavesInjectionAlone(codec, before, after)
  }

  // ---------------------------------------------------------------------
  // Steps
  // ---------------------------------------------------------------------

  ghost predicate Sending(codec: Codec, task: Task) {
    Decide(codec, task.spec, task.answers).Submit?
  }

  /** Docker accepts an update exactly when the version index is the current one. */
  ghost predicate Accepts(w: World, task: Task) {
    && task.service in w.services && w.services[task.service].live
    && task.version == |w.services[task.service].history| - 1
  }

  /** The reconcile has passed its checks and is asking for current versions. */
  ghost predicate WantsMetadata(codec: Codec, task: Task, source: string) {
    && Configured(task.spec.labels).Some?
    && var config := Configured(task.spec.labels).value;
       config.enabled && Admitted(codec, task.spec, config).Some? && source in config.secrets
       && source !in task.answers.current
  }

  /** All versions are known, the cheap check failed, and this source is not read yet. */
  ghost predicate WantsData(codec: Codec, task: Task, source: string) {
    && Configured(task.spec.labels).Some?
    && var config := Configured(task.spec.labels).value;
       && config.enabled && Admitted(codec, task.spec, config).Some? && source in config.secrets
       && task.answers.Versions(config.secrets.Keys).Keys == config.secrets.Keys
       && !IsCurrent(codec, task.spec, Admitted(codec, task.spec, config).value,
                     task.answers.Versions(config.secrets.Keys))
       && source !in task.answers.read
  }

  ghost function SourceOf(task: Task, source: string): SecretSource
    requires Configured(task.spec.labels).Some? && source in Configured(task.spec.labels).value.secrets
  {
    Configured(task.spec.labels).value.secrets[source]
  }

  ghost predicate Enabled(codec: Codec, w: World, a: Action) {
    match a
    case WriteVault(_, _, _) => true
    case Create(service, _) => service !in w.services
    case Edit(service, _) => service in w.services && w.services[service].live
    case Delete(service) => service in w.services
    case Start(task, service, version) =>
      task !in w.tasks && service in w.services && version < |w.services[service].history|
    case ReadMetadata(task, source) =>
      && task in w.tasks && WantsMetadata(codec, w.tasks[task], source)
      && CurrentVersion(w.vault, SourceOf(w.tasks[task], source)) > 0
    case ReadData(task, source) =>
      && task in w.tasks && WantsData(codec, w.tasks[task], source)
      && VersionData(w.vault, SourceOf(w.tasks[task], source), w.tasks[task].answers.current[source]).Some?
    case Update(task) => task in w.tasks && Sending(codec, w.tasks[task])
    case Stop(task) => task in w.tasks
  }

  /**
   The operator keeps to the gate discipline, or Swarm rolls back to a
   specification the service had before; other steps are not restricted.
   */
  ghost predicate Disciplined(codec: Codec, w: World, a: Action) {
    match a
    case Create(_, spec) => BootstrapGated(spec) ==> HasGate(spec)
    case Edit(service, spec) =>
      && service in w.services && w.services[service].history != []
      && (spec in w.services[service].history || GateDiscipline(codec, w.services[service].Current(), spec))
    case _ => true
  }

  /** The operator does not make up state labels; other steps are not restricted. */
  ghost predicate Unforged(codec: Codec, w: World, a: Action) {
    match a
    case Create(_, spec) => StateOf(spec.labels) == NO_STATE
    case Edit(service, spec) => service in w.services && StateIsKnown(codec, spec, w.services[service].injections)
    case _ => true
  }

  ghost function InjectionBy(task: Task): Injection
    requires Configured(task.spec.labels).Some?
  {
    var config := Configured(task.spec.labels).value;
    var versions := task.answers.Versions(config.secrets.Keys);
    var values := DesiredValues(config.secrets, task.answers.Documents(versions));
    Injection(config, versions, if values.Some? then values.value else map[])
  }

  /** The record after an accepted update. */
  ghost function Updated(codec: Codec, record: Record, task: Task): Record
    requires Sending(codec, task)
  {
    record.(history := record.history + [Decide(codec, task.spec, task.answers).spec],
            injections := if Configured(task.spec.labels).value.enabled
                          then record.injections + [InjectionBy(task)] else record.injections)
  }

  ghost function Appended(vault: Vault, key: (string, string), data: Document): Vault {
    vault[key := (if key in vault then vault[key] else []) + [data]]
  }

  ghost function Apply(codec: Codec, w: World, a: Action): World
    requires Enabled(codec, w, a)
  {
    match a
    case WriteVault(mount, path, data) => w.(vault := Appended(w.vault, (mount, path), data))
    case Create(service, spec) => w.(services := w.services[service := Record([spec], [], true)])
    case Edit(service, spec) =>
      var record := w.services[service];
      w.(services := w.services[service := record.(history := record.history + [spec])])
    case Delete(service) => w.(services := w.services[service := w.services[service].(live := false)])
    case Start(task, service, version) =>
      w.(tasks := w.tasks[task := Task(service, version, w.services[service].history[version], Answers(map[], map[]))])
    case ReadMetadata(task, source) =>
      var t := w.tasks[task];
      var version := CurrentVersion(w.vault, SourceOf(t, source));
      w.(tasks := w.tasks[task := t.(answers := t.answers.(current := t.answers.current[source := version]))])
    case ReadData(task, source) =>
      var t := w.tasks[task];
      var version := t.answers.current[source];
      var data := VersionData(w.vault, SourceOf(t, source), version).value;
      w.(tasks := w.tasks[task := t.(answers := t.answers.(read := t.answers.read[source := Secret(version, data)]))])
    case Update(task) =>
      var t := w.tasks[task];
      World(w.vault,
            if Accepts(w, t) then w.services[t.service := Updated(codec, w.services[t.service], t)] else w.services,
            w.tasks - {task})
    case Stop(task) => w.(tasks := w.tasks - {task})
  }

  // ---------------------------------------------------------------------
  // Vault only grows
  // ---------------------------------------------------------------------

  /** The documents behind these versions. */
  ghost function DocumentsAt(vault: Vault, secrets: map<string, SecretSource>, versions: map<string, int>)
    : map<string, Document>
  {
    map id | id in secrets && id in versions && VersionData(vault, secrets[id], versions[id]).Some?
      :: VersionData(vault, secrets[id], versions[id]).value
  }

  lemma VersionsStay(vault: Vault, key: (string, string), data: Document, source: SecretSource, version: int)
    requires VersionData(vault, source, version).Some?
    ensures VersionData(Appended(vault, key, data), source, version) == VersionData(vault, source, version)
  {
  }

  /** Values desired at some versions stay the values desired at those versions. */
  lemma DesiredStays(vault: Vault, key: (string, string), data: Document, secrets: map<string, SecretSource>,
                     versions: map<string, int>)
    requires DesiredValues(secrets, DocumentsAt(vault, secrets, versions)).Some?
    ensures forall id :: id in secrets ==> id in versions
    ensures DesiredValues(secrets, DocumentsAt(Appended(vault, key, data), secrets, versions))
            == DesiredValues(secrets, DocumentsAt(vault, secrets, versions))
  {
    hide DesiredValues, Appended;
    DesiredNeedsAll(secrets, DocumentsAt(vault, secrets, versions));
    forall id | id in secrets
      ensures id in versions
      ensures VersionData(Appended(vault, key, data), secrets[id], versions[id])
              == VersionData(vault, secrets[id], versions[id])
    {
      assert id in DocumentsAt(vault, secrets, versions);
      VersionsStay(vault, key, data, secrets[id], versions[id]);
    }
    SameDocuments(vault, Appended(vault, key, data), secrets, versions);
  }

  lemma SameDocuments(a: Vault, b: Vault, secrets: map<string, SecretSource>, versions: map<string, int>)
    requires forall id :: id in secrets ==>
               id in versions && VersionData(a, secrets[id], versions[id]) == VersionData(b, secrets[id], versions[id])
    ensures DocumentsAt(a, secrets, versions) == DocumentsAt(b, secrets, versions)
  {
    hide VersionData;
  }

  lemma DesiredNeedsAll(secrets: map<string, SecretSource>, docs: map<string, Document>)
    requires DesiredValues(secrets, docs).Some?
    ensures forall id :: id in secrets ==> id in docs
  {
    forall id | id in secrets ensures id in docs {
      assert PartsOf(secrets, docs)[id].Some?;
    }
  }

  // ---------------------------------------------------------------------
  // What every step keeps
  // ---------------------------------------------------------------------

  /** The injection's values are what its configuration asks for at its versions. */
  ghost predicate VaultAgrees(vault: Vault, injection: Injection) {
    && AllRepresentable(injection.values.Keys)
    && injection.config.enabled && injection.versions.Keys == injection.config.secrets.Keys
    && DesiredValues(injection.config.secrets, DocumentsAt(vault, injection.config.secrets, injection.versions))
       == Some(injection.values)
  }

  ghost predicate GoodRecord(vault: Vault, record: Record) {
    && record.history != []
    && (forall injection :: injection in record.injections ==> VaultAgrees(vault, injection))
  }

  function SecretsFor(config: Option<Config>): map<string, SecretSource> {
    if config.Some? then config.value.secrets else map[]
  }

  /** What was read is what Vault holds at the version that was named first. */
  ghost predicate GoodReads(vault: Vault, task: Task) {
    var secrets := SecretsFor(Configured(task.spec.labels));
    forall id :: id in task.answers.read ==>
      && id in secrets && id in task.answers.current
      && task.answers.read[id].version == task.answers.current[id]
      && VersionData(vault, secrets[id], task.answers.current[id]) == Some(task.answers.read[id].data)
  }

  ghost predicate GoodTask(w: World, task: Task) {
    && task.service in w.services
    && task.version < |w.services[task.service].history|
    && task.spec == w.services[task.service].history[task.version]
    && GoodReads(w.vault, task)
  }

  ghost predicate Consistent(w: World) {
    && (forall service :: service in w.services ==> GoodRecord(w.vault, w.services[service]))
    && (forall t :: t in w.tasks ==> GoodTask(w, w.tasks[t]))
  }

  /** Every specification the service had carries the labels of one past injection, or none. */
  ghost predicate KnownRecord(codec: Codec, record: Record) {
    forall spec :: spec in record.history ==> StateIsKnown(codec, spec, record.injections)
  }

  ghost predicate AllKnown(codec: Codec, w: World) {
    forall service :: service in w.services ==> KnownRecord(codec, w.services[service])
  }

  lemma KnownStays(codec: Codec, spec: Spec, injections: seq<Injection>, more: seq<Injection>)
    requires StateIsKnown(codec, spec, injections)
    requires injections <= more
    ensures StateIsKnown(codec, spec, more)
  {
    hide Recorded;
    if StateOf(spec.labels) != NO_STATE {
      var injection :| injection in injections && Recorded(codec, spec, injection);
      assert injection in more;
    }
  }

  lemma WriteKeepsConsistent(codec: Codec, w: World, a: Action)
    requires Consistent(w) && a.WriteVault?
    ensures Consistent(Apply(codec, w, a))
  {
    hide StateIsKnown, DesiredValues, DocumentsAt, VersionData, Configured, Appended;
    var key, w' := (a.mount, a.path), Apply(codec, w, a);
    forall service, injection | service in w.services && injection in w.services[service].injections
      ensures VaultAgrees(w'.vault, injection)
    {
      assert VaultAgrees(w.vault, injection);
      DesiredStays(w.vault, key, a.data, injection.config.secrets, injection.versions);
    }
    forall t | t in w.tasks ensures GoodReads(w'.vault, w.tasks[t]) {
      var task := w.tasks[t];
      assert GoodTask(w, task);
      var secrets := SecretsFor(Configured(task.spec.labels));
      forall id | id in task.answers.read
        ensures VersionData(w'.vault, secrets[id], task.answers.current[id]) == Some(task.answers.read[id].data)
      {
        VersionsStay(w.vault, key, a.data, secrets[id], task.answers.current[id]);
      }
    }
  }

  /** Extending one record keeps the tasks, which name positions in histories. */
  lemma TasksSurvive(w: World, services: map<string, Record>)
    requires Consistent(w)
    requires w.services.Keys <= services.Keys
    requires forall service :: service in w.services ==> w.services[service].history <= services[service].history
    ensures forall t :: t in w.tasks ==> GoodTask(w.(services := services), w.tasks[t])
  {
    hide GoodReads, GoodRecord;
  }

  lemma OperatorKeepsConsistent(codec: Codec, w: World, a: Action)
    requires Consistent(w) && Enabled(codec, w, a) && (a.Create? || a.Edit? || a.Delete?)
    ensures Consistent(Apply(codec, w, a))
  {
    hide VaultAgrees, GoodTask;
    var w' := Apply(codec, w, a);
    TasksSurvive(w, w'.services);
    forall service | service in w'.services ensures GoodRecord(w'.vault, w'.services[service]) {
      assert service in w.services ==> GoodRecord(w.vault, w.services[service]);
    }
  }

  lemma EmptyIsKnown(codec: Codec, spec: Spec)
    requires StateOf(spec.labels) == NO_STATE
    ensures StateIsKnown(codec, spec, [])
  {
  }

  lemma ReadingKeepsConsistent(codec: Codec, w: World, a: Action)
    requires Consistent(w) && Enabled(codec, w, a) && (a.Start? || a.ReadMetadata? || a.ReadData? || a.Stop?)
    ensures Consistent(Apply(codec, w, a))
  {
    hide GoodRecord, GoodReads, WantsMetadata, WantsData, Configured, VersionData, CurrentVersion;
    var w' := Apply(codec, w, a);
    forall t | t in w'.tasks ensures GoodTask(w', w'.tasks[t]) {
      if t in w.tasks {
        assert GoodTask(w, w.tasks[t]);
      }
      if !a.Stop? && t == a.task {
        NewReadsAreGood(codec, w, a);
      }
    }
  }

  lemma NewReadsAreGood(codec: Codec, w: World, a: Action)
    requires Consistent(w) && Enabled(codec, w, a) && (a.Start? || a.ReadMetadata? || a.ReadData?)
    ensures GoodReads(w.vault, Apply(codec, w, a).tasks[a.task])
  {
    hide GoodRecord, Configured, Admitted, IsCurrent, VersionData;
    if !a.Start? {
      assert GoodTask(w, w.tasks[a.task]);
    }
  }

  lemma SendingIsConfigured(codec: Codec, task: Task)
    requires Sending(codec, task)
    ensures Configured(task.spec.labels).Some?
  {
    hide Configured, DecideInjection, DecideCleanup;
  }

  /** The values a task computed are the desired ones at the versions it was told. */
  lemma TaskAgrees(codec: Codec, w: World, task: Task)
    requires GoodTask(w, task) && Sending(codec, task) && Configured(task.spec.labels).value.enabled
    ensures VaultAgrees(w.vault, InjectionBy(task))
  {
    hide Decide, IsInjection, Injected, Configured, DesiredValues, VersionData;
    var inputs, versions, values := SubmitShape(codec, task.spec, task.answers);
    InjectionNames(codec, task.spec, task.answers, inputs, versions, values);
    InjectionFacts(codec, task.spec, task.answers, inputs, versions, values);
    DesiredNeedsAll(inputs.config.secrets, task.answers.Documents(versions));
    assert task.answers.Documents(versions) == DocumentsAt(w.vault, inputs.config.secrets, versions);
  }

  lemma InjectionFacts(codec: Codec, spec: Spec, answers: Answers, inputs: Inputs, versions: map<string, int>,
                       values: Env)
    requires IsInjection(codec, spec, answers, inputs, versions, values)
    ensures Configured(spec.labels) == Some(inputs.config) && inputs.config.enabled
    ensures versions == answers.Versions(inputs.config.secrets.Keys) && versions.Keys == inputs.config.secrets.Keys
    ensures DesiredValues(inputs.config.secrets, answers.Documents(versions)) == Some(values)
    ensures spec.container.Some? && (HasGate(spec) ==> inputs.config.bootstrapGate)
    ensures inputs.config.bootstrapGate && !HasGate(spec) ==> RecordedFor(codec, spec.labels, inputs.config)
  {
  }

  lemma UpdateKeepsKnown(codec: Codec, record: Record, task: Task)
    requires codec.Faithful() && Sending(codec, task)
    requires KnownRecord(codec, record)
    ensures KnownRecord(codec, Updated(codec, record, task))
  {
    hide StateIsKnown, Decide, Recorded;
    var updated := Updated(codec, record, task);
    var sent := Decide(codec, task.spec, task.answers).spec;
    SendingIsConfigured(codec, task);
    SentStateIsKnown(codec, record, task);
    forall spec | spec in updated.history ensures StateIsKnown(codec, spec, updated.injections) {
      if spec in record.history {
        KnownStays(codec, spec, record.injections, updated.injections);
      }
    }
  }

  lemma SentStateIsKnown(codec: Codec, record: Record, task: Task)
    requires codec.Faithful() && Sending(codec, task)
    ensures StateIsKnown(codec, Decide(codec, task.spec, task.answers).spec, Updated(codec, record, task).injections)
  {
    var sent := Decide(codec, task.spec, task.answers).spec;
    if Configured(task.spec.labels).value.enabled {
      SentCarriesInjection(codec, task);
      assert InjectionBy(task) in Updated(codec, record, task).injections;
    } else {
      StateRoundTrip(task.spec.labels, NO_STATE);
    }
  }

  lemma SentCarriesInjection(codec: Codec, task: Task)
    requires codec.Faithful() && Sending(codec, task) && Configured(task.spec.labels).value.enabled
    ensures Recorded(codec, Decide(codec, task.spec, task.answers).spec, InjectionBy(task))
  {
    hide IsInjection, Injected, Configured, DesiredValues, Decide;
    var inputs, versions, values := SubmitShape(codec, task.spec, task.answers);
    InjectionNames(codec, task.spec, task.answers, inputs, versions, values);
    InjectionFacts(codec, task.spec, task.answers, inputs, versions, values);
    InjectedLabels(codec, task.spec, inputs, versions, values);
  }

  lemma UpdatedRecordIsGood(codec: Codec, w: World, task: Task)
    requires Sending(codec, task) && GoodTask(w, task)
    requires GoodRecord(w.vault, w.services[task.service])
    ensures GoodRecord(w.vault, Updated(codec, w.services[task.service], task))
  {
    hide VaultAgrees, GoodReads, Decide, Configured;
    SendingIsConfigured(codec, task);
    if Configured(task.spec.labels).value.enabled {
      TaskAgrees(codec, w, task);
    }
  }

  lemma UpdateKeepsConsistent(codec: Codec, w: World, a: Action)
    requires Consistent(w) && Enabled(codec, w, a) && a.Update?
    ensures Consistent(Apply(codec, w, a))
  {
    hide GoodRecord, GoodReads, Sending, Decide, Configured, InjectionBy;
    var w', task := Apply(codec, w, a), w.tasks[a.task];
    TasksSurvive(w, w'.services);
    assert GoodTask(w, task);
    if Accepts(w, task) {
      UpdatedRecordIsGood(codec, w, task);
    }
    forall service | service in w'.services ensures GoodRecord(w'.vault, w'.services[service]) {
      assert GoodRecord(w.vault, w.services[service]);
    }
  }

  /** Consistency is kept by every step of every actor. */
  lemma StepKeepsConsistent(codec: Codec, w: World, a: Action)
    requires Consistent(w) && Enabled(codec, w, a)
    ensures Consistent(Apply(codec, w, a))
  {
    hide *;
    match a {
      case WriteVault(_, _, _) => WriteKeepsConsistent(codec, w, a);
      case Create(_, _) => OperatorKeepsConsistent(codec, w, a);
      case Edit(_, _) => OperatorKeepsConsistent(codec, w, a);
      case Delete(_) => OperatorKeepsConsistent(codec, w, a);
      case Start(_, _, _) => ReadingKeepsConsistent(codec, w, a);
      case ReadMetadata(_, _) => ReadingKeepsConsistent(codec, w, a);
      case ReadData(_, _) => ReadingKeepsConsistent(codec, w, a);
      case Update(_) => UpdateKeepsConsistent(codec, w, a);
      case Stop(_) => ReadingKeepsConsistent(codec, w, a);
    }
  }

  /** Labels that no operator makes up stay those of past injections. */
  lemma StepKeepsKnown(codec: Codec, w: World, a: Action)
    requires codec.Faithful() && AllKnown(codec, w) && Enabled(codec, w, a) && Unforged(codec, w, a)
    ensures AllKnown(codec, Apply(codec, w, a))
  {
    hide StateIsKnown, Sending, Updated, WantsMetadata, WantsData, SourceOf, VersionData, CurrentVersion;
    match a {
      case Create(_, spec) =>
        EmptyIsKnown(codec, spec);
      case Update(t) =>
        if Accepts(w, w.tasks[t]) {
          UpdateKeepsKnown(codec, w.services[w.tasks[t].service], w.tasks[t]);
        }
      case _ =>
    }
  }
}
