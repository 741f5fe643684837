/**
 Exactly when a quiet system changes a service twice: an outdated reconcile can
 still send its update, and a fresh one can correct it.
 */
module TwoChanges {
  import opened Wrappers
  import opened Text
  import opened Environment
  import opened Labels
  import opened Desired
  import opened Service
  import opened Decision
  import opened Protocol
  import opened Convergence
  import opened Runs
  import opened Progress
  import Declaration
  import PlainText

  // ---------------------------------------------------------------------
  // Two updates in a row
  // ---------------------------------------------------------------------

  /** The versions this reconcile injects are not the ones Vault would name now. */
  ghost predicate SendsOutdated(codec: Codec, vault: Vault, task: Task, config: Config) {
    && Sending(codec, task) && Configured(task.spec.labels) == Some(config) && config.enabled
    && InjectionBy(task).versions != VersionsNow(vault, config.secrets)
  }

  /** All four state labels, and the values that the sources yield now at their current versions. */
  ghost predicate HoldsCurrent(codec: Codec, vault: Vault, spec: Spec, secrets: map<string, SecretSource>) {
    var versions := VersionsNow(vault, secrets);
    var values := DesiredValues(secrets, DocumentsAt(vault, secrets, versions));
    values.Some? && HoldsDesired(codec, vault, spec, versions, values.value)
  }

  /**
   An outdated injection that Docker still accepts is followed by one at the
   current versions. In a world that a run reaches, the first holds the values
   desired at the outdated versions.
   */
  lemma SecondUpdateHappens(codec: Codec, w: World, t: nat, config: Config) returns (actions: seq<Action>, w': World)
    requires codec.Faithful() && t in w.tasks && Placed(w, w.tasks[t]) && Accepts(w, w.tasks[t])
    requires SendsOutdated(codec, w.vault, w.tasks[t], config) && Resolvable(w.vault, config.secrets)
    ensures Leads(codec, w, actions, w') && w'.vault == w.vault
    ensures var task := w.tasks[t];
            var n := |w.services[task.service].history|;
            && task.service in w'.services && |w'.services[task.service].history| == n + 2
            && w.services[task.service].history <= w'.services[task.service].history
            && Backs(codec, w'.services[task.service].history[n], InjectionBy(task))
            && HoldsCurrent(codec, w.vault, w'.services[task.service].history[n + 1], config.secrets)
            && (Consistent(w) ==> HoldsDesired(codec, w.vault, w'.services[task.service].history[n],
                                               InjectionBy(task).versions, InjectionBy(task).values))
  {
    hide Leads, Sending, Decide, Configured, InjectionBy, VersionsNow, DesiredValues, DocumentsAt, HoldsDesired,
         HasGate, Due, Backs, Consistent, CurrentVersion;
    var task := w.tasks[t];
    OneStep(codec, w, Update(t));
    var next := Apply(codec, w, Update(t));
    UpdatedCurrent(codec, w.services[task.service], task);
    SentIsDue(codec, next, w.services[task.service], task, config);
    var rest;
    rest, w' := InjectionHappens(codec, next, task.service, t, config);
    LeadsOn(codec, w, [Update(t)], next, rest, w');
    actions := [Update(t)] + rest;
    SentIsBacked(codec, task);
    if Consistent(w) {
      OutdatedIsHeld(codec, w, t);
    }
  }

  lemma OutdatedIsHeld(codec: Codec, w: World, t: nat)
    requires codec.Faithful() && Consistent(w) && t in w.tasks && Sending(codec, w.tasks[t])
    requires Configured(w.tasks[t].spec.labels).Some? && Configured(w.tasks[t].spec.labels).value.enabled
    ensures var task := w.tasks[t];
            HoldsDesired(codec, w.vault, Decide(codec, task.spec, task.answers).spec,
                         InjectionBy(task).versions, InjectionBy(task).values)
  {
    hide Decide, Configured, InjectionBy, HoldsDesired, VaultAgrees, Backs, GoodRecord, GoodTask;
    TaskAgrees(codec, w, w.tasks[t]);
    SentIsBacked(codec, w.tasks[t]);
    BackedHoldsDesired(codec, w.vault, Decide(codec, w.tasks[t].spec, w.tasks[t].answers).spec,
                       InjectionBy(w.tasks[t]));
  }

  lemma SentIsDue(codec: Codec, next: World, record: Record, task: Task, config: Config)
    requires codec.Faithful() && Sending(codec, task) && record.live
    requires task.service in next.services && next.services[task.service] == Updated(codec, record, task)
    requires Configured(task.spec.labels) == Some(config) && config.enabled && Resolvable(next.vault, config.secrets)
    requires InjectionBy(task).versions != VersionsNow(next.vault, config.secrets)
    ensures Due(codec, next, task.service, config)
  {
    hide Decide, Sending, Configured, Resolvable, VersionsNow, IsCurrent, Admitted, InjectionBy, Updated;
    SentIsReady(codec, next.vault, task, config);
    UpdatedCurrent(codec, record, task);
  }

  lemma UpdatedCurrent(codec: Codec, record: Record, task: Task)
    requires Sending(codec, task)
    ensures Updated(codec, record, task).history != [] && Updated(codec, record, task).live == record.live
    ensures Updated(codec, record, task).Current() == Decide(codec, task.spec, task.answers).spec
  {
    hide Decide, InjectionBy;
    SendingIsConfigured(codec, task);
  }

  lemma SentIsReady(codec: Codec, vault: Vault, task: Task, config: Config)
    requires codec.Faithful() && Sending(codec, task)
    requires Configured(task.spec.labels) == Some(config) && config.enabled
    requires InjectionBy(task).versions != VersionsNow(vault, config.secrets)
    ensures var sent := Decide(codec, task.spec, task.answers).spec;
            && sent.container.Some? && Ready(codec, sent, config)
            && !IsCurrent(codec, sent, Admitted(codec, sent, config).value, VersionsNow(vault, config.secrets))
  {
    hide Decide, Configured, Injected, VersionsNow, DesiredValues, HasGate, IsInjection, Admitted, IsCurrent;
    var inputs, versions, values := SubmitShape(codec, task.spec, task.answers);
    InjectionNames(codec, task.spec, task.answers, inputs, versions, values);
    InjectionFacts(codec, task.spec, task.answers, inputs, versions, values);
    InjectedEntries(codec, task.spec, inputs, versions, values);
    InjectedLabels(codec, task.spec, inputs, versions, values);
    InjectedConstraints(codec, task.spec, inputs, versions, values);
    CarriedIsAdmitted(codec, Decide(codec, task.spec, task.answers).spec, config, versions, values);
    OtherVersionsAreNotCurrent(codec, Decide(codec, task.spec, task.answers).spec,
                               Inputs(config, versions, SortedNames(values.Keys)), VersionsNow(vault, config.secrets));
  }

  /** A specification that carries an injection of its configuration passes the checks. */
  lemma CarriedIsAdmitted(codec: Codec, spec: Spec, config: Config, versions: map<string, int>, values: Env)
    requires codec.Faithful() && AllRepresentable(values.Keys) && spec.container.Some? && !HasGate(spec)
    requires StateOf(spec.labels) == codec.StateFor(config, versions, values)
    ensures Admitted(codec, spec, config) == Some(Inputs(config, versions, SortedNames(values.Keys)))
  {
    hide HasGate, Encoded;
    StateReadsBack(codec, spec.labels, config, versions, values);
  }

  lemma OtherVersionsAreNotCurrent(codec: Codec, spec: Spec, inputs: Inputs, versions: map<string, int>)
    requires spec.container.Some? && versions != inputs.applied
    ensures !IsCurrent(codec, spec, inputs, versions)
  {
  }

  // ---------------------------------------------------------------------
  // The exact condition
  // ---------------------------------------------------------------------

  lemma OutdatedCompletes(codec: Codec, w: World, t: nat) returns (actions: seq<Action>)
    requires t in w.tasks && WillSubmit(codec, w.vault, w.tasks[t])
    ensures Leads(codec, w, actions, WithTask(w, t, CompletedTask(w.vault, w.tasks[t])))
  {
    hide Leads, Configured, Admitted, IsCurrent, Filled, FilledReads, VersionData, CurrentVersion, AllResolve,
         Answers.Versions;
    var task := w.tasks[t];
    var config := Configured(task.spec.labels).value;
    var current := Filled(w.vault, config.secrets, task.answers.current);
    var told := task.(answers := task.answers.(current := current));
    assert WithTask(w, t, task) == w by {
      assert w.tasks[t := task] == w.tasks;
    }
    CompletedIsReadable(w.vault, config.secrets, task.answers);
    var metadata := MetadataIsRead(codec, w, t, task, config);
    CompletedVersions(w.vault, config.secrets, task.answers);
    var data := DataIsRead(codec, w, t, told, config, Admitted(codec, task.spec, config).value);
    LeadsOn(codec, w, metadata, WithTask(w, t, told), data, WithTask(w, t, CompletedTask(w.vault, task)));
    actions := metadata + data;
  }

  lemma CompletedIsReadable(vault: Vault, secrets: map<string, SecretSource>, answers: Answers)
    requires AllResolve(secrets, Completed(vault, secrets, answers))
    ensures var current := Filled(vault, secrets, answers.current);
            && secrets.Keys <= current.Keys
            && (forall id :: id in secrets ==> id in answers.current || CurrentVersion(vault, secrets[id]) > 0)
            && (forall id :: id in secrets ==> id in answers.read || VersionData(vault, secrets[id], current[id]).Some?)
  {
    hide CurrentVersion, VersionData, Contribution;
    forall id | id in secrets ensures SourceResolves(secrets[id], id, Completed(vault, secrets, answers)) {
    }
  }

  lemma CompletedVersions(vault: Vault, secrets: map<string, SecretSource>, answers: Answers)
    ensures var current := Filled(vault, secrets, answers.current);
            Completed(vault, secrets, answers).Versions(secrets.Keys)
            == answers.(current := current).Versions(secrets.Keys)
  {
    hide Filled, FilledReads;
  }

  lemma CompletedIsOutdated(codec: Codec, w: World, service: string, t: nat)
    requires codec.Faithful() && OutdatedSender(codec, w, service, t)
    ensures SendsOutdated(codec, w.vault, CompletedTask(w.vault, w.tasks[t]),
                          Configured(w.tasks[t].spec.labels).value)
  {
    hide Configured, Admitted, IsCurrent, AllResolve, Sending, CurrentVersion, VersionData, FilledReads, DesiredValues;
    WillSubmitSends(codec, w.vault, w.tasks[t]);
    var task, secrets := w.tasks[t], SecretsFor(Configured(w.tasks[t].spec.labels));
    var id :|
      id in task.answers.current && id in secrets
      && task.answers.current[id] != CurrentVersion(w.vault, secrets[id]);
    assert InjectionBy(CompletedTask(w.vault, task)).versions[id] == task.answers.current[id];
  }

  lemma SenderIsEnabled(codec: Codec, w: World, service: string, t: nat)
    requires OutdatedSender(codec, w, service, t)
    ensures t in w.tasks && w.tasks[t].service == service && service in w.services
    ensures w.tasks[t].version == |w.services[service].history| - 1
    ensures Configured(w.tasks[t].spec.labels).Some? && Configured(w.tasks[t].spec.labels).value.enabled
  {
    hide Configured, AllResolve, Admitted, IsCurrent, Completed, AnsweredNow;
  }

  /** The worlds of a quiet run along the controller's steps. */
  lemma LeadsQuietly(codec: Codec, start: World, actions: seq<Action>, end: World) returns (trace: seq<World>)
    requires IsStart(start) && Leads(codec, start, actions, end)
    ensures |trace| == |actions| + 1 && trace[0] == start && trace[|actions|] == end
            && IsQuietRun(codec, trace, actions)
  {
    hide Leads, IsStart, Enabled, Apply;
    trace := Passed(codec, start, actions, end);
    forall i | 0 <= i < |actions| ensures QuietStep(codec, trace[i], actions[i], trace[i + 1]) {
      PassedSteps(codec, start, actions, end, i);
    }
  }

  /** Some quiet run from here changes the service twice. */
  ghost predicate ChangesTwice(codec: Codec, start: World, service: string) {
    exists trace, actions :: IsQuietRun(codec, trace, actions) && EndsAt(trace, service, 2) && trace[0] == start
  }

  ghost predicate EndsAt(trace: seq<World>, service: string, changes: nat) {
    |trace| > 0 && service in trace[0].services &&
    var end := trace[|trace| - 1];
    service in end.services && |end.services[service].history| == |trace[0].services[service].history| + changes
  }

  /**
   Exactly: a quiet run can change a service twice if and only if the service is
   live, its sources resolve now, and a reconcile of its current specification
   that was told a replaced version would still pass every guard of an update
   once it has made the reads that are left.
   */
  lemma TwoChangesExactly(codec: Codec, start: World, service: string)
    requires codec.Faithful() && IsStart(start) && service in start.services
    ensures ChangesTwice(codec, start, service) <==> CanChangeTwice(codec, start, service)
  {
    hide IsQuietRun, CanChangeTwice, IsStart, Settled, OutdatedWrite;
    if CanChangeTwice(codec, start, service) {
      var trace, actions := TwoChangesHappen(codec, start, service);
      assert IsQuietRun(codec, trace, actions) && EndsAt(trace, service, 2);
    }
    if ChangesTwice(codec, start, service) {
      var trace, actions :| IsQuietRun(codec, trace, actions) && EndsAt(trace, service, 2) && trace[0] == start;
      QuietRunsConverge(codec, trace, actions, |trace| - 1, service);
    }
  }

  lemma TwoChangesHappen(codec: Codec, start: World, service: string) returns (trace: seq<World>, actions: seq<Action>)
    requires codec.Faithful() && IsStart(start) && CanChangeTwice(codec, start, service)
    ensures IsQuietRun(codec, trace, actions) && trace[0] == start && EndsAt(trace, service, 2)
  {
    hide Leads, IsQuietRun, CanChangeTwice, IsStart;
    var end;
    actions, end := TwoUpdatesLead(codec, start, service);
    trace := LeadsQuietly(codec, start, actions, end);
  }

  lemma TwoUpdatesLead(codec: Codec, start: World, service: string) returns (actions: seq<Action>, end: World)
    requires codec.Faithful() && IsStart(start) && CanChangeTwice(codec, start, service)
    ensures Leads(codec, start, actions, end) && service in start.services && service in end.services
    ensures |end.services[service].history| == |start.services[service].history| + 2
  {
    hide Leads, Configured, Resolvable, WillSubmit, AnsweredNow, Sending, SendsOutdated, HoldsDesired, Consistent,
         Completed, Backs, HoldsCurrent, OutdatedTask, InjectionBy;
    var t :| OutdatedSender(codec, start, service, t);
    assert Placed(start, start.tasks[t]);
    SenderIsEnabled(codec, start, service, t);
    var config := Configured(start.tasks[t].spec.labels).value;
    var first := OutdatedCompletes(codec, start, t);
    var done := WithTask(start, t, CompletedTask(start.vault, start.tasks[t]));
    CompletedIsOutdated(codec, start, service, t);
    var second;
    second, end := SecondUpdateHappens(codec, done, t, config);
    LeadsOn(codec, start, first, done, second, end);
    actions := first + second;
  }

  // ---------------------------------------------------------------------
  // It happens
  // ---------------------------------------------------------------------

  /** Vault's current document, written once more. */
  ghost function Rewritten(vault: Vault, source: SecretSource): Vault
    requires CurrentVersion(vault, source) > 0
  {
    Appended(vault, (source.mount, source.path), VersionData(vault, source, CurrentVersion(vault, source)).value)
  }

  lemma RewriteKeepsCurrent(vault: Vault, source: SecretSource, other: SecretSource)
    requires CurrentVersion(vault, source) > 0 && CurrentVersion(vault, other) > 0
    ensures var after := Rewritten(vault, source);
            && CurrentVersion(after, source) == CurrentVersion(vault, source) + 1
            && CurrentVersion(after, other) > 0
            && VersionData(after, other, CurrentVersion(after, other))
               == VersionData(vault, other, CurrentVersion(vault, other))
  {
  }

  lemma RewriteKeepsResolvable(vault: Vault, secrets: map<string, SecretSource>, id: string)
    requires Resolvable(vault, secrets) && id in secrets
    ensures Resolvable(Rewritten(vault, secrets[id]), secrets)
  {
    hide CurrentVersion, VersionData, DesiredValues, Appended;
    var after := Rewritten(vault, secrets[id]);
    forall other | other in secrets
      ensures CurrentVersion(after, secrets[other]) > 0
      ensures VersionData(after, secrets[other], CurrentVersion(after, secrets[other]))
              == VersionData(vault, secrets[other], CurrentVersion(vault, secrets[other]))
    {
      RewriteKeepsCurrent(vault, secrets[id], secrets[other]);
    }
    assert DocumentsAt(after, secrets, VersionsNow(after, secrets))
           == DocumentsAt(vault, secrets, VersionsNow(vault, secrets));
  }

  /** A reconcile that has read everything completes to itself. */
  lemma CompletedAlready(vault: Vault, secrets: map<string, SecretSource>, answers: Answers)
    requires secrets.Keys <= answers.current.Keys && secrets.Keys <= answers.read.Keys
    ensures Completed(vault, secrets, answers) == answers
  {
    hide Filled, FilledReads;
    NothingToFill(vault, secrets, answers.current);
    NothingToRead(vault, secrets, answers.current, answers.read);
  }

  lemma RewriteMakesOutdated(codec: Codec, done: World, service: string, t: nat, config: Config, id: string)
    requires codec.Faithful() && t in done.tasks && done.tasks[t].service == service && Placed(done, done.tasks[t])
    requires done.services[service].live && done.tasks[t].version == |done.services[service].history| - 1
    requires Sending(codec, done.tasks[t]) && Configured(done.tasks[t].spec.labels) == Some(config) && config.enabled
    requires Resolvable(done.vault, config.secrets) && id in config.secrets
    requires done.tasks[t].answers.current == VersionsNow(done.vault, config.secrets)
    ensures CanChangeTwice(codec, done.(vault := Rewritten(done.vault, config.secrets[id])), service)
  {
    hide Decide, Configured, Admitted, IsCurrent, Contribution, DesiredValues, DocumentsAt, VersionData,
         CurrentVersion, Completed, Rewritten, Answers.Versions;
    var task, after := done.tasks[t], Rewritten(done.vault, config.secrets[id]);
    RewriteKeepsCurrent(done.vault, config.secrets[id], config.secrets[id]);
    RewriteKeepsResolvable(done.vault, config.secrets, id);
    SubmitsWhenAdmitted(codec, task.spec, task.answers, config);
    forall other | other in config.secrets ensures other in task.answers.current && other in task.answers.read {
      assert SourceResolves(config.secrets[other], other, task.answers);
    }
    CompletedAlready(after, config.secrets, task.answers);
    assert task.answers.current[id] != CurrentVersion(after, config.secrets[id]);
    assert OutdatedSender(codec, done.(vault := after), service, t);
  }

  /**
   Such worlds are real: for every service behind the gate whose configuration
   resolves there is a disciplined run from nothing, forging nothing, to a world
   from which a quiet run changes the service twice. It creates the service,
   lets a reconcile read everything, and writes one document to Vault again.
   */
  lemma OutdatedWorldsAreReached(codec: Codec, vault: Vault, service: string, spec: Spec, config: Config)
    returns (trace: seq<World>, actions: seq<Action>)
    requires codec.Faithful() && spec.container.Some? && StateOf(spec.labels) == NO_STATE && HasGate(spec)
    requires Configured(spec.labels) == Some(config) && config.enabled && config.bootstrapGate
    requires Resolvable(vault, config.secrets)
    ensures IsRun(codec, trace, actions) && KeepsDiscipline(codec, trace, actions)
            && ForgesNothing(codec, trace, actions)
    ensures trace[0].vault == vault && actions != [] && actions[0] == Create(service, spec)
    ensures service in trace[|actions|].services && ChangesTwice(codec, trace[|actions|], service)
  {
    hide Leads, Resolvable, HasGate, Configured, VersionsNow, DesiredValues, DocumentsAt, Reads, Enabled, Apply,
         Disciplined, Unforged, Due, ChangesTwice, CanChangeTwice, Rewritten, Sending, IsStart;
    var created := World(vault, map[][service := Record([spec], [], true)], map[]);
    var steps := DoneReading(codec, created, service, spec, config);
    var versions := VersionsNow(vault, config.secrets);
    var done := WithTask(created, 0,
                         LoneTask(created, service, Answers(versions, Reads(vault, config.secrets, versions))));
    var id := SomeSource(vault, spec.labels, config);
    var end := done.(vault := Rewritten(vault, config.secrets[id]));
    var write := RewriteIsAStep(codec, done, config.secrets[id]);
    var passed := Passed(codec, created, steps, done);
    trace, actions := [World(vault, map[], map[])] + passed + [end], [Create(service, spec)] + steps + [write];
    CreationIsAStep(codec, vault, service, spec);
    forall i | 0 <= i < |actions|
      ensures Step(codec, trace[i], actions[i], trace[i + 1])
      ensures Disciplined(codec, trace[i], actions[i]) && Unforged(codec, trace[i], actions[i])
    {
      if 0 < i <= |steps| {
        PassedSteps(codec, created, steps, done, i - 1);
      }
    }
    RewriteMakesOutdated(codec, done, service, 0, config, id);
    DoneIsStart(end, service);
    TwoChangesExactly(codec, end, service);
  }

  lemma DoneReading(codec: Codec, created: World, service: string, spec: Spec, config: Config)
    returns (actions: seq<Action>)
    requires codec.Faithful() && spec.container.Some? && StateOf(spec.labels) == NO_STATE && HasGate(spec)
    requires Configured(spec.labels) == Some(config) && config.enabled && config.bootstrapGate
    requires Resolvable(created.vault, config.secrets)
    requires created == World(created.vault, map[][service := Record([spec], [], true)], map[])
    ensures var versions := VersionsNow(created.vault, config.secrets);
            var task := LoneTask(created, service, Answers(versions, Reads(created.vault, config.secrets, versions)));
            Leads(codec, created, actions, WithTask(created, 0, task)) && Sending(codec, task)
  {
    hide Leads, Resolvable, HasGate, Configured, VersionsNow, DesiredValues, DocumentsAt, Reads, Sending, HoldsDesired;
    var versions := VersionsNow(created.vault, config.secrets);
    NewIsAdmitted(codec, spec, config, versions);
    actions := AllIsRead(codec, created, service, 0, config);
    InjectionStands(codec, created.vault,
                    LoneTask(created, service, Answers(versions, Reads(created.vault, config.secrets, versions))),
                    config);
  }

  lemma SomeSource(vault: Vault, labels: LabelSet, config: Config) returns (id: string)
    requires Configured(labels) == Some(config) && config.enabled && Resolvable(vault, config.secrets)
    ensures id in config.secrets && CurrentVersion(vault, config.secrets[id]) > 0
  {
    hide Configured, DesiredValues, CurrentVersion;
    ConfiguredSources(labels);
    id :| id in config.secrets;
  }

  lemma RewriteIsAStep(codec: Codec, w: World, source: SecretSource) returns (write: Action)
    requires CurrentVersion(w.vault, source) > 0
    ensures Step(codec, w, write, w.(vault := Rewritten(w.vault, source)))
    ensures Disciplined(codec, w, write) && Unforged(codec, w, write)
  {
    write := WriteVault(source.mount, source.path, VersionData(w.vault, source, CurrentVersion(w.vault, source)).value);
  }

  lemma DoneIsStart(w: World, service: string)
    requires forall t :: t in w.tasks ==> Placed(w, w.tasks[t])
    requires w.services.Keys == {service} && w.services[service].history != []
    ensures IsStart(w)
  {
  }

  // ---------------------------------------------------------------------
  // One instance
  // ---------------------------------------------------------------------

  const SOURCE := SecretSource("n", "kv", "p", map[])
  const SOURCES: map<string, SecretSource> := map["s" := SOURCE]
  const VAULT: Vault := map[("kv", "p") := [map["K" := Scalar("v")]]]

  ghost function GatedSpec(): Spec {
    Spec("web", Declaration.LabelsFor(true, SOURCES), Some(Container([], "")),
         Some(Placement([GATE_CONSTRAINT], "")), "")
  }

  lemma {:induction false} NothingToStrip(s: string)
    requires forall c :: c in s ==> !IsSpace(c)
    ensures WithoutSpaces(s) == s
  {
    hide IsSpace;
    if s != "" {
      NothingToStrip(s[1..]);
      assert s == [s[0]] + s[1..];
    }
  }

  lemma NoSpaceInPrefix()
    ensures forall c :: c in PREFIX ==> !IsSpace(c)
  {
  }

  lemma NoSpaceAround()
    ensures forall c :: c in "node.labels." ==> !IsSpace(c)
    ensures forall c :: c in ".gate==open" ==> !IsSpace(c)
  {
  }

  lemma GateIsGate()
    ensures IsGate(GATE_CONSTRAINT)
  {
    hide IsSpace, WithoutSpaces;
    NoSpaceInPrefix();
    NoSpaceAround();
    NothingToStrip(GATE_CONSTRAINT);
  }

  lemma SourcesAreDeclarable()
    ensures Declaration.Declarable(SOURCES)
  {
    assert "s" in SOURCES;
    assert forall c :: c in "nkvp" ==> !IsSpace(c);
  }

  lemma SourcesAreResolvable()
    ensures Resolvable(VAULT, SOURCES)
  {
    var data := VAULT[("kv", "p")][0];
    var docs := DocumentsAt(VAULT, SOURCES, VersionsNow(VAULT, SOURCES));
    assert docs == map["s" := data];
    assert "K" in data;
    assert Contribution(SOURCE, data).Some?;
    assert Separate(SOURCES.Keys, PartsOf(SOURCES, docs));
  }

  /**
   A closed instance: one service, one source, one document. Nothing is assumed
   and a quiet run changes the service twice.
   */
  lemma SecondChangeExample() returns (codec: Codec, trace: seq<World>, actions: seq<Action>)
    ensures codec.Faithful() && codec.CollisionFree()
    ensures IsRun(codec, trace, actions) && KeepsDiscipline(codec, trace, actions)
            && ForgesNothing(codec, trace, actions)
    ensures trace[0].vault == VAULT && actions != [] && actions[0] == Create("id", GatedSpec())
    ensures ChangesTwice(codec, trace[|actions|], "id")
  {
    hide *;
    codec := PlainText.AssumptionsAreConsistent();
    SourcesAreDeclarable();
    SourcesAreResolvable();
    Declaration.DeclarationRoundTrip(true, SOURCES);
    GatedSpecIsGated();
    trace, actions := OutdatedWorldsAreReached(codec, VAULT, "id", GatedSpec(), Config(true, true, SOURCES));
  }

  lemma GatedSpecIsGated()
    ensures HasGate(GatedSpec()) && GatedSpec().container.Some?
    ensures GatedSpec().labels == Declaration.LabelsFor(true, SOURCES)
  {
    hide IsGate, Declaration.LabelsFor;
    GateIsGate();
    assert GATE_CONSTRAINT in Constraints(GatedSpec());
  }
}
