/**
 Progress: failing closed is not failing for ever. A reconcile that is left
 alone, on a service whose sources all resolve, ends with the update in place.
 */
module Progress {
  import opened Wrappers
  import opened Environment
  import opened Labels
  import opened Desired
  import opened Service
  import opened Decision
  import opened Protocol
  import opened Convergence
  import opened Runs

  /** These steps of the controller are possible one after the other, and lead there. */
  ghost predicate Leads(codec: Codec, w: World, actions: seq<Action>, w': World)
    decreases actions
  {
    if actions == [] then w' == w
    else IsControllerStep(actions[0]) && Enabled(codec, w, actions[0])
         && Leads(codec, Apply(codec, w, actions[0]), actions[1..], w')
  }

  lemma {:induction false} LeadsOn(codec: Codec, a: World, first: seq<Action>, b: World, second: seq<Action>, c: World)
    requires Leads(codec, a, first, b) && Leads(codec, b, second, c)
    ensures Leads(codec, a, first + second, c)
    decreases first
  {
    hide Enabled, Apply;
    if first == [] {
      assert first + second == second;
    } else {
      LeadsOn(codec, Apply(codec, a, first[0]), first[1..], b, second, c);
      assert (first + second)[1..] == first[1..] + second;
    }
  }

  lemma OneStep(codec: Codec, w: World, a: Action)
    requires IsControllerStep(a) && Enabled(codec, w, a)
    ensures Leads(codec, w, [a], Apply(codec, w, a))
  {
    hide Enabled, Apply;
    assert [a][1..] == [];
  }

  /** An enabled, admitted configuration of this specification. */
  ghost predicate Ready(codec: Codec, spec: Spec, config: Config) {
    Configured(spec.labels) == Some(config) && config.enabled && Admitted(codec, spec, config).Some?
  }

  ghost function WithTask(w: World, t: nat, task: Task): World { w.(tasks := w.tasks[t := task]) }

  /** The metadata reads that are left, one source at a time, in any order. */
  lemma {:induction false} MetadataIsRead(codec: Codec, w: World, t: nat, task: Task, config: Config)
    returns (actions: seq<Action>)
    requires Ready(codec, task.spec, config)
    requires forall id :: id in config.secrets ==>
               id in task.answers.current || CurrentVersion(w.vault, config.secrets[id]) > 0
    ensures var current := Filled(w.vault, config.secrets, task.answers.current);
            Leads(codec, WithTask(w, t, task), actions,
                  WithTask(w, t, task.(answers := task.answers.(current := current))))
    decreases config.secrets.Keys - task.answers.current.Keys
  {
    hide Configured, Admitted, Leads, CurrentVersion, Filled;
    var current := task.answers.current;
    if id :| id in config.secrets && id !in current {
      var version := CurrentVersion(w.vault, config.secrets[id]);
      var more := task.(answers := task.answers.(current := current[id := version]));
      assert id in config.secrets.Keys - current.Keys && id !in config.secrets.Keys - more.answers.current.Keys;
      var rest := MetadataIsRead(codec, w, t, more, config);
      MetadataStep(codec, w, t, task, config, id);
      FilledOneMore(w.vault, config.secrets, current, id);
      actions := [ReadMetadata(t, id)] + rest;
      LeadsOn(codec, WithTask(w, t, task), [ReadMetadata(t, id)], WithTask(w, t, more), rest,
              WithTask(w, t, task.(answers := task.answers.(current := Filled(w.vault, config.secrets, current)))));
    } else {
      NothingToFill(w.vault, config.secrets, current);
      actions := [];
      NoStep(codec, WithTask(w, t, task));
    }
  }

  lemma FilledOneMore(vault: Vault, secrets: map<string, SecretSource>, current: map<string, int>, id: string)
    requires id in secrets && id !in current && CurrentVersion(vault, secrets[id]) > 0
    ensures Filled(vault, secrets, current[id := CurrentVersion(vault, secrets[id])]) == Filled(vault, secrets, current)
  {
    hide CurrentVersion;
  }

  lemma NothingToFill(vault: Vault, secrets: map<string, SecretSource>, current: map<string, int>)
    requires secrets.Keys <= current.Keys
    ensures Filled(vault, secrets, current) == current
  {
    hide CurrentVersion;
  }

  lemma NoStep(codec: Codec, w: World)
    ensures Leads(codec, w, [], w)
  {
  }

  lemma MetadataStep(codec: Codec, w: World, t: nat, task: Task, config: Config, id: string)
    requires Ready(codec, task.spec, config) && id in config.secrets && id !in task.answers.current
    requires CurrentVersion(w.vault, config.secrets[id]) > 0
    ensures var version := CurrentVersion(w.vault, config.secrets[id]);
            Leads(codec, WithTask(w, t, task), [ReadMetadata(t, id)],
                  WithTask(w, t, task.(answers := task.answers.(current := task.answers.current[id := version]))))
  {
    hide Configured, Admitted, Leads, CurrentVersion;
    var before := WithTask(w, t, task);
    OneStep(codec, before, ReadMetadata(t, id));
    var version := CurrentVersion(w.vault, config.secrets[id]);
    var more := task.(answers := task.answers.(current := task.answers.current[id := version]));
    assert Apply(codec, before, ReadMetadata(t, id)).tasks == WithTask(w, t, more).tasks;
  }

  /** What a complete round of data reads returns. */
  ghost function Reads(vault: Vault, secrets: map<string, SecretSource>, versions: map<string, int>)
    : map<string, Secret>
  {
    map id | id in secrets && id in versions && VersionData(vault, secrets[id], versions[id]).Some?
      :: Secret(versions[id], VersionData(vault, secrets[id], versions[id]).value)
  }

  /** The data reads that are left when the cheap check failed. */
  lemma {:induction false} DataIsRead(codec: Codec, w: World, t: nat, task: Task, config: Config, inputs: Inputs)
    returns (actions: seq<Action>)
    requires Ready(codec, task.spec, config) && Admitted(codec, task.spec, config) == Some(inputs)
    requires config.secrets.Keys <= task.answers.current.Keys && task.spec.container.Some?
    requires !IsCurrent(codec, task.spec, inputs, task.answers.Versions(config.secrets.Keys))
    requires forall id :: id in config.secrets ==>
               id in task.answers.read || VersionData(w.vault, config.secrets[id], task.answers.current[id]).Some?
    ensures var read := FilledReads(w.vault, config.secrets, task.answers.current, task.answers.read);
            Leads(codec, WithTask(w, t, task), actions,
                  WithTask(w, t, task.(answers := task.answers.(read := read))))
    decreases config.secrets.Keys - task.answers.read.Keys
  {
    hide Configured, Admitted, IsCurrent, Leads, VersionData, FilledReads, Answers.Versions;
    var read := task.answers.read;
    if id :| id in config.secrets && id !in read {
      var more := WithRead(w.vault, task, config.secrets[id], id);
      assert id in config.secrets.Keys - read.Keys && id !in config.secrets.Keys - more.answers.read.Keys;
      assert more.answers.Versions(config.secrets.Keys) == task.answers.Versions(config.secrets.Keys) by {
        SameVersionsRead(task.answers, more.answers, config.secrets.Keys);
      }
      var rest := DataIsRead(codec, w, t, more, config, inputs);
      DataStep(codec, w, t, task, config, inputs, id);
      FilledOneRead(w.vault, config.secrets, task, id);
      actions := [ReadData(t, id)] + rest;
      var all := FilledReads(w.vault, config.secrets, task.answers.current, read);
      LeadsOn(codec, WithTask(w, t, task), [ReadData(t, id)], WithTask(w, t, more), rest,
              WithTask(w, t, task.(answers := task.answers.(read := all))));
    } else {
      NothingToRead(w.vault, config.secrets, task.answers.current, read);
      actions := [];
      NoStep(codec, WithTask(w, t, task));
    }
  }

  /** The reconcile after one more data read. */
  ghost function WithRead(vault: Vault, task: Task, source: SecretSource, id: string): Task
    requires id in task.answers.current && VersionData(vault, source, task.answers.current[id]).Some?
  {
    var version := task.answers.current[id];
    var secret := Secret(version, VersionData(vault, source, version).value);
    task.(answers := task.answers.(read := task.answers.read[id := secret]))
  }

  lemma SameVersionsRead(a: Answers, b: Answers, ids: set<string>)
    requires a.current == b.current
    ensures a.Versions(ids) == b.Versions(ids)
  {
  }

  lemma FilledOneRead(vault: Vault, secrets: map<string, SecretSource>, task: Task, id: string)
    requires id in secrets && id in task.answers.current && id !in task.answers.read
    requires VersionData(vault, secrets[id], task.answers.current[id]).Some?
    ensures var more := WithRead(vault, task, secrets[id], id);
            FilledReads(vault, secrets, more.answers.current, more.answers.read)
            == FilledReads(vault, secrets, task.answers.current, task.answers.read)
  {
    hide VersionData;
  }

  lemma NothingToRead(vault: Vault, secrets: map<string, SecretSource>, current: map<string, int>,
                      read: map<string, Secret>)
    requires secrets.Keys <= read.Keys
    ensures FilledReads(vault, secrets, current, read) == read
  {
    hide VersionData;
  }

  lemma DataStep(codec: Codec, w: World, t: nat, task: Task, config: Config, inputs: Inputs, id: string)
    requires Ready(codec, task.spec, config) && Admitted(codec, task.spec, config) == Some(inputs)
    requires config.secrets.Keys <= task.answers.current.Keys && task.spec.container.Some?
    requires !IsCurrent(codec, task.spec, inputs, task.answers.Versions(config.secrets.Keys))
    requires id in config.secrets && id !in task.answers.read
    requires VersionData(w.vault, config.secrets[id], task.answers.current[id]).Some?
    ensures Leads(codec, WithTask(w, t, task), [ReadData(t, id)],
                  WithTask(w, t, WithRead(w.vault, task, config.secrets[id], id)))
  {
    hide Configured, Admitted, IsCurrent, Leads, VersionData;
    var before := WithTask(w, t, task);
    assert task.answers.Versions(config.secrets.Keys).Keys == config.secrets.Keys;
    OneStep(codec, before, ReadData(t, id));
    var more := WithRead(w.vault, task, config.secrets[id], id);
    assert Apply(codec, before, ReadData(t, id)).tasks == WithTask(w, t, more).tasks;
  }

  /** A service whose sources resolve has a readable current version of each. */
  ghost predicate AllVersioned(vault: Vault, secrets: map<string, SecretSource>, versions: map<string, int>) {
    versions.Keys == secrets.Keys && forall id :: id in secrets ==> VersionData(vault, secrets[id], versions[id]).Some?
  }

  /** Starting from nothing, all reads are those of the current versions. */
  lemma FilledFromNothing(vault: Vault, secrets: map<string, SecretSource>)
    requires Resolvable(vault, secrets)
    ensures var versions := VersionsNow(vault, secrets);
            && Filled(vault, secrets, map[]) == versions
            && FilledReads(vault, secrets, versions, map[]) == Reads(vault, secrets, versions)
            && Answers(versions, map[]).Versions(secrets.Keys) == versions
  {
    hide CurrentVersion, VersionData, DesiredValues, DocumentsAt;
  }

  lemma ResolvableIsVersioned(vault: Vault, secrets: map<string, SecretSource>)
    requires Resolvable(vault, secrets)
    ensures AllVersioned(vault, secrets, VersionsNow(vault, secrets))
  {
    hide CurrentVersion, VersionData, DesiredValues;
    DesiredNeedsAll(secrets, DocumentsAt(vault, secrets, VersionsNow(vault, secrets)));
  }

  /** After both rounds of reads the decision is to submit. */
  lemma ReadsSuffice(codec: Codec, vault: Vault, spec: Spec, config: Config, inputs: Inputs)
    requires codec.Faithful() && Ready(codec, spec, config) && Admitted(codec, spec, config) == Some(inputs)
    requires Resolvable(vault, config.secrets) && spec.container.Some?
    requires !IsCurrent(codec, spec, inputs, VersionsNow(vault, config.secrets))
    ensures var versions := VersionsNow(vault, config.secrets);
            var values := DesiredValues(config.secrets, DocumentsAt(vault, config.secrets, versions));
            IsInjection(codec, spec, Answers(versions, Reads(vault, config.secrets, versions)), inputs, versions,
                        values.value)
  {
    hide Configured, IsCurrent, CurrentVersion, VersionData, DesiredValues;
    AdmittedHasContainer(codec, spec, config);
    var versions := VersionsNow(vault, config.secrets);
    var answers := Answers(versions, Reads(vault, config.secrets, versions));
    assert answers.Versions(config.secrets.Keys) == versions;
    assert answers.Documents(versions) == DocumentsAt(vault, config.secrets, versions);
  }

  lemma InjectionStands(codec: Codec, vault: Vault, task: Task, config: Config)
    requires codec.Faithful() && Ready(codec, task.spec, config) && Resolvable(vault, config.secrets)
    requires task.spec.container.Some?
    requires !IsCurrent(codec, task.spec, Admitted(codec, task.spec, config).value, VersionsNow(vault, config.secrets))
    requires task.answers
             == Answers(VersionsNow(vault, config.secrets),
                        Reads(vault, config.secrets, VersionsNow(vault, config.secrets)))
    ensures Sending(codec, task)
    ensures var versions := VersionsNow(vault, config.secrets);
            var values := DesiredValues(config.secrets, DocumentsAt(vault, config.secrets, versions)).value;
            var sent := Decide(codec, task.spec, task.answers).spec;
            HoldsDesired(codec, vault, sent, versions, values) && Configured(sent.labels) == Some(config)
            && !HasGate(sent)
  {
    hide Decide, Injected, Configured, Admitted, IsCurrent, HasGate, DesiredValues, DocumentsAt, Reads, VersionsNow,
         HoldsDesired, Answers.Versions, Answers.Documents, Recorded, Selected;
    var versions := VersionsNow(vault, config.secrets);
    var inputs := Admitted(codec, task.spec, config).value;
    var values := DesiredValues(config.secrets, DocumentsAt(vault, config.secrets, versions)).value;
    ReadsSuffice(codec, vault, task.spec, config, inputs);
    SlowPathAlwaysChanges(codec, task.spec, task.answers, inputs, versions, values);
    InjectionNames(codec, task.spec, task.answers, inputs, versions, values);
    InjectionIsAtomic(codec, task);
    BackedHoldsDesired(codec, vault, Decide(codec, task.spec, task.answers).spec, InjectionBy(task));
  }

  lemma UpdateLands(codec: Codec, w: World, t: nat, task: Task) returns (w': World)
    requires t !in w.tasks && Sending(codec, task) && Accepts(w, task)
    ensures Leads(codec, WithTask(w, t, task), [Update(t)], w')
    ensures w'.vault == w.vault && w'.tasks == w.tasks && task.service in w'.services
    ensures w'.services[task.service].history == w.services[task.service].history
            + [Decide(codec, task.spec, task.answers).spec]
  {
    hide Leads, Sending, Decide, InjectionBy;
    OneStep(codec, WithTask(w, t, task), Update(t));
    SendingIsConfigured(codec, task);
    w' := Apply(codec, WithTask(w, t, task), Update(t));
    assert (w.tasks[t := task]) - {t} == w.tasks;
  }

  /** A service that one reconcile, left alone, will inject. */
  ghost predicate Due(codec: Codec, w: World, service: string, config: Config) {
    && service in w.services && w.services[service].live && w.services[service].history != []
    && var spec := w.services[service].Current();
       && spec.container.Some? && Ready(codec, spec, config) && Resolvable(w.vault, config.secrets)
       && !IsCurrent(codec, spec, Admitted(codec, spec, config).value, VersionsNow(w.vault, config.secrets))
  }

  ghost function LoneTask(w: World, service: string, answers: Answers): Task
    requires service in w.services && w.services[service].history != []
  {
    Task(service, |w.services[service].history| - 1, w.services[service].Current(), answers)
  }

  lemma AllIsRead(codec: Codec, w: World, service: string, t: nat, config: Config) returns (actions: seq<Action>)
    requires t !in w.tasks && Due(codec, w, service, config)
    ensures var versions := VersionsNow(w.vault, config.secrets);
            Leads(codec, w, actions,
                  WithTask(w, t, LoneTask(w, service, Answers(versions, Reads(w.vault, config.secrets, versions)))))
  {
    hide Leads, Ready, IsCurrent, Admitted, Reads, VersionsNow, CurrentVersion, VersionData, DesiredValues, Filled,
         FilledReads, Answers.Versions, DocumentsAt;
    var versions := VersionsNow(w.vault, config.secrets);
    var started, told := LoneTask(w, service, Answers(map[], map[])), LoneTask(w, service, Answers(versions, map[]));
    OneStep(codec, w, Start(t, service, started.version));
    ReadyIsAdmitted(codec, started.spec, config);
    ResolvableIsVersioned(w.vault, config.secrets);
    FilledFromNothing(w.vault, config.secrets);
    var metadata := MetadataIsRead(codec, w, t, started, config);
    var data := DataIsRead(codec, w, t, told, config, Admitted(codec, told.spec, config).value);
    LeadsOn(codec, w, [Start(t, service, started.version)], WithTask(w, t, started), metadata, WithTask(w, t, told));
    actions := [Start(t, service, started.version)] + metadata;
    LeadsOn(codec, w, actions, WithTask(w, t, told), data,
            WithTask(w, t, LoneTask(w, service, Answers(versions, Reads(w.vault, config.secrets, versions)))));
    actions := actions + data;
  }

  lemma ReadyIsAdmitted(codec: Codec, spec: Spec, config: Config)
    requires Ready(codec, spec, config)
    ensures Admitted(codec, spec, config).Some?
  {
  }

  /**
   Whatever else is in flight, a service that passes the checks, whose
   sources resolve and whose cheap check fails, is injected when one reconcile
   is left to run: the update is accepted, and what it wrote holds the values
   desired at the current versions.
   */
  lemma InjectionHappens(codec: Codec, w: World, service: string, t: nat, config: Config)
    returns (actions: seq<Action>, w': World)
    requires codec.Faithful() && t !in w.tasks && Due(codec, w, service, config)
    ensures Leads(codec, w, actions, w')
    ensures w'.vault == w.vault && w'.tasks == w.tasks && service in w'.services
    ensures |w'.services[service].history| == |w.services[service].history| + 1
    ensures w.services[service].history <= w'.services[service].history
    ensures var versions := VersionsNow(w.vault, config.secrets);
            var values := DesiredValues(config.secrets, DocumentsAt(w.vault, config.secrets, versions)).value;
            var now := w'.services[service].Current();
            HoldsDesired(codec, w'.vault, now, versions, values) && Configured(now.labels) == Some(config)
            && !HasGate(now)
  {
    hide Leads, Ready, IsCurrent, Admitted, Reads, VersionsNow, DesiredValues, DocumentsAt, Resolvable, HoldsDesired,
         HasGate, Configured, Decide, Sending, WithTask;
    var versions := VersionsNow(w.vault, config.secrets);
    var done := LoneTask(w, service, Answers(versions, Reads(w.vault, config.secrets, versions)));
    actions := AllIsRead(codec, w, service, t, config);
    InjectionStands(codec, w.vault, done, config);
    w' := UpdateLands(codec, w, t, done);
    LeadsOn(codec, w, actions, WithTask(w, t, done), [Update(t)], w');
    actions := actions + [Update(t)];
  }

  /**
   In particular a new service behind the gate, whose configuration asks for it
   and whose sources resolve, gets its values and loses the gate together.
   */
  lemma GateOpens(codec: Codec, w: World, service: string, t: nat, config: Config)
    returns (actions: seq<Action>, w': World)
    requires codec.Faithful() && t !in w.tasks
    requires service in w.services && w.services[service].live && w.services[service].history != []
    requires var spec := w.services[service].Current();
             && spec.container.Some? && StateOf(spec.labels) == NO_STATE && HasGate(spec)
             && Configured(spec.labels) == Some(config) && config.enabled && config.bootstrapGate
    requires Resolvable(w.vault, config.secrets)
    ensures Leads(codec, w, actions, w') && Exposed(w', service)
    ensures var versions := VersionsNow(w.vault, config.secrets);
            var values := DesiredValues(config.secrets, DocumentsAt(w.vault, config.secrets, versions)).value;
            HoldsDesired(codec, w'.vault, w'.services[service].Current(), versions, values)
  {
    hide Leads, Resolvable, HoldsDesired, HasGate, Configured, VersionsNow, DesiredValues, DocumentsAt;
    NewIsAdmitted(codec, w.services[service].Current(), config, VersionsNow(w.vault, config.secrets));
    actions, w' := InjectionHappens(codec, w, service, t, config);
  }

  lemma NewIsAdmitted(codec: Codec, spec: Spec, config: Config, versions: map<string, int>)
    requires spec.container.Some? && StateOf(spec.labels) == NO_STATE && HasGate(spec) && config.bootstrapGate
    ensures Admitted(codec, spec, config) == Some(Inputs(config, map[], []))
    ensures !IsCurrent(codec, spec, Inputs(config, map[], []), versions)
  {
  }

  /** The worlds that the steps pass through. */
  ghost function Passed(codec: Codec, w: World, actions: seq<Action>, w': World): (trace: seq<World>)
    requires Leads(codec, w, actions, w')
    ensures |trace| == |actions| + 1 && trace[0] == w && trace[|actions|] == w'
    decreases actions
  {
    if actions == [] then [w] else [w] + Passed(codec, Apply(codec, w, actions[0]), actions[1..], w')
  }

  lemma {:induction false} PassedSteps(codec: Codec, w: World, actions: seq<Action>, w': World, i: nat)
    requires Leads(codec, w, actions, w') && i < |actions|
    ensures Disciplined(codec, Passed(codec, w, actions, w')[i], actions[i])
            && Unforged(codec, Passed(codec, w, actions, w')[i], actions[i])
    ensures IsControllerStep(actions[i])
    ensures Step(codec, Passed(codec, w, actions, w')[i], actions[i], Passed(codec, w, actions, w')[i + 1])
    decreases actions
  {
    hide Enabled, Apply;
    ControllerIsDisciplined(codec, w, actions[0]);
    if i > 0 {
      PassedSteps(codec, Apply(codec, w, actions[0]), actions[1..], w', i - 1);
    }
  }

  lemma ControllerIsDisciplined(codec: Codec, w: World, a: Action)
    requires IsControllerStep(a)
    ensures Disciplined(codec, w, a) && Unforged(codec, w, a)
  {
  }

  /**
   So gate safety is not safety by never opening: for every service behind the
   gate whose configuration resolves there is a disciplined run from nothing
   that ends with the service served and its gate gone.
   */
  lemma GatedServicesAreServed(codec: Codec, vault: Vault, service: string, spec: Spec, config: Config)
    returns (trace: seq<World>, actions: seq<Action>)
    requires codec.Faithful() && spec.container.Some? && StateOf(spec.labels) == NO_STATE && HasGate(spec)
    requires Configured(spec.labels) == Some(config) && config.enabled && config.bootstrapGate
    requires Resolvable(vault, config.secrets)
    ensures IsRun(codec, trace, actions) && KeepsDiscipline(codec, trace, actions)
            && ForgesNothing(codec, trace, actions)
    ensures trace[0].vault == vault && actions != [] && actions[0] == Create(service, spec)
    ensures Exposed(trace[|actions|], service)
    ensures var versions := VersionsNow(vault, config.secrets);
            var values := DesiredValues(config.secrets, DocumentsAt(vault, config.secrets, versions)).value;
            HoldsDesired(codec, trace[|actions|].vault, trace[|actions|].services[service].Current(), versions, values)
  {
    hide Leads, Resolvable, HasGate, Configured, HoldsDesired, VersionsNow, DesiredValues, DocumentsAt, Exposed;
    var nothing := World(vault, map[], map[]);
    var created := World(vault, map[][service := Record([spec], [], true)], map[]);
    var rest, end := GateOpens(codec, created, service, 0, config);
    var passed := Passed(codec, created, rest, end);
    trace, actions := [nothing] + passed, [Create(service, spec)] + rest;
    CreationIsAStep(codec, vault, service, spec);
    forall i | 0 <= i < |actions|
      ensures Step(codec, trace[i], actions[i], trace[i + 1])
      ensures Disciplined(codec, trace[i], actions[i]) && Unforged(codec, trace[i], actions[i])
    {
      if i > 0 {
        PassedSteps(codec, created, rest, end, i - 1);
      }
    }
  }

  lemma CreationIsAStep(codec: Codec, vault: Vault, service: string, spec: Spec)
    requires StateOf(spec.labels) == NO_STATE && HasGate(spec)
    ensures Disciplined(codec, World(vault, map[], map[]), Create(service, spec))
    ensures Unforged(codec, World(vault, map[], map[]), Create(service, spec))
    ensures Step(codec, World(vault, map[], map[]), Create(service, spec),
                 World(vault, map[][service := Record([spec], [], true)], map[]))
  {
    hide HasGate, BootstrapGated;
  }
}
