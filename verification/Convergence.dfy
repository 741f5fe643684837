/**
 Convergence: how often any number of reconciles, interleaved in any way, change
 a service while Vault and the operators are quiet.
 */
module Convergence {
  import opened Wrappers
  import opened Labels
  import opened Desired
  import opened Service
  import opened Decision
  import opened Protocol

  /** Only the controller moves. */
  predicate IsControllerStep(a: Action) {
    a.Start? || a.ReadMetadata? || a.ReadData? || a.Update? || a.Stop?
  }

  ghost predicate QuietStep(codec: Codec, w: World, a: Action, w': World) {
    IsControllerStep(a) && Enabled(codec, w, a) && w' == Apply(codec, w, a)
  }

  /** The reconcile was started from a specification the service has had. */
  ghost predicate Placed(w: World, task: Task) {
    && task.service in w.services && task.version < |w.services[task.service].history|
    && task.spec == w.services[task.service].history[task.version]
  }

  /** Any world: every reconcile in flight was started from a specification, whatever Vault told it. */
  ghost predicate IsStart(w: World) {
    && (forall t :: t in w.tasks ==> Placed(w, w.tasks[t]))
    && (forall service :: service in w.services ==> w.services[service].history != [])
  }

  ghost predicate IsQuietRun(codec: Codec, trace: seq<World>, actions: seq<Action>) {
    && |trace| == |actions| + 1 && IsStart(trace[0])
    && forall i :: 0 <= i < |actions| ==> QuietStep(codec, trace[i], actions[i], trace[i + 1])
  }

  ghost function VersionsNow(vault: Vault, secrets: map<string, SecretSource>): map<string, int> {
    map id | id in secrets :: CurrentVersion(vault, secrets[id])
  }

  /** Every source has a version, and at these versions they make a desired environment. */
  ghost predicate Resolvable(vault: Vault, secrets: map<string, SecretSource>) {
    && (forall id :: id in secrets ==> CurrentVersion(vault, secrets[id]) > 0)
    && DesiredValues(secrets, DocumentsAt(vault, secrets, VersionsNow(vault, secrets))).Some?
  }

  /** Every version that was answered is the one Vault holds now. */
  ghost predicate AnsweredNow(vault: Vault, spec: Spec, answers: Answers) {
    var secrets := SecretsFor(Configured(spec.labels));
    forall id :: id in answers.current && id in secrets ==> answers.current[id] == CurrentVersion(vault, secrets[id])
  }

  /** No reconcile of this specification can send anything while Vault stays as it is. */
  ghost predicate Settled(codec: Codec, vault: Vault, spec: Spec) {
    forall answers: Answers :: AnsweredNow(vault, spec, answers) ==> !Decide(codec, spec, answers).Submit?
  }

  lemma MissingAnswerRejects(codec: Codec, spec: Spec, answers: Answers)
    requires Configured(spec.labels).Some? && Configured(spec.labels).value.enabled
    requires !(Configured(spec.labels).value.secrets.Keys <= answers.current.Keys)
    ensures !Decide(codec, spec, answers).Submit?
  {
    hide Configured, Admitted, IsCurrent, DesiredValues, Recompute;
    var ids := Configured(spec.labels).value.secrets.Keys;
    assert answers.Versions(ids).Keys <= answers.current.Keys;
  }

  lemma SameVersions(vault: Vault, secrets: map<string, SecretSource>, a: Answers, b: Answers)
    requires secrets.Keys <= a.current.Keys && secrets.Keys <= b.current.Keys
    requires forall id :: id in secrets ==> a.current[id] == b.current[id]
    ensures a.Versions(secrets.Keys) == b.Versions(secrets.Keys)
  {
  }

  /** What an update writes at the current versions is settled. */
  lemma SentIsSettled(codec: Codec, vault: Vault, task: Task)
    requires codec.Faithful() && Sending(codec, task) && AnsweredNow(vault, task.spec, task.answers)
    ensures Settled(codec, vault, Decide(codec, task.spec, task.answers).spec)
  {
    hide Decide, Configured, Answers.Versions;
    SendingIsConfigured(codec, task);
    var sent := Decide(codec, task.spec, task.answers).spec;
    SentKeepsConfiguration(codec, task);
    forall answers: Answers | AnsweredNow(vault, sent, answers) ensures !Decide(codec, sent, answers).Submit? {
      if !Configured(task.spec.labels).value.enabled {
        CleanupSettles(codec, task.spec, task.answers, answers);
      } else {
        var secrets := Configured(task.spec.labels).value.secrets;
        AllAnswered(codec, task);
        if secrets.Keys <= answers.current.Keys {
          SameVersions(vault, secrets, answers, task.answers);
          InjectionSettles(codec, task.spec, task.answers, answers);
        } else {
          MissingAnswerRejects(codec, sent, answers);
        }
      }
    }
  }

  lemma AllAnswered(codec: Codec, task: Task)
    requires Sending(codec, task) && Configured(task.spec.labels).Some? && Configured(task.spec.labels).value.enabled
    ensures Configured(task.spec.labels).value.secrets.Keys <= task.answers.current.Keys
  {
    hide Decide, Configured;
    if !(Configured(task.spec.labels).value.secrets.Keys <= task.answers.current.Keys) {
      MissingAnswerRejects(codec, task.spec, task.answers);
    }
  }

  lemma SentKeepsConfiguration(codec: Codec, task: Task)
    requires codec.Faithful() && Sending(codec, task)
    ensures Configured(Decide(codec, task.spec, task.answers).spec.labels) == Configured(task.spec.labels)
  {
    hide Decide, IsInjection, Injected, Configured, DesiredValues;
    SendingIsConfigured(codec, task);
    if Configured(task.spec.labels).value.enabled {
      var inputs, versions, values := SubmitShape(codec, task.spec, task.answers);
      InjectionNames(codec, task.spec, task.answers, inputs, versions, values);
      InjectionFacts(codec, task.spec, task.answers, inputs, versions, values);
      InjectedLabels(codec, task.spec, inputs, versions, values);
    } else {
      CleanedKeepsConfiguration(codec, task);
    }
  }

  lemma CleanedKeepsConfiguration(codec: Codec, task: Task)
    requires Sending(codec, task) && Configured(task.spec.labels).Some? && !Configured(task.spec.labels).value.enabled
    ensures Configured(Decide(codec, task.spec, task.answers).spec.labels) == Configured(task.spec.labels)
  {
    hide Configured;
    assert WithoutState(WithoutState(task.spec.labels)) == WithoutState(task.spec.labels);
    ConfigurationIgnoresState(Decide(codec, task.spec, task.answers).spec.labels, task.spec.labels);
  }

  // ---------------------------------------------------------------------
  // What a reconcile in flight may still come to send
  // ---------------------------------------------------------------------

  ghost predicate Within<T>(part: map<string, T>, whole: map<string, T>) {
    forall id :: id in part ==> id in whole && whole[id] == part[id]
  }

  /** These versions, and for every other source the one Vault would name now. */
  ghost function Filled(vault: Vault, secrets: map<string, SecretSource>, current: map<string, int>): map<string, int> {
    map id | id in current.Keys + secrets.Keys && (id in current || CurrentVersion(vault, secrets[id]) > 0)
      :: if id in current then current[id] else CurrentVersion(vault, secrets[id])
  }

  /** These reads, and for every other source what Vault would return at its version. */
  ghost function FilledReads(vault: Vault, secrets: map<string, SecretSource>, current: map<string, int>,
                             read: map<string, Secret>): map<string, Secret> {
    map id | id in read.Keys + secrets.Keys
             && (id in read || (id in current && VersionData(vault, secrets[id], current[id]).Some?))
      :: if id in read then read[id] else Secret(current[id], VersionData(vault, secrets[id], current[id]).value)
  }

  /** The answers of a reconcile once it has made every read that it still can. */
  ghost function Completed(vault: Vault, secrets: map<string, SecretSource>, answers: Answers): Answers {
    var current := Filled(vault, secrets, answers.current);
    Answers(current, FilledReads(vault, secrets, current, answers.read))
  }

  /** The later answers keep the earlier ones, and add only what Vault holds. */
  ghost predicate Extends(vault: Vault, secrets: map<string, SecretSource>, earlier: Answers, later: Answers) {
    var completed := Completed(vault, secrets, earlier);
    && Within(earlier.current, later.current) && Within(later.current, completed.current)
    && Within(earlier.read, later.read) && Within(later.read, completed.read)
  }

  /** The guards of an update, on the completed answers: checks, sources, and the cheap check. */
  ghost predicate WillSubmit(codec: Codec, vault: Vault, task: Task) {
    && Configured(task.spec.labels).Some? && task.spec.container.Some?
    && var config := Configured(task.spec.labels).value;
       var completed := Completed(vault, config.secrets, task.answers);
       && config.enabled && Admitted(codec, task.spec, config).Some?
       && AllResolve(config.secrets, completed)
       && !IsCurrent(codec, task.spec, Admitted(codec, task.spec, config).value,
                     completed.Versions(config.secrets.Keys))
  }

  /** The reconcile with its completed answers. */
  ghost function CompletedTask(vault: Vault, task: Task): Task {
    task.(answers := Completed(vault, SecretsFor(Configured(task.spec.labels)), task.answers))
  }

  lemma SameAnswersDecideSame(codec: Codec, spec: Spec, config: Config, a: Answers, b: Answers)
    requires Configured(spec.labels) == Some(config) && config.enabled
    requires forall id :: id in config.secrets ==>
               && id in a.current && id in b.current && a.current[id] == b.current[id]
               && id in a.read && id in b.read && a.read[id] == b.read[id]
    ensures Decide(codec, spec, a) == Decide(codec, spec, b)
    ensures AllResolve(config.secrets, a) <==> AllResolve(config.secrets, b)
    ensures a.Versions(config.secrets.Keys) == b.Versions(config.secrets.Keys)
  {
    hide Configured, Admitted, IsCurrent, Recompute, Tracked, Contribution;
    var versions := a.Versions(config.secrets.Keys);
    assert versions == b.Versions(config.secrets.Keys);
    assert a.Documents(versions) == b.Documents(versions);
  }

  /** What extended answers send is what the completed answers would send. */
  lemma ExtensionSends(codec: Codec, vault: Vault, earlier: Task, later: Task)
    requires codec.Faithful() && Sending(codec, later)
    requires Configured(later.spec.labels).Some? && Configured(later.spec.labels).value.enabled
    requires later == earlier.(answers := later.answers)
    requires Extends(vault, Configured(later.spec.labels).value.secrets, earlier.answers, later.answers)
    ensures WillSubmit(codec, vault, earlier)
    ensures Decide(codec, later.spec, later.answers)
            == Decide(codec, earlier.spec, CompletedTask(vault, earlier).answers)
  {
    hide Decide, Configured, Admitted, IsCurrent, Completed, Contribution, Answers.Versions;
    var config := Configured(later.spec.labels).value;
    SubmitsWhenAdmitted(codec, later.spec, later.answers, config);
    forall id | id in config.secrets ensures id in later.answers.current && id in later.answers.read {
      assert SourceResolves(config.secrets[id], id, later.answers);
    }
    SameAnswersDecideSame(codec, later.spec, config, later.answers, Completed(vault, config.secrets, earlier.answers));
  }

  lemma WillSubmitSends(codec: Codec, vault: Vault, task: Task)
    requires codec.Faithful() && WillSubmit(codec, vault, task)
    ensures Sending(codec, CompletedTask(vault, task))
  {
    hide Decide, Configured, Admitted, IsCurrent, Completed, AllResolve, Answers.Versions;
    SubmitsWhenAdmitted(codec, task.spec, CompletedTask(vault, task).answers, Configured(task.spec.labels).value);
  }

  // ---------------------------------------------------------------------
  // When a service changes twice
  // ---------------------------------------------------------------------

  /** A reconcile of the current specification was told a version that Vault has since replaced. */
  ghost predicate OutdatedTask(w: World, service: string, task: Task) {
    && task.service == service && service in w.services && task.version == |w.services[service].history| - 1
    && !AnsweredNow(w.vault, task.spec, task.answers)
  }

  /** Such a reconcile, and what remains to be read lets it send its update. */
  ghost predicate OutdatedSender(codec: Codec, w: World, service: string, t: nat) {
    t in w.tasks && OutdatedTask(w, service, w.tasks[t]) && WillSubmit(codec, w.vault, w.tasks[t])
  }

  /** An outdated reconcile can still send, and a fresh one can correct it. */
  ghost predicate CanChangeTwice(codec: Codec, w: World, service: string) {
    && service in w.services && w.services[service].live && w.services[service].history != []
    && Resolvable(w.vault, SecretsFor(Configured(w.services[service].Current().labels)))
    && exists t :: OutdatedSender(codec, w, service, t)
  }

  /** What an outdated reconcile of the start writes when it completes. */
  ghost predicate OutdatedWrite(codec: Codec, start: World, service: string, spec: Spec) {
    exists t :: OutdatedSender(codec, start, service, t) && spec == CompletedWrite(codec, start, t)
  }

  ghost function CompletedWrite(codec: Codec, start: World, t: nat): Spec
    requires t in start.tasks
  {
    var task := CompletedTask(start.vault, start.tasks[t]);
    if Sending(codec, task) then Decide(codec, task.spec, task.answers).spec else task.spec
  }

  // ---------------------------------------------------------------------
  // The invariant of quiet runs
  // ---------------------------------------------------------------------

  /** The first change is settled or an outdated write; only after the latter there is a second, which is settled. */
  ghost predicate Explained(codec: Codec, start: World, service: string, now: Record)
    requires service in start.services
  {
    var before := start.services[service];
    var n := |before.history|;
    && before.history != [] && before.history <= now.history && now.live == before.live
    && |now.history| <= n + 2
    && (|now.history| > n ==>
          Settled(codec, start.vault, now.history[n]) || OutdatedWrite(codec, start, service, now.history[n]))
    && (|now.history| == n + 2 ==>
          && CanChangeTwice(codec, start, service)
          && OutdatedWrite(codec, start, service, now.history[n]) && Settled(codec, start.vault, now.history[n + 1]))
  }

  /** Started since, or told nothing but what Vault holds now. */
  ghost predicate Fresh(vault: Vault, task: Task) {
    AnsweredNow(vault, task.spec, task.answers) && GoodReads(vault, task)
  }

  /** The reconcile is one of the start, with more answers. */
  ghost predicate Resumes(start: World, t: nat, task: Task) {
    && t in start.tasks && Placed(start, start.tasks[t])
    && task == start.tasks[t].(answers := task.answers)
    && Extends(start.vault, SecretsFor(Configured(task.spec.labels)), start.tasks[t].answers, task.answers)
  }

  ghost predicate Accounted(start: World, w: World, t: nat)
    requires t in w.tasks
  {
    Placed(w, w.tasks[t]) && (Fresh(start.vault, w.tasks[t]) || Resumes(start, t, w.tasks[t]))
  }

  ghost predicate QuietInvariant(codec: Codec, start: World, w: World) {
    && IsStart(start) && w.vault == start.vault && w.services.Keys == start.services.Keys
    && (forall service :: service in w.services ==> Explained(codec, start, service, w.services[service]))
    && (forall t :: t in w.tasks ==> Accounted(start, w, t))
  }

  /** Answers that became outdated were so at the start. */
  lemma OutdatedSinceStart(start: World, t: nat, task: Task)
    requires Resumes(start, t, task) && !AnsweredNow(start.vault, task.spec, task.answers)
    ensures !AnsweredNow(start.vault, task.spec, start.tasks[t].answers)
  {
    hide Configured, CurrentVersion, VersionData, FilledReads;
  }

  /** A fresh reconcile sends only what resolves at the current versions. */
  lemma FreshResolves(codec: Codec, vault: Vault, task: Task, config: Config)
    requires codec.Faithful() && Fresh(vault, task) && Sending(codec, task)
    requires Configured(task.spec.labels) == Some(config) && config.enabled
    ensures Resolvable(vault, config.secrets)
  {
    hide Decide, Configured, Admitted, IsCurrent, AllResolve, DesiredValues, Fresh, FreshSource, Resolvable,
         VersionsNow, Answers.Versions, Answers.Documents, DocumentsAt;
    SubmitsWhenAdmitted(codec, task.spec, task.answers, config);
    ResolvesExactly(config.secrets, task.answers);
    forall id | id in config.secrets ensures FreshSource(vault, config.secrets[id], id, task.answers) {
      ResolvedIsFresh(vault, task, config, id);
    }
    FreshDocuments(vault, config.secrets, task.answers);
    ResolvableAt(vault, config.secrets, task.answers);
  }

  /** The source was answered and read as Vault holds it now. */
  ghost predicate FreshSource(vault: Vault, source: SecretSource, id: string, answers: Answers) {
    && id in answers.current && answers.current[id] == CurrentVersion(vault, source) > 0
    && id in answers.read && answers.read[id].version == answers.current[id]
    && VersionData(vault, source, answers.current[id]) == Some(answers.read[id].data)
  }

  lemma ResolvedIsFresh(vault: Vault, task: Task, config: Config, id: string)
    requires Fresh(vault, task) && Configured(task.spec.labels) == Some(config)
    requires AllResolve(config.secrets, task.answers) && id in config.secrets
    ensures FreshSource(vault, config.secrets[id], id, task.answers)
  {
    hide Configured, Contribution;
    assert SourceResolves(config.secrets[id], id, task.answers);
  }

  lemma FreshDocuments(vault: Vault, secrets: map<string, SecretSource>, answers: Answers)
    requires forall id :: id in secrets ==> FreshSource(vault, secrets[id], id, answers)
    ensures answers.Versions(secrets.Keys) == VersionsNow(vault, secrets)
    ensures answers.Documents(VersionsNow(vault, secrets)) == DocumentsAt(vault, secrets, VersionsNow(vault, secrets))
  {
    hide CurrentVersion, VersionData;
  }

  lemma ResolvableAt(vault: Vault, secrets: map<string, SecretSource>, answers: Answers)
    requires forall id :: id in secrets ==> FreshSource(vault, secrets[id], id, answers)
    requires answers.Documents(VersionsNow(vault, secrets)) == DocumentsAt(vault, secrets, VersionsNow(vault, secrets))
    requires DesiredValues(secrets, answers.Documents(VersionsNow(vault, secrets))).Some?
    ensures Resolvable(vault, secrets)
  {
    hide CurrentVersion, VersionData, DesiredValues, DocumentsAt, VersionsNow;
  }

  lemma FirstUpdateExplained(codec: Codec, start: World, w: World, t: nat)
    requires codec.Faithful() && QuietInvariant(codec, start, w) && t in w.tasks
    requires Sending(codec, w.tasks[t]) && Accepts(w, w.tasks[t])
    requires |w.services[w.tasks[t].service].history| == |start.services[w.tasks[t].service].history|
    ensures var task := w.tasks[t];
            Explained(codec, start, task.service, Updated(codec, w.services[task.service], task))
  {
    hide Decide, AnsweredNow, Configured, InjectionBy, Settled, WillSubmit, GoodReads, Extends, CanChangeTwice;
    var task := w.tasks[t];
    assert Accounted(start, w, t) && Explained(codec, start, task.service, w.services[task.service]);
    SendingIsConfigured(codec, task);
    if AnsweredNow(start.vault, task.spec, task.answers) {
      SentIsSettled(codec, start.vault, task);
    } else {
      OutdatedSinceStart(start, t, task);
      OutdatedIsEnabled(start.vault, task);
      ExtensionSends(codec, start.vault, start.tasks[t], task);
      assert OutdatedSender(codec, start, task.service, t);
      assert Decide(codec, task.spec, task.answers).spec == CompletedWrite(codec, start, t);
    }
  }

  lemma OutdatedIsEnabled(vault: Vault, task: Task)
    requires !AnsweredNow(vault, task.spec, task.answers)
    ensures Configured(task.spec.labels).Some? && Configured(task.spec.labels).value.enabled
  {
    hide CurrentVersion, ParseBool, AllWellFormed, SecretsOf, Acceptable;
  }

  lemma SecondUpdateExplained(codec: Codec, start: World, w: World, t: nat)
    requires codec.Faithful() && QuietInvariant(codec, start, w) && t in w.tasks
    requires Sending(codec, w.tasks[t]) && Accepts(w, w.tasks[t])
    requires |w.services[w.tasks[t].service].history| > |start.services[w.tasks[t].service].history|
    ensures var task := w.tasks[t];
            Explained(codec, start, task.service, Updated(codec, w.services[task.service], task))
  {
    hide Decide, AnsweredNow, Configured, InjectionBy, Settled, Fresh, OutdatedWrite, CanChangeTwice, Resumes, Sending;
    var task := w.tasks[t];
    var record, n := w.services[task.service], |start.services[task.service].history|;
    assert Accounted(start, w, t) && Explained(codec, start, task.service, record);
    SendingIsConfigured(codec, task);
    StartedSince(start, w, t);
    FreshIsNotSettled(codec, start.vault, task);
    SentIsSettled(codec, start.vault, task);
    SecondChangeIsPossible(codec, start, task);
  }

  lemma StartedSince(start: World, w: World, t: nat)
    requires t in w.tasks && Accounted(start, w, t) && w.tasks[t].service in start.services
    requires w.tasks[t].version >= |start.services[w.tasks[t].service].history|
    ensures Fresh(start.vault, w.tasks[t]) && AnsweredNow(start.vault, w.tasks[t].spec, w.tasks[t].answers)
  {
    hide GoodReads, AnsweredNow, Extends;
  }

  lemma FreshIsNotSettled(codec: Codec, vault: Vault, task: Task)
    requires Sending(codec, task) && AnsweredNow(vault, task.spec, task.answers)
    ensures !Settled(codec, vault, task.spec)
  {
    hide Decide, AnsweredNow;
  }

  lemma SecondChangeIsPossible(codec: Codec, start: World, task: Task)
    requires codec.Faithful() && IsStart(start) && Fresh(start.vault, task) && Sending(codec, task)
    requires task.service in start.services && start.services[task.service].live
    requires OutdatedWrite(codec, start, task.service, task.spec)
    ensures CanChangeTwice(codec, start, task.service)
  {
    hide Configured, Sending, Fresh, Resolvable, OutdatedTask, WillSubmit, CompletedWrite;
    OutdatedWriteConfiguration(codec, start, task.service, task.spec);
    FreshResolves(codec, start.vault, task, Configured(task.spec.labels).value);
    var s :| OutdatedSender(codec, start, task.service, s) && task.spec == CompletedWrite(codec, start, s);
  }

  lemma OutdatedWriteConfiguration(codec: Codec, start: World, service: string, spec: Spec)
    requires codec.Faithful() && OutdatedWrite(codec, start, service, spec)
    requires IsStart(start) && service in start.services
    ensures Configured(spec.labels).Some? && Configured(spec.labels).value.enabled
    ensures Configured(spec.labels) == Configured(start.services[service].Current().labels)
  {
    hide Decide, AnsweredNow, Configured, Completed, Admitted, IsCurrent, AllResolve, Answers.Versions;
    var t :| OutdatedSender(codec, start, service, t) && spec == CompletedWrite(codec, start, t);
    WillSubmitSends(codec, start.vault, start.tasks[t]);
    SentKeepsConfiguration(codec, CompletedTask(start.vault, start.tasks[t]));
  }

  /** Each step of the controller keeps every change explained and every reconcile accounted for. */
  lemma StepKeepsQuiet(codec: Codec, start: World, w: World, a: Action)
    requires codec.Faithful() && QuietInvariant(codec, start, w)
    requires IsControllerStep(a) && Enabled(codec, w, a)
    ensures QuietInvariant(codec, start, Apply(codec, w, a))
  {
    hide Explained, Accounted, Sending, Updated, WantsMetadata, WantsData, CurrentVersion, VersionData, SourceOf,
         IsStart;
    if a.Update? {
      UpdateKeepsQuiet(codec, start, w, a);
    } else {
      var w' := Apply(codec, w, a);
      forall t | t in w'.tasks ensures Accounted(start, w', t) {
        if t in w.tasks && w'.tasks[t] == w.tasks[t] {
          StillAccounted(start, w, w', t);
        } else {
          ReadsAreAccounted(codec, start, w, a);
        }
      }
    }
  }

  lemma StillAccounted(start: World, w: World, w': World, t: nat)
    requires t in w.tasks && t in w'.tasks && w'.tasks[t] == w.tasks[t] && Accounted(start, w, t)
    requires forall service :: service in w.services ==>
               service in w'.services && w.services[service].history <= w'.services[service].history
    ensures Accounted(start, w', t)
  {
    hide Fresh, Resumes;
  }

  lemma UpdateKeepsQuiet(codec: Codec, start: World, w: World, a: Action)
    requires codec.Faithful() && QuietInvariant(codec, start, w)
    requires a.Update? && Enabled(codec, w, a)
    ensures QuietInvariant(codec, start, Apply(codec, w, a))
  {
    hide Explained, Accounted, Sending, Updated, IsStart;
    var w', task := Apply(codec, w, a), w.tasks[a.task];
    if Accepts(w, task) {
      UpdateIsExplained(codec, start, w, a.task);
      HistoryGrows(codec, w.services[task.service], task);
    }
    forall t | t in w'.tasks ensures Accounted(start, w', t) {
      StillAccounted(start, w, w', t);
    }
  }

  lemma UpdateIsExplained(codec: Codec, start: World, w: World, t: nat)
    requires codec.Faithful() && QuietInvariant(codec, start, w) && t in w.tasks
    requires Sending(codec, w.tasks[t]) && Accepts(w, w.tasks[t])
    ensures var task := w.tasks[t];
            Explained(codec, start, task.service, Updated(codec, w.services[task.service], task))
  {
    hide Sending, Updated, Accounted, Settled, OutdatedWrite, CanChangeTwice, IsStart;
    var service := w.tasks[t].service;
    assert Explained(codec, start, service, w.services[service]);
    if |w.services[service].history| == |start.services[service].history| {
      FirstUpdateExplained(codec, start, w, t);
    } else {
      SecondUpdateExplained(codec, start, w, t);
    }
  }

  lemma HistoryGrows(codec: Codec, record: Record, task: Task)
    requires Sending(codec, task)
    ensures record.history <= Updated(codec, record, task).history
  {
    hide Sending, Decide;
    SendingIsConfigured(codec, task);
  }

  lemma ReadsAreAccounted(codec: Codec, start: World, w: World, a: Action)
    requires QuietInvariant(codec, start, w) && Enabled(codec, w, a) && (a.Start? || a.ReadMetadata? || a.ReadData?)
    ensures Accounted(start, Apply(codec, w, a), a.task)
  {
    hide Explained, WantsMetadata, WantsData, Fresh, Resumes, IsStart, CurrentVersion, VersionData;
    var w' := Apply(codec, w, a);
    if a.Start? {
      NothingReadIsFresh(start.vault, w'.tasks[a.task]);
    } else {
      assert Accounted(start, w, a.task);
      if Fresh(start.vault, w.tasks[a.task]) {
        ReadStaysFresh(codec, w, a);
      } else {
        ReadResumes(codec, start, w, a);
      }
    }
  }

  lemma NothingReadIsFresh(vault: Vault, task: Task)
    requires task.answers == Answers(map[], map[])
    ensures Fresh(vault, task)
  {
  }

  lemma ReadStaysFresh(codec: Codec, w: World, a: Action)
    requires Enabled(codec, w, a) && (a.ReadMetadata? || a.ReadData?) && Fresh(w.vault, w.tasks[a.task])
    ensures Fresh(w.vault, Apply(codec, w, a).tasks[a.task])
  {
    hide Configured, CurrentVersion, VersionData, Admitted, IsCurrent;
  }

  lemma ReadResumes(codec: Codec, start: World, w: World, a: Action)
    requires Enabled(codec, w, a) && (a.ReadMetadata? || a.ReadData?) && w.vault == start.vault
    requires Resumes(start, a.task, w.tasks[a.task])
    ensures Resumes(start, a.task, Apply(codec, w, a).tasks[a.task])
  {
    hide Configured, CurrentVersion, VersionData, Admitted, IsCurrent, Extends;
    var before, after := w.tasks[a.task], Apply(codec, w, a).tasks[a.task];
    var secrets := Configured(before.spec.labels).value.secrets;
    var earlier := start.tasks[a.task].answers;
    if a.ReadMetadata? {
      AnswerExtends(w.vault, secrets, earlier, before.answers, a.source);
    } else {
      ReadExtends(w.vault, secrets, earlier, before.answers, a.source);
    }
  }

  lemma AnswerExtends(vault: Vault, secrets: map<string, SecretSource>, earlier: Answers, later: Answers, id: string)
    requires Extends(vault, secrets, earlier, later) && id in secrets && id !in later.current
    requires CurrentVersion(vault, secrets[id]) > 0
    ensures Extends(vault, secrets, earlier,
                    later.(current := later.current[id := CurrentVersion(vault, secrets[id])]))
  {
    hide CurrentVersion, VersionData, FilledReads;
  }

  lemma ReadExtends(vault: Vault, secrets: map<string, SecretSource>, earlier: Answers, later: Answers, id: string)
    requires Extends(vault, secrets, earlier, later) && id in secrets && id !in later.read && id in later.current
    requires VersionData(vault, secrets[id], later.current[id]).Some?
    ensures var data := VersionData(vault, secrets[id], later.current[id]).value;
            Extends(vault, secrets, earlier, later.(read := later.read[id := Secret(later.current[id], data)]))
  {
    hide CurrentVersion, VersionData;
  }

  lemma StartIsQuiet(codec: Codec, start: World)
    requires IsStart(start)
    ensures QuietInvariant(codec, start, start)
  {
    hide Settled, Fresh, Extends;
    forall t | t in start.tasks ensures Accounted(start, start, t) {
      var task := start.tasks[t];
      ExtendsItself(start.vault, SecretsFor(Configured(task.spec.labels)), task.answers);
    }
  }

  lemma ExtendsItself(vault: Vault, secrets: map<string, SecretSource>, answers: Answers)
    ensures Extends(vault, secrets, answers, answers)
  {
    hide CurrentVersion, VersionData;
  }

  lemma {:induction false} QuietRunsKeepInvariant(codec: Codec, trace: seq<World>, actions: seq<Action>, i: nat)
    requires codec.Faithful() && IsQuietRun(codec, trace, actions) && i < |trace|
    ensures QuietInvariant(codec, trace[0], trace[i])
  {
    hide Enabled, Apply, QuietInvariant, IsStart;
    if i == 0 {
      StartIsQuiet(codec, trace[0]);
    } else {
      QuietRunsKeepInvariant(codec, trace, actions, i - 1);
      assert QuietStep(codec, trace[i - 1], actions[i - 1], trace[i]);
      StepKeepsQuiet(codec, trace[0], trace[i - 1], actions[i - 1]);
    }
  }

  /**
   Convergence. From any world, however many reconciles are in flight or start
   later from however stale a listing, and however they are interleaved, a quiet
   run changes a service at most twice, and twice only if it can: if an outdated
   reconcile can still send and the sources resolve now. The last change is
   settled - no further reconcile sends anything - unless it is the only one and
   what an outdated reconcile wrote.
   */
  lemma QuietRunsConverge(codec: Codec, trace: seq<World>, actions: seq<Action>, i: nat, service: string)
    requires codec.Faithful() && IsQuietRun(codec, trace, actions) && i < |trace|
    requires service in trace[0].services
    ensures service in trace[i].services
    ensures var before, now := trace[0].services[service].history, trace[i].services[service].history;
            var limit := if CanChangeTwice(codec, trace[0], service) then 2 else 1;
            && before <= now && |now| <= |before| + limit
            && (|now| > |before| ==>
                  || Settled(codec, trace[i].vault, now[|before|])
                  || OutdatedWrite(codec, trace[0], service, now[|before|]))
            && (|now| == |before| + 2 ==>
                  && OutdatedWrite(codec, trace[0], service, now[|before|])
                  && Settled(codec, trace[i].vault, now[|before| + 1]))
  {
    hide Settled, Accounted, IsQuietRun, CanChangeTwice, OutdatedWrite;
    QuietRunsKeepInvariant(codec, trace, actions, i);
    assert Explained(codec, trace[0], service, trace[i].services[service]);
  }

  /** With no reconcile in flight at the start, a service changes at most once and is settled then. */
  lemma QuietRunsUpdateAtMostOnce(codec: Codec, trace: seq<World>, actions: seq<Action>, i: nat, service: string)
    requires codec.Faithful() && IsQuietRun(codec, trace, actions) && i < |trace|
    requires service in trace[0].services && trace[0].tasks == map[]
    ensures service in trace[i].services
    ensures var before, now := trace[0].services[service].history, trace[i].services[service].history;
            && before <= now && |now| <= |before| + 1
            && (|now| == |before| + 1 ==> Settled(codec, trace[i].vault, now[|now| - 1]))
  {
    hide Settled, IsQuietRun;
    QuietRunsConverge(codec, trace, actions, i, service);
  }
}
