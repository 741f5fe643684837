/**
 What one reconcile decides, as a function of the service it was given and of
 the answers Vault gave while it ran, and the laws of that decision.
 */
module Decision {
  import opened Wrappers
  import opened Text
  import opened Environment
  import opened Labels
  import opened Desired
  import opened Service

  datatype Secret = Secret(version: int, data: Document)

  /**
   Vault's answers during one reconcile, by source: one metadata read, and one
   read of the version it named. A source that is absent was answered by an error.
   */
  datatype Answers = Answers(current: map<string, int>, read: map<string, Secret>)
  {
    function Versions(ids: set<string>): map<string, int> {
      map id | id in ids && id in current :: current[id]
    }

    /** The documents whose version is the one that was asked for. */
    function Documents(versions: map<string, int>): map<string, Document> {
      map id | id in versions && id in read && read[id].version == versions[id] :: read[id].data
    }
  }

  datatype Decision =
    | Untracked
    | Rejected
    | Quiet
    | Submit(spec: Spec)

  /** What the controller remembers of the last injection, after its checks. */
  datatype Inputs = Inputs(config: Config, applied: map<string, int>, managed: seq<string>)

  ghost predicate Tracked(spec: Spec) {
    Read(spec.labels, ENABLED) != "" || HasControllerState(spec.labels) || HasGate(spec)
  }

  ghost predicate Empty(labels: LabelSet, key: string) {
    key !in labels || labels[key] == ""
  }

  ghost predicate AllStateEmpty(labels: LabelSet) {
    && Empty(labels, APPLIED_VERSIONS) && Empty(labels, MANAGED_ENV)
    && Empty(labels, STATE_HASH) && Empty(labels, CONFIG_HASH)
  }

  /** A service is left alone exactly when nothing in it speaks of the injector. */
  lemma UntrackedExactly(codec: Codec, spec: Spec, answers: Answers)
    ensures Decide(codec, spec, answers) == Untracked
            <==> && Empty(spec.labels, ENABLED) && AllStateEmpty(spec.labels)
                 && forall c :: c in Constraints(spec) ==> !IsGate(c)
    ensures Decide(codec, spec, answers) == Untracked <==> !Tracked(spec)
  {
    hide Configured, IsGate, DecideInjection, DecideCleanup;
    if Tracked(spec) && Configured(spec.labels).Some? {
      NeverUntracked(codec, spec, Configured(spec.labels).value, answers);
    }
  }

  lemma NeverUntracked(codec: Codec, spec: Spec, config: Config, answers: Answers)
    ensures !DecideInjection(codec, spec, config, answers).Untracked? && !DecideCleanup(codec, spec).Untracked?
  {
    hide Admitted, Answers.Versions, IsCurrent, DesiredValues, Injected;
  }

  /** The labels show a finished injection for exactly this configuration. */
  ghost predicate RecordedFor(codec: Codec, labels: LabelSet, config: Config) {
    var state := StateOf(labels);
    state.config == codec.ConfigHash(config) && state.versions != "" && state.managed != "" && state.digest != ""
  }

  /** Every check made before Vault is asked: None when the service is refused. */
  ghost function Admitted(codec: Codec, spec: Spec, config: Config): Option<Inputs> {
    var applied, managed := codec.AppliedVersions(spec.labels), codec.ManagedEnvironment(spec.labels);
    if spec.container.None? || applied.None? || managed.None? then None
    else if HasGate(spec) && !config.bootstrapGate then None
    else if config.bootstrapGate && !HasGate(spec) && !RecordedFor(codec, spec.labels, config) then None
    else Some(Inputs(config, applied.value, managed.value))
  }

  /** The two state labels that are parsed are empty or parse, and every recorded name could be a variable's. */
  ghost predicate StateParses(codec: Codec, labels: LabelSet) {
    && (Empty(labels, APPLIED_VERSIONS) || codec.parseVersions(labels[APPLIED_VERSIONS]).Some?)
    && (Empty(labels, MANAGED_ENV)
        || (codec.parseNames(labels[MANAGED_ENV]).Some?
            && forall name :: name in codec.parseNames(labels[MANAGED_ENV]).value ==> name != "" && '=' !in name))
  }

  /** The labels record an injection whose sources and gate flag have this configuration's digest. */
  ghost predicate ShowsInjection(codec: Codec, labels: LabelSet, config: Config) {
    && !Empty(labels, APPLIED_VERSIONS) && !Empty(labels, MANAGED_ENV) && !Empty(labels, STATE_HASH)
    && (if CONFIG_HASH in labels then labels[CONFIG_HASH] else "")
       == codec.digest(codec.configText(config.bootstrapGate, config.secrets))
  }

  /**
   The checks before Vault is asked, each on its own. Only a service whose
   configuration asks for the gate needs the gate or a finished injection.
   */
  ghost predicate PassesChecks(codec: Codec, spec: Spec, config: Config) {
    && spec.container.Some? && StateParses(codec, spec.labels)
    && (HasGate(spec) ==> config.bootstrapGate)
    && (config.bootstrapGate ==> HasGate(spec) || ShowsInjection(codec, spec.labels, config))
  }

  lemma AdmittedExactly(codec: Codec, spec: Spec, config: Config)
    ensures Admitted(codec, spec, config).Some? <==> PassesChecks(codec, spec, config)
    ensures Admitted(codec, spec, config).Some? ==> Admitted(codec, spec, config).value.config == config
  {
    hide IsGate, Sort;
    ManagedNamesExactly(codec, spec.labels);
  }

  lemma AdmittedHasContainer(codec: Codec, spec: Spec, config: Config)
    requires Admitted(codec, spec, config).Some?
    ensures spec.container.Some? && Admitted(codec, spec, config).value.config == config
  {
  }

  /** The cheap check: nothing but labels, versions and the managed entries. */
  ghost predicate IsCurrent(codec: Codec, spec: Spec, inputs: Inputs, versions: map<string, int>)
    requires spec.container.Some?
  {
    && versions == inputs.applied
    && Read(spec.labels, CONFIG_HASH) == codec.ConfigHash(inputs.config)
    && codec.digest(Encoded(Selected(spec.container.value.env, Members(inputs.managed))))
       == Read(spec.labels, STATE_HASH)
    && !HasGate(spec)
  }

  /** The specification an injection writes. */
  ghost function Injected(codec: Codec, spec: Spec, inputs: Inputs, versions: map<string, int>, values: Env): Spec
    requires spec.container.Some?
  {
    var container := spec.container.value;
    var written := spec.(
      labels := WithState(spec.labels, codec.StateFor(inputs.config, versions, values)),
      container := Some(container.(env := Merged(container.env, Members(inputs.managed), values))));
    if inputs.config.bootstrapGate then Opened(written) else written
  }

  /** The guard before the update: the three edited parts are as they were. */
  ghost predicate SameEdits(a: Spec, b: Spec)
    requires a.container.Some? && b.container.Some?
  {
    a.container.value.env == b.container.value.env && a.labels == b.labels && Constraints(a) == Constraints(b)
  }

  ghost function Recompute(codec: Codec, spec: Spec, inputs: Inputs, versions: map<string, int>,
                           docs: map<string, Document>): Decision
    requires spec.container.Some?
  {
    var values := DesiredValues(inputs.config.secrets, docs);
    if values.None? then Rejected
    else
      var updated := Injected(codec, spec, inputs, versions, values.value);
      if SameEdits(spec, updated) then Quiet else Submit(updated)
  }

  ghost function DecideInjection(codec: Codec, spec: Spec, config: Config, answers: Answers): Decision {
    var inputs := Admitted(codec, spec, config);
    if inputs.None? then Rejected
    else
      var versions := answers.Versions(config.secrets.Keys);
      if versions.Keys != config.secrets.Keys then Rejected
      else if IsCurrent(codec, spec, inputs.value, versions) then Quiet
      else Recompute(codec, spec, inputs.value, versions, answers.Documents(versions))
  }

  /** The specification that a disable clean-up writes. */
  ghost function Cleaned(spec: Spec, managed: seq<string>): Spec
    requires spec.container.Some?
  {
    var container := spec.container.value;
    spec.(labels := WithoutState(spec.labels),
          container := Some(container.(env := Without(container.env, Members(managed)))))
  }

  ghost function DecideCleanup(codec: Codec, spec: Spec): Decision {
    var managed := codec.ManagedEnvironment(spec.labels);
    if !HasControllerState(spec.labels) then Quiet
    else if spec.container.None? || managed.None? then Rejected
    else Submit(Cleaned(spec, managed.value))
  }

  ghost function Decide(codec: Codec, spec: Spec, answers: Answers): Decision {
    if !Tracked(spec) then Untracked
    else match Configured(spec.labels)
      case None => Rejected
      case Some(config) =>
        if config.enabled then DecideInjection(codec, spec, config, answers)
        else DecideCleanup(codec, spec)
  }

  // ---------------------------------------------------------------------
  // Shapes of an injection
  // ---------------------------------------------------------------------

  /** All that is known when an injection is submitted. */
  ghost predicate IsInjection(codec: Codec, spec: Spec, answers: Answers, inputs: Inputs,
                              versions: map<string, int>, values: Env)
  {
    && Configured(spec.labels) == Some(inputs.config) && inputs.config.enabled
    && Admitted(codec, spec, inputs.config) == Some(inputs)
    && versions == answers.Versions(inputs.config.secrets.Keys)
    && versions.Keys == inputs.config.secrets.Keys
    && !IsCurrent(codec, spec, inputs, versions)
    && DesiredValues(inputs.config.secrets, answers.Documents(versions)) == Some(values)
  }

  /** A submitted update is an injection of desired values, or a clean-up. */
  lemma SubmitShape(codec: Codec, spec: Spec, answers: Answers)
    returns (inputs: Inputs, versions: map<string, int>, values: Env)
    requires Decide(codec, spec, answers).Submit?
    requires Configured(spec.labels).value.enabled
    ensures IsInjection(codec, spec, answers, inputs, versions, values)
    ensures Decide(codec, spec, answers).spec == Injected(codec, spec, inputs, versions, values)
  {
    hide Configured, IsCurrent, SameEdits, Tracked, HasGate, Answers.Versions, Answers.Documents;
    var config := Configured(spec.labels).value;
    inputs := Admitted(codec, spec, config).value;
    versions := answers.Versions(config.secrets.Keys);
    values := DesiredValues(config.secrets, answers.Documents(versions)).value;
  }

  /** An injection installs names that Docker can represent, and at least one. */
  lemma InjectionNames(codec: Codec, spec: Spec, answers: Answers, inputs: Inputs,
                       versions: map<string, int>, values: Env)
    requires IsInjection(codec, spec, answers, inputs, versions, values)
    ensures AllRepresentable(values.Keys) && values != map[]
  {
    DesiredNames(spec.labels, answers.Documents(versions));
  }

  // ---------------------------------------------------------------------
  // What an injection leaves behind
  // ---------------------------------------------------------------------

  lemma InjectedLabels(codec: Codec, spec: Spec, inputs: Inputs, versions: map<string, int>, values: Env)
    requires codec.Faithful() && spec.container.Some? && AllRepresentable(values.Keys)
    ensures var updated := Injected(codec, spec, inputs, versions, values);
            && StateOf(updated.labels) == codec.StateFor(inputs.config, versions, values)
            && WithoutState(updated.labels) == WithoutState(spec.labels)
            && Configured(updated.labels) == Configured(spec.labels)
            && codec.AppliedVersions(updated.labels) == Some(versions)
            && codec.ManagedEnvironment(updated.labels) == Some(SortedNames(values.Keys))
  {
    var updated := Injected(codec, spec, inputs, versions, values);
    StateRoundTrip(spec.labels, codec.StateFor(inputs.config, versions, values));
    ConfigurationIgnoresState(updated.labels, spec.labels);
    StateReadsBack(codec, updated.labels, inputs.config, versions, values);
  }

  lemma InjectedConstraints(codec: Codec, spec: Spec, inputs: Inputs, versions: map<string, int>, values: Env)
    requires spec.container.Some? && (HasGate(spec) ==> inputs.config.bootstrapGate)
    ensures var updated := Injected(codec, spec, inputs, versions, values);
            !HasGate(updated) && Constraints(updated) == Ungated(Constraints(spec))
  {
    UngatedMembers(Constraints(spec));
    UngatedFixpoint(Constraints(spec));
  }

  /**
   After an accepted injection the cheap check holds: reconciling the written
   service at the same versions asks for no data and sends no update.
   */
  lemma InjectionSettles(codec: Codec, spec: Spec, answers: Answers, later: Answers)
    requires codec.Faithful()
    requires Decide(codec, spec, answers).Submit? && Configured(spec.labels).value.enabled
    requires later.Versions(Configured(spec.labels).value.secrets.Keys)
             == answers.Versions(Configured(spec.labels).value.secrets.Keys)
    ensures Decide(codec, Decide(codec, spec, answers).spec, later) == Quiet
    ensures Decide(codec, Decide(codec, spec, answers).spec, Answers(later.current, map[])) == Quiet
  {
    var inputs, versions, values := SubmitShape(codec, spec, answers);
    var updated := Injected(codec, spec, inputs, versions, values);
    InjectionNames(codec, spec, answers, inputs, versions, values);
    SettledAt(codec, spec, inputs, versions, values, later);
    SettledAt(codec, spec, inputs, versions, values, Answers(later.current, map[]));
  }

  lemma SettledAt(codec: Codec, spec: Spec, inputs: Inputs, versions: map<string, int>, values: Env, later: Answers)
    requires codec.Faithful() && spec.container.Some? && AllRepresentable(values.Keys)
    requires Configured(spec.labels) == Some(inputs.config) && inputs.config.enabled
    requires HasGate(spec) ==> inputs.config.bootstrapGate
    requires versions.Keys == inputs.config.secrets.Keys
    requires later.Versions(inputs.config.secrets.Keys) == versions
    ensures Decide(codec, Injected(codec, spec, inputs, versions, values), later) == Quiet
  {
    var updated := Injected(codec, spec, inputs, versions, values);
    InjectedLabels(codec, spec, inputs, versions, values);
    InjectedConstraints(codec, spec, inputs, versions, values);
    InjectedIsCurrent(codec, spec, inputs, versions, values);
    assert HasControllerState(updated.labels);
    assert Admitted(codec, updated, inputs.config) == Some(Inputs(inputs.config, versions, SortedNames(values.Keys)));
  }

  lemma InjectedEntries(codec: Codec, spec: Spec, inputs: Inputs, versions: map<string, int>, values: Env)
    requires spec.container.Some?
    ensures Injected(codec, spec, inputs, versions, values).container
            == Some(spec.container.value.(env := Merged(spec.container.value.env, Members(inputs.managed), values)))
  {
  }

  lemma NamesAreEqualsFree(names: set<string>)
    requires AllRepresentable(names)
    ensures EqualsFree(names)
  {
  }

  /** Once the labels are those of an injection, the cheap check compares two digests. */
  lemma CarriedIsCurrent(codec: Codec, spec: Spec, config: Config, versions: map<string, int>, values: Env)
    requires spec.container.Some? && !HasGate(spec)
    requires StateOf(spec.labels) == codec.StateFor(config, versions, values)
    ensures IsCurrent(codec, spec, Inputs(config, versions, SortedNames(values.Keys)), versions)
            <==> codec.digest(Encoded(Selected(spec.container.value.env, values.Keys))) == codec.digest(Encoded(values))
  {
    hide HasGate, Encoded, Selected;
    assert Members(SortedNames(values.Keys)) == values.Keys;
  }

  /** The written labels and the written entries agree with each other. */
  lemma InjectedIsCurrent(codec: Codec, spec: Spec, inputs: Inputs, versions: map<string, int>, values: Env)
    requires codec.Faithful() && spec.container.Some? && AllRepresentable(values.Keys)
    requires HasGate(spec) ==> inputs.config.bootstrapGate
    ensures IsCurrent(codec, Injected(codec, spec, inputs, versions, values),
                      Inputs(inputs.config, versions, SortedNames(values.Keys)), versions)
  {
    hide *;
    InjectedEntries(codec, spec, inputs, versions, values);
    InjectedLabels(codec, spec, inputs, versions, values);
    InjectedConstraints(codec, spec, inputs, versions, values);
    CarriedIsCurrent(codec, Injected(codec, spec, inputs, versions, values), inputs.config, versions, values);
    NamesAreEqualsFree(values.Keys);
    SelectAfterMerge(spec.container.value.env, Members(inputs.managed), values);
  }

  /** The reconcile after a clean-up has nothing to do, whatever Vault says. */
  lemma CleanupSettles(codec: Codec, spec: Spec, answers: Answers, later: Answers)
    requires Decide(codec, spec, answers).Submit? && !Configured(spec.labels).value.enabled
    ensures Decide(codec, Decide(codec, spec, answers).spec, later) in {Untracked, Quiet}
  {
    var updated := Decide(codec, spec, answers).spec;
    StateRoundTrip(spec.labels, NO_STATE);
    assert WithoutState(WithoutState(spec.labels)) == WithoutState(spec.labels);
    ConfigurationIgnoresState(updated.labels, spec.labels);
  }

  // ---------------------------------------------------------------------
  // The fast path decides what the slow path would find
  // ---------------------------------------------------------------------

  /** Recomputing resolves, and keeps the meaning of the environment, the labels and the constraints. */
  ghost predicate RecomputeKeeps(codec: Codec, spec: Spec, inputs: Inputs, versions: map<string, int>,
                                 docs: map<string, Document>)
    requires spec.container.Some?
  {
    var values := DesiredValues(inputs.config.secrets, docs);
    values.Some? && InjectionKeeps(codec, spec, inputs, versions, values.value)
  }

  ghost predicate InjectionKeeps(codec: Codec, spec: Spec, inputs: Inputs, versions: map<string, int>, values: Env)
    requires spec.container.Some?
  {
    var updated := Injected(codec, spec, inputs, versions, values);
    && Meaning(updated.container.value.env) == Meaning(spec.container.value.env)
    && updated.labels == spec.labels
    && Constraints(updated) == Constraints(spec)
  }

  /**
   Completeness: if recomputing would keep meaning, labels and constraints, the
   cheap check already said so. For every service and every answer of Vault.
   */
  lemma FastPathIsComplete(codec: Codec, spec: Spec, inputs: Inputs, versions: map<string, int>,
                           docs: map<string, Document>)
    requires codec.Faithful()
    requires Configured(spec.labels) == Some(inputs.config) && inputs.config.enabled
    requires Admitted(codec, spec, inputs.config) == Some(inputs)
    requires spec.container.Some? && RecomputeKeeps(codec, spec, inputs, versions, docs)
    ensures IsCurrent(codec, spec, inputs, versions)
  {
    hide Configured, Injected, IsCurrent, Encoded, Selected, HasGate, DesiredValues, InjectionKeeps;
    var values := DesiredValues(inputs.config.secrets, docs).value;
    DesiredNames(spec.labels, docs);
    KeptIsCurrent(codec, spec, inputs, versions, values);
  }

  lemma KeptIsCurrent(codec: Codec, spec: Spec, inputs: Inputs, versions: map<string, int>, values: Env)
    requires codec.Faithful() && Admitted(codec, spec, inputs.config) == Some(inputs) && spec.container.Some?
    requires AllRepresentable(values.Keys) && InjectionKeeps(codec, spec, inputs, versions, values)
    ensures IsCurrent(codec, spec, inputs, versions)
  {
    hide Configured, Injected, IsCurrent, Encoded, HasGate, Merged, Meaning;
    var updated := Injected(codec, spec, inputs, versions, values);
    InjectedEntries(codec, spec, inputs, versions, values);
    InjectedLabels(codec, spec, inputs, versions, values);
    InjectedConstraints(codec, spec, inputs, versions, values);
    SameGate(spec, updated);
    NamesAreEqualsFree(values.Keys);
    SelectAfterMerge(spec.container.value.env, Members(inputs.managed), values);
    assert Selected(updated.container.value.env, values.Keys) == Selected(spec.container.value.env, values.Keys);
    CarriedIsCurrent(codec, spec, inputs.config, versions, values);
  }

  lemma SameGate(a: Spec, b: Spec)
    requires Constraints(a) == Constraints(b)
    ensures HasGate(a) <==> HasGate(b)
  {
  }

  /**
   So the comparison before the update never suppresses it: a reconcile that
   gets past the cheap check and resolves every value always submits a change.
   */
  lemma SlowPathAlwaysChanges(codec: Codec, spec: Spec, answers: Answers, inputs: Inputs,
                              versions: map<string, int>, values: Env)
    requires codec.Faithful()
    requires IsInjection(codec, spec, answers, inputs, versions, values)
    ensures Decide(codec, spec, answers) == Submit(Injected(codec, spec, inputs, versions, values))
    ensures Injected(codec, spec, inputs, versions, values) != spec
  {
    hide Decide, Configured, IsCurrent, Injected, DesiredValues, InjectionKeeps, Answers.Versions, Answers.Documents;
    InjectionIsRecomputed(codec, spec, answers, inputs, versions, values);
    AdmittedHasContainer(codec, spec, inputs.config);
    InjectedEntries(codec, spec, inputs, versions, values);
    if SameEdits(spec, Injected(codec, spec, inputs, versions, values)) {
      SameEditsKeep(codec, spec, inputs, versions, values);
      FastPathIsComplete(codec, spec, inputs, versions, answers.Documents(versions));
    }
  }

  lemma SameEditsKeep(codec: Codec, spec: Spec, inputs: Inputs, versions: map<string, int>, values: Env)
    requires spec.container.Some?
    requires Injected(codec, spec, inputs, versions, values).container.Some?
    requires SameEdits(spec, Injected(codec, spec, inputs, versions, values))
    ensures InjectionKeeps(codec, spec, inputs, versions, values)
  {
    hide Injected, Meaning;
  }

  // ---------------------------------------------------------------------
  // Exactly when an update is sent
  // ---------------------------------------------------------------------

  /** The source was answered, and its data read at exactly the answered version yields its values. */
  ghost predicate SourceResolves(source: SecretSource, id: string, answers: Answers) {
    && id in answers.current && id in answers.read && answers.read[id].version == answers.current[id]
    && Contribution(source, answers.read[id].data).Some?
  }

  /** Every source resolves, and no two of them produce the same name. */
  ghost predicate AllResolve(secrets: map<string, SecretSource>, answers: Answers) {
    && (forall id :: id in secrets ==> SourceResolves(secrets[id], id, answers))
    && (forall a, b :: a in secrets && b in secrets && a != b ==>
          Contribution(secrets[a], answers.read[a].data).value.Keys
          !! Contribution(secrets[b], answers.read[b].data).value.Keys)
  }

  lemma ResolvesExactly(secrets: map<string, SecretSource>, answers: Answers)
    ensures AllResolve(secrets, answers)
            <==> && answers.Versions(secrets.Keys).Keys == secrets.Keys
                 && DesiredValues(secrets, answers.Documents(answers.Versions(secrets.Keys))).Some?
  {
    hide Contribution, UnionOf;
    var versions := answers.Versions(secrets.Keys);
    var docs := answers.Documents(versions);
    var parts := PartsOf(secrets, docs);
    if AllResolve(secrets, answers) {
      forall id | id in secrets ensures id in docs && docs[id] == answers.read[id].data {
        assert SourceResolves(secrets[id], id, answers);
      }
      assert versions.Keys == secrets.Keys;
      assert Separate(secrets.Keys, parts);
    }
    if versions.Keys == secrets.Keys && Separate(secrets.Keys, parts) {
      forall id | id in secrets
        ensures SourceResolves(secrets[id], id, answers)
                && parts[id] == Contribution(secrets[id], answers.read[id].data)
      {
        assert id in versions && parts[id].Some? && id in docs;
      }
    }
  }

  /** The cheap check, in the texts of the labels. */
  ghost predicate SeemsCurrent(codec: Codec, spec: Spec, config: Config, versions: map<string, int>)
    requires PassesChecks(codec, spec, config)
  {
    var labels := spec.labels;
    var recorded := if Empty(labels,
                             APPLIED_VERSIONS) then map[] else codec.parseVersions(labels[APPLIED_VERSIONS]).value;
    var names := if Empty(labels, MANAGED_ENV) then [] else codec.parseNames(labels[MANAGED_ENV]).value;
    var values := Selected(spec.container.value.env, set name | name in names);
    && versions == recorded
    && codec.digest(codec.configText(config.bootstrapGate, config.secrets))
       == (if CONFIG_HASH in labels then labels[CONFIG_HASH] else "")
    && codec.digest(Encoded(values)) == (if STATE_HASH in labels then labels[STATE_HASH] else "")
    && forall c :: c in Constraints(spec) ==> !IsGate(c)
  }

  lemma CurrentExactly(codec: Codec, spec: Spec, config: Config, versions: map<string, int>)
    requires Admitted(codec, spec, config).Some? && PassesChecks(codec, spec, config)
    ensures IsCurrent(codec, spec, Admitted(codec, spec, config).value, versions)
            <==> SeemsCurrent(codec, spec, config, versions)
  {
    hide IsGate, Sort, Encoded, Selected, Sorted;
    var labels, names := spec.labels, Admitted(codec, spec, config).value.managed;
    ManagedNamesExactly(codec, labels);
    if !Empty(labels, MANAGED_ENV) {
      SameMembers(names, codec.parseNames(labels[MANAGED_ENV]).value);
    }
    assert !HasGate(spec) <==> forall c :: c in Constraints(spec) ==> !IsGate(c);
  }

  lemma SameMembers(a: seq<string>, b: seq<string>)
    requires multiset(a) == multiset(b)
    ensures Members(a) == (set name | name in b)
  {
    forall name ensures name in a <==> name in b {
      assert name in multiset(a) <==> name in multiset(b);
    }
  }

  /**
   An enabled service is sent an update exactly when its labels pass the
   checks, every source resolves without a clash, and the cheap check fails.
   Any failed read, wrong version, unusable field or collision sends nothing.
   */
  lemma SubmitsExactly(codec: Codec, spec: Spec, answers: Answers, config: Config)
    requires codec.Faithful() && Configured(spec.labels) == Some(config) && config.enabled
    ensures Decide(codec, spec, answers).Submit?
            <==> && PassesChecks(codec, spec, config) && AllResolve(config.secrets, answers)
                 && !SeemsCurrent(codec, spec, config, answers.Versions(config.secrets.Keys))
  {
    hide Decide, Configured, Admitted, IsCurrent, SeemsCurrent, AllResolve, Answers.Versions, StateParses,
         ShowsInjection;
    AdmittedExactly(codec, spec, config);
    SubmitsWhenAdmitted(codec, spec, answers, config);
    if Admitted(codec, spec, config).Some? {
      CurrentExactly(codec, spec, config, answers.Versions(config.secrets.Keys));
    }
  }

  lemma SubmitsWhenAdmitted(codec: Codec, spec: Spec, answers: Answers, config: Config)
    requires codec.Faithful() && Configured(spec.labels) == Some(config) && config.enabled
    ensures Decide(codec, spec, answers).Submit?
            <==> && Admitted(codec, spec, config).Some? && spec.container.Some?
                 && AllResolve(config.secrets, answers)
                 && !IsCurrent(codec, spec, Admitted(codec, spec, config).value, answers.Versions(config.secrets.Keys))
  {
    hide Decide, Configured, Admitted, IsCurrent, Injected, DesiredValues, AllResolve, Answers.Versions,
         Answers.Documents;
    ResolvesExactly(config.secrets, answers);
    if Admitted(codec, spec, config).Some? {
      AdmittedHasContainer(codec, spec, config);
    }
    if Decide(codec, spec, answers).Submit? {
      var inputs, versions, values := SubmitShape(codec, spec, answers);
      AdmittedHasContainer(codec, spec, config);
    } else if && Admitted(codec, spec, config).Some? && AllResolve(config.secrets, answers)
              && !IsCurrent(codec, spec, Admitted(codec, spec, config).value, answers.Versions(config.secrets.Keys)) {
      var versions := answers.Versions(config.secrets.Keys);
      var values := DesiredValues(config.secrets, answers.Documents(versions)).value;
      SlowPathAlwaysChanges(codec, spec, answers, Admitted(codec, spec, config).value, versions, values);
    }
  }

  /** A disabled service is sent an update exactly when there is state to clean, and it can be. */
  lemma CleansExactly(codec: Codec, spec: Spec, answers: Answers)
    requires Configured(spec.labels).Some? && !Configured(spec.labels).value.enabled
    ensures Decide(codec, spec, answers).Submit?
            <==> HasControllerState(spec.labels) && spec.container.Some? && codec.ManagedEnvironment(spec.labels).Some?
  {
    hide Configured, HasGate;
  }

  lemma EnabledIsTracked(spec: Spec)
    requires Configured(spec.labels).Some? && Configured(spec.labels).value.enabled
    ensures Tracked(spec)
  {
    hide HasGate, HasControllerState, AllWellFormed, SecretsOf, Acceptable;
  }

  lemma InjectionIsRecomputed(codec: Codec, spec: Spec, answers: Answers, inputs: Inputs,
                              versions: map<string, int>, values: Env)
    requires IsInjection(codec, spec, answers, inputs, versions, values)
    ensures Decide(codec, spec, answers) == Recompute(codec, spec, inputs, versions, answers.Documents(versions))
  {
    hide Configured, Admitted, IsCurrent, Recompute, Tracked, DesiredValues, Answers.Versions, Answers.Documents;
    EnabledIsTracked(spec);
  }

  /** The state labels and nothing else record this injection. */
  ghost predicate CarriesInjection(codec: Codec, spec: Spec, config: Config, versions: map<string, int>, values: Env) {
    StateOf(spec.labels) == codec.StateFor(config, versions, values)
  }

  /**
   Soundness: when the four labels come from one injection whose values are the
   desired ones at its versions, the cheap check implies that recomputing would
   give an environment of the same meaning, the same labels and constraints.
   */
  lemma FastPathIsSound(codec: Codec, spec: Spec, inputs: Inputs, versions: map<string, int>,
                        docs: map<string, Document>, config: Config, recorded: map<string, int>, values: Env)
    requires codec.Faithful() && codec.CollisionFree()
    requires Configured(spec.labels) == Some(inputs.config) && inputs.config.enabled
    requires Admitted(codec, spec, inputs.config) == Some(inputs)
    requires IsCurrent(codec, spec, inputs, versions)
    requires CarriesInjection(codec, spec, config, recorded, values) && AllRepresentable(values.Keys)
    requires DesiredValues(config.secrets, docs) == Some(values)
    requires NulFree(values) && NulFree(Selected(spec.container.value.env, values.Keys))
    ensures RecomputeKeeps(codec, spec, inputs, versions, docs)
  {
    hide Configured, Injected, IsCurrent, Encoded, HasGate, DesiredValues, Meaning, InjectionKeeps;
    RecordedInputs(codec, spec, inputs, versions, config, recorded, values);
    AdmittedHasContainer(codec, spec, inputs.config);
    DigestDeterminesValues(Selected(spec.container.value.env, values.Keys), values);
    CurrentHasNoGate(codec, spec, inputs, versions);
    CurrentIsFixpoint(codec, spec, inputs, versions, values);
  }

  lemma CurrentHasNoGate(codec: Codec, spec: Spec, inputs: Inputs, versions: map<string, int>)
    requires spec.container.Some? && IsCurrent(codec, spec, inputs, versions)
    ensures !HasGate(spec)
  {
  }

  /**
   Both directions: over the labels of one injection and NUL-free values, the
   cheap check passes exactly when recomputing would keep everything. The
   documents need to be those of the injection only if the versions are.
   */
  lemma FastPathIsExact(codec: Codec, spec: Spec, inputs: Inputs, versions: map<string, int>,
                        docs: map<string, Document>, config: Config, recorded: map<string, int>, values: Env)
    requires codec.Faithful() && codec.CollisionFree()
    requires Configured(spec.labels) == Some(inputs.config) && inputs.config.enabled
    requires Admitted(codec, spec, inputs.config) == Some(inputs) && spec.container.Some?
    requires CarriesInjection(codec, spec, config, recorded, values) && AllRepresentable(values.Keys)
    requires versions == recorded && inputs.config.secrets == config.secrets ==>
               DesiredValues(config.secrets, docs) == Some(values)
    requires NulFree(values) && NulFree(Selected(spec.container.value.env, values.Keys))
    ensures IsCurrent(codec, spec, inputs, versions) <==> RecomputeKeeps(codec, spec, inputs, versions, docs)
  {
    hide Configured, Injected, IsCurrent, Encoded, Selected, HasGate, DesiredValues, RecomputeKeeps, Admitted,
         CarriesInjection;
    if IsCurrent(codec, spec, inputs, versions) {
      RecordedInputs(codec, spec, inputs, versions, config, recorded, values);
      FastPathIsSound(codec, spec, inputs, versions, docs, config, recorded, values);
    } else if RecomputeKeeps(codec, spec, inputs, versions, docs) {
      FastPathIsComplete(codec, spec, inputs, versions, docs);
    }
  }

  /** The cheap check finds the written service current after its entries were replaced. */
  ghost predicate Unnoticed(codec: Codec, spec: Spec, inputs: Inputs, versions: map<string, int>, values: Env,
                            entries: seq<string>)
    requires spec.container.Some?
  {
    var written := Injected(codec, spec, inputs, versions, values);
    IsCurrent(codec, written.(container := Some(written.container.value.(env := entries))),
              Inputs(inputs.config, versions, SortedNames(values.Keys)), versions)
  }

  /**
   The NUL condition cannot be dropped: the cheap check notices every later
   change of the values an injection wrote exactly when it manages at most one
   name. With two names or more, some edit of the managed entries is unseen.
   */
  lemma FastPathBlindSpot(codec: Codec, spec: Spec, inputs: Inputs, versions: map<string, int>, values: Env)
    requires codec.Faithful() && codec.CollisionFree() && spec.container.Some? && AllRepresentable(values.Keys)
    requires HasGate(spec) ==> inputs.config.bootstrapGate
    ensures (forall entries :: Unnoticed(codec, spec, inputs, versions, values, entries) ==>
               Selected(entries, values.Keys) == values)
            <==> |values.Keys| <= 1
  {
    hide Unnoticed, Encoded, Merged, Selected, HasGate;
    DigestBlindSpot(values);
    forall entries
      ensures Unnoticed(codec, spec, inputs, versions, values, entries)
              <==> Encoded(Selected(entries, values.Keys)) == Encoded(values)
      ensures Selected(entries, values.Keys).Keys <= values.Keys
    {
      UnnoticedExactly(codec, spec, inputs, versions, values, entries);
    }
    if |values.Keys| > 1 {
      var other: Env :| other.Keys <= values.Keys && Encoded(other) == Encoded(values) && other != values;
      SelectFromMerge([], values.Keys, other);
      assert Unnoticed(codec, spec, inputs, versions, values, Merged([], values.Keys, other));
    }
  }

  /** For a written service the cheap check compares encodings and nothing else. */
  lemma UnnoticedExactly(codec: Codec, spec: Spec, inputs: Inputs, versions: map<string, int>, values: Env,
                         entries: seq<string>)
    requires codec.Faithful() && codec.CollisionFree() && spec.container.Some? && AllRepresentable(values.Keys)
    requires HasGate(spec) ==> inputs.config.bootstrapGate
    ensures Unnoticed(codec, spec, inputs, versions, values, entries)
            <==> Encoded(Selected(entries, values.Keys)) == Encoded(values)
    ensures Selected(entries, values.Keys).Keys <= values.Keys
  {
    hide HasGate, Encoded, Injected, IsCurrent;
    InjectedEntries(codec, spec, inputs, versions, values);
    var written := Injected(codec, spec, inputs, versions, values);
    var edited := written.(container := Some(written.container.value.(env := entries)));
    InjectedLabels(codec, spec, inputs, versions, values);
    InjectedConstraints(codec, spec, inputs, versions, values);
    GateIgnoresContainer(written, edited.container);
    CarriedIsCurrent(codec, edited, inputs.config, versions, values);
  }

  lemma GateIgnoresContainer(spec: Spec, container: Option<Container>)
    ensures HasGate(spec.(container := container)) <==> HasGate(spec)
  {
  }

  /** The checks and the labels pin down the recorded injection. */
  lemma RecordedInputs(codec: Codec, spec: Spec, inputs: Inputs, versions: map<string, int>,
                       config: Config, recorded: map<string, int>, values: Env)
    requires codec.Faithful() && codec.CollisionFree()
    requires Admitted(codec, spec, inputs.config) == Some(inputs)
    requires IsCurrent(codec, spec, inputs, versions)
    requires CarriesInjection(codec, spec, config, recorded, values) && AllRepresentable(values.Keys)
    ensures recorded == versions && config.secrets == inputs.config.secrets
    ensures Members(inputs.managed) == values.Keys
    ensures codec.StateFor(inputs.config, versions, values) == StateOf(spec.labels)
    ensures Encoded(Selected(spec.container.value.env, values.Keys)) == Encoded(values)
  {
    hide Encoded, Selected, HasGate, Sort, Representable;
    StateReadsBack(codec, spec.labels, config, recorded, values);
    ConfigHashDetermines(codec, config, inputs.config);
    assert Members(SortedNames(values.Keys)) == values.Keys;
  }

  lemma CurrentIsFixpoint(codec: Codec, spec: Spec, inputs: Inputs, versions: map<string, int>, values: Env)
    requires codec.Faithful() && spec.container.Some? && !HasGate(spec)
    requires AllRepresentable(values.Keys) && Members(inputs.managed) == values.Keys
    requires codec.StateFor(inputs.config, versions, values) == StateOf(spec.labels)
    requires Selected(spec.container.value.env, values.Keys) == values
    ensures InjectionKeeps(codec, spec, inputs, versions, values)
  {
    hide Meaning, Merged, Selected, WithState, Ungated;
    MergeOfCurrentValues(spec.container.value.env, values);
    WritingCurrentState(spec.labels, StateOf(spec.labels));
    UngatedFixpoint(Constraints(spec));
  }

  // ---------------------------------------------------------------------
  // Ownership: what an update may touch
  // ---------------------------------------------------------------------

  /** Apart from these names, the state labels and reserved constraints, nothing moved. */
  ghost predicate OnlyOwnPartsChanged(before: Spec, after: Spec, names: set<string>) {
    && before.container.Some? && after.container.Some?
    && Without(after.container.value.env, names) == Without(before.container.value.env, names)
    && after.container.value.rest == before.container.value.rest
    && WithoutState(after.labels) == WithoutState(before.labels)
    && Ungated(Constraints(after)) == Ungated(Constraints(before))
    && (after.placement.Some? <==> before.placement.Some?)
    && (after.placement.Some? ==> after.placement.value.rest == before.placement.value.rest)
    && after.name == before.name && after.rest == before.rest
  }

  lemma InjectionOwnership(codec: Codec, spec: Spec, inputs: Inputs, versions: map<string, int>, values: Env)
    requires codec.Faithful() && spec.container.Some? && AllRepresentable(values.Keys)
    ensures OnlyOwnPartsChanged(spec, Injected(codec, spec, inputs, versions, values),
                                Members(inputs.managed) + values.Keys)
  {
    hide WithState, WithoutState, Ungated, Merged, Without, Codec.StateFor;
    StateRoundTrip(spec.labels, codec.StateFor(inputs.config, versions, values));
    MergeKeepsTheRest(spec.container.value.env, Members(inputs.managed), values);
    UngatedTwice(Constraints(spec));
  }

  lemma CleanupOwnership(spec: Spec, managed: seq<string>)
    requires spec.container.Some?
    ensures OnlyOwnPartsChanged(spec, Cleaned(spec, managed), Members(managed))
  {
    var names := Members(managed);
    WithoutTwice(spec.container.value.env, names, names);
    assert names + names == names;
    assert WithoutState(WithoutState(spec.labels)) == WithoutState(spec.labels);
  }
}
