/**
 What arrives: every entry an injection writes is the text that Vault holds, and
 the state labels are the texts that record it.
 */
module Delivery {
  import opened Wrappers
  import opened Text
  import opened Environment
  import opened Labels
  import opened Desired
  import opened Service
  import opened Decision
  import opened Protocol
  import opened Runs

  /** The list sets this variable to this text, in one entry. */
  ghost predicate Sets(entries: seq<string>, name: string, text: string) {
    && name + "=" + text in entries
    && forall entry :: entry in entries && EntryName(entry) == name ==> entry == name + "=" + text
  }

  lemma InstalledIsSet(entries: seq<string>, managed: set<string>, values: Env, name: string)
    requires EqualsFree(values.Keys) && name in values
    ensures Sets(Merged(entries, managed, values), name, values[name])
  {
    hide EntryName, Without, ManagedTail;
    var kept, tail := Without(entries, managed + values.Keys), ManagedTail(values);
    WithoutDropsNames(entries, managed + values.Keys);
    TailIsSet(values, name);
    forall entry | entry in kept + tail && EntryName(entry) == name ensures entry == name + "=" + values[name] {
      assert entry in kept || entry in tail;
    }
  }

  lemma TailIsSet(values: Env, name: string)
    requires EqualsFree(values.Keys) && name in values
    ensures Sets(ManagedTail(values), name, values[name])
  {
    hide EntryName;
    var names := SortedNames(values.Keys);
    TailNames(names, values);
    var i :| 0 <= i < |names| && names[i] == name;
    assert Tail(names, values)[i] == name + "=" + values[name];
    forall entry | entry in Tail(names, values) && EntryName(entry) == name ensures entry == name + "=" + values[name] {
      var j :| 0 <= j < |names| && Tail(names, values)[j] == entry;
    }
  }

  /** Every text that one of these sources gives at its version is what the service's variable means. */
  ghost predicate Delivers(vault: Vault, spec: Spec, secrets: map<string, SecretSource>, versions: map<string, int>) {
    spec.container.Some? && forall id :: id in secrets ==>
      DeliversSource(vault, spec.container.value.env, secrets[id], id, versions)
  }

  ghost predicate DeliversSource(vault: Vault, entries: seq<string>, source: SecretSource, id: string,
                                 versions: map<string, int>) {
    && id in versions && VersionData(vault, source, versions[id]).Some?
    && forall name, text :: GivesText(source, VersionData(vault, source, versions[id]).value, name, text) ==>
         IsSet(Meaning(entries), name, text)
  }

  /** The applied-versions label names these versions. */
  ghost predicate Records(codec: Codec, labels: LabelSet, versions: map<string, int>) {
    APPLIED_VERSIONS in labels && codec.parseVersions(labels[APPLIED_VERSIONS]) == Some(versions)
  }

  lemma HeldIsRecorded(codec: Codec, vault: Vault, spec: Spec, versions: map<string, int>, values: Env)
    requires HoldsDesired(codec, vault, spec, versions, values)
    ensures Records(codec, spec.labels, versions)
  {
    hide Configured, DesiredValues, DocumentsAt, Selected;
  }

  /** A service that holds what it desires has the texts of the recorded versions. */
  lemma HeldIsDelivered(codec: Codec, vault: Vault, spec: Spec, versions: map<string, int>, values: Env)
    requires HoldsDesired(codec, vault, spec, versions, values)
    ensures Delivers(vault, spec, SecretsFor(Configured(spec.labels)), versions)
  {
    hide Configured, GivesText, VersionData, Meaning, DesiredValues;
    var secrets, entries := SecretsFor(Configured(spec.labels)), spec.container.value.env;
    var docs := DocumentsAt(vault, secrets, versions);
    DesiredNeedsAll(secrets, docs);
    DesiredTexts(secrets, docs);
    forall id | id in secrets ensures DeliversSource(vault, entries, secrets[id], id, versions) {
      assert id in docs && docs[id] == VersionData(vault, secrets[id], versions[id]).value;
      forall name, text | GivesText(secrets[id], docs[id], name, text) ensures IsSet(Meaning(entries), name, text) {
        assert IsSet(values, name, text);
        SelectedIsMeant(entries, values, name);
      }
    }
  }

  lemma SelectedIsMeant(entries: seq<string>, values: Env, name: string)
    requires Selected(entries, values.Keys) == values && name in values
    ensures IsSet(Meaning(entries), name, values[name])
  {
    hide Meaning;
    assert name in Selected(entries, values.Keys);
  }

  /**
   Gate safety in texts: in every disciplined run, a service that asks for the
   gate and has none records versions in its label, and its variables mean the
   texts that Vault holds at exactly those versions.
   */
  lemma ExposedIsDelivered(codec: Codec, trace: seq<World>, actions: seq<Action>, i: nat, service: string)
    returns (versions: map<string, int>)
    requires codec.Faithful() && IsRun(codec, trace, actions) && KeepsDiscipline(codec, trace, actions) && i < |trace|
    requires Exposed(trace[i], service)
    ensures var spec := trace[i].services[service].Current();
            && Records(codec, spec.labels, versions)
            && Delivers(trace[i].vault, spec, SecretsFor(Configured(spec.labels)), versions)
  {
    hide Configured, HasGate, BootstrapGated, IsRun, KeepsDiscipline, Delivers, DesiredValues, DocumentsAt;
    GateSafety(codec, trace, actions, i, service);
    var spec := trace[i].services[service].Current();
    var recorded, values :| HoldsDesired(codec, trace[i].vault, spec, recorded, values);
    HeldIsDelivered(codec, trace[i].vault, spec, recorded, values);
    HeldIsRecorded(codec, trace[i].vault, spec, recorded, values);
    versions := recorded;
  }

  /** An injection sets every variable it was asked for, in one entry, to the text that was read. */
  lemma SentTexts(codec: Codec, task: Task, config: Config, id: string, name: string, text: string)
    requires codec.Faithful() && Sending(codec, task) && Configured(task.spec.labels) == Some(config) && config.enabled
    requires id in config.secrets && id in task.answers.read
    requires GivesText(config.secrets[id], task.answers.read[id].data, name, text)
    ensures var sent := Decide(codec, task.spec, task.answers).spec;
            sent.container.Some? && Sets(sent.container.value.env, name, text)
  {
    hide Decide, IsInjection, Injected, Configured, GivesText, DesiredValues, Sets, Merged, Admitted, IsCurrent,
         Contribution;
    var inputs, versions, values := SubmitShape(codec, task.spec, task.answers);
    InjectionNames(codec, task.spec, task.answers, inputs, versions, values);
    InjectionFacts(codec, task.spec, task.answers, inputs, versions, values);
    InjectedEntries(codec, task.spec, inputs, versions, values);
    SubmitsWhenAdmitted(codec, task.spec, task.answers, config);
    assert SourceResolves(config.secrets[id], id, task.answers);
    var docs := task.answers.Documents(versions);
    assert id in docs && docs[id] == task.answers.read[id].data;
    DesiredTexts(config.secrets, docs);
    assert IsSet(values, name, text);
    NamesAreEqualsFree(values.Keys);
    InstalledIsSet(task.spec.container.value.env, Members(inputs.managed), values, name);
  }

  /** The label is there and says exactly this. */
  ghost predicate Labelled(labels: LabelSet, key: string, text: string) {
    key in labels && labels[key] == text
  }

  /** The four state labels an injection writes, text by text. */
  lemma SentLabels(codec: Codec, task: Task, config: Config)
    requires codec.Faithful() && Sending(codec, task) && Configured(task.spec.labels) == Some(config) && config.enabled
    ensures var sent, injection := Decide(codec, task.spec, task.answers).spec, InjectionBy(task);
            && Labelled(sent.labels, APPLIED_VERSIONS, codec.versionsText(injection.versions))
            && Labelled(sent.labels, MANAGED_ENV, codec.namesText(SortedNames(injection.values.Keys)))
            && Labelled(sent.labels, STATE_HASH, codec.digest(Encoded(injection.values)))
            && Labelled(sent.labels, CONFIG_HASH, codec.digest(codec.configText(config.bootstrapGate, config.secrets)))
            && injection.versions.Keys == config.secrets.Keys
            && forall id :: id in config.secrets ==>
                 id in task.answers.current && injection.versions[id] == task.answers.current[id]
  {
    hide Decide, IsInjection, Configured, DesiredValues, Injected, Encoded, WithState, Labelled, Admitted,
         Answers.Documents;
    var inputs, versions, values := SubmitShape(codec, task.spec, task.answers);
    InjectionFacts(codec, task.spec, task.answers, inputs, versions, values);
    InjectedState(codec, task.spec, inputs, versions, values);
    WrittenLabels(task.spec.labels, codec.StateFor(config, versions, values));
  }

  lemma InjectedState(codec: Codec, spec: Spec, inputs: Inputs, versions: map<string, int>, values: Env)
    requires spec.container.Some?
    ensures Injected(codec, spec, inputs, versions, values).labels
            == WithState(spec.labels, codec.StateFor(inputs.config, versions, values))
  {
    hide WithState, Merged, Encoded;
  }

  lemma WrittenLabels(labels: LabelSet, state: State)
    ensures var written := WithState(labels, state);
            && Labelled(written, APPLIED_VERSIONS, state.versions) && Labelled(written, MANAGED_ENV, state.managed)
            && Labelled(written, STATE_HASH, state.digest) && Labelled(written, CONFIG_HASH, state.config)
  {
    StateKeysAreDistinct();
  }
}
