/**
 One reconcile as the program runs it: step by step over the object graph of the
 service, with at most one update request and one status report.
 */
module Controller {
  import opened Wrappers
  import opened Text
  import opened Environment
  import opened Labels
  import opened Desired
  import opened Service
  import opened Decision

  /** Docker's reply to an update request. */
  datatype DockerReply = Accepted(warnings: seq<string>) | Refused

  /** The part of a status report that the store's rules depend on. */
  datatype Report = Report(id: string, name: string, updateAttempted: bool, warnings: seq<string>)

  /** What is sent to Docker: the whole specification, for exactly the inspected version. */
  datatype UpdateRequest = UpdateRequest(id: string, version: nat, spec: Spec)

  /** The one request of a reconcile: none unless it decided to submit, and never for another version. */
  ghost function RequestFor(service: ServiceObject, decision: Decision): Option<UpdateRequest> {
    if decision.Submit? then Some(UpdateRequest(service.id, service.version, decision.spec)) else None
  }

  /** UpdateService: the object graph as it stands, under its own id and version. */
  method Request(updated: ServiceObject) returns (decision: Decision, request: Option<UpdateRequest>)
    requires updated.Valid()
    ensures decision == Submit(updated.Value())
    ensures request == Some(UpdateRequest(updated.id, updated.version, updated.Value()))
  {
    return Submit(updated.Value()), Some(UpdateRequest(updated.id, updated.version, updated.Value()));
  }

  /** Does this decision, with this reply of Docker, end without an error? */
  ghost predicate Succeeds(decision: Decision, reply: DockerReply) {
    decision.Quiet? || decision.Untracked? || (decision.Submit? && reply.Accepted?)
  }

  /** The report a tracked service leaves: warnings come only from an accepted update. */
  ghost function ReportFor(service: ServiceObject, decision: Decision, reply: DockerReply): Option<Report> {
    if decision.Untracked? then None
    else if decision.Submit? && reply.Accepted? then Some(Report(service.id, service.name, true, reply.warnings))
    else Some(Report(service.id, service.name, false, []))
  }

  function LabelsOf(service: ServiceObject): LabelSet
    reads service.labels
  {
    if service.labels == null then map[] else service.labels.entries
  }

  /** Asks for the current version of every source, in byte order of the sources. */
  method CurrentVersions(secrets: map<string, SecretSource>, answers: Answers)
    returns (versions: Option<map<string, int>>)
    ensures versions == if secrets.Keys <= answers.current.Keys then Some(answers.Versions(secrets.Keys)) else None
  {
    hide Answers.Versions, SortedNames;
    var result: map<string, int> := map[];
    var ids := SortedKeys(secrets);
    ghost var done: set<string> := {};
    for i := 0 to |ids|
      invariant forall id :: id in done <==> id in ids[..i]
      invariant result.Keys == done
      invariant forall id :: id in done ==> id in answers.current && result[id] == answers.current[id]
    {
      OneMoreMember(ids, i);
      var id := ids[i];
      if id !in answers.current {
        return None;
      }
      result := result[id := answers.current[id]];
      done := done + {id};
    }
    AllMembers(ids);
    assert done == secrets.Keys;
    VersionsAre(result, answers, secrets.Keys);
    return Some(result);
  }

  lemma VersionsAre(result: map<string, int>, answers: Answers, ids: set<string>)
    requires result.Keys == ids
    requires forall id :: id in ids ==> id in answers.current && result[id] == answers.current[id]
    ensures ids <= answers.current.Keys && result == answers.Versions(ids)
  {
  }

  /** One data read: refuses an error and any version but the one asked for. */
  method ReadVersion(answers: Answers, versions: map<string, int>, id: string) returns (data: Option<Document>)
    requires id in versions
    ensures var docs := answers.Documents(versions);
            data == if id in docs then Some(docs[id]) else None
  {
    if id !in answers.read {
      return None;
    }
    var secret := answers.read[id];
    if secret.version != versions[id] {
      return None;
    }
    return Some(secret.data);
  }

  /** The loop body for one source: read it, then add what it contributes. */
  method DesireSource(secrets: map<string, SecretSource>, versions: map<string, int>, answers: Answers, id: string,
                      ghost done: set<string>, before: Env, ownersBefore: map<string, string>)
    returns (ok: bool, values: Env, owners: map<string, string>)
    requires versions.Keys == secrets.Keys && id in secrets && id !in done && ownersBefore.Keys == before.Keys
    requires UnitedSoFar(secrets, answers.Documents(versions), done, before)
    ensures ok ==> UnitedSoFar(secrets, answers.Documents(versions), done + {id}, values) && owners.Keys == values.Keys
    ensures !ok ==> DesiredValues(secrets, answers.Documents(versions)).None?
  {
    var data := ReadVersion(answers, versions, id);
    if data.None? {
      Unreadable(secrets, answers.Documents(versions), id);
      return false, before, ownersBefore;
    }
    SourceStep(secrets, answers.Documents(versions), done, id, before);
    ok, values, owners := AddSource(secrets[id], data.value, id, before, ownersBefore);
  }

  /** Reads every source at its version and unites the contributions. */
  method DesiredEnvironment(secrets: map<string, SecretSource>, versions: map<string, int>, answers: Answers)
    returns (desired: Option<Env>)
    requires versions.Keys == secrets.Keys
    ensures desired == DesiredValues(secrets, answers.Documents(versions))
  {
    hide *;
    var values: Env := map[];
    var owners: map<string, string> := map[];
    var ids := SortedKeys(secrets);
    SortedNamesDistinct(secrets.Keys);
    ghost var docs := answers.Documents(versions);
    ghost var done: set<string> := {};
    NothingUnited(secrets, docs);
    for i := 0 to |ids|
      invariant forall id :: id in done <==> id in ids[..i]
      invariant UnitedSoFar(secrets, docs, done, values)
      invariant owners.Keys == values.Keys
    {
      OneMoreMember(ids, i);
      var id := ids[i];
      var ok;
      ok, values, owners := DesireSource(secrets, versions, answers, id, done, values, owners);
      if !ok {
        return None;
      }
      done := done + {id};
    }
    AllMembers(ids);
    assert done == secrets.Keys;
    AllUnited(secrets, docs, values);
    return Some(values);
  }

  /** The sources in `done` contribute, without overlap, exactly `values`. */
  ghost predicate UnitedSoFar(secrets: map<string, SecretSource>, docs: map<string, Document>, done: set<string>,
                              values: Env)
  {
    && done <= secrets.Keys
    && Separate(done, PartsOf(secrets, docs))
    && values == UnionOf(done, PartsOf(secrets, docs))
  }

  lemma NothingUnited(secrets: map<string, SecretSource>, docs: map<string, Document>)
    ensures UnitedSoFar(secrets, docs, {}, map[])
  {
  }

  lemma AllUnited(secrets: map<string, SecretSource>, docs: map<string, Document>, values: Env)
    requires UnitedSoFar(secrets, docs, secrets.Keys, values)
    ensures DesiredValues(secrets, docs) == Some(values)
  {
  }

  lemma Unreadable(secrets: map<string, SecretSource>, docs: map<string, Document>, id: string)
    requires id in secrets && id !in docs
    ensures DesiredValues(secrets, docs).None?
  {
    assert PartsOf(secrets, docs)[id] == None;
  }

  /** Adding one source is possible, or no desired environment exists at all. */
  lemma SourceStep(secrets: map<string, SecretSource>, docs: map<string, Document>, done: set<string>, id: string,
                   values: Env)
    requires UnitedSoFar(secrets, docs, done, values)
    requires id in secrets && id !in done && id in docs
    ensures Addable(secrets[id], docs[id], values.Keys) ==>
              UnitedSoFar(secrets, docs, done + {id}, values + Contribution(secrets[id], docs[id]).value)
    ensures !Addable(secrets[id], docs[id], values.Keys) ==> DesiredValues(secrets, docs).None?
  {
    var parts := PartsOf(secrets, docs);
    assert parts[id] == Contribution(secrets[id], docs[id]);
    if Addable(secrets[id], docs[id], values.Keys) {
      UnionWithOneMore(done, id, parts);
    } else {
      NotAddable(secrets.Keys, done, id, parts);
    }
  }

  lemma NotAddable(ids: set<string>, done: set<string>, id: string, parts: Parts)
    requires ids <= parts.Keys && done <= ids && id in ids && id !in done && Separate(done, parts)
    requires parts[id].Some? ==> !(parts[id].value.Keys !! UnionOf(done, parts).Keys)
    ensures !Separate(ids, parts)
  {
    hide UnionOf;
    if parts[id].Some? {
      UnionIsExact(done, parts);
      var name :| name in parts[id].value && name in UnionOf(done, parts);
      var other :| other in done && name in parts[other].value;
    }
  }

  /** Deletes the four state labels, one after the other. */
  method DeleteState(labels: LabelMap)
    modifies labels
    ensures labels.entries == WithoutState(old(labels.entries))
  {
    labels.entries := labels.entries - {APPLIED_VERSIONS};
    labels.entries := labels.entries - {MANAGED_ENV};
    labels.entries := labels.entries - {STATE_HASH};
    labels.entries := labels.entries - {CONFIG_HASH};
  }

  /** Builds the cleaned service on a clone; the inspected service is only read. */
  method CleanUp(service: ServiceObject, managed: seq<string>) returns (updated: ServiceObject)
    requires service.Valid() && service.container != null
    ensures updated.Valid() && updated.Value() == Cleaned(service.Value(), managed)
    ensures updated.id == service.id && updated.version == service.version
  {
    hide Without, WithoutState, Members;
    updated := CloneServiceForUpdate(service);
    updated.container.env := Remove(service.container.env, managed);
    DeleteState(updated.labels);
  }

  /** The clean-up of a disabled service. */
  method RemoveManagedEnvironment(codec: Codec, service: ServiceObject)
    returns (decision: Decision, request: Option<UpdateRequest>)
    requires service.Valid()
    ensures decision == DecideCleanup(codec, service.Value()) && request == RequestFor(service, decision)
  {
    var labels := LabelsOf(service);
    if !HasControllerState(labels) {
      return Quiet, None;
    }
    if service.container == null {
      return Rejected, None;
    }
    var managed := ParseManagedEnvironment(codec, labels);
    if managed.None? {
      return Rejected, None;
    }
    var updated := CleanUp(service, managed.value);
    decision, request := Request(updated);
  }

  /** The checks made before Vault is asked, on labels and constraints alone. */
  method Admit(codec: Codec, service: ServiceObject, config: Config, gated: bool) returns (inputs: Option<Inputs>)
    requires service.Valid() && gated == HasGate(service.Value())
    ensures inputs == Admitted(codec, service.Value(), config)
  {
    hide HasGate;
    var labels := LabelsOf(service);
    if service.container == null {
      return None;
    }
    var applied := codec.AppliedVersions(labels);
    if applied.None? {
      return None;
    }
    var managed := ParseManagedEnvironment(codec, labels);
    if managed.None? {
      return None;
    }
    var hash := codec.ConfigHash(config);
    if gated && !config.bootstrapGate {
      return None;
    }
    var recorded := && Read(labels, CONFIG_HASH) == hash
                    && Read(labels, APPLIED_VERSIONS) != ""
                    && Read(labels, MANAGED_ENV) != ""
                    && Read(labels, STATE_HASH) != "";
    if config.bootstrapGate && !gated && !recorded {
      return None;
    }
    return Some(Inputs(config, applied.value, managed.value));
  }

  /** The drift check that avoids reading any secret data. */
  method StateIsCurrent(codec: Codec, service: ServiceObject, inputs: Inputs, gated: bool, versions: map<string, int>)
    returns (current: bool)
    requires service.Valid() && service.container != null && gated == HasGate(service.Value())
    ensures current <==> IsCurrent(codec, service.Value(), inputs, versions)
  {
    hide HasGate, Encoded, Selected;
    var labels := LabelsOf(service);
    var currentManagedValues := Select(service.container.env, inputs.managed);
    var hash := Hash(codec.digest, currentManagedValues);
    current := && versions == inputs.applied
               && Read(labels, CONFIG_HASH) == codec.ConfigHash(inputs.config)
               && hash == Read(labels, STATE_HASH)
               && !gated;
  }

  /** labels.MarshalState. */
  method MarshalState(codec: Codec, versions: map<string, int>, values: Env)
    returns (versionsText: string, namesText: string)
    ensures versionsText == codec.versionsText(versions)
    ensures namesText == codec.namesText(SortedNames(values.Keys))
  {
    var desiredNames := SortedKeys(values);
    SortOfSortedNames(values.Keys);
    return codec.versionsText(versions), codec.namesText(Sort(desiredNames));
  }

  /** Writes the four state labels into a map of labels, in place. */
  method WriteState(codec: Codec, labels: LabelMap, config: Config, versions: map<string, int>, values: Env)
    modifies labels
    ensures labels.entries == WithState(old(labels.entries), codec.StateFor(config, versions, values))
  {
    hide Encoded;
    var versionsText, namesText := MarshalState(codec, versions, values);
    var digest := Hash(codec.digest, values);
    labels.entries := labels.entries[APPLIED_VERSIONS := versionsText];
    labels.entries := labels.entries[MANAGED_ENV := namesText];
    labels.entries := labels.entries[STATE_HASH := digest];
    labels.entries := labels.entries[CONFIG_HASH := codec.ConfigHash(config)];
  }

  /** Assigns the new environment and the state labels of a cloned service. */
  method Install(codec: Codec, updated: ServiceObject, env: seq<string>, config: Config, versions: map<string, int>,
                 values: Env)
    requires updated.Valid() && updated.labels != null && updated.container != null
    modifies updated.labels, updated.container
    ensures updated.Valid()
    ensures updated.Value() == old(updated.Value()).(
              labels := WithState(old(updated.Value()).labels, codec.StateFor(config, versions, values)),
              container := Some(old(updated.Value()).container.value.(env := env)))
  {
    hide WithState, Codec.StateFor;
    updated.container.env := env;
    WriteState(codec, updated.labels, config, versions, values);
  }

  /** Builds the updated service on a clone; the inspected service is only read. */
  method BuildUpdate(codec: Codec, service: ServiceObject, inputs: Inputs, versions: map<string, int>, values: Env)
    returns (updated: ServiceObject)
    requires service.Valid() && service.container != null
    ensures updated.Valid() && updated.Value() == Injected(codec, service.Value(), inputs, versions, values)
    ensures updated.container != null && updated.id == service.id && updated.version == service.version
  {
    hide Merged, WithState, HasGate, Opened, Codec.StateFor;
    updated := CloneServiceForUpdate(service);
    var env := Merge(service.container.env, inputs.managed, values);
    Install(codec, updated, env, inputs.config, versions, values);
    if inputs.config.bootstrapGate {
      var removed := RemoveBootstrapGate(updated);
    }
  }

  /** Everything after the configuration is known to be enabled. */
  method InjectEnvironment(codec: Codec, service: ServiceObject, config: Config, gated: bool, answers: Answers)
    returns (decision: Decision, request: Option<UpdateRequest>)
    requires service.Valid() && gated == HasGate(service.Value())
    ensures decision == DecideInjection(codec, service.Value(), config, answers)
            && request == RequestFor(service, decision)
  {
    hide HasGate, Admitted, IsCurrent, Injected, DesiredValues, SameEdits, Answers.Documents, Answers.Versions;
    ghost var spec := service.Value();
    var inputs := Admit(codec, service, config, gated);
    if inputs.None? {
      return Rejected, None;
    }
    AdmittedHasContainer(codec, spec, config);
    var versions := CurrentVersions(config.secrets, answers);
    VersionsKeys(answers, config.secrets.Keys);
    if versions.None? {
      return Rejected, None;
    }
    var current := StateIsCurrent(codec, service, inputs.value, gated, versions.value);
    if current {
      return Quiet, None;
    }
    var desired := DesiredEnvironment(config.secrets, versions.value, answers);
    if desired.None? {
      return Rejected, None;
    }
    var updated := BuildUpdate(codec, service, inputs.value, versions.value, desired.value);
    var same := SameService(service, updated);
    if same {
      return Quiet, None;
    }
    decision, request := Request(updated);
  }

  lemma VersionsKeys(answers: Answers, ids: set<string>)
    ensures answers.Versions(ids).Keys == ids <==> ids <= answers.current.Keys
  {
    assert ids <= answers.current.Keys ==> answers.Versions(ids).Keys == ids;
    assert answers.Versions(ids).Keys <= answers.current.Keys;
  }

  /** The comparison of the three edited parts before the update request. */
  method SameService(service: ServiceObject, updated: ServiceObject) returns (same: bool)
    requires service.Valid() && updated.Valid() && service.container != null && updated.container != null
    ensures same <==> SameEdits(service.Value(), updated.Value())
  {
    same := && service.container.env == updated.container.env
            && LabelsOf(service) == LabelsOf(updated)
            && Constraints(service.Value()) == Constraints(updated.Value());
  }

  /** Parses the configuration and takes its branch, for a service that is tracked. */
  method ReconcileTracked(codec: Codec, service: ServiceObject, gated: bool, answers: Answers)
    returns (decision: Decision, request: Option<UpdateRequest>)
    requires service.Valid() && gated == HasGate(service.Value()) && Tracked(service.Value())
    ensures decision == Decide(codec, service.Value(), answers) && !decision.Untracked?
    ensures request == RequestFor(service, decision)
  {
    hide HasGate, Configured, DecideInjection, DecideCleanup, Tracked;
    var configuration := ParseConfig(LabelsOf(service));
    if configuration.None? {
      return Rejected, None;
    }
    NeverUntracked(codec, service.Value(), configuration.value, answers);
    if !configuration.value.enabled {
      decision, request := RemoveManagedEnvironment(codec, service);
    } else {
      decision, request := InjectEnvironment(codec, service, configuration.value, gated, answers);
    }
  }

  /**
   ReconcileService. It writes only to objects it allocated, so the inspected
   service is as it was; `request` is the one update request, if any; `report`
   and `ok`, the absence of an error, are what the status store is told.
   */
  method ReconcileService(codec: Codec, service: ServiceObject, answers: Answers, reply: DockerReply)
    returns (decision: Decision, request: Option<UpdateRequest>, report: Option<Report>, ok: bool)
    requires service.Valid()
    ensures decision == Decide(codec, service.Value(), answers)
    ensures request == RequestFor(service, decision) && report == ReportFor(service, decision, reply)
    ensures ok <==> Succeeds(decision, reply)
    ensures request.Some? <==> decision.Submit?
    ensures request.Some? ==>
              && request.value.id == service.id && request.value.version == service.version
              && request.value.spec == decision.spec
    ensures ok <==> decision == Untracked || decision == Quiet || (decision.Submit? && reply.Accepted?)
  {
    hide HasGate, Configured, DecideInjection, DecideCleanup;
    var labels := LabelsOf(service);
    var gated := HasBootstrapGate(service);
    var tracked := Read(labels, ENABLED) != "" || HasControllerState(labels) || gated;
    if !tracked {
      return Untracked, None, None, true;
    }
    var draft := Report(service.id, service.name, false, []);
    decision, request := ReconcileTracked(codec, service, gated, answers);
    if decision.Submit? && reply.Accepted? {
      draft := draft.(updateAttempted := true, warnings := reply.warnings);
    }
    report := Some(draft);
    ok := decision.Quiet? || (decision.Submit? && reply.Accepted?);
  }
}
