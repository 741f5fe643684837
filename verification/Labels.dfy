/**
 The label contract of a service: the user's configuration, the controller's
 four state labels, and how both are read and written.
 */
module Labels {
  import opened Wrappers
  import opened Text
  import opened Environment

  type LabelSet = map<string, string>

  const PREFIX := "io.github.docker-vault-injector"
  const ENABLED := PREFIX + ".enabled"
  const BOOTSTRAP_GATE := PREFIX + ".bootstrap-gate"
  const SECRETS_PREFIX := PREFIX + ".secrets."
  const APPLIED_VERSIONS := PREFIX + ".applied-versions"
  const MANAGED_ENV := PREFIX + ".managed-env"
  const STATE_HASH := PREFIX + ".state-hash"
  const CONFIG_HASH := PREFIX + ".config-hash"
  const GATE_CONSTRAINT := "node.labels." + PREFIX + ".gate==open"

  datatype SecretSource = SecretSource(name: string, mount: string, path: string, env: map<string, string>)

  datatype Config = Config(enabled: bool, bootstrapGate: bool, secrets: map<string, SecretSource>)

  const DISABLED := Config(false, false, map[])
  const NO_SOURCE := SecretSource("", "", "", map[])

  /** strconv.ParseBool. */
  function ParseBool(s: string): Option<bool> {
    if s in ["1", "t", "T", "TRUE", "true", "True"] then Some(true)
    else if s in ["0", "f", "F", "FALSE", "false", "False"] then Some(false)
    else None
  }

  // ---------------------------------------------------------------------
  // Reading one secret label
  // ---------------------------------------------------------------------

  datatype Property = Name | Mount | Path | Variable(variable: string) | Unknown

  function PropertyOf(text: string): Property {
    if text == "name" then Name
    else if text == "kv" then Mount
    else if text == "vault-path" then Path
    else if HasPrefix(text, "env.") then Variable(text[4..])
    else Unknown
  }

  function PropertyText(property: Property): string
    requires !property.Unknown?
  {
    match property
    case Name => "name"
    case Mount => "kv"
    case Path => "vault-path"
    case Variable(variable) => "env." + variable
  }

  predicate IsSecretLabel(key: string) { HasPrefix(key, SECRETS_PREFIX) }

  function Remainder(key: string): string
    requires IsSecretLabel(key)
  {
    key[|SECRETS_PREFIX|..]
  }

  function SourceId(key: string): string
    requires IsSecretLabel(key)
  {
    Before(Remainder(key), '.')
  }

  function LabelProperty(key: string): Property
    requires IsSecretLabel(key)
  {
    PropertyOf(After(Remainder(key), '.'))
  }

  /** The label that gives a source one of its properties. */
  function LabelFor(id: string, property: Property): string
    requires !property.Unknown?
  {
    SECRETS_PREFIX + (id + ['.'] + PropertyText(property))
  }

  /** The label has the form <prefix><source>.<property> with usable parts. */
  predicate WellFormed(key: string, value: string)
    requires IsSecretLabel(key)
  {
    && SourceId(key) != ""
    && !LabelProperty(key).Unknown?
    && (LabelProperty(key).Variable? ==>
          Representable(LabelProperty(key).variable) && TrimSpace(value) != "")
  }

  lemma PropertyRoundTrip(property: Property)
    requires !property.Unknown?
    ensures PropertyOf(PropertyText(property)) == property
  {
    if property.Variable? {
      var text := "env." + property.variable;
      assert text[0] == 'e' && text[4..] == property.variable && text[..4] == "env.";
    }
  }

  lemma TextOfProperty(text: string)
    requires !PropertyOf(text).Unknown?
    ensures PropertyText(PropertyOf(text)) == text
  {
  }

  /** A secret label is determined by its source and its property, both ways. */
  lemma LabelParts(key: string)
    requires IsSecretLabel(key) && !LabelProperty(key).Unknown?
    ensures key == LabelFor(SourceId(key), LabelProperty(key)) && '.' !in SourceId(key)
  {
    var rest := Remainder(key);
    CutParts(rest, '.');
    TextOfProperty(After(rest, '.'));
    assert key == SECRETS_PREFIX + rest;
  }

  lemma LabelForParts(id: string, property: Property)
    requires !property.Unknown? && '.' !in id
    ensures IsSecretLabel(LabelFor(id, property))
    ensures SourceId(LabelFor(id, property)) == id && LabelProperty(LabelFor(id, property)) == property
  {
    var rest := id + ['.'] + PropertyText(property);
    assert LabelFor(id, property)[|SECRETS_PREFIX|..] == rest;
    CutJoined(id, '.', PropertyText(property));
    PropertyRoundTrip(property);
  }

  // ---------------------------------------------------------------------
  // What a set of labels configures, without any order of reading
  // ---------------------------------------------------------------------

  function Field(labels: LabelSet, id: string, property: Property): string
    requires !property.Unknown?
  {
    var key := LabelFor(id, property);
    if key in labels then TrimSpace(labels[key]) else ""
  }

  function MappedNames(labels: LabelSet, id: string): set<string> {
    set key | key in labels && IsSecretLabel(key)
                && SourceId(key) == id && LabelProperty(key).Variable?
      :: LabelProperty(key).variable
  }

  function Mapping(labels: LabelSet, id: string): map<string, string> {
    map name | name in MappedNames(labels, id) :: Field(labels, id, Variable(name))
  }

  function SourceAt(labels: LabelSet, id: string): SecretSource {
    SecretSource(Field(labels, id, Name), Field(labels, id, Mount), Field(labels, id, Path), Mapping(labels, id))
  }

  function SourceIds(labels: LabelSet): set<string> {
    set key | key in labels && IsSecretLabel(key) :: SourceId(key)
  }

  function SecretsOf(labels: LabelSet): map<string, SecretSource> {
    map id | id in SourceIds(labels) :: SourceAt(labels, id)
  }

  ghost predicate AllWellFormed(labels: LabelSet) {
    forall key :: key in labels && IsSecretLabel(key) ==> WellFormed(key, labels[key])
  }

  ghost predicate Complete(source: SecretSource) {
    source.name != "" && source.mount != "" && source.path != ""
  }

  ghost predicate Compatible(a: SecretSource, b: SecretSource) {
    a.name != b.name && a.env.Keys !! b.env.Keys
  }

  ghost predicate Acceptable(secrets: map<string, SecretSource>) {
    && (forall id :: id in secrets ==> Complete(secrets[id]))
    && (forall a, b :: a in secrets && b in secrets && a != b ==> Compatible(secrets[a], secrets[b]))
  }

  function GateOf(labels: LabelSet): Option<bool> {
    if BOOTSTRAP_GATE in labels then ParseBool(labels[BOOTSTRAP_GATE]) else Some(false)
  }

  /** The configuration the labels declare, when they declare a valid one. */
  ghost function Configured(labels: LabelSet): Option<Config> {
    if ENABLED !in labels then Some(DISABLED)
    else match ParseBool(labels[ENABLED])
      case None => None
      case Some(false) => Some(DISABLED)
      case Some(true) =>
        if && GateOf(labels).Some?
           && AllWellFormed(labels)
           && SecretsOf(labels) != map[]
           && Acceptable(SecretsOf(labels))
        then Some(Config(true, GateOf(labels).value, SecretsOf(labels)))
        else None
  }

  // ---------------------------------------------------------------------
  // ParseConfig, walking the labels in whatever order
  // ---------------------------------------------------------------------

  function Assigned(source: SecretSource, property: Property, value: string): SecretSource
    requires !property.Unknown?
  {
    match property
    case Name => source.(name := TrimSpace(value))
    case Mount => source.(mount := TrimSpace(value))
    case Path => source.(path := TrimSpace(value))
    case Variable(variable) => source.(env := source.env[variable := TrimSpace(value)])
  }

  lemma FieldAfterLabel(seen: LabelSet, key: string, value: string, id: string, property: Property)
    requires IsSecretLabel(key) && !LabelProperty(key).Unknown?
    requires !property.Unknown? && '.' !in id
    ensures Field(seen[key := value], id, property)
            == if id == SourceId(key) && property == LabelProperty(key) then TrimSpace(value)
               else Field(seen, id, property)
  {
    LabelParts(key);
    LabelForParts(id, property);
  }

  lemma MappedNamesAfterLabel(seen: LabelSet, key: string, value: string, id: string)
    requires IsSecretLabel(key)
    ensures MappedNames(seen[key := value], id)
            == MappedNames(seen, id) + if id == SourceId(key) && LabelProperty(key).Variable?
                                       then {LabelProperty(key).variable} else {}
  {
    var more := seen[key := value];
    var hit := id == SourceId(key) && LabelProperty(key).Variable?;
    forall name ensures name in MappedNames(more, id)
                        <==> name in MappedNames(seen, id) || (hit && LabelProperty(key) == Variable(name)) {
      if hit && LabelProperty(key) == Variable(name) {
        assert key in more;
      }
      if name in MappedNames(seen, id) {
        var k :| k in seen && IsSecretLabel(k) && SourceId(k) == id && LabelProperty(k) == Variable(name);
        assert k in more;
      }
    }
  }

  lemma MappingAfterLabel(seen: LabelSet, key: string, value: string, id: string)
    requires IsSecretLabel(key) && !LabelProperty(key).Unknown? && key !in seen && '.' !in id
    ensures Mapping(seen[key := value], id)
            == if id == SourceId(key) && LabelProperty(key).Variable?
               then Mapping(seen, id)[LabelProperty(key).variable := TrimSpace(value)]
               else Mapping(seen, id)
  {
    hide *;
    var more := seen[key := value];
    MappedNamesAfterLabel(seen, key, value, id);
    forall name | name in MappedNames(more, id)
      ensures Field(more, id, Variable(name))
              == if id == SourceId(key) && LabelProperty(key) == Variable(name) then TrimSpace(value)
                 else Field(seen, id, Variable(name))
    {
      FieldAfterLabel(seen, key, value, id, Variable(name));
    }
    if id == SourceId(key) && LabelProperty(key).Variable? {
      MappingByUpdate(seen, more, id, LabelProperty(key).variable, TrimSpace(value));
    } else {
      MappingUnmoved(seen, more, id);
    }
  }

  lemma MappingUnmoved(seen: LabelSet, more: LabelSet, id: string)
    requires MappedNames(more, id) == MappedNames(seen, id) + {}
    requires forall name :: name in MappedNames(more, id) ==>
               Field(more, id, Variable(name)) == Field(seen, id, Variable(name))
    ensures Mapping(more, id) == Mapping(seen, id)
  {
  }

  lemma MappingByUpdate(seen: LabelSet, more: LabelSet, id: string, name: string, path: string)
    requires MappedNames(more, id) == MappedNames(seen, id) + {name}
    requires forall other :: other in MappedNames(more, id) ==>
               Field(more, id, Variable(other)) == if other == name then path else Field(seen, id, Variable(other))
    ensures Mapping(more, id) == Mapping(seen, id)[name := path]
  {
  }

  lemma SourceAfterLabel(seen: LabelSet, key: string, value: string, id: string)
    requires IsSecretLabel(key) && !LabelProperty(key).Unknown? && key !in seen && '.' !in id
    ensures SourceAt(seen[key := value], id)
            == if id == SourceId(key) then Assigned(SourceAt(seen, id), LabelProperty(key), value)
               else SourceAt(seen, id)
  {
    FieldAfterLabel(seen, key, value, id, Name);
    FieldAfterLabel(seen, key, value, id, Mount);
    FieldAfterLabel(seen, key, value, id, Path);
    MappingAfterLabel(seen, key, value, id);
  }

  /** A source no label has mentioned yet has nothing set. */
  lemma UnseenSource(seen: LabelSet, id: string)
    requires id !in SourceIds(seen) && '.' !in id
    ensures SourceAt(seen, id) == NO_SOURCE
  {
    forall property: Property | !property.Unknown? ensures Field(seen, id, property) == "" {
      LabelForParts(id, property);
    }
    assert MappedNames(seen, id) == {};
  }

  lemma SecretsAfterLabel(seen: LabelSet, key: string, value: string)
    requires IsSecretLabel(key) && !LabelProperty(key).Unknown? && key !in seen
    ensures var id := SourceId(key);
            var source := if id in SecretsOf(seen) then SecretsOf(seen)[id] else NO_SOURCE;
            SecretsOf(seen[key := value]) == SecretsOf(seen)[id := Assigned(source, LabelProperty(key), value)]
  {
    var more, id := seen[key := value], SourceId(key);
    LabelParts(key);
    SourceIdsAfterLabel(seen, key, value);
    if id !in SourceIds(seen) {
      UnseenSource(seen, id);
    }
    forall other | other in SourceIds(more)
      ensures SourceAt(more, other) == if other == id then Assigned(SourceAt(seen, id), LabelProperty(key), value)
                                       else SourceAt(seen, other)
    {
      IdsHaveNoDot(more, other);
      SourceAfterLabel(seen, key, value, other);
    }
    SecretsByUpdate(seen, more, id, Assigned(SourceAt(seen, id), LabelProperty(key), value));
  }

  lemma SecretsByUpdate(seen: LabelSet, more: LabelSet, id: string, source: SecretSource)
    requires SourceIds(more) == SourceIds(seen) + {id}
    requires forall other :: other in SourceIds(more) ==>
               SourceAt(more, other) == if other == id then source else SourceAt(seen, other)
    ensures SecretsOf(more) == SecretsOf(seen)[id := source]
  {
  }

  lemma IdsHaveNoDot(labels: LabelSet, id: string)
    requires id in SourceIds(labels)
    ensures '.' !in id
  {
    var key :| key in labels && IsSecretLabel(key) && SourceId(key) == id;
    CutParts(Remainder(key), '.');
  }

  lemma SourceIdsAfterLabel(seen: LabelSet, key: string, value: string)
    ensures SourceIds(seen[key := value])
            == SourceIds(seen) + if IsSecretLabel(key) then {SourceId(key)} else {}
  {
    var more := seen[key := value];
    forall id ensures id in SourceIds(more) <==> id in SourceIds(seen) || (IsSecretLabel(key) && id == SourceId(key)) {
      if id in SourceIds(seen) {
        var l :| l in seen && IsSecretLabel(l) && SourceId(l) == id;
        assert l in more;
      }
      if IsSecretLabel(key) && id == SourceId(key) {
        assert key in more;
      }
    }
  }

  ghost predicate SameSecretLabels(a: LabelSet, b: LabelSet) {
    forall key :: IsSecretLabel(key) ==> (key in a <==> key in b) && (key in a ==> a[key] == b[key])
  }

  lemma SourceIgnoresOthers(a: LabelSet, b: LabelSet, id: string)
    requires SameSecretLabels(a, b)
    ensures SourceAt(a, id) == SourceAt(b, id)
  {
    hide *;
    FieldIgnoresOthers(a, b, id, Name);
    FieldIgnoresOthers(a, b, id, Mount);
    FieldIgnoresOthers(a, b, id, Path);
    NamesIgnoreOthers(a, b, id);
    forall name | name in MappedNames(a, id) ensures Field(a, id, Variable(name)) == Field(b, id, Variable(name)) {
      FieldIgnoresOthers(a, b, id, Variable(name));
    }
    SourceByFields(a, b, id);
  }

  lemma FieldIgnoresOthers(a: LabelSet, b: LabelSet, id: string, property: Property)
    requires SameSecretLabels(a, b) && !property.Unknown?
    ensures Field(a, id, property) == Field(b, id, property)
  {
    assert IsSecretLabel(LabelFor(id, property));
  }

  lemma SourceByFields(a: LabelSet, b: LabelSet, id: string)
    requires Field(a, id, Name) == Field(b, id, Name) && Field(a, id, Mount) == Field(b, id, Mount)
    requires Field(a, id, Path) == Field(b, id, Path) && MappedNames(a, id) == MappedNames(b, id)
    requires forall name :: name in MappedNames(a, id) ==> Field(a, id, Variable(name)) == Field(b, id, Variable(name))
    ensures SourceAt(a, id) == SourceAt(b, id)
  {
    hide Field, MappedNames;
  }

  lemma NamesIgnoreOthers(a: LabelSet, b: LabelSet, id: string)
    requires SameSecretLabels(a, b)
    ensures MappedNames(a, id) == MappedNames(b, id)
  {
  }

  /** Labels outside the secrets prefix configure no source. */
  lemma SecretsIgnoreOthers(a: LabelSet, b: LabelSet)
    requires SameSecretLabels(a, b)
    ensures SecretsOf(a) == SecretsOf(b)
    ensures AllWellFormed(a) <==> AllWellFormed(b)
  {
    assert SourceIds(a) == SourceIds(b);
    forall id | id in SourceIds(a) ensures SourceAt(a, id) == SourceAt(b, id) {
      SourceIgnoresOthers(a, b, id);
    }
  }

  /** Groups the secret labels by source; None when one of them is malformed. */
  method ParseSecrets(labels: LabelSet) returns (secrets: Option<map<string, SecretSource>>)
    ensures secrets == if AllWellFormed(labels) then Some(SecretsOf(labels)) else None
  {
    hide TrimSpace, PropertyOf, Assigned;
    var result: map<string, SecretSource> := map[];
    var rest := labels.Keys;
    while rest != {}
      invariant rest <= labels.Keys
      invariant result == SecretsOf(labels - rest)
      invariant AllWellFormed(labels - rest)
    {
      var key :| key in rest;
      var value := labels[key];
      ghost var seen := labels - rest;
      rest := rest - {key};
      assert labels - rest == seen[key := value];
      if !HasPrefix(key, SECRETS_PREFIX) {
        SecretsIgnoreOthers(labels - rest, seen);
        continue;
      }
      var remainder := Remainder(key);
      var id, property := Before(remainder, '.'), PropertyOf(After(remainder, '.'));
      if id == "" || property.Unknown? {
        return None;
      }
      if property.Variable? && (property.variable == "" || '=' in property.variable || TrimSpace(value) == "") {
        return None;
      }
      var source := if id in result then result[id] else NO_SOURCE;
      SecretsAfterLabel(seen, key, value);
      result := result[id := Assigned(source, property, value)];
    }
    assert labels - rest == labels;
    return Some(result);
  }

  /** Checks every source on its own and against the sources seen before it. */
  method CheckSources(secrets: map<string, SecretSource>) returns (ok: bool)
    ensures ok <==> Acceptable(secrets)
  {
    var seenNames: set<string> := {};
    var seenVariables: set<string> := {};
    var rest := secrets.Keys;
    while rest != {}
      invariant rest <= secrets.Keys
      invariant Acceptable(secrets - rest)
      invariant forall name :: name in seenNames <==> exists id :: id in secrets - rest && secrets[id].name == name
      invariant forall v :: v in seenVariables <==> exists id :: id in secrets - rest && v in secrets[id].env
    {
      var id :| id in rest;
      var source := secrets[id];
      if source.name == "" || source.mount == "" || source.path == "" {
        return false;
      }
      if source.name in seenNames {
        return false;
      }
      var clash := AnyShared(source.env, seenVariables);
      if clash {
        var v :| v in source.env && v in seenVariables;
        return false;
      }
      seenNames := seenNames + {source.name};
      seenVariables := seenVariables + source.env.Keys;
      AcceptOneMore(secrets, rest, id);
      rest := rest - {id};
    }
    assert secrets - rest == secrets;
    return true;
  }

  lemma AcceptOneMore(secrets: map<string, SecretSource>, rest: set<string>, id: string)
    requires id in rest && rest <= secrets.Keys
    requires Acceptable(secrets - rest) && Complete(secrets[id])
    requires forall other :: other in secrets - rest ==> Compatible(secrets[id], secrets[other])
    ensures Acceptable(secrets - (rest - {id}))
  {
    hide Complete, Compatible;
    var more := secrets - (rest - {id});
    assert more.Keys == (secrets - rest).Keys + {id};
    forall a, b | a in more && b in more && a != b ensures Compatible(more[a], more[b]) {
      if a == id {
        assert b in secrets - rest;
      } else if b == id {
        assert a in secrets - rest;
        CompatibleIsSymmetric(secrets[id], secrets[a]);
      } else {
        assert Compatible((secrets - rest)[a], (secrets - rest)[b]);
      }
    }
  }

  lemma CompatibleIsSymmetric(a: SecretSource, b: SecretSource)
    requires Compatible(a, b)
    ensures Compatible(b, a)
  {
  }

  /** Does any explicitly mapped name already have an owner? */
  method AnyShared(env: map<string, string>, seen: set<string>) returns (shared: bool)
    ensures shared <==> exists name :: name in env && name in seen
  {
    var rest := env.Keys;
    while rest != {}
      invariant rest <= env.Keys
      invariant forall name :: name in env && name !in rest ==> name !in seen
    {
      var name :| name in rest;
      if name in seen {
        return true;
      }
      rest := rest - {name};
    }
    return false;
  }

  /**
   ParseConfig: whatever order the labels and sources are walked
   in, the outcome is the one the labels declare.
   */
  method ParseConfig(labels: LabelSet) returns (result: Option<Config>)
    ensures result == Configured(labels)
  {
    hide ParseBool, SecretsOf, AllWellFormed, Acceptable;
    if ENABLED !in labels {
      return Some(DISABLED);
    }
    var enabled := ParseBool(labels[ENABLED]);
    if enabled.None? {
      return None;
    }
    if !enabled.value {
      return Some(DISABLED);
    }
    var gate := false;
    if BOOTSTRAP_GATE in labels {
      var parsed := ParseBool(labels[BOOTSTRAP_GATE]);
      if parsed.None? {
        return None;
      }
      gate := parsed.value;
    }
    var secrets := ParseSecrets(labels);
    if secrets.None? || secrets.value == map[] {
      return None;
    }
    var ok := CheckSources(secrets.value);
    return if ok then Some(Config(true, gate, secrets.value)) else None;
  }

  /** A valid configuration has sources, and every explicit name fits Docker's form. */
  lemma ConfiguredSources(labels: LabelSet)
    requires Configured(labels).Some? && Configured(labels).value.enabled
    ensures Configured(labels).value.secrets != map[]
    ensures forall id :: id in Configured(labels).value.secrets ==>
              AllRepresentable(Configured(labels).value.secrets[id].env.Keys)
  {
    var secrets := SecretsOf(labels);
    forall id, name | id in secrets && name in secrets[id].env ensures Representable(name) {
      var key :| key in labels && IsSecretLabel(key) && SourceId(key) == id && LabelProperty(key) == Variable(name);
      assert WellFormed(key, labels[key]);
    }
  }

  // ---------------------------------------------------------------------
  // The controller's four state labels
  // ---------------------------------------------------------------------

  /** Go's map read: an absent label reads as the empty text. */
  function Read(labels: LabelSet, key: string): string {
    if key in labels then labels[key] else ""
  }

  datatype State = State(versions: string, managed: string, digest: string, config: string)

  const NO_STATE := State("", "", "", "")

  const STATE_KEYS: set<string> := {APPLIED_VERSIONS, MANAGED_ENV, STATE_HASH, CONFIG_HASH}

  function StateOf(labels: LabelSet): State {
    State(Read(labels, APPLIED_VERSIONS), Read(labels, MANAGED_ENV), Read(labels, STATE_HASH),
          Read(labels, CONFIG_HASH))
  }

  function WithState(labels: LabelSet, state: State): LabelSet {
    labels[APPLIED_VERSIONS := state.versions][MANAGED_ENV := state.managed]
          [STATE_HASH := state.digest][CONFIG_HASH := state.config]
  }

  function WithoutState(labels: LabelSet): LabelSet { labels - STATE_KEYS }

  function HasControllerState(labels: LabelSet): bool {
    Read(labels, APPLIED_VERSIONS) != "" || Read(labels, MANAGED_ENV) != ""
    || Read(labels, STATE_HASH) != "" || Read(labels, CONFIG_HASH) != ""
  }

  lemma StateKeysAreDistinct()
    ensures APPLIED_VERSIONS != MANAGED_ENV && APPLIED_VERSIONS != STATE_HASH && APPLIED_VERSIONS != CONFIG_HASH
    ensures MANAGED_ENV != STATE_HASH && MANAGED_ENV != CONFIG_HASH && STATE_HASH != CONFIG_HASH
  {
    assert |APPLIED_VERSIONS| != |MANAGED_ENV| && |APPLIED_VERSIONS| != |STATE_HASH|;
    assert MANAGED_ENV[|PREFIX| + 1] != CONFIG_HASH[|PREFIX| + 1];
  }

  lemma StateKeysAreNotUserKeys(key: string)
    requires key in STATE_KEYS
    ensures key != ENABLED && key != BOOTSTRAP_GATE && !IsSecretLabel(key)
  {
    assert key[|PREFIX| + 1] == 's' ==> key == STATE_HASH;
    assert ENABLED[|PREFIX| + 1] == 'e' && BOOTSTRAP_GATE[|PREFIX| + 1] == 'b';
    assert STATE_HASH[|PREFIX| + 2] == 't' && SECRETS_PREFIX[|PREFIX| + 1..][..2] == "se";
  }

  /** What is written is what is read back, and nothing else changes. */
  lemma StateRoundTrip(labels: LabelSet, state: State)
    ensures StateOf(WithState(labels, state)) == state
    ensures WithoutState(WithState(labels, state)) == WithoutState(labels)
    ensures StateOf(WithoutState(labels)) == NO_STATE
  {
    StateKeysAreDistinct();
  }

  /** Labels that carry this state are unchanged by writing it. */
  lemma WritingCurrentState(labels: LabelSet, state: State)
    requires StateOf(labels) == state
    requires state.versions != "" && state.managed != "" && state.digest != "" && state.config != ""
    ensures WithState(labels, state) == labels
  {
  }

  /** The state labels never change what the user configured. */
  lemma ConfigurationIgnoresState(a: LabelSet, b: LabelSet)
    requires WithoutState(a) == WithoutState(b)
    ensures Configured(a) == Configured(b)
  {
    hide ParseBool, SecretsOf, AllWellFormed, Acceptable;
    forall key | key == ENABLED || key == BOOTSTRAP_GATE || IsSecretLabel(key)
      ensures (key in a <==> key in b) && (key in a ==> a[key] == b[key])
    {
      UserKeyUnaffected(a, b, key);
    }
    SecretsIgnoreOthers(a, b);
    assert GateOf(a) == GateOf(b);
  }

  /** Labels outside the injector's prefix mean nothing to the controller. */
  lemma ForeignLabelsAreIgnored(a: LabelSet, b: LabelSet)
    requires forall key :: HasPrefix(key, PREFIX) ==> (key in a <==> key in b) && (key in a ==> a[key] == b[key])
    ensures Configured(a) == Configured(b) && StateOf(a) == StateOf(b)
  {
    hide ParseBool, SecretsOf, AllWellFormed, Acceptable;
    assert forall key :: IsSecretLabel(key) ==> HasPrefix(key, PREFIX);
    SecretsIgnoreOthers(a, b);
    assert HasPrefix(ENABLED, PREFIX) && HasPrefix(BOOTSTRAP_GATE, PREFIX);
    assert GateOf(a) == GateOf(b);
    StateByKeys(a, b);
  }

  lemma StateByKeys(a: LabelSet, b: LabelSet)
    requires forall key :: HasPrefix(key, PREFIX) ==> (key in a <==> key in b) && (key in a ==> a[key] == b[key])
    ensures StateOf(a) == StateOf(b)
  {
    assert HasPrefix(APPLIED_VERSIONS, PREFIX) && HasPrefix(MANAGED_ENV, PREFIX);
    assert HasPrefix(STATE_HASH, PREFIX) && HasPrefix(CONFIG_HASH, PREFIX);
  }

  lemma UserKeyUnaffected(a: LabelSet, b: LabelSet, key: string)
    requires WithoutState(a) == WithoutState(b)
    requires key == ENABLED || key == BOOTSTRAP_GATE || IsSecretLabel(key)
    ensures (key in a <==> key in b) && (key in a ==> a[key] == b[key])
  {
    NotAStateKey(key);
    assert key in a <==> key in WithoutState(a);
    assert key in b <==> key in WithoutState(b);
  }

  lemma NotAStateKey(key: string)
    requires key == ENABLED || key == BOOTSTRAP_GATE || IsSecretLabel(key)
    ensures key !in STATE_KEYS
  {
    if key in STATE_KEYS {
      StateKeysAreNotUserKeys(key);
    }
  }

  // ---------------------------------------------------------------------
  // Text forms of the state, and digests
  // ---------------------------------------------------------------------

  /** JSON and SHA-256, as total functions of which only their laws are used. */
  datatype Codec = Codec(
    digest: string -> string,
    configText: (bool, map<string, SecretSource>) -> string,
    versionsText: map<string, int> -> string,
    parseVersions: string -> Option<map<string, int>>,
    namesText: seq<string> -> string,
    parseNames: string -> Option<seq<string>>)
  {
    /** Parsing inverts printing, and no printed form or digest is empty. */
    ghost predicate Faithful() {
      && (forall bytes :: digest(bytes) != "")
      && (forall versions :: versionsText(versions) != "" && parseVersions(versionsText(versions)) == Some(versions))
      && (forall names :: namesText(names) != "" && parseNames(namesText(names)) == Some(names))
    }

    /** Different inputs have different digests and different configurations print differently. */
    ghost predicate CollisionFree() {
      && (forall a, b :: digest(a) == digest(b) ==> a == b)
      && (forall g, s, h, t :: configText(g, s) == configText(h, t) ==> g == h && s == t)
    }

    function ConfigHash(config: Config): string {
      digest(configText(config.bootstrapGate, config.secrets))
    }

    function AppliedVersions(labels: LabelSet): Option<map<string, int>> {
      var raw := Read(labels, APPLIED_VERSIONS);
      if raw == "" then Some(map[]) else parseVersions(raw)
    }

    ghost function ManagedEnvironment(labels: LabelSet): Option<seq<string>> {
      var raw := Read(labels, MANAGED_ENV);
      if raw == "" then Some([])
      else if parseNames(raw).Some? && forall name :: name in parseNames(raw).value ==> Representable(name)
      then Some(Sort(parseNames(raw).value))
      else None
    }

    /** The state labels an injection of `values` at `versions` writes. */
    ghost function StateFor(config: Config, versions: map<string, int>, values: Env): State {
      State(versionsText(versions), namesText(SortedNames(values.Keys)), digest(Encoded(values)), ConfigHash(config))
    }
  }

  /** The recorded names are read exactly when they parse and each could be a variable's; they come sorted. */
  lemma ManagedNamesExactly(codec: Codec, labels: LabelSet)
    ensures MANAGED_ENV !in labels || labels[MANAGED_ENV] == "" ==> codec.ManagedEnvironment(labels) == Some([])
    ensures MANAGED_ENV in labels && labels[MANAGED_ENV] != "" ==>
              var parsed, names := codec.parseNames(labels[MANAGED_ENV]), codec.ManagedEnvironment(labels);
              && (names.Some? <==> parsed.Some? && forall name :: name in parsed.value ==> name != "" && '=' !in name)
              && (names.Some? ==> multiset(names.value) == multiset(parsed.value) && Sorted(names.value))
  {
    hide Sort;
    var raw := Read(labels, MANAGED_ENV);
    if raw != "" && codec.parseNames(raw).Some? {
      SortIsSorted(codec.parseNames(raw).value);
    }
  }

  method ParseManagedEnvironment(codec: Codec, labels: LabelSet) returns (result: Option<seq<string>>)
    ensures result == codec.ManagedEnvironment(labels)
  {
    var raw := Read(labels, MANAGED_ENV);
    if raw == "" {
      return Some([]);
    }
    var parsed := codec.parseNames(raw);
    if parsed.None? {
      return None;
    }
    var names := parsed.value;
    for i := 0 to |names|
      invariant forall j :: 0 <= j < i ==> Representable(names[j])
    {
      if names[i] == "" || '=' in names[i] {
        assert names[i] in names;
        return None;
      }
    }
    return Some(Sort(names));
  }

  /** An injection's state labels are read back as its versions and its names. */
  lemma StateReadsBack(codec: Codec, labels: LabelSet, config: Config, versions: map<string, int>, values: Env)
    requires codec.Faithful() && AllRepresentable(values.Keys)
    requires StateOf(labels) == codec.StateFor(config, versions, values)
    ensures codec.AppliedVersions(labels) == Some(versions)
    ensures codec.ManagedEnvironment(labels) == Some(SortedNames(values.Keys))
    ensures HasControllerState(labels)
  {
    SortOfSortedNames(values.Keys);
    assert codec.parseNames(codec.namesText(SortedNames(values.Keys))) == Some(SortedNames(values.Keys));
    assert codec.parseVersions(codec.versionsText(versions)) == Some(versions);
  }

  /** Equal configuration digests mean equal user configurations. */
  lemma ConfigHashDetermines(codec: Codec, a: Config, b: Config)
    requires codec.CollisionFree() && codec.ConfigHash(a) == codec.ConfigHash(b)
    ensures a.bootstrapGate == b.bootstrapGate && a.secrets == b.secrets
  {
  }
}
