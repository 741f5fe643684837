/**
 The label contract seen from the operator's side: which configurations can be
 declared at all, and how to declare each of them.
 */
module Declaration {
  import opened Wrappers
  import opened Text
  import opened Environment
  import opened Labels

  ghost predicate Trimmed(text: string) { text != "" && TrimSpace(text) == text }

  /** A source as labels can give it: complete, trimmed, with mappings that fit Docker's form. */
  ghost predicate Tidy(source: SecretSource) {
    && Trimmed(source.name) && Trimmed(source.mount) && Trimmed(source.path)
    && forall name :: name in source.env ==> Representable(name) && Trimmed(source.env[name])
  }

  ghost predicate Declarable(secrets: map<string, SecretSource>) {
    && secrets != map[] && Acceptable(secrets)
    && forall id :: id in secrets ==> id != "" && '.' !in id && Tidy(secrets[id])
  }

  ghost predicate Has(source: SecretSource, property: Property) {
    !property.Unknown? && (property.Variable? ==> property.variable in source.env)
  }

  ghost function TextAt(source: SecretSource, property: Property): string
    requires Has(source, property)
  {
    match property
    case Name => source.name
    case Mount => source.mount
    case Path => source.path
    case Variable(variable) => source.env[variable]
  }

  ghost function KeysOf(secrets: map<string, SecretSource>): set<string> {
    (set id | id in secrets :: LabelFor(id, Name)) + (set id | id in secrets :: LabelFor(id, Mount))
    + (set id | id in secrets :: LabelFor(id, Path))
    + (set id, name | id in secrets && name in secrets[id].env :: LabelFor(id, Variable(name)))
  }

  /** The key names a property that the declared source has. */
  ghost predicate Declares(secrets: map<string, SecretSource>, key: string) {
    IsSecretLabel(key) && SourceId(key) in secrets && Has(secrets[SourceId(key)], LabelProperty(key))
  }

  /** One way to write a configuration as labels. */
  ghost function LabelsFor(gate: bool, secrets: map<string, SecretSource>): LabelSet {
    (map key | key in KeysOf(secrets) && Declares(secrets, key) :: TextAt(secrets[SourceId(key)], LabelProperty(key)))
    + map[ENABLED := "true", BOOTSTRAP_GATE := if gate then "true" else "false"]
  }

  lemma UserKeys()
    ensures ENABLED != BOOTSTRAP_GATE && !IsSecretLabel(ENABLED) && !IsSecretLabel(BOOTSTRAP_GATE)
  {
    assert ENABLED[|PREFIX| + 1] == 'e' && BOOTSTRAP_GATE[|PREFIX| + 1] == 'b' && SECRETS_PREFIX[|PREFIX| + 1] == 's';
  }

  lemma KeyIsListed(secrets: map<string, SecretSource>, id: string, property: Property)
    requires id in secrets && Has(secrets[id], property)
    ensures LabelFor(id, property) in KeysOf(secrets)
  {
    hide Has, LabelFor;
    if property.Variable? {
      VariableIsMapped(secrets[id], property);
    }
    PropertyIsKnown(secrets[id], property);
  }

  lemma VariableIsMapped(source: SecretSource, property: Property)
    requires Has(source, property) && property.Variable?
    ensures property.variable in source.env
  {
  }

  lemma PropertyIsKnown(source: SecretSource, property: Property)
    requires Has(source, property)
    ensures property == Name || property == Mount || property == Path || property.Variable?
  {
  }

  lemma DeclaredAt(gate: bool, secrets: map<string, SecretSource>, id: string, property: Property)
    requires Declarable(secrets) && id in secrets && Has(secrets[id], property)
    ensures LabelFor(id, property) in LabelsFor(gate, secrets)
    ensures LabelsFor(gate, secrets)[LabelFor(id, property)] == TextAt(secrets[id], property)
  {
    hide KeysOf, TextAt, LabelFor, IsSecretLabel, SourceId, LabelProperty, Acceptable, Tidy;
    LabelForParts(id, property);
    KeyIsListed(secrets, id, property);
    UserKeys();
  }

  lemma OnlyDeclared(gate: bool, secrets: map<string, SecretSource>, key: string)
    requires key in LabelsFor(gate, secrets) && IsSecretLabel(key)
    ensures Declares(secrets, key)
            && LabelsFor(gate, secrets)[key] == TextAt(secrets[SourceId(key)], LabelProperty(key))
  {
    hide KeysOf, TextAt, IsSecretLabel, SourceId, LabelProperty, Has;
    UserKeys();
  }

  lemma DeclaredMapping(gate: bool, secrets: map<string, SecretSource>, id: string)
    requires Declarable(secrets) && id in secrets
    ensures Mapping(LabelsFor(gate, secrets), id) == secrets[id].env
  {
    hide LabelsFor, LabelFor, TrimSpace, Acceptable, IsSecretLabel, SourceId, LabelProperty;
    var labels := LabelsFor(gate, secrets);
    forall name | name in secrets[id].env
      ensures name in MappedNames(labels, id) && Field(labels, id, Variable(name)) == secrets[id].env[name]
    {
      DeclaredAt(gate, secrets, id, Variable(name));
      LabelForParts(id, Variable(name));
    }
    forall name | name in MappedNames(labels, id) ensures name in secrets[id].env {
      var key :| key in labels && IsSecretLabel(key) && SourceId(key) == id && LabelProperty(key) == Variable(name);
      OnlyDeclared(gate, secrets, key);
    }
  }

  lemma DeclaredFields(gate: bool, secrets: map<string, SecretSource>, id: string)
    requires Declarable(secrets) && id in secrets
    ensures SourceAt(LabelsFor(gate, secrets), id) == secrets[id]
    ensures id in SourceIds(LabelsFor(gate, secrets))
  {
    hide LabelsFor, LabelFor, TrimSpace, Acceptable, Mapping, IsSecretLabel, SourceId, LabelProperty;
    DeclaredAt(gate, secrets, id, Name);
    DeclaredAt(gate, secrets, id, Mount);
    DeclaredAt(gate, secrets, id, Path);
    LabelForParts(id, Name);
    DeclaredMapping(gate, secrets, id);
  }

  lemma DeclaredSources(gate: bool, secrets: map<string, SecretSource>)
    requires Declarable(secrets)
    ensures SecretsOf(LabelsFor(gate, secrets)) == secrets && AllWellFormed(LabelsFor(gate, secrets))
  {
    hide LabelsFor, SourceAt, TrimSpace, Acceptable;
    var labels := LabelsFor(gate, secrets);
    forall id | id in secrets ensures SourceAt(labels, id) == secrets[id] && id in SourceIds(labels) {
      DeclaredFields(gate, secrets, id);
    }
    forall key | key in labels && IsSecretLabel(key) ensures SourceId(key) in secrets && WellFormed(key, labels[key]) {
      OnlyDeclared(gate, secrets, key);
    }
    assert SourceIds(labels) == secrets.Keys;
  }

  lemma FlagLabels(gate: bool, secrets: map<string, SecretSource>)
    ensures ENABLED in LabelsFor(gate, secrets) && LabelsFor(gate, secrets)[ENABLED] == "true"
    ensures BOOTSTRAP_GATE in LabelsFor(gate, secrets)
    ensures LabelsFor(gate, secrets)[BOOTSTRAP_GATE] == if gate then "true" else "false"
  {
    hide KeysOf, TextAt, Declares, IsSecretLabel;
    UserKeys();
  }

  lemma BooleanTexts(gate: bool)
    ensures ParseBool(if gate then "true" else "false") == Some(gate)
  {
    assert "false" !in ["1", "t", "T", "TRUE", "true", "True"];
  }

  lemma DeclaredFlags(gate: bool, secrets: map<string, SecretSource>)
    ensures var labels := LabelsFor(gate, secrets);
            ENABLED in labels && ParseBool(labels[ENABLED]) == Some(true) && GateOf(labels) == Some(gate)
  {
    hide LabelsFor, ParseBool;
    FlagLabels(gate, secrets);
    BooleanTexts(gate);
    BooleanTexts(true);
  }

  lemma NoStateDeclared(gate: bool, secrets: map<string, SecretSource>, key: string)
    requires key in STATE_KEYS
    ensures key !in LabelsFor(gate, secrets)
  {
    hide KeysOf, TextAt, Declares, IsSecretLabel;
    StateKeysAreNotUserKeys(key);
    DeclaredIsSecret(secrets, key);
  }

  lemma DeclaredState(gate: bool, secrets: map<string, SecretSource>)
    ensures StateOf(LabelsFor(gate, secrets)) == NO_STATE
  {
    hide LabelsFor;
    NoStateDeclared(gate, secrets, APPLIED_VERSIONS);
    NoStateDeclared(gate, secrets, MANAGED_ENV);
    NoStateDeclared(gate, secrets, STATE_HASH);
    NoStateDeclared(gate, secrets, CONFIG_HASH);
  }

  lemma DeclaredIsSecret(secrets: map<string, SecretSource>, key: string)
    ensures Declares(secrets, key) ==> IsSecretLabel(key)
  {
  }

  lemma {:induction false} TrimLeftTrims(s: string)
    ensures TrimLeft(s) == "" || !IsSpace(TrimLeft(s)[0])
  {
    if s != "" && IsSpace(s[0]) {
      TrimLeftTrims(s[1..]);
    }
  }

  lemma {:induction false} TrimRightTrims(s: string)
    ensures TrimRight(s) == "" || !IsSpace(TrimRight(s)[|TrimRight(s)| - 1])
    ensures TrimRight(s) != "" ==> TrimRight(s)[0] == s[0]
  {
    if s != "" && IsSpace(s[|s| - 1]) {
      TrimRightTrims(s[..|s| - 1]);
    }
  }

  lemma TrimmedStays(s: string)
    ensures TrimSpace(TrimSpace(s)) == TrimSpace(s)
  {
    TrimLeftTrims(s);
    TrimRightTrims(TrimLeft(s));
  }

  lemma ConfiguredIsDeclarable(labels: LabelSet)
    requires Configured(labels).Some? && Configured(labels).value.enabled
    ensures Declarable(Configured(labels).value.secrets)
  {
    hide TrimSpace, Acceptable, ParseBool, GateOf;
    var secrets := SecretsOf(labels);
    AcceptableIsComplete(secrets);
    ConfiguredSources(labels);
    forall id | id in secrets ensures id != "" && '.' !in id && Tidy(secrets[id]) {
      var key :| key in labels && IsSecretLabel(key) && SourceId(key) == id;
      assert WellFormed(key, labels[key]);
      LabelParts(key);
      FieldIsTrimmed(labels, id, Name);
      FieldIsTrimmed(labels, id, Mount);
      FieldIsTrimmed(labels, id, Path);
      forall name | name in secrets[id].env ensures Trimmed(secrets[id].env[name]) {
        MappedIsTrimmed(labels, id, name);
      }
    }
  }

  lemma AcceptableIsComplete(secrets: map<string, SecretSource>)
    requires Acceptable(secrets)
    ensures forall id :: id in secrets ==> Complete(secrets[id])
  {
  }

  lemma FieldIsTrimmed(labels: LabelSet, id: string, property: Property)
    requires !property.Unknown?
    ensures Field(labels, id, property) != "" ==> Trimmed(Field(labels, id, property))
  {
    hide TrimSpace;
    var key := LabelFor(id, property);
    if key in labels {
      TrimmedStays(labels[key]);
    }
  }

  lemma MappedIsTrimmed(labels: LabelSet, id: string, name: string)
    requires AllWellFormed(labels) && name in MappedNames(labels, id)
    ensures Trimmed(Field(labels, id, Variable(name)))
  {
    hide TrimSpace;
    var key :| key in labels && IsSecretLabel(key) && SourceId(key) == id && LabelProperty(key) == Variable(name);
    assert WellFormed(key, labels[key]);
    LabelParts(key);
    FieldIsTrimmed(labels, id, Variable(name));
  }

  /**
   Labels can declare exactly the tidy configurations: each of them is read
   back from its own labels, which carry no state, and nothing else is ever
   read from any labels.
   */
  lemma DeclarableExactly(gate: bool, secrets: map<string, SecretSource>)
    ensures Declarable(secrets)
            <==> exists labels :: Configured(labels) == Some(Config(true, gate, secrets)) && StateOf(labels) == NO_STATE
  {
    hide Configured, Declarable, LabelsFor;
    if Declarable(secrets) {
      DeclarationRoundTrip(gate, secrets);
    }
    if labels :| Configured(labels) == Some(Config(true, gate, secrets)) && StateOf(labels) == NO_STATE {
      ConfiguredIsDeclarable(labels);
    }
  }

  lemma DeclarationRoundTrip(gate: bool, secrets: map<string, SecretSource>)
    requires Declarable(secrets)
    ensures Configured(LabelsFor(gate, secrets)) == Some(Config(true, gate, secrets))
    ensures StateOf(LabelsFor(gate, secrets)) == NO_STATE
  {
    hide LabelsFor, SecretsOf, AllWellFormed, Acceptable, GateOf, ParseBool, Tidy;
    DeclaredSources(gate, secrets);
    DeclaredFlags(gate, secrets);
    DeclaredState(gate, secrets);
  }

  // ---------------------------------------------------------------------
  // The label texts themselves
  // ---------------------------------------------------------------------

  const TRUE_TEXTS: set<string> := {"1", "t", "T", "TRUE", "true", "True"}
  const FALSE_TEXTS: set<string> := {"0", "f", "F", "FALSE", "false", "False"}

  /** The names of the labels, spelled out. */
  lemma LabelNames()
    ensures ENABLED == "io.github.docker-vault-injector" + ".enabled"
    ensures BOOTSTRAP_GATE == "io.github.docker-vault-injector" + ".bootstrap-gate"
    ensures SECRETS_PREFIX == "io.github.docker-vault-injector" + ".secrets."
    ensures APPLIED_VERSIONS == "io.github.docker-vault-injector" + ".applied-versions"
    ensures MANAGED_ENV == "io.github.docker-vault-injector" + ".managed-env"
    ensures STATE_HASH == "io.github.docker-vault-injector" + ".state-hash"
    ensures CONFIG_HASH == "io.github.docker-vault-injector" + ".config-hash"
  {
  }

  /** Without the enabled label, or with a false text in it, no other label matters. */
  lemma DisabledExactly(labels: LabelSet)
    ensures Configured(labels) == Some(Config(false, false, map[]))
            <==> ENABLED !in labels || labels[ENABLED] in FALSE_TEXTS
    ensures Configured(labels).Some? && !Configured(labels).value.enabled
            ==> Configured(labels) == Some(Config(false, false, map[]))
  {
    hide GateOf, AllWellFormed, SecretsOf, Acceptable;
  }

  function KeyText(id: string, property: string): string {
    SECRETS_PREFIX + (id + "." + property)
  }

  /** The label is there and, trimmed, says this and not nothing. */
  ghost predicate Says(labels: LabelSet, key: string, text: string) {
    key in labels && TrimSpace(labels[key]) == text && text != ""
  }

  /** The label belongs to one of these sources, as one of its four kinds of property. */
  ghost predicate Belongs(secrets: map<string, SecretSource>, key: string, id: string, property: string) {
    && id in secrets && key == KeyText(id, property)
    && (property in {"name", "kv", "vault-path"}
        || exists name :: name in secrets[id].env && property == "env." + name)
  }

  ghost predicate SaysSource(labels: LabelSet, id: string, source: SecretSource) {
    && id != "" && '.' !in id
    && Says(labels, KeyText(id, "name"), source.name)
    && Says(labels, KeyText(id, "kv"), source.mount)
    && Says(labels, KeyText(id, "vault-path"), source.path)
    && forall name :: name in source.env ==>
         name != "" && '=' !in name && Says(labels, KeyText(id, "env." + name), source.env[name])
  }

  /** The labels declare these sources, and under the prefix nothing else. */
  ghost predicate SaysSources(labels: LabelSet, secrets: map<string, SecretSource>) {
    && secrets != map[]
    && (forall id :: id in secrets ==> SaysSource(labels, id, secrets[id]))
    && (forall key :: key in labels && SECRETS_PREFIX <= key ==>
          exists id, property :: Belongs(secrets, key, id, property))
    && (forall a, b :: a in secrets && b in secrets && a != b ==>
          secrets[a].name != secrets[b].name && secrets[a].env.Keys !! secrets[b].env.Keys)
  }

  ghost predicate SaysFlags(labels: LabelSet, gate: bool) {
    && ENABLED in labels && labels[ENABLED] in TRUE_TEXTS
    && if BOOTSTRAP_GATE in labels then labels[BOOTSTRAP_GATE] in if gate then TRUE_TEXTS else FALSE_TEXTS else !gate
  }

  lemma FlagsExactly(labels: LabelSet, gate: bool)
    ensures SaysFlags(labels, gate)
            <==> ENABLED in labels && ParseBool(labels[ENABLED]) == Some(true) && GateOf(labels) == Some(gate)
  {
    TextsOfBooleans(true);
    TextsOfBooleans(gate);
  }

  lemma TextsOfBooleans(value: bool)
    ensures forall text :: ParseBool(text) == Some(value) <==> text in if value then TRUE_TEXTS else FALSE_TEXTS
  {
    assert TRUE_TEXTS !! FALSE_TEXTS;
  }

  lemma KeyTexts(id: string)
    ensures LabelFor(id, Name) == KeyText(id, "name") && LabelFor(id, Mount) == KeyText(id, "kv")
    ensures LabelFor(id, Path) == KeyText(id, "vault-path")
    ensures forall name :: LabelFor(id, Variable(name)) == KeyText(id, "env." + name)
  {
  }

  /** A label of a dot-free source is read as that source's label for that property. */
  lemma BelongsParts(secrets: map<string, SecretSource>, key: string, id: string, property: string)
    requires Belongs(secrets, key, id, property) && '.' !in id
    ensures IsSecretLabel(key) && SourceId(key) == id && Has(secrets[id], LabelProperty(key))
    ensures key == LabelFor(id, LabelProperty(key))
  {
    hide LabelFor, IsSecretLabel, SourceId, LabelProperty;
    KeyTexts(id);
    if property == "name" {
      LabelForParts(id, Name);
    } else if property == "kv" {
      LabelForParts(id, Mount);
    } else if property == "vault-path" {
      LabelForParts(id, Path);
    } else {
      var name :| name in secrets[id].env && property == "env." + name;
      LabelForParts(id, Variable(name));
    }
  }

  lemma SaidSource(labels: LabelSet, secrets: map<string, SecretSource>, id: string)
    requires SaysSources(labels, secrets) && id in secrets
    ensures SourceAt(labels, id) == secrets[id] && id in SourceIds(labels)
  {
    hide TrimSpace, LabelFor, IsSecretLabel, SourceId, LabelProperty, KeyText;
    KeyTexts(id);
    LabelForParts(id, Name);
    forall name | name in secrets[id].env
      ensures name in MappedNames(labels, id) && Field(labels, id, Variable(name)) == secrets[id].env[name]
    {
      LabelForParts(id, Variable(name));
    }
    forall name | name in MappedNames(labels, id) ensures name in secrets[id].env {
      var key :| key in labels && IsSecretLabel(key) && SourceId(key) == id && LabelProperty(key) == Variable(name);
      SaidKey(labels, secrets, key);
    }
    assert Mapping(labels, id) == secrets[id].env;
  }

  lemma SaidKey(labels: LabelSet, secrets: map<string, SecretSource>, key: string)
    requires SaysSources(labels, secrets) && key in labels && IsSecretLabel(key)
    ensures SourceId(key) in secrets && Has(secrets[SourceId(key)], LabelProperty(key))
    ensures key == LabelFor(SourceId(key), LabelProperty(key))
  {
    hide TrimSpace, LabelFor, SourceId, LabelProperty, KeyText;
    var id, property :| Belongs(secrets, key, id, property);
    BelongsParts(secrets, key, id, property);
  }

  lemma SaidIsWellFormed(labels: LabelSet, secrets: map<string, SecretSource>, key: string)
    requires SaysSources(labels, secrets) && key in labels && IsSecretLabel(key)
    ensures WellFormed(key, labels[key])
  {
    hide TrimSpace, LabelFor, IsSecretLabel, SourceId, LabelProperty, KeyText;
    SaidKey(labels, secrets, key);
    KeyTexts(SourceId(key));
  }

  lemma SaidIsConfigured(labels: LabelSet, secrets: map<string, SecretSource>)
    requires SaysSources(labels, secrets)
    ensures AllWellFormed(labels) && SecretsOf(labels) == secrets && Acceptable(secrets)
  {
    hide SourceAt, WellFormed, LabelFor, IsSecretLabel, SourceId, LabelProperty, KeyText, TrimSpace;
    forall id | id in secrets ensures SourceAt(labels, id) == secrets[id] && id in SourceIds(labels) {
      SaidSource(labels, secrets, id);
    }
    forall key | key in labels && IsSecretLabel(key) ensures SourceId(key) in secrets && WellFormed(key, labels[key]) {
      SaidKey(labels, secrets, key);
      SaidIsWellFormed(labels, secrets, key);
    }
    assert SourceIds(labels) == secrets.Keys;
  }

  lemma ConfiguredIsSaid(labels: LabelSet)
    requires AllWellFormed(labels) && SecretsOf(labels) != map[] && Acceptable(SecretsOf(labels))
    ensures SaysSources(labels, SecretsOf(labels))
  {
    hide WellFormed, TrimSpace, IsSecretLabel, SourceId, LabelProperty, KeyText, SourceAt;
    var secrets := SecretsOf(labels);
    forall id | id in secrets ensures SaysSource(labels, id, secrets[id]) {
      ConfiguredSaysSource(labels, id);
    }
    forall key | key in labels && SECRETS_PREFIX <= key
      ensures exists id, property :: Belongs(secrets, key, id, property) {
      ConfiguredKeyBelongs(labels, key);
    }
  }

  lemma ConfiguredSaysSource(labels: LabelSet, id: string)
    requires AllWellFormed(labels) && Acceptable(SecretsOf(labels)) && id in SecretsOf(labels)
    ensures SaysSource(labels, id, SecretsOf(labels)[id])
  {
    hide TrimSpace, IsSecretLabel, SourceId, LabelProperty, KeyText, LabelFor;
    KeyTexts(id);
    AcceptableIsComplete(SecretsOf(labels));
    var some :| some in labels && IsSecretLabel(some) && SourceId(some) == id;
    assert WellFormed(some, labels[some]);
    LabelParts(some);
    forall name | name in MappedNames(labels, id)
      ensures Representable(name) && Says(labels, KeyText(id, "env." + name), Field(labels, id, Variable(name)))
    {
      var key :| key in labels && IsSecretLabel(key) && SourceId(key) == id && LabelProperty(key) == Variable(name);
      assert WellFormed(key, labels[key]);
      LabelParts(key);
    }
  }

  lemma ConfiguredKeyBelongs(labels: LabelSet, key: string)
    requires AllWellFormed(labels) && key in labels && SECRETS_PREFIX <= key
    ensures exists id, property :: Belongs(SecretsOf(labels), key, id, property)
  {
    hide TrimSpace, SourceId, LabelProperty, KeyText, LabelFor, Field;
    var secrets, id, property := SecretsOf(labels), SourceId(key), LabelProperty(key);
    assert WellFormed(key, labels[key]);
    LabelParts(key);
    KeyTexts(id);
    assert id in secrets;
    match property {
      case Name => assert Belongs(secrets, key, id, "name");
      case Mount => assert Belongs(secrets, key, id, "kv");
      case Path => assert Belongs(secrets, key, id, "vault-path");
      case Variable(name) =>
        assert name in secrets[id].env;
        assert Belongs(secrets, key, id, "env." + name);
    }
  }

  /**
   An enabled configuration is read exactly when the labels say it: the flags in
   one of the six texts each, every source with its name, mount, path and mapped
   variables under labels spelled like this, and no other label under the prefix.
   */
  lemma EnabledExactly(labels: LabelSet, gate: bool, secrets: map<string, SecretSource>)
    ensures Configured(labels) == Some(Config(true, gate, secrets))
            <==> SaysFlags(labels, gate) && SaysSources(labels, secrets)
  {
    hide SaysFlags, SaysSources, ParseBool, GateOf, AllWellFormed, SecretsOf, Acceptable;
    FlagsExactly(labels, gate);
    if SaysSources(labels, secrets) {
      SaidIsConfigured(labels, secrets);
      assert secrets != map[] by {
        SaidIsNotEmpty(labels, secrets);
      }
    }
    if Configured(labels) == Some(Config(true, gate, secrets)) {
      ConfiguredIsSaid(labels);
    }
  }

  lemma SaidIsNotEmpty(labels: LabelSet, secrets: map<string, SecretSource>)
    requires SaysSources(labels, secrets)
    ensures secrets != map[]
  {
  }
}
