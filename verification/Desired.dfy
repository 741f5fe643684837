/**
 From Vault documents to the desired environment: walking field paths, the
 contribution of one source, and the checked union over all sources.
 */
module Desired {
  import opened Wrappers
  import opened Text
  import opened Environment
  import opened Labels

  /** A decoded JSON value; a scalar already carries its text. */
  datatype Json = Null | Scalar(text: string) | Object(fields: map<string, Json>) | List

  type Document = map<string, Json>

  /** Only scalars become environment values. */
  function Stringify(value: Json): Option<string> {
    if value.Scalar? then Some(value.text) else None
  }

  function Walk(value: Json, parts: seq<string>): Option<Json> {
    if parts == [] then Some(value)
    else if parts[0] == "" || !value.Object? || parts[0] !in value.fields then None
    else Walk(value.fields[parts[0]], parts[1..])
  }

  function Resolve(data: Document, fieldPath: string): Option<string> {
    var found := Walk(Object(data), Split(fieldPath, '.'));
    if found.Some? then Stringify(found.value) else None
  }

  method ResolveField(data: Document, fieldPath: string) returns (r: Option<string>)
    ensures r == Resolve(data, fieldPath)
  {
    var parts := Split(fieldPath, '.');
    var current := Object(data);
    for i := 0 to |parts|
      invariant Walk(Object(data), parts) == Walk(current, parts[i..])
    {
      var part := parts[i];
      assert parts[i..][0] == part && parts[i..][1..] == parts[i + 1..];
      if part == "" {
        return None;
      }
      if !current.Object? {
        return None;
      }
      if part !in current.fields {
        return None;
      }
      current := current.fields[part];
    }
    assert parts[|parts|..] == [];
    return Stringify(current);
  }

  /** A path without a dot names a top-level field. */
  lemma ResolveTopLevel(data: Document, field: string)
    requires '.' !in field
    ensures Resolve(data, field) == if field != "" && field in data then Stringify(data[field]) else None
  {
    assert Split(field, '.') == [field];
    var rest := [field][1..];
    assert rest == [];
    if field != "" && field in data {
      assert Walk(Object(data), [field]) == Walk(data[field], rest);
    }
  }

  /** A dot descends: the field before it must be an object, and the rest is a path in that object. */
  lemma ResolveNested(data: Document, field: string, rest: string)
    requires '.' !in field
    ensures Resolve(data, field + ['.'] + rest)
            == if field != "" && field in data && data[field].Object? then Resolve(data[field].fields, rest) else None
  {
    CutJoined(field, '.', rest);
    var parts := Split(rest, '.');
    assert Split(field + ['.'] + rest, '.') == [field] + parts;
    assert ([field] + parts)[1..] == parts;
    if field != "" && field in data && !data[field].Object? {
      WalkNeedsObject(data[field], parts);
    }
  }

  /** Following the path through objects, one field a component, ends at a scalar with this text. */
  ghost predicate LeadsTo(data: Document, path: string, text: string)
    decreases |path|
  {
    if '.' !in path then path != "" && path in data && data[path] == Scalar(text)
    else exists field, rest :: Descends(data, path, field, rest) && LeadsTo(data[field].fields, rest, text)
  }

  /** The path starts with a field that is an object, and goes on in that object. */
  ghost predicate Descends(data: Document, path: string, field: string, rest: string) {
    && path == field + "." + rest && '.' !in field && field != ""
    && field in data && data[field].Object?
  }

  /** A path resolves to a text exactly when it leads to a scalar with that text. */
  lemma {:induction false} ResolvesToText(data: Document, path: string, text: string)
    ensures Resolve(data, path) == Some(text) <==> LeadsTo(data, path, text)
    decreases |path|
  {
    hide Resolve;
    if '.' !in path {
      ResolveTopLevel(data, path);
    } else {
      CutParts(path, '.');
      var field, rest := Before(path, '.'), After(path, '.');
      ResolveNested(data, field, rest);
      if field != "" && field in data && data[field].Object? {
        ResolvesToText(data[field].fields, rest, text);
        if LeadsTo(data[field].fields, rest, text) {
          assert Descends(data, path, field, rest);
        }
      }
      if LeadsTo(data, path, text) {
        var f, r :| Descends(data, path, f, r) && LeadsTo(data[f].fields, r, text);
        CutJoined(f, '.', r);
      }
    }
  }

  lemma WalkNeedsObject(value: Json, parts: seq<string>)
    requires parts != [] && !value.Object?
    ensures Walk(value, parts).None?
  {
  }

  // ---------------------------------------------------------------------
  // One source
  // ---------------------------------------------------------------------

  /** The names a source is asked for: its mapped names, or every top-level field. */
  function RequestedNames(source: SecretSource, data: Document): set<string> {
    if source.env == map[] then data.Keys else source.env.Keys
  }

  /** The value behind one requested name, when it can be used. */
  function ValueFor(source: SecretSource, data: Document, name: string): Option<string> {
    if source.env != map[] then
      if name in source.env then Resolve(data, source.env[name]) else None
    else if name in data && Representable(name) then Stringify(data[name])
    else None
  }

  function ValuesFor(source: SecretSource, data: Document, names: set<string>): Env {
    map name | name in names && ValueFor(source, data, name).Some? :: ValueFor(source, data, name).value
  }

  /** What one source contributes; None when a single requested name cannot be used. */
  ghost function Contribution(source: SecretSource, data: Document): Option<Env> {
    var names := RequestedNames(source, data);
    if names != {} && forall name :: name in names ==> ValueFor(source, data, name).Some?
    then Some(ValuesFor(source, data, names))
    else None
  }

  /** What one value of a source is: the text of the field, or of the scalar the mapped path leads to. */
  ghost predicate GivesText(source: SecretSource, data: Document, name: string, text: string) {
    if source.env == map[] then name in data && name != "" && '=' !in name && data[name] == Scalar(text)
    else name in source.env && LeadsTo(data, source.env[name], text)
  }

  lemma ValueIsText(source: SecretSource, data: Document, name: string, text: string)
    ensures ValueFor(source, data, name) == Some(text) <==> GivesText(source, data, name, text)
  {
    if source.env != map[] && name in source.env {
      ResolvesToText(data, source.env[name], text);
    }
  }

  /** Automatic import: every field must be usable, and there must be one; each then gives its own text. */
  lemma AutoImportTexts(source: SecretSource, data: Document)
    requires source.env == map[]
    ensures Contribution(source, data).Some?
            <==> data != map[] && forall name :: name in data ==> name != "" && '=' !in name && data[name].Scalar?
    ensures Contribution(source, data).Some? ==>
              && Contribution(source, data).value.Keys == data.Keys
              && forall name :: name in data ==> Contribution(source, data).value[name] == data[name].text
  {
    assert data == map[] <==> data.Keys == {};
    forall name | name in data
      ensures ValueFor(source, data, name).Some? <==> name != "" && '=' !in name && data[name].Scalar?
      ensures ValueFor(source, data, name).Some? ==> ValueFor(source, data, name).value == data[name].text
    {
      if data[name].Scalar? {
        ValueIsText(source, data, name, data[name].text);
      }
    }
  }

  ghost predicate LeadsSomewhere(data: Document, path: string) {
    exists text :: LeadsTo(data, path, text)
  }

  lemma ResolvesSomewhere(data: Document, path: string)
    ensures Resolve(data, path).Some? <==> LeadsSomewhere(data, path)
    ensures Resolve(data, path).Some? ==> LeadsTo(data, path, Resolve(data, path).value)
  {
    hide Resolve;
    if Resolve(data, path).Some? {
      ResolvesToText(data, path, Resolve(data, path).value);
    }
    if text :| LeadsTo(data, path, text) {
      ResolvesToText(data, path, text);
    }
  }

  /** Explicit mappings: every path must lead to a scalar; each mapped name then gets the text there. */
  lemma MappedTexts(source: SecretSource, data: Document)
    requires source.env != map[]
    ensures Contribution(source, data).Some?
            <==> forall name :: name in source.env ==> LeadsSomewhere(data, source.env[name])
    ensures Contribution(source, data).Some? ==>
              && Contribution(source, data).value.Keys == source.env.Keys
              && forall name :: name in source.env ==>
                   LeadsTo(data, source.env[name], Contribution(source, data).value[name])
  {
    hide Resolve, LeadsTo, LeadsSomewhere;
    assert source.env.Keys != {};
    forall name | name in source.env
      ensures ValueFor(source, data, name) == Resolve(data, source.env[name])
      ensures ValueFor(source, data, name).Some? <==> LeadsSomewhere(data, source.env[name])
      ensures ValueFor(source, data, name).Some? ==> LeadsTo(data, source.env[name], ValueFor(source, data, name).value)
    {
      ResolvesSomewhere(data, source.env[name]);
    }
  }

  /** A contribution is exactly what its source gives. */
  lemma ContributionGives(source: SecretSource, data: Document, name: string, text: string)
    requires Contribution(source, data).Some?
    ensures name in Contribution(source, data).value && Contribution(source, data).value[name] == text
            <==> GivesText(source, data, name, text)
  {
    hide GivesText;
    ValueIsText(source, data, name, text);
  }

  lemma ContributionNames(source: SecretSource, data: Document)
    requires Contribution(source, data).Some? && AllRepresentable(source.env.Keys)
    ensures AllRepresentable(Contribution(source, data).value.Keys)
    ensures Contribution(source, data).value != map[]
  {
    assert Contribution(source, data).value.Keys == RequestedNames(source, data);
    forall name | name in RequestedNames(source, data) ensures Representable(name) {
      assert ValueFor(source, data, name).Some?;
    }
  }

  ghost function SelfMapping(source: SecretSource, data: Document): SecretSource {
    source.(env := map name | name in data :: name)
  }

  /**
   Importing every field is the same as mapping every field to itself, when no
   field name has a dot and every one of them fits Docker's form.
   */
  lemma AutoImportIsSelfMapping(source: SecretSource, data: Document)
    requires source.env == map[] && forall name :: name in data ==> Representable(name) && '.' !in name
    ensures Contribution(source, data) == Contribution(SelfMapping(source, data), data)
  {
    var mapped := SelfMapping(source, data);
    assert mapped.env.Keys == data.Keys;
    if name :| name in data {
      assert name in mapped.env;
      forall name | name in data ensures ValueFor(mapped, data, name) == ValueFor(source, data, name) {
        ResolveTopLevel(data, name);
      }
      assert RequestedNames(mapped, data) == RequestedNames(source, data) == data.Keys;
      assert ValuesFor(mapped, data, data.Keys) == ValuesFor(source, data, data.Keys);
    }
  }

  // ---------------------------------------------------------------------
  // All sources: a checked disjoint union
  // ---------------------------------------------------------------------

  type Parts = map<string, Option<Env>>

  ghost function PartsOf(secrets: map<string, SecretSource>, docs: map<string, Document>): Parts {
    map id | id in secrets :: if id in docs then Contribution(secrets[id], docs[id]) else None
  }

  /** Every source contributes, and no name is contributed twice. */
  ghost predicate Separate(ids: set<string>, parts: Parts)
    requires ids <= parts.Keys
  {
    && (forall id :: id in ids ==> parts[id].Some?)
    && (forall a, b :: a in ids && b in ids && a != b ==> parts[a].value.Keys !! parts[b].value.Keys)
  }

  ghost predicate Owns(parts: Parts, id: string, name: string) {
    id in parts && parts[id].Some? && name in parts[id].value
  }

  ghost function OwnedNames(ids: set<string>, parts: Parts): set<string> {
    set id, name | id in ids && id in parts && parts[id].Some? && name in parts[id].value :: name
  }

  ghost function OwnerOf(ids: set<string>, parts: Parts, name: string): (id: string)
    requires name in OwnedNames(ids, parts)
    ensures id in ids && Owns(parts, id, name)
  {
    var id :| id in ids && Owns(parts, id, name);
    id
  }

  /** The union of the contributions; meaningful when they are separate. */
  ghost function UnionOf(ids: set<string>, parts: Parts): Env {
    map name | name in OwnedNames(ids, parts) :: parts[OwnerOf(ids, parts, name)].value[name]
  }

  /** The environment the sources ask for, as a set-level definition without any order. */
  ghost function DesiredValues(secrets: map<string, SecretSource>, docs: map<string, Document>): Option<Env> {
    var parts := PartsOf(secrets, docs);
    if Separate(secrets.Keys, parts) then Some(UnionOf(secrets.Keys, parts)) else None
  }

  /** Each contribution is in the union with its own values, and nothing else is. */
  lemma UnionIsExact(ids: set<string>, parts: Parts)
    requires ids <= parts.Keys && Separate(ids, parts)
    ensures forall id, name :: id in ids && name in parts[id].value ==>
              name in UnionOf(ids, parts) && UnionOf(ids, parts)[name] == parts[id].value[name]
    ensures forall name :: name in UnionOf(ids, parts) ==> exists id :: id in ids && name in parts[id].value
  {
    forall id, name | id in ids && name in parts[id].value
      ensures name in UnionOf(ids, parts) && UnionOf(ids, parts)[name] == parts[id].value[name]
    {
      assert name in OwnedNames(ids, parts);
      assert OwnerOf(ids, parts, name) == id;
    }
    forall name | name in UnionOf(ids, parts) ensures exists id :: id in ids && name in parts[id].value {
      assert Owns(parts, OwnerOf(ids, parts, name), name);
    }
  }

  /**
   The desired environment, said in full: it exists exactly when every document
   is there, every source contributes and no name is given by two of them; it
   then gives a name a text exactly when some source does.
   */
  lemma DesiredTexts(secrets: map<string, SecretSource>, docs: map<string, Document>)
    ensures DesiredValues(secrets, docs).Some?
            <==> && (forall id :: id in secrets ==> id in docs && Contribution(secrets[id], docs[id]).Some?)
                 && (forall a, b, name, s, t :: a in secrets && b in secrets && a != b ==>
                       !(GivesText(secrets[a], docs[a], name, s) && GivesText(secrets[b], docs[b], name, t)))
    ensures DesiredValues(secrets, docs).Some? ==>
              forall name, text :: IsSet(DesiredValues(secrets, docs).value, name, text)
                                   <==> exists id :: id in secrets && GivesText(secrets[id], docs[id], name, text)
  {
    hide Contribution, GivesText, UnionOf;
    var parts := PartsOf(secrets, docs);
    forall id | id in secrets
      ensures parts[id].Some? ==> id in docs && PartGives(secrets[id], docs[id], parts[id].value) {
      if parts[id].Some? {
        PartIsGiven(secrets[id], docs[id]);
      }
    }
    if Separate(secrets.Keys, parts) {
      UnionIsExact(secrets.Keys, parts);
      forall id | id in secrets ensures id in docs && Contribution(secrets[id], docs[id]).Some? {
        assert parts[id].Some?;
      }
    } else if forall id :: id in secrets ==> id in docs && Contribution(secrets[id], docs[id]).Some? {
      OverlapIsGiven(secrets, docs);
    }
  }

  ghost predicate IsSet(values: Env, name: string, text: string) {
    name in values && values[name] == text
  }

  /** The part holds exactly the texts that the source gives. */
  ghost predicate PartGives(source: SecretSource, data: Document, part: Env) {
    forall name, text :: GivesText(source, data, name, text) <==> IsSet(part, name, text)
  }

  lemma PartIsGiven(source: SecretSource, data: Document)
    requires Contribution(source, data).Some?
    ensures PartGives(source, data, Contribution(source, data).value)
  {
    hide Contribution, GivesText;
    forall name, text
      ensures GivesText(source, data, name, text) <==> IsSet(Contribution(source, data).value, name, text)
    {
      ContributionGives(source, data, name, text);
    }
  }

  /** Parts that are not separate share a name, and both sources give it. */
  lemma OverlapIsGiven(secrets: map<string, SecretSource>, docs: map<string, Document>)
    requires forall id :: id in secrets ==> id in docs && Contribution(secrets[id], docs[id]).Some?
    requires !Separate(secrets.Keys, PartsOf(secrets, docs))
    ensures exists a, b, name, s, t :: a in secrets && b in secrets && a != b
              && GivesText(secrets[a], docs[a], name, s) && GivesText(secrets[b], docs[b], name, t)
  {
    hide Contribution, GivesText;
    var parts := PartsOf(secrets, docs);
    assert forall id :: id in secrets ==> parts[id] == Contribution(secrets[id], docs[id]) && parts[id].Some?;
    var a, b :| a in secrets && b in secrets && a != b && !(parts[a].value.Keys !! parts[b].value.Keys);
    var name :| name in parts[a].value && name in parts[b].value;
    ContributionGives(secrets[a], docs[a], name, parts[a].value[name]);
    ContributionGives(secrets[b], docs[b], name, parts[b].value[name]);
  }

  lemma UnionWithOneMore(ids: set<string>, id: string, parts: Parts)
    requires ids + {id} <= parts.Keys && id !in ids && Separate(ids, parts) && parts[id].Some?
    requires parts[id].value.Keys !! UnionOf(ids, parts).Keys
    ensures Separate(ids + {id}, parts)
    ensures UnionOf(ids + {id}, parts) == UnionOf(ids, parts) + parts[id].value
  {
    UnionIsExact(ids, parts);
    assert Separate(ids + {id}, parts);
    UnionIsExact(ids + {id}, parts);
    assert OwnedNames(ids + {id}, parts) == OwnedNames(ids, parts) + parts[id].value.Keys;
    UnionByParts(ids, id, parts);
  }

  lemma UnionByParts(ids: set<string>, id: string, parts: Parts)
    requires ids + {id} <= parts.Keys && Separate(ids + {id}, parts)
    requires OwnedNames(ids + {id}, parts) == OwnedNames(ids, parts) + parts[id].value.Keys
    ensures UnionOf(ids + {id}, parts) == UnionOf(ids, parts) + parts[id].value
  {
    forall name | name in OwnedNames(ids + {id}, parts)
      ensures UnionOf(ids + {id}, parts)[name] == (UnionOf(ids, parts) + parts[id].value)[name]
    {
      if name !in parts[id].value {
        var owner := OwnerOf(ids, parts, name);
        assert OwnerOf(ids + {id}, parts, name) == owner;
      } else {
        assert OwnerOf(ids + {id}, parts, name) == id;
      }
    }
  }

  /** The desired environment is never empty and always fits Docker's form. */
  lemma DesiredNames(labels: LabelSet, docs: map<string, Document>)
    requires Configured(labels).Some? && Configured(labels).value.enabled
    requires DesiredValues(Configured(labels).value.secrets, docs).Some?
    ensures var values := DesiredValues(Configured(labels).value.secrets, docs).value;
            values != map[] && AllRepresentable(values.Keys)
  {
    var secrets := Configured(labels).value.secrets;
    var parts := PartsOf(secrets, docs);
    var values := UnionOf(secrets.Keys, parts);
    ConfiguredSources(labels);
    UnionIsExact(secrets.Keys, parts);
    forall id | id in secrets ensures id in docs && parts[id].value != map[] && AllRepresentable(parts[id].value.Keys) {
      assert parts[id].Some?;
      ContributionNames(secrets[id], docs[id]);
    }
    var id :| id in secrets;
    var name :| name in parts[id].value;
    assert name in values;
  }

  // ---------------------------------------------------------------------
  // The nested loops of the controller
  // ---------------------------------------------------------------------

  /** addDesiredEnvironment: one name gets a value unless it already has an owner. */
  method AddDesired(values: Env, owners: map<string, string>, name: string, value: string, id: string)
    returns (ok: bool, values': Env, owners': map<string, string>)
    ensures ok <==> name !in owners
    ensures ok ==> values' == values[name := value] && owners' == owners[name := id]
  {
    values', owners' := values, owners;
    if name in owners {
      return false, values, owners;
    }
    owners' := owners'[name := id];
    values' := values'[name := value];
    return true, values', owners';
  }

  /** How far one source has come: `done` of its names are added, none was taken. */
  ghost predicate Progress(source: SecretSource, data: Document, id: string, done: set<string>,
                           before: Env, ownersBefore: map<string, string>, values: Env, owners: map<string, string>)
    requires ownersBefore.Keys == before.Keys
  {
    && done !! before.Keys
    && values.Keys == before.Keys + done && owners.Keys == values.Keys
    && (forall name :: name in before ==> values[name] == before[name] && owners[name] == ownersBefore[name])
    && (forall name :: name in done ==> ValueFor(source, data, name) == Some(values[name]) && owners[name] == id)
  }

  lemma NoProgress(source: SecretSource, data: Document, id: string, before: Env, ownersBefore: map<string, string>)
    requires ownersBefore.Keys == before.Keys
    ensures Progress(source, data, id, {}, before, ownersBefore, before, ownersBefore)
  {
  }

  /** The source contributes and none of its names is taken yet. */
  ghost predicate Addable(source: SecretSource, data: Document, taken: set<string>) {
    Contribution(source, data).Some? && Contribution(source, data).value.Keys !! taken
  }

  lemma Blocked(source: SecretSource, data: Document, taken: set<string>, name: string)
    requires name in RequestedNames(source, data)
    requires ValueFor(source, data, name).None? || name in taken
    ensures !Addable(source, data, taken)
  {
    if Contribution(source, data).Some? {
      assert name in Contribution(source, data).value.Keys;
    }
  }

  /** One iteration: the name joins the progress, or blocks the whole source. */
  method AddName(source: SecretSource, data: Document, id: string, ghost done: set<string>, name: string, value: string,
                 ghost before: Env, ghost ownersBefore: map<string, string>, values: Env, owners: map<string, string>)
    returns (ok: bool, values': Env, owners': map<string, string>)
    requires ownersBefore.Keys == before.Keys
    requires Progress(source, data, id, done, before, ownersBefore, values, owners)
    requires name in RequestedNames(source, data) && name !in done && ValueFor(source, data, name) == Some(value)
    ensures ok ==> Progress(source, data, id, done + {name}, before, ownersBefore, values', owners')
    ensures !ok ==> !Addable(source, data, before.Keys)
  {
    ok, values', owners' := AddDesired(values, owners, name, value, id);
    if !ok {
      Blocked(source, data, before.Keys, name);
    }
  }

  lemma AllNamesAdded(source: SecretSource, data: Document, id: string,
                      before: Env, ownersBefore: map<string, string>, values: Env, owners: map<string, string>)
    requires RequestedNames(source, data) != {} && ownersBefore.Keys == before.Keys
    requires Progress(source, data, id, RequestedNames(source, data), before, ownersBefore, values, owners)
    ensures Addable(source, data, before.Keys)
    ensures values == before + Contribution(source, data).value
  {
    var part := Contribution(source, data).value;
    assert part.Keys == RequestedNames(source, data);
    assert values.Keys == (before + part).Keys;
  }

  /** The loop body for one source: automatic import, or its explicit mappings. */
  method AddSource(source: SecretSource, data: Document, id: string, before: Env, ownersBefore: map<string, string>)
    returns (ok: bool, values: Env, owners: map<string, string>)
    requires ownersBefore.Keys == before.Keys
    ensures ok <==> Addable(source, data, before.Keys)
    ensures ok ==> Progress(source, data, id, RequestedNames(source, data), before, ownersBefore, values, owners)
    ensures ok ==> values == before + Contribution(source, data).value
  {
    values, owners := before, ownersBefore;
    if source.env == map[] {
      if data == map[] {
        return false, values, owners;
      }
      ok, values, owners := AddAllFields(source, data, id, before, ownersBefore);
    } else {
      ok, values, owners := AddMappedFields(source, data, id, before, ownersBefore);
    }
    if ok {
      AllNamesAdded(source, data, id, before, ownersBefore, values, owners);
    }
  }

  method AddAllFields(source: SecretSource, data: Document, id: string, before: Env, ownersBefore: map<string, string>)
    returns (ok: bool, values: Env, owners: map<string, string>)
    requires source.env == map[] && ownersBefore.Keys == before.Keys
    ensures ok ==> Progress(source, data, id, RequestedNames(source, data), before, ownersBefore, values, owners)
    ensures !ok ==> !Addable(source, data, before.Keys)
  {
    hide Addable, Progress, Contribution, ValuesFor;
    NoProgress(source, data, id, before, ownersBefore);
    values, owners := before, ownersBefore;
    var names := SortedKeys(data);
    SortedNamesDistinct(data.Keys);
    ghost var done: set<string> := {};
    for i := 0 to |names|
      invariant forall name :: name in done <==> name in names[..i]
      invariant Progress(source, data, id, done, before, ownersBefore, values, owners)
    {
      TakeOneMore(names, i);
      var name := names[i];
      assert name in data;
      if !Representable(name) {
        Blocked(source, data, before.Keys, name);
        return false, values, owners;
      }
      var value := Stringify(data[name]);
      if value.None? {
        Blocked(source, data, before.Keys, name);
        return false, values, owners;
      }
      ok, values, owners := AddName(source, data, id, done, name, value.value, before, ownersBefore, values, owners);
      if !ok {
        return;
      }
      done := done + {name};
    }
    assert done == data.Keys;
    ok := true;
  }

  method AddMappedFields(source: SecretSource, data: Document, id: string, before: Env,
                         ownersBefore: map<string, string>)
    returns (ok: bool, values: Env, owners: map<string, string>)
    requires source.env != map[] && ownersBefore.Keys == before.Keys
    ensures ok ==> Progress(source, data, id, RequestedNames(source, data), before, ownersBefore, values, owners)
    ensures !ok ==> !Addable(source, data, before.Keys)
  {
    hide Addable, Progress, Contribution, ValuesFor, Resolve, Stringify;
    NoProgress(source, data, id, before, ownersBefore);
    values, owners := before, ownersBefore;
    var names := SortedKeys(source.env);
    SortedNamesDistinct(source.env.Keys);
    ghost var done: set<string> := {};
    for i := 0 to |names|
      invariant forall name :: name in done <==> name in names[..i]
      invariant Progress(source, data, id, done, before, ownersBefore, values, owners)
    {
      TakeOneMore(names, i);
      var name := names[i];
      assert name in source.env;
      var value := ResolveField(data, source.env[name]);
      if value.None? {
        Blocked(source, data, before.Keys, name);
        return false, values, owners;
      }
      ok, values, owners := AddName(source, data, id, done, name, value.value, before, ownersBefore, values, owners);
      if !ok {
        return;
      }
      done := done + {name};
    }
    assert done == source.env.Keys;
    ok := true;
  }
}
