/**
 Conservation over a lifetime: after any injections under changing
 configurations and a final disable, only what was never managed is left, and
 all of it.
 */
module Lifetime {
  import opened Text
  import opened Environment
  import opened Labels
  import opened Desired
  import opened Service
  import opened Decision
  import opened Protocol

  /** An accepted injection, or an operator's change of labels other than the state. */
  datatype Event = Inject(answers: Answers) | Relabel(labels: LabelSet)

  function AsTask(spec: Spec, answers: Answers): Task { Task("", 0, spec, answers) }

  ghost predicate IsInjectionEvent(codec: Codec, spec: Spec, answers: Answers) {
    && Sending(codec, AsTask(spec, answers))
    && Configured(spec.labels).Some? && Configured(spec.labels).value.enabled
  }

  ghost predicate Happens(codec: Codec, before: Spec, event: Event, after: Spec) {
    match event
    case Inject(answers) => IsInjectionEvent(codec, before, answers) && after == Decide(codec, before, answers).spec
    case Relabel(labels) => StateOf(labels) == StateOf(before.labels) && after == before.(labels := labels)
  }

  ghost predicate IsLife(codec: Codec, specs: seq<Spec>, events: seq<Event>) {
    && |specs| == |events| + 1
    && specs[0].container.Some? && StateOf(specs[0].labels) == NO_STATE
    && forall i :: 0 <= i < |events| ==> Happens(codec, specs[i], events[i], specs[i + 1])
  }

  ghost function ValuesOf(spec: Spec, event: Event): Env {
    if event.Inject? && Configured(spec.labels).Some? then InjectionBy(AsTask(spec, event.answers)).values else map[]
  }

  /** Every name that one of the first `k` events installed. */
  ghost function EverManaged(specs: seq<Spec>, events: seq<Event>, k: nat): set<string>
    requires k <= |events| < |specs|
  {
    if k == 0 then {} else EverManaged(specs, events, k - 1) + ValuesOf(specs[k - 1], events[k - 1]).Keys
  }

  /** Did one of the first `k` events inject under a configuration that opens the gate? */
  ghost predicate EverOpened(specs: seq<Spec>, events: seq<Event>, k: nat)
    requires k <= |events| < |specs|
  {
    exists i :: 0 <= i < k && events[i].Inject? && BootstrapGated(specs[i])
  }

  /** The labels record these values, or nothing at all when there are none. */
  ghost predicate Remembers(codec: Codec, spec: Spec, values: Env) {
    if values == map[] then StateOf(spec.labels) == NO_STATE
    else exists config, versions :: CarriesInjection(codec, spec, config, versions, values)
  }

  /** The original list without the names ever managed, then the values now managed. */
  ghost predicate Parts(start: Spec, spec: Spec, ever: set<string>, lifted: bool, values: Env) {
    && start.container.Some? && spec.container.Some?
    && spec.container.value.env == Without(start.container.value.env, ever) + ManagedTail(values)
    && spec.container.value.rest == start.container.value.rest
    && spec.placement == (if lifted then Opened(start).placement else start.placement)
    && spec.name == start.name && spec.rest == start.rest
  }

  ghost predicate Conserved(codec: Codec, start: Spec, spec: Spec, ever: set<string>, lifted: bool, values: Env) {
    && values.Keys <= ever && AllRepresentable(values.Keys)
    && Remembers(codec, spec, values) && Parts(start, spec, ever, lifted, values)
  }

  /** The controller reads the remembered names back. */
  lemma RememberedNames(codec: Codec, spec: Spec, values: Env)
    requires codec.Faithful() && Remembers(codec, spec, values) && AllRepresentable(values.Keys)
    ensures codec.ManagedEnvironment(spec.labels).Some?
    ensures Members(codec.ManagedEnvironment(spec.labels).value) == values.Keys
  {
    if values != map[] {
      var config, versions :| CarriesInjection(codec, spec, config, versions, values);
      StateReadsBack(codec, spec.labels, config, versions, values);
      assert Members(SortedNames(values.Keys)) == values.Keys;
    }
  }

  /** Replacing the managed tail: the new list is again original entries and a tail. */
  lemma TailReplaced(entries: seq<string>, ever: set<string>, previous: Env, next: Env)
    requires previous.Keys <= ever && EqualsFree(previous.Keys)
    ensures Merged(Without(entries, ever) + ManagedTail(previous), previous.Keys, next)
            == Without(entries, ever + next.Keys) + ManagedTail(next)
  {
    hide Without, ManagedTail, EntryName;
    ManagedTailNames(previous);
    WithoutDropsTail(entries, ever, ManagedTail(previous), previous.Keys + next.Keys);
    UnionAssociates(ever, previous.Keys, next.Keys);
    assert ever + previous.Keys == ever;
    MergedIs(Without(entries, ever) + ManagedTail(previous), previous.Keys, next);
  }

  lemma MergedIs(entries: seq<string>, managed: set<string>, values: Env)
    ensures Merged(entries, managed, values) == Without(entries, managed + values.Keys) + ManagedTail(values)
  {
  }

  lemma InjectConserves(codec: Codec, start: Spec, spec: Spec, answers: Answers, ever: set<string>, lifted: bool,
                        values: Env)
    requires codec.Faithful() && Conserved(codec, start, spec, ever, lifted, values)
    requires IsInjectionEvent(codec, spec, answers)
    ensures var installed := InjectionBy(AsTask(spec, answers)).values;
            Conserved(codec, start, Decide(codec, spec, answers).spec, ever + installed.Keys,
                      lifted || BootstrapGated(spec), installed)
  {
    hide Decide, IsInjection, Configured, DesiredValues, Parts, Remembers, Recorded, Injected;
    var inputs, versions, installed := SubmitShape(codec, spec, answers);
    InjectionNames(codec, spec, answers, inputs, versions, installed);
    InjectionFacts(codec, spec, answers, inputs, versions, installed);
    ManagedBefore(codec, spec, answers, inputs, versions, installed, values);
    SentCarriesInjection(codec, AsTask(spec, answers));
    SentRemembers(codec, Decide(codec, spec, answers).spec, InjectionBy(AsTask(spec, answers)));
    InjectedParts(codec, start, spec, inputs, versions, installed, ever, lifted, values);
  }

  lemma InjectedParts(codec: Codec, start: Spec, spec: Spec, inputs: Inputs, versions: map<string, int>, installed: Env,
                      ever: set<string>, lifted: bool, values: Env)
    requires spec.container.Some? && Parts(start, spec, ever, lifted, values)
    requires Members(inputs.managed) == values.Keys && values.Keys <= ever && AllRepresentable(values.Keys)
    ensures Parts(start, Injected(codec, spec, inputs, versions, installed), ever + installed.Keys,
                  lifted || inputs.config.bootstrapGate, installed)
  {
    hide Injected, Opened, Merged, Without, ManagedTail, Members;
    InjectedShape(codec, spec, inputs, versions, installed);
    TailReplaced(start.container.value.env, ever, values, installed);
    OpenedTwice(start);
    OpenedActsOnPlacement(spec, if lifted then Opened(start) else start);
  }

  lemma InjectedShape(codec: Codec, spec: Spec, inputs: Inputs, versions: map<string, int>, values: Env)
    requires spec.container.Some?
    ensures var updated := Injected(codec, spec, inputs, versions, values);
            && updated.container.Some?
            && updated.container.value.env == Merged(spec.container.value.env, Members(inputs.managed), values)
            && updated.container.value.rest == spec.container.value.rest
            && updated.placement == (if inputs.config.bootstrapGate then Opened(spec).placement else spec.placement)
            && updated.name == spec.name && updated.rest == spec.rest
  {
    hide Merged, WithState, Ungated;
  }

  lemma SentRemembers(codec: Codec, spec: Spec, injection: Injection)
    requires Recorded(codec, spec, injection) && injection.values != map[]
    ensures Remembers(codec, spec, injection.values)
  {
    hide CarriesInjection;
  }

  lemma ManagedBefore(codec: Codec, spec: Spec, answers: Answers, inputs: Inputs, versions: map<string, int>,
                      installed: Env, values: Env)
    requires codec.Faithful() && IsInjection(codec, spec, answers, inputs, versions, installed)
    requires Remembers(codec, spec, values) && AllRepresentable(values.Keys)
    ensures Members(inputs.managed) == values.Keys
  {
    hide Configured, Remembers, DesiredValues;
    RememberedNames(codec, spec, values);
  }

  lemma OpenedTwice(spec: Spec)
    ensures Opened(Opened(spec)) == Opened(spec)
  {
    hide Ungated;
    if spec.placement.Some? {
      UngatedTwice(spec.placement.value.constraints);
    }
  }

  lemma OpenedActsOnPlacement(a: Spec, b: Spec)
    requires a.placement == b.placement
    ensures Opened(a).placement == Opened(b).placement
  {
  }

  lemma RelabelConserves(codec: Codec, start: Spec, spec: Spec, labels: LabelSet, ever: set<string>, lifted: bool,
                         values: Env)
    requires Conserved(codec, start, spec, ever, lifted, values) && StateOf(labels) == StateOf(spec.labels)
    ensures Conserved(codec, start, spec.(labels := labels), ever, lifted, values)
  {
    hide Without, ManagedTail, Opened, StateOf, Codec.StateFor;
    if values != map[] {
      var config, versions :| CarriesInjection(codec, spec, config, versions, values);
      assert CarriesInjection(codec, spec.(labels := labels), config, versions, values);
    }
  }

  /** Every moment of a life is conserved, for the values installed last. */
  lemma {:induction false} LifeConserves(codec: Codec, specs: seq<Spec>, events: seq<Event>, k: nat)
    returns (values: Env)
    requires codec.Faithful() && IsLife(codec, specs, events) && k <= |events|
    ensures Conserved(codec, specs[0], specs[k], EverManaged(specs, events, k), EverOpened(specs, events, k), values)
  {
    hide Conserved, Decide, Configured, InjectionBy, BootstrapGated;
    if k == 0 {
      values := map[];
      StartConserves(codec, specs[0]);
      assert !EverOpened(specs, events, 0);
    } else {
      values := LifeConserves(codec, specs, events, k - 1);
      assert Happens(codec, specs[k - 1], events[k - 1], specs[k]);
      var ever, lifted := EverManaged(specs, events, k - 1), EverOpened(specs, events, k - 1);
      EverOpenedStep(specs, events, k);
      match events[k - 1] {
        case Inject(answers) =>
          assert IsInjectionEvent(codec, specs[k - 1], answers);
          InjectConserves(codec, specs[0], specs[k - 1], answers, ever, lifted, values);
          assert EverManaged(specs, events, k) == ever + InjectionBy(AsTask(specs[k - 1], answers)).values.Keys;
          assert EverOpened(specs, events, k) == (lifted || BootstrapGated(specs[k - 1]));
          values := InjectionBy(AsTask(specs[k - 1], answers)).values;
        case Relabel(labels) =>
          RelabelConserves(codec, specs[0], specs[k - 1], labels, ever, lifted, values);
          assert EverManaged(specs, events, k) == ever + {};
          assert ever + {} == ever;
          assert EverOpened(specs, events, k) == lifted;
      }
    }
  }

  /** The labels last given by an operator, after the first `k` events. */
  ghost function GivenLabels(specs: seq<Spec>, events: seq<Event>, k: nat): LabelSet
    requires k <= |events| < |specs|
  {
    if k == 0 then specs[0].labels
    else if events[k - 1].Relabel? then events[k - 1].labels
    else GivenLabels(specs, events, k - 1)
  }

  /** No injection moves a label that is not part of the state. */
  lemma {:induction false} LabelsConserved(codec: Codec, specs: seq<Spec>, events: seq<Event>, k: nat)
    requires codec.Faithful() && IsLife(codec, specs, events) && k <= |events|
    ensures WithoutState(specs[k].labels) == WithoutState(GivenLabels(specs, events, k))
  {
    hide Decide, Configured, WithoutState;
    if k > 0 {
      LabelsConserved(codec, specs, events, k - 1);
      assert Happens(codec, specs[k - 1], events[k - 1], specs[k]);
      if events[k - 1].Inject? {
        InjectKeepsLabels(codec, specs[k - 1], events[k - 1].answers);
      }
    }
  }

  lemma InjectKeepsLabels(codec: Codec, spec: Spec, answers: Answers)
    requires codec.Faithful() && IsInjectionEvent(codec, spec, answers)
    ensures WithoutState(Decide(codec, spec, answers).spec.labels) == WithoutState(spec.labels)
  {
    hide Decide, Configured, IsInjection, Injected, WithoutState;
    var inputs, versions, values := SubmitShape(codec, spec, answers);
    InjectionNames(codec, spec, answers, inputs, versions, values);
    InjectionFacts(codec, spec, answers, inputs, versions, values);
    InjectedLabels(codec, spec, inputs, versions, values);
  }

  lemma EverOpenedStep(specs: seq<Spec>, events: seq<Event>, k: nat)
    requires 0 < k <= |events| < |specs|
    ensures EverOpened(specs, events, k)
            <==> EverOpened(specs, events, k - 1) || (events[k - 1].Inject? && BootstrapGated(specs[k - 1]))
  {
    hide BootstrapGated;
    if EverOpened(specs, events, k - 1) {
      var i :| 0 <= i < k - 1 && events[i].Inject? && BootstrapGated(specs[i]);
      assert 0 <= i < k && events[i].Inject? && BootstrapGated(specs[i]);
    }
    if events[k - 1].Inject? && BootstrapGated(specs[k - 1]) {
      assert 0 <= k - 1 < k;
    }
  }

  lemma StartConserves(codec: Codec, start: Spec)
    requires start.container.Some? && StateOf(start.labels) == NO_STATE
    ensures Conserved(codec, start, start, {}, false, map[])
  {
    var env := start.container.value.env;
    WithoutAbsent(env, {});
    assert ManagedTail(map[]) == [];
    assert Without(env, {}) + [] == env;
  }

  /**
   Conservation. After any life and a final disable, the environment is the
   original list without every name that was ever managed, in its original
   order and spelling; the placement lost at most its reserved constraints, and
   only to an injection that opened the gate; the labels are those an operator
   gave last, without any state.
   */
  lemma Conservation(codec: Codec, specs: seq<Spec>, events: seq<Event>, answers: Answers)
    requires codec.Faithful() && IsLife(codec, specs, events)
    requires Sending(codec, AsTask(specs[|events|], answers))
    requires Configured(specs[|events|].labels).Some? && !Configured(specs[|events|].labels).value.enabled
    ensures var start, final := specs[0], Decide(codec, specs[|events|], answers).spec;
            && final.container.Some?
            && final.container.value.env == Without(start.container.value.env, EverManaged(specs, events, |events|))
            && final.container.value.rest == start.container.value.rest
            && final.placement
               == (if EverOpened(specs, events, |events|) then Opened(start).placement else start.placement)
            && StateOf(final.labels) == NO_STATE
            && final.labels == WithoutState(GivenLabels(specs, events, |events|))
            && final.name == start.name && final.rest == start.rest
  {
    hide Decide, Configured, Happens, EverManaged, EverOpened, Remembers, Without, ManagedTail, Opened;
    var last := specs[|events|];
    var ever := EverManaged(specs, events, |events|);
    var values := LifeConserves(codec, specs, events, |events|);
    RememberedNames(codec, last, values);
    CleanupSent(codec, last, answers);
    ManagedTailNames(values);
    WithoutDropsTail(specs[0].container.value.env, ever, ManagedTail(values), values.Keys);
    assert ever + values.Keys == ever;
    LabelsConserved(codec, specs, events, |events|);
    StateRoundTrip(last.labels, NO_STATE);
  }

  lemma CleanupSent(codec: Codec, spec: Spec, answers: Answers)
    requires Sending(codec, AsTask(spec, answers))
    requires Configured(spec.labels).Some? && !Configured(spec.labels).value.enabled
    ensures spec.container.Some? && codec.ManagedEnvironment(spec.labels).Some?
    ensures Decide(codec, spec, answers).spec == Cleaned(spec, codec.ManagedEnvironment(spec.labels).value)
  {
    hide Configured;
  }
}
