/**
 A Swarm service: its specification as a value, and the Go object graph behind
 it, where maps, pointers and slices can be shared.
 */
module Service {
  import opened Wrappers
  import opened Text
  import opened Labels

  // ---------------------------------------------------------------------
  // Specifications as values
  // ---------------------------------------------------------------------

  /** `rest` stands for every field that the controller never looks at. */
  datatype Container = Container(env: seq<string>, rest: string)
  datatype Placement = Placement(constraints: seq<string>, rest: string)
  datatype Spec = Spec(name: string, labels: LabelSet, container: Option<Container>,
                       placement: Option<Placement>, rest: string)

  /** The reserved constraint, with any white space around its operator. */
  predicate IsGate(constraint: string) {
    WithoutSpaces(constraint) == GATE_CONSTRAINT
  }

  /** A constraint without white space is the gate exactly when it is this text. */
  lemma GateText(constraint: string)
    requires Solid(constraint)
    ensures IsGate(constraint)
            <==> constraint == "node.labels." + "io.github.docker-vault-injector" + ".gate==open"
  {
    hide IsSpace, WithoutSpaces;
    WithoutSpacesOf(constraint);
  }

  /** White space is irrelevant wherever it stands. */
  lemma GateSpacing(head: string, blank: string, tail: string)
    requires Blank(blank)
    ensures IsGate(head + blank + tail) <==> IsGate(head + tail)
  {
    hide IsSpace;
    WithoutSpacesConcat(head + blank, tail);
    WithoutSpacesConcat(head, blank);
    WithoutSpacesConcat(head, tail);
    WithoutSpacesOf(blank);
  }

  function Constraints(spec: Spec): seq<string> {
    if spec.placement.None? then [] else spec.placement.value.constraints
  }

  ghost predicate HasGate(spec: Spec) {
    exists constraint :: constraint in Constraints(spec) && IsGate(constraint)
  }

  /** The constraints the operator owns, in order and as spelled. */
  function Ungated(constraints: seq<string>): seq<string> {
    if constraints == [] then []
    else
      var last := constraints[|constraints| - 1];
      Ungated(constraints[..|constraints| - 1]) + if IsGate(last) then [] else [last]
  }

  /** Exactly the constraints that are not the gate are kept, each where it was. */
  lemma {:induction false} UngatedExactly(constraints: seq<string>) returns (picked: seq<nat>)
    ensures Picks(constraints, Ungated(constraints), picked)
    ensures forall i: nat :: i in picked <==> i < |constraints| && !IsGate(constraints[i])
  {
    hide IsGate, Picks;
    if constraints == [] {
      picked := [];
      NothingPicked();
    } else {
      var last := |constraints| - 1;
      var init := UngatedExactly(constraints[..last]);
      if IsGate(constraints[last]) {
        PicksSkip(constraints, Ungated(constraints[..last]), init);
        assert Ungated(constraints) == Ungated(constraints[..last]);
        picked := init;
      } else {
        PicksTake(constraints, Ungated(constraints[..last]), init);
        picked := init + [last];
      }
      forall i: nat ensures i in picked <==> i < |constraints| && !IsGate(constraints[i]) {
        assert i < last ==> constraints[..last][i] == constraints[i];
      }
    }
  }

  lemma {:induction false} UngatedMembers(constraints: seq<string>)
    ensures forall c :: c in Ungated(constraints) <==> c in constraints && !IsGate(c)
    ensures |Ungated(constraints)| <= |constraints|
  {
    hide IsGate;
    if constraints != [] {
      UngatedMembers(constraints[..|constraints| - 1]);
      assert constraints == constraints[..|constraints| - 1] + [constraints[|constraints| - 1]];
    }
  }

  /** Filtering changes nothing exactly when there is no reserved constraint. */
  lemma {:induction false} UngatedFixpoint(constraints: seq<string>)
    ensures Ungated(constraints) == constraints <==> forall c :: c in constraints ==> !IsGate(c)
  {
    hide IsGate;
    if forall c :: c in constraints ==> !IsGate(c) {
      UngatedKeepsAll(constraints);
    } else {
      UngatedMembers(constraints);
    }
  }

  lemma {:induction false} UngatedKeepsAll(constraints: seq<string>)
    requires forall c :: c in constraints ==> !IsGate(c)
    ensures Ungated(constraints) == constraints
  {
    hide IsGate;
    if constraints != [] {
      var init, last := constraints[..|constraints| - 1], constraints[|constraints| - 1];
      assert last in constraints;
      forall c | c in init ensures c in constraints {
      }
      UngatedKeepsAll(init);
    }
  }

  lemma UngatedTwice(constraints: seq<string>)
    ensures Ungated(Ungated(constraints)) == Ungated(constraints)
  {
    UngatedMembers(constraints);
    UngatedFixpoint(Ungated(constraints));
  }

  /** The specification once every reserved constraint is gone. */
  function Opened(spec: Spec): Spec {
    if spec.placement.None? then spec
    else spec.(placement := Some(spec.placement.value.(constraints := Ungated(spec.placement.value.constraints))))
  }

  // ---------------------------------------------------------------------
  // The object graph
  // ---------------------------------------------------------------------

  class LabelMap {
    var entries: LabelSet

    constructor (entries: LabelSet)
      ensures this.entries == entries
    {
      this.entries := entries;
    }
  }

  class ContainerSpec {
    var env: seq<string>
    var rest: string

    constructor (env: seq<string>, rest: string)
      ensures this.env == env && this.rest == rest
    {
      this.env, this.rest := env, rest;
    }
  }

  /** `constraints` is a slice: the first `length` cells of a backing array. */
  class PlacementSpec {
    var backing: array<string>
    var length: nat
    var rest: string

    constructor (backing: array<string>, length: nat, rest: string)
      ensures this.backing == backing && this.length == length && this.rest == rest
    {
      this.backing, this.length, this.rest := backing, length, rest;
    }
  }

  /** A service is copied by value; what it points to is not. */
  datatype ServiceObject = ServiceObject(
    id: string, version: nat, name: string, labels: LabelMap?,
    container: ContainerSpec?, placement: PlacementSpec?, rest: string)
  {
    ghost predicate Valid()
      reads placement
    {
      placement != null ==> placement.length <= placement.backing.Length
    }

    function Value(): Spec
      requires Valid()
      reads labels, container, placement, if placement == null then {} else {placement.backing}
    {
      Spec(name,
           if labels == null then map[] else labels.entries,
           if container == null then None else Some(Container(container.env, container.rest)),
           if placement == null then None
           else Some(Placement(placement.backing[..placement.length], placement.rest)),
           rest)
    }
  }

  method HasBootstrapGate(service: ServiceObject) returns (found: bool)
    requires service.Valid()
    ensures found <==> HasGate(service.Value())
  {
    var placement := service.placement;
    if placement == null {
      return false;
    }
    for i := 0 to placement.length
      invariant forall j :: 0 <= j < i ==> !IsGate(placement.backing[j])
    {
      if IsGate(placement.backing[i]) {
        assert placement.backing[i] in Constraints(service.Value());
        return true;
      }
    }
    return false;
  }

  /**
   Copies exactly the map, the pointers and the slices that the controller
   edits, so that editing the copy cannot reach the inspected service.
   */
  method CloneServiceForUpdate(service: ServiceObject) returns (updated: ServiceObject)
    requires service.Valid()
    ensures updated.Valid() && updated.Value() == service.Value()
    ensures updated.id == service.id && updated.version == service.version
    ensures updated.labels != null && fresh(updated.labels)
    ensures updated.container != null <==> service.container != null
    ensures updated.container != null ==> fresh(updated.container)
    ensures updated.placement != null <==> service.placement != null
    ensures updated.placement != null ==> fresh(updated.placement) && fresh(updated.placement.backing)
  {
    var labels := new LabelMap(if service.labels == null then map[] else service.labels.entries);
    updated := service.(labels := labels);
    if service.container != null {
      var container := new ContainerSpec(service.container.env, service.container.rest);
      updated := updated.(container := container);
    }
    if service.placement != null {
      var original := service.placement;
      var backing := new string[original.length](i requires 0 <= i < original.length
                                                   requires original.length <= original.backing.Length
                                                   reads original, original.backing => original.backing[i]);
      assert backing[..] == original.backing[..original.length];
      var placement := new PlacementSpec(backing, original.length, original.rest);
      updated := updated.(placement := placement);
      assert backing[..original.length] == backing[..];
    }
  }

  lemma UngatedOneMore(constraints: seq<string>, i: nat)
    requires i < |constraints|
    ensures Ungated(constraints[..i + 1])
            == Ungated(constraints[..i]) + if IsGate(constraints[i]) then [] else [constraints[i]]
  {
    assert constraints[..i + 1][..i] == constraints[..i];
  }

  /** append(constraints, constraint) on a slice whose backing array has room. */
  method Store(backing: array<string>, kept: nat, constraint: string)
    requires kept < backing.Length
    modifies backing
    ensures backing[..kept + 1] == old(backing[..kept]) + [constraint]
    ensures forall j :: kept < j < backing.Length ==> backing[j] == old(backing[j])
  {
    backing[kept] := constraint;
  }

  /**
   The compaction loop: the kept constraints overwrite the front of the array
   they are read from.
   */
  method Compact(backing: array<string>, length: nat) returns (kept: nat, removed: bool)
    requires length <= backing.Length
    modifies backing
    ensures kept <= length
    ensures backing[..kept] == Ungated(old(backing[..length]))
    ensures removed <==> exists c :: c in old(backing[..length]) && IsGate(c)
  {
    hide IsGate;
    ghost var constraints := backing[..length];
    kept, removed := 0, false;
    for i := 0 to length
      invariant kept <= i
      invariant forall j :: i <= j < length ==> backing[j] == constraints[j]
      invariant backing[..kept] == Ungated(constraints[..i])
      invariant removed <==> exists c :: c in constraints[..i] && IsGate(c)
    {
      UngatedOneMore(constraints, i);
      assert constraints[..i + 1] == constraints[..i] + [constraints[i]];
      var constraint := backing[i];
      if IsGate(constraint) {
        removed := true;
        continue;
      }
      Store(backing, kept, constraint);
      kept := kept + 1;
    }
    assert constraints[..length] == constraints;
  }

  /**
   Removes every copy of the reserved constraint in place: what is left is the
   order-preserving filter, and nothing outside the placement is written.
   */
  method RemoveBootstrapGate(service: ServiceObject) returns (removed: bool)
    requires service.Valid()
    modifies service.placement, if service.placement == null then {} else {service.placement.backing}
    ensures service.Valid()
            && (service.placement != null ==> service.placement.backing == old(service.placement.backing))
    ensures removed <==> old(HasGate(service.Value()))
    ensures service.Value() == Opened(old(service.Value()))
  {
    var placement := service.placement;
    if placement == null {
      return false;
    }
    var kept;
    kept, removed := Compact(placement.backing, placement.length);
    placement.length := kept;
  }
}
