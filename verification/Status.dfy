/**
 The status store: an in-memory map that refines the history of what was
 reported to it.
 */
module Status {
  import opened Wrappers
  import opened Text
  import opened Controller

  /** What the store keeps of one service; times are instants of its clock. */
  datatype Entry = Entry(id: string, name: string, lastAttempt: int, lastSuccess: Option<int>, warnings: seq<string>)

  type Entries = map<string, Entry>

  datatype Operation =
    | Record(report: Report, successful: bool, at: int)
    | Remove(id: string)
    | Prune(active: set<string>)

  /** The entry that replaces what is known of a service. */
  function Recorded(entries: Entries, report: Report, successful: bool, at: int): Entry {
    var known := report.id in entries;
    Entry(report.id, report.name, at,
          if successful then Some(at) else if known then entries[report.id].lastSuccess else None,
          if known && !report.updateAttempted then entries[report.id].warnings else report.warnings)
  }

  ghost function Members(ids: seq<string>): set<string> {
    set id | id in ids
  }

  function Apply(entries: Entries, op: Operation): Entries {
    match op
    case Record(report, successful, at) => entries[report.id := Recorded(entries, report, successful, at)]
    case Remove(id) => entries - {id}
    case Prune(active) => map id | id in entries && id in active :: entries[id]
  }

  function Replay(ops: seq<Operation>): Entries {
    if ops == [] then map[] else Apply(Replay(ops[..|ops| - 1]), ops[|ops| - 1])
  }

  // ---------------------------------------------------------------------
  // What the history says, without replaying it
  // ---------------------------------------------------------------------

  datatype Kind = AnyReport | Success | WithUpdate

  /** The operation is a report of this kind about this service. */
  predicate Is(op: Operation, id: string, kind: Kind) {
    && op.Record? && op.report.id == id
    && (kind.Success? ==> op.successful) && (kind.WithUpdate? ==> op.report.updateAttempted)
  }

  predicate Forgets(op: Operation, id: string) {
    (op.Remove? && op.id == id) || (op.Prune? && id !in op.active)
  }

  /** A report of this kind at `i`, with no removal of the service since. */
  ghost predicate Found(ops: seq<Operation>, id: string, i: int, kind: Kind) {
    0 <= i < |ops| && Is(ops[i], id, kind) && forall j :: i < j < |ops| ==> !Forgets(ops[j], id)
  }

  /** The latest report of this kind since the service was last removed. */
  ghost predicate Latest(ops: seq<Operation>, id: string, i: int, kind: Kind) {
    Found(ops, id, i, kind) && forall j :: i < j < |ops| ==> !Is(ops[j], id, kind)
  }

  lemma FoundStep(ops: seq<Operation>, id: string, i: int, kind: Kind)
    requires ops != []
    ensures var init, last := ops[..|ops| - 1], ops[|ops| - 1];
            && (Found(ops, id, i, kind) <==>
                  (i == |init| && Is(last, id, kind)) || (Found(init, id, i, kind) && !Forgets(last, id)))
            && (Latest(ops, id, i, kind) <==>
                  (i == |init| && Is(last, id, kind))
                  || (Latest(init, id, i, kind) && !Forgets(last, id) && !Is(last, id, kind)))
  {
    hide Forgets, Is;
    var init, last := ops[..|ops| - 1], ops[|ops| - 1];
    assert forall j :: 0 <= j < |init| ==> init[j] == ops[j];
    if 0 <= i < |init| {
      assert Found(ops, id, i, kind) ==> forall j :: i < j < |init| ==> !Forgets(init[j], id);
      assert Latest(ops, id, i, kind) ==> forall j :: i < j < |init| ==> !Is(init[j], id, kind);
    }
  }

  /** A service is stored exactly when it was reported and not removed since. */
  lemma {:induction false} StoredExactly(ops: seq<Operation>, id: string)
    ensures id in Replay(ops) <==> exists i :: Found(ops, id, i, AnyReport)
  {
    hide Found, Latest;
    if ops == [] {
      NothingFound(id, AnyReport);
    } else {
      var init, last := ops[..|ops| - 1], ops[|ops| - 1];
      StoredExactly(init, id);
      forall i ensures Found(ops, id, i, AnyReport) <==>
                         || (i == |init| && Is(last, id, AnyReport))
                         || (Found(init, id, i, AnyReport) && !Forgets(last, id))
      {
        FoundStep(ops, id, i, AnyReport);
      }
      FoundStep(ops, id, |init|, AnyReport);
      if i :| Found(init, id, i, AnyReport) {
        FoundStep(ops, id, i, AnyReport);
      }
    }
  }

  lemma NothingFound(id: string, kind: Kind)
    ensures forall i :: !Found([], id, i, kind)
  {
  }

  /**
   The stored last success is the time of the latest successful report since
   the service was last removed; there is none when there was no such report.
   */
  lemma {:induction false} LastSuccessIs(ops: seq<Operation>, id: string) returns (i: int)
    requires id in Replay(ops)
    ensures match Replay(ops)[id].lastSuccess
            case Some(at) => Latest(ops, id, i, Success) && ops[i].at == at
            case None => forall k :: !Found(ops, id, k, Success)
  {
    hide Found, Latest;
    var init, last := ops[..|ops| - 1], ops[|ops| - 1];
    i := |init|;
    if id in Replay(init) {
      i := LastSuccessIs(init, id);
    } else {
      StoredExactly(init, id);
      forall k ensures !Found(init, id, k, Success) {
        SuccessIsReport(init, id, k, Success);
      }
    }
    forall k ensures Found(ops, id, k, Success) <==>
                       (k == |init| && Is(last, id, Success)) || (Found(init, id, k, Success) && !Forgets(last, id)) {
      FoundStep(ops, id, k, Success);
    }
    FoundStep(ops, id, i, Success);
    FoundStep(ops, id, |init|, Success);
    LatestBounds(init, id, i, Success);
    if Is(last, id, Success) {
      i := |init|;
    }
  }

  /** The stored name and the last attempt are those of the latest report since the service was last removed. */
  lemma {:induction false} LastAttemptIs(ops: seq<Operation>, id: string) returns (i: int)
    requires id in Replay(ops)
    ensures Latest(ops, id, i, AnyReport)
    ensures Replay(ops)[id].id == id && Replay(ops)[id].name == ops[i].report.name
    ensures Replay(ops)[id].lastAttempt == ops[i].at
  {
    hide Found, Latest;
    var init, last := ops[..|ops| - 1], ops[|ops| - 1];
    i := |init|;
    FoundStep(ops, id, i, AnyReport);
    if !Is(last, id, AnyReport) {
      i := LastAttemptIs(init, id);
      FoundStep(ops, id, i, AnyReport);
      LatestBounds(init, id, i, AnyReport);
    }
  }

  lemma SuccessIsReport(ops: seq<Operation>, id: string, k: int, kind: Kind)
    ensures Found(ops, id, k, kind) ==> Found(ops, id, k, AnyReport)
  {
  }

  lemma LatestBounds(ops: seq<Operation>, id: string, i: int, kind: Kind)
    ensures Latest(ops, id, i, kind) ==> 0 <= i < |ops|
  {
  }

  /** Reports as the controller makes them: warnings come only with an update. */
  ghost predicate Shaped(ops: seq<Operation>) {
    forall op :: op in ops && op.Record? && !op.report.updateAttempted ==> op.report.warnings == []
  }

  /**
   The stored warnings are those of the latest report that carried an update
   since the service was last removed, and none without such a report.
   */
  lemma {:induction false} WarningsAre(ops: seq<Operation>, id: string) returns (i: int)
    requires id in Replay(ops) && Shaped(ops)
    ensures || (Latest(ops, id, i, WithUpdate) && Replay(ops)[id].warnings == ops[i].report.warnings)
            || ((forall k :: !Found(ops, id, k, WithUpdate)) && Replay(ops)[id].warnings == [])
  {
    hide Found, Latest;
    var init, last := ops[..|ops| - 1], ops[|ops| - 1];
    assert last in ops;
    i := |init|;
    if id in Replay(init) {
      i := WarningsAre(init, id);
    } else {
      StoredExactly(init, id);
      forall k ensures !Found(init, id, k, WithUpdate) {
        SuccessIsReport(init, id, k, WithUpdate);
      }
    }
    forall k ensures Found(ops, id, k, WithUpdate) <==>
                       || (k == |init| && Is(last, id, WithUpdate))
                       || (Found(init, id, k, WithUpdate) && !Forgets(last, id))
    {
      FoundStep(ops, id, k, WithUpdate);
    }
    FoundStep(ops, id, i, WithUpdate);
    FoundStep(ops, id, |init|, WithUpdate);
    LatestBounds(init, id, i, WithUpdate);
    if Is(last, id, WithUpdate) {
      i := |init|;
    }
  }

  // ---------------------------------------------------------------------
  // Snapshots: the entries in the order of their names, then of their ids
  // ---------------------------------------------------------------------

  predicate ComesBefore(a: Entry, b: Entry) {
    Precedes(a.name, b.name) || (a.name == b.name && Precedes(a.id, b.id))
  }

  ghost predicate Ordered(entries: seq<Entry>) {
    forall i, j :: 0 <= i < j < |entries| ==> ComesBefore(entries[i], entries[j])
  }

  /** Every entry is stored under its own id. */
  ghost predicate WellKeyed(entries: Entries) {
    forall id :: id in entries ==> entries[id].id == id
  }

  /** The snapshot of a store: all its entries, each once, in order. */
  ghost predicate IsSnapshot(entries: Entries, snapshot: seq<Entry>) {
    && Ordered(snapshot)
    && forall entry :: entry in snapshot <==> entry.id in entries && entries[entry.id] == entry
  }

  /** In a snapshot the names never decrease, and among equal names the ids increase. */
  lemma SnapshotOrder(entries: Entries, snapshot: seq<Entry>, i: nat, j: nat)
    requires IsSnapshot(entries, snapshot) && i < j < |snapshot|
    ensures !Precedes(snapshot[j].name, snapshot[i].name)
    ensures snapshot[i].name == snapshot[j].name ==> Precedes(snapshot[i].id, snapshot[j].id)
  {
    hide Precedes;
    PrecedesIsIrreflexive(snapshot[i].name);
    if Precedes(snapshot[i].name, snapshot[j].name) {
      PrecedesAsymmetric(snapshot[i].name, snapshot[j].name);
    }
  }

  lemma ComesBeforeIsTransitive(a: Entry, b: Entry, c: Entry)
    requires ComesBefore(a, b) && ComesBefore(b, c)
    ensures ComesBefore(a, c)
  {
    hide Precedes;
    if Precedes(a.name, b.name) && Precedes(b.name, c.name) {
      PrecedesIsTransitive(a.name, b.name, c.name);
    }
    if Precedes(a.id, b.id) && Precedes(b.id, c.id) {
      PrecedesIsTransitive(a.id, b.id, c.id);
    }
  }

  lemma ComesBeforeIsIrreflexive(a: Entry)
    ensures !ComesBefore(a, a)
  {
    PrecedesIsIrreflexive(a.name);
    PrecedesIsIrreflexive(a.id);
  }

  lemma ComesBeforeIsTotal(a: Entry, b: Entry)
    requires a.id != b.id
    ensures ComesBefore(a, b) || ComesBefore(b, a)
  {
    hide Precedes;
    if a.name != b.name {
      PrecedesIsTotal(a.name, b.name);
    }
    PrecedesIsTotal(a.id, b.id);
  }

  /** The order leaves no choice: a store has one snapshot. */
  lemma {:induction false} SnapshotIsUnique(a: seq<Entry>, b: seq<Entry>)
    requires Ordered(a) && Ordered(b)
    requires forall entry :: entry in a <==> entry in b
    ensures a == b
  {
    hide ComesBefore;
    assert a != [] ==> a[0] in a;
    assert b != [] ==> b[0] in b;
    if a != [] && b != [] {
      HeadsAgree(a, b);
      forall entry ensures entry in a[1..] <==> entry in b[1..] {
        RestMembers(a, entry);
        RestMembers(b, entry);
      }
      SnapshotIsUnique(a[1..], b[1..]);
      assert a == [a[0]] + a[1..] && b == [b[0]] + b[1..];
    }
  }

  lemma HeadsAgree(a: seq<Entry>, b: seq<Entry>)
    requires Ordered(a) && Ordered(b) && a != [] && b != [] && a[0] in b && b[0] in a
    ensures a[0] == b[0]
  {
    hide ComesBefore;
    var i :| 0 <= i < |a| && a[i] == b[0];
    var j :| 0 <= j < |b| && b[j] == a[0];
    if 0 < i && 0 < j {
      ComesBeforeIsTransitive(a[0], b[0], a[0]);
      ComesBeforeIsIrreflexive(a[0]);
    }
  }

  lemma RestMembers(entries: seq<Entry>, entry: Entry)
    requires Ordered(entries) && entries != []
    ensures entry in entries[1..] <==> entry in entries && entry != entries[0]
  {
    hide ComesBefore;
    ComesBeforeIsIrreflexive(entries[0]);
    assert entries == [entries[0]] + entries[1..];
    if entry in entries[1..] {
      var i :| 0 <= i < |entries[1..]| && entries[1..][i] == entry;
      assert entries[i + 1] == entry;
    }
  }

  function InsertEntry(entry: Entry, entries: seq<Entry>): seq<Entry> {
    if entries != [] && ComesBefore(entries[0], entry) then [entries[0]] + InsertEntry(entry, entries[1..])
    else [entry] + entries
  }

  lemma {:induction false} InsertEntryKeepsOrder(entry: Entry, entries: seq<Entry>)
    requires Ordered(entries)
    requires forall other :: other in entries ==> other.id != entry.id
    ensures Ordered(InsertEntry(entry, entries))
    ensures forall other :: other in InsertEntry(entry, entries) <==> other in entries || other == entry
  {
    hide ComesBefore;
    if entries != [] {
      assert entries == [entries[0]] + entries[1..];
      if ComesBefore(entries[0], entry) {
        InsertEntryKeepsOrder(entry, entries[1..]);
        var rest := InsertEntry(entry, entries[1..]);
        forall j | 0 <= j < |rest| ensures ComesBefore(entries[0], rest[j]) {
          assert rest[j] in rest;
        }
      } else {
        ComesBeforeIsTotal(entry, entries[0]);
        forall j | 0 < j < |entries| ensures ComesBefore(entry, entries[j]) {
          ComesBeforeIsTransitive(entry, entries[0], entries[j]);
        }
      }
    }
  }

  // ---------------------------------------------------------------------
  // The store
  // ---------------------------------------------------------------------

  /** A complete file: the heartbeat and the snapshot it was written with. */
  datatype File = File(heartbeat: int, services: seq<Entry>)

  class Store {
    var services: Entries
    var heartbeat: int
    /** The file as readers see it: always some complete earlier or current state. */
    var file: File
    ghost var history: seq<Operation>

    ghost predicate Valid()
      reads this
    {
      WellKeyed(services) && services == Replay(history)
    }

    /** The file shows what the store holds now. */
    ghost predicate Published()
      reads this
    {
      file.heartbeat == heartbeat && IsSnapshot(services, file.services)
    }

    constructor (now: int)
      ensures Valid() && Published() && history == [] && heartbeat == now && services == map[]
    {
      services, heartbeat, history := map[], now, [];
      file := File(now, []);
    }

    method SnapshotLocked() returns (snapshot: seq<Entry>)
      requires WellKeyed(services)
      ensures IsSnapshot(services, snapshot)
    {
      hide ComesBefore;
      snapshot := [];
      var rest := services.Keys;
      while rest != {}
        invariant rest <= services.Keys
        invariant Ordered(snapshot)
        invariant forall entry :: entry in snapshot <==>
                    entry.id in services && entry.id !in rest && services[entry.id] == entry
      {
        var id :| id in rest;
        InsertEntryKeepsOrder(services[id], snapshot);
        snapshot := InsertEntry(services[id], snapshot);
        rest := rest - {id};
      }
    }

    /** Replaces the file as a whole, or leaves it when the disk refuses. */
    method WriteLocked(disk: bool) returns (ok: bool)
      requires WellKeyed(services)
      modifies this`file
      ensures ok == disk && if ok then Published() else file == old(file)
    {
      if !disk {
        return false;
      }
      var snapshot := SnapshotLocked();
      file := File(heartbeat, snapshot);
      return true;
    }

    method Record(report: Report, successful: bool, now: int, disk: bool) returns (ok: bool)
      requires Valid()
      modifies this
      ensures Valid() && history == old(history) + [Operation.Record(report, successful, now)] && heartbeat == now
      ensures ok == disk && if ok then Published() else file == old(file)
    {
      var lastSuccess: Option<int> := None;
      if successful {
        lastSuccess := Some(now);
      } else if report.id in services {
        lastSuccess := services[report.id].lastSuccess;
      }
      var warnings := report.warnings;
      if report.id in services && !report.updateAttempted {
        warnings := services[report.id].warnings;
      }
      ReplayOneMore(history, Operation.Record(report, successful, now));
      services := services[report.id := Entry(report.id, report.name, now, lastSuccess, warnings)];
      heartbeat := now;
      history := history + [Operation.Record(report, successful, now)];
      ok := WriteLocked(disk);
    }

    method Heartbeat(now: int, disk: bool) returns (ok: bool)
      requires Valid()
      modifies this`heartbeat, this`file
      ensures Valid() && heartbeat == now
      ensures ok == disk && if ok then Published() else file == old(file)
    {
      heartbeat := now;
      ok := WriteLocked(disk);
    }

    method Remove(id: string, disk: bool) returns (ok: bool)
      requires Valid()
      modifies this`services, this`history, this`file
      ensures Valid() && history == old(history) + [Operation.Remove(id)]
      ensures id in old(services) && disk ==> ok && Published()
      ensures id !in old(services) || !disk ==> file == old(file) && ok == (id !in old(services))
    {
      ReplayOneMore(history, Operation.Remove(id));
      history := history + [Operation.Remove(id)];
      if id !in services {
        assert services - {id} == services;
        return true;
      }
      services := services - {id};
      ok := WriteLocked(disk);
    }

    method Prune(activeIds: seq<string>, disk: bool) returns (ok: bool)
      requires Valid()
      modifies this`services, this`history, this`file
      ensures Valid() && history == old(history) + [Operation.Prune(Members(activeIds))]
      ensures services == Apply(old(services), Operation.Prune(Members(activeIds)))
      ensures services != old(services) && disk ==> ok && Published()
      ensures services == old(services) || !disk ==> file == old(file) && ok == (services == old(services))
    {
      var active: set<string> := {};
      for i := 0 to |activeIds|
        invariant active == Members(activeIds[..i])
        invariant services == old(services) && history == old(history) && file == old(file)
      {
        OneMoreMember(activeIds, i);
        active := active + {activeIds[i]};
      }
      AllMembers(activeIds);
      ReplayOneMore(history, Operation.Prune(active));
      var changed := DeleteInactive(active);
      history := history + [Operation.Prune(active)];
      if !changed {
        return true;
      }
      ok := WriteLocked(disk);
    }

    /** Deletes the inactive services while walking the map in any order. */
    method DeleteInactive(active: set<string>) returns (changed: bool)
      modifies this`services
      ensures services == Apply(old(services), Operation.Prune(active))
      ensures changed <==> services != old(services)
    {
      ghost var before := services;
      changed := false;
      var rest := services.Keys;
      while rest != {}
        invariant rest <= services.Keys
        invariant forall id :: id in services <==> id in before && (id in rest || id in active)
        invariant forall id :: id in services ==> services[id] == before[id]
        invariant changed <==> services != before
      {
        var id :| id in rest;
        rest := rest - {id};
        if id !in active {
          services := services - {id};
          changed := true;
          assert id in before && id !in services;
        }
      }
      assert services == Apply(before, Operation.Prune(active));
    }
  }

  lemma ReplayOneMore(ops: seq<Operation>, op: Operation)
    ensures Replay(ops + [op]) == Apply(Replay(ops), op)
  {
    assert (ops + [op])[..|ops|] == ops;
  }
}
