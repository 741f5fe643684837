/**
 The full pass: every listed service is reconciled with its own answers, and
 the status store follows, whatever fails on the way.
 */
module FullPass {
  import opened Wrappers
  import opened Labels
  import opened Service
  import opened Decision
  import opened Controller
  import Status

  /** What the status store is told of one reconcile. */
  ghost function OperationFor(service: ServiceObject, decision: Decision, reply: DockerReply,
                              at: int): Status.Operation
  {
    var report := ReportFor(service, decision, reply);
    if report.Some? then Status.Operation.Record(report.value, Succeeds(decision, reply), at)
    else Status.Operation.Remove(service.id)
  }

  /** What it is told of the first `k` services of a pass; service `i` is finished at `clock[2 * i]`. */
  ghost function OperationsOf(codec: Codec, services: seq<ServiceObject>, specs: seq<Spec>, answers: seq<Answers>,
                              replies: seq<DockerReply>, clock: seq<int>, k: nat): seq<Status.Operation>
    requires k <= |services| == |specs| == |answers| == |replies| && |clock| == 2 * |services|
  {
    if k == 0 then []
    else OperationsOf(codec, services, specs, answers, replies, clock, k - 1)
         + [OperationFor(services[k - 1], Decide(codec, specs[k - 1], answers[k - 1]), replies[k - 1],
                         clock[2 * (k - 1)])]
  }

  lemma NoOperations(codec: Codec, services: seq<ServiceObject>, specs: seq<Spec>, answers: seq<Answers>,
                     replies: seq<DockerReply>, clock: seq<int>)
    requires |services| == |specs| == |answers| == |replies| && |clock| == 2 * |services|
    ensures OperationsOf(codec, services, specs, answers, replies, clock, 0) == []
  {
  }

  lemma OneMoreOperation(codec: Codec, services: seq<ServiceObject>, specs: seq<Spec>, answers: seq<Answers>,
                         replies: seq<DockerReply>, clock: seq<int>, k: nat, before: seq<Status.Operation>)
    requires k < |services| == |specs| == |answers| == |replies| && |clock| == 2 * |services|
    ensures before + OperationsOf(codec, services, specs, answers, replies, clock, k + 1)
            == before + OperationsOf(codec, services, specs, answers, replies, clock, k)
               + [OperationFor(services[k], Decide(codec, specs[k], answers[k]), replies[k], clock[2 * k])]
  {
    hide Decide, OperationFor;
  }

  /** Reports of the controller carry warnings only with an update. */
  lemma OperationIsShaped(ops: seq<Status.Operation>, service: ServiceObject, decision: Decision, reply: DockerReply,
                          at: int)
    requires Status.Shaped(ops)
    ensures Status.Shaped(ops + [OperationFor(service, decision, reply, at)])
  {
  }

  lemma KeysAfterOperation(entries: Status.Entries, service: ServiceObject, decision: Decision, reply: DockerReply,
                           at: int)
    ensures Status.Apply(entries, OperationFor(service, decision, reply, at)).Keys
            == if decision.Untracked? then entries.Keys - {service.id} else entries.Keys + {service.id}
  {
  }

  /**
   What the store knows of a service after one reconcile. A reconcile that found
   nothing to do or whose update was accepted moves the last success to its
   time; one that was refused, by a check or by Docker, keeps what was known.
   Warnings are replaced by an accepted update only.
   */
  ghost predicate Told(before: Status.Entries, after: Status.Entries, service: ServiceObject, decision: Decision,
                       reply: DockerReply, at: int)
  {
    if decision == Untracked then service.id !in after
    else
      && service.id in after
      && var entry, known := after[service.id], service.id in before;
         && entry.id == service.id && entry.name == service.name && entry.lastAttempt == at
         && (decision == Quiet ==> entry.lastSuccess == Some(at))
         && (decision == Rejected ==> entry.lastSuccess == if known then before[service.id].lastSuccess else None)
         && (decision.Submit? && reply.Accepted? ==> entry.lastSuccess == Some(at) && entry.warnings == reply.warnings)
         && (decision.Submit? && reply.Refused? ==>
               entry.lastSuccess == if known then before[service.id].lastSuccess else None)
         && (!(decision.Submit? && reply.Accepted?) ==>
               entry.warnings == if known then before[service.id].warnings else [])
  }

  /** The store knows the same of this service. */
  ghost predicate Same(before: Status.Entries, after: Status.Entries, id: string) {
    (id in before <==> id in after) && (id in before ==> before[id] == after[id])
  }

  lemma OperationTells(entries: Status.Entries, service: ServiceObject, decision: Decision, reply: DockerReply, at: int)
    ensures Told(entries, Status.Apply(entries, OperationFor(service, decision, reply, at)), service, decision, reply,
                 at)
    ensures forall id :: id != service.id ==>
              Same(entries, Status.Apply(entries, OperationFor(service, decision, reply, at)), id)
  {
  }

  lemma StillTold(start: Status.Entries, before: Status.Entries, after: Status.Entries, service: ServiceObject,
                  decision: Decision, reply: DockerReply, at: int)
    requires Told(start, before, service, decision, reply, at) && Same(before, after, service.id)
    ensures Told(start, after, service, decision, reply, at)
  {
  }

  lemma ToldSince(start: Status.Entries, before: Status.Entries, after: Status.Entries, service: ServiceObject,
                  decision: Decision, reply: DockerReply, at: int)
    requires Same(start, before, service.id) && Told(before, after, service, decision, reply, at)
    ensures Told(start, after, service, decision, reply, at)
  {
  }

  lemma SameSince(start: Status.Entries, before: Status.Entries, after: Status.Entries, id: string)
    requires Same(start, before, id) && Same(before, after, id)
    ensures Same(start, after, id)
  {
  }

  lemma SameItself(entries: Status.Entries)
    ensures forall id :: Same(entries, entries, id)
  {
  }

  lemma StoredAfter(store: Status.Store, before: seq<Status.Operation>, op: Status.Operation)
    requires store.Valid() && store.history == before + [op]
    ensures store.services == Status.Apply(Status.Replay(before), op)
  {
    Status.ReplayOneMore(before, op);
  }

  /** Tells the store about one reconcile; a store that cannot be written is only logged. */
  method Publish(store: Status.Store, service: ServiceObject, report: Option<Report>, successful: bool, now: int,
                 disk: bool)
    requires store.Valid()
    modifies store
    ensures store.Valid()
    ensures report.Some? ==>
              store.history == old(store.history) + [Status.Operation.Record(report.value, successful, now)]
    ensures report.None? ==> store.history == old(store.history) + [Status.Operation.Remove(service.id)]
  {
    hide *;
    if report.None? {
      var ok := store.Remove(service.id, disk);
    } else {
      var ok := store.Record(report.value, successful, now, disk);
    }
  }

  /** One service of the pass: a failed reconcile is recorded like any other. */
  method ReconcileOne(codec: Codec, service: ServiceObject, answers: Answers, reply: DockerReply,
                      store: Status.Store, now: int, disk: bool)
    returns (decision: Decision)
    requires store.Valid() && Status.Shaped(store.history) && service.Valid()
    modifies store
    ensures store.Valid() && Status.Shaped(store.history)
    ensures decision == Decide(codec, service.Value(), answers)
    ensures store.history == old(store.history) + [OperationFor(service, decision, reply, now)]
    ensures store.services.Keys == if Tracked(service.Value()) then old(store.services.Keys) + {service.id}
                                   else old(store.services.Keys) - {service.id}
    ensures Told(old(store.services), store.services, service, decision, reply, now)
    ensures forall id :: id != service.id ==> Same(old(store.services), store.services, id)
  {
    hide Status.Shaped, Status.Apply, Status.Replay, Status.WellKeyed, Decide, Tracked, ReportFor, Succeeds,
         OperationFor, Told, Same;
    var request, report, ok;
    ghost var before := store.history;
    decision, request, report, ok := ReconcileService(codec, service, answers, reply);
    UntrackedExactly(codec, service.Value(), answers);
    OperationIsShaped(before, service, decision, reply, now);
    KeysAfterOperation(store.services, service, decision, reply, now);
    OperationTells(store.services, service, decision, reply, now);
    OperationIs(service, decision, reply, now);
    Publish(store, service, report, ok, now, disk);
    StoredAfter(store, before, OperationFor(service, decision, reply, now));
  }

  lemma OperationIs(service: ServiceObject, decision: Decision, reply: DockerReply, at: int)
    ensures var report := ReportFor(service, decision, reply);
            && (report.Some? ==> OperationFor(service, decision, reply, at)
                                 == Status.Operation.Record(report.value, Succeeds(decision, reply), at))
            && (report.None? ==> OperationFor(service, decision, reply, at) == Status.Operation.Remove(service.id))
  {
  }

  /** One more service of the pass: what was told of the others stands. */
  lemma PassTells(start: Status.Entries, before: Status.Entries, after: Status.Entries, services: seq<ServiceObject>,
                  decisions: seq<Decision>, replies: seq<DockerReply>, clock: seq<int>, decision: Decision, i: nat)
    requires i < |services| == |replies| && |clock| == 2 * |services| && |decisions| == i
    requires forall j, k :: 0 <= j < k < |services| ==> services[j].id != services[k].id
    requires forall j :: 0 <= j < i ==> Told(start, before, services[j], decisions[j], replies[j], clock[2 * j])
    requires forall j :: i <= j < |services| ==> Same(start, before, services[j].id)
    requires Told(before, after, services[i], decision, replies[i], clock[2 * i])
    requires forall id :: id != services[i].id ==> Same(before, after, id)
    ensures forall j :: 0 <= j <= i ==>
              Told(start, after, services[j], (decisions + [decision])[j], replies[j], clock[2 * j])
    ensures forall j :: i < j < |services| ==> Same(start, after, services[j].id)
  {
    hide Told, Same;
    forall j | 0 <= j <= i
      ensures Told(start, after, services[j], (decisions + [decision])[j], replies[j], clock[2 * j])
    {
      if j < i {
        StillTold(start, before, after, services[j], decisions[j], replies[j], clock[2 * j]);
      } else {
        ToldSince(start, before, after, services[i], decision, replies[i], clock[2 * i]);
      }
    }
    forall j | i < j < |services| ensures Same(start, after, services[j].id) {
      SameSince(start, before, after, services[j].id);
    }
  }

  /** The loop of the pass; the heartbeat follows every reconcile. */
  method ReconcileEach(codec: Codec, services: seq<ServiceObject>, ghost specs: seq<Spec>, answers: seq<Answers>,
                       replies: seq<DockerReply>, store: Status.Store, clock: seq<int>, disk: seq<bool>)
    returns (decisions: seq<Decision>, activeIds: seq<string>)
    requires store.Valid() && Status.Shaped(store.history)
    requires |specs| == |answers| == |replies| == |services| && |clock| == |disk| == 2 * |services|
    requires forall i :: 0 <= i < |services| ==> services[i].Valid() && services[i].Value() == specs[i]
    requires forall i, j :: 0 <= i < j < |services| ==> services[i].id != services[j].id
    modifies store
    ensures store.Valid() && Status.Shaped(store.history)
    ensures |decisions| == |activeIds| == |services|
    ensures forall i :: 0 <= i < |services| ==>
              && activeIds[i] == services[i].id
              && decisions[i] == Decide(codec, specs[i], answers[i])
              && (services[i].id in store.services.Keys <==> Tracked(specs[i]))
    ensures store.history == old(store.history)
            + OperationsOf(codec, services, specs, answers, replies, clock, |services|)
    ensures forall i :: 0 <= i < |services| ==>
              Told(old(store.services), store.services, services[i], decisions[i], replies[i], clock[2 * i])
  {
    hide *;
    decisions, activeIds := [], [];
    NoOperations(codec, services, specs, answers, replies, clock);
    ghost var before := store.history;
    assert before + [] == before;
    ghost var start := store.services;
    SameItself(start);
    for i := 0 to |services|
      invariant store.Valid() && Status.Shaped(store.history)
      invariant |decisions| == |activeIds| == i
      invariant forall j :: 0 <= j < i ==>
                  Told(start, store.services, services[j], decisions[j], replies[j], clock[2 * j])
      invariant forall j :: i <= j < |services| ==> Same(start, store.services, services[j].id)
      invariant store.history == before + OperationsOf(codec, services, specs, answers, replies, clock, i)
      invariant forall j :: 0 <= j < i ==> activeIds[j] == services[j].id
      invariant forall j :: 0 <= j < i ==> decisions[j] == Decide(codec, specs[j], answers[j])
      invariant forall j :: 0 <= j < i ==> (services[j].id in store.services.Keys <==> Tracked(specs[j]))
    {
      OneMoreOperation(codec, services, specs, answers, replies, clock, i, before);
      var service := services[i];
      activeIds := activeIds + [service.id];
      ghost var entries := store.services;
      var decision := ReconcileOne(codec, service, answers[i], replies[i], store, clock[2 * i], disk[2 * i]);
      PassTells(start, entries, store.services, services, decisions, replies, clock, decision, i);
      decisions := decisions + [decision];
      var ok := store.Heartbeat(clock[2 * i + 1], disk[2 * i + 1]);
    }
  }

  /**
   reconcileAllWithLogging. When the listing succeeds, the store ends up with
   exactly the tracked services of the listing, even if every reconcile and
   every write of the file failed; when it fails, the store keeps its entries.
   */
  method ReconcileAll(codec: Codec, listed: bool, services: seq<ServiceObject>, ghost specs: seq<Spec>,
                      answers: seq<Answers>,
                      replies: seq<DockerReply>, store: Status.Store, clock: seq<int>, disk: seq<bool>)
    returns (decisions: seq<Decision>)
    requires store.Valid() && Status.Shaped(store.history)
    requires listed ==>
               && |specs| == |answers| == |replies| == |services|
               && (forall i :: 0 <= i < |services| ==> services[i].Valid() && services[i].Value() == specs[i])
               && forall i, j :: 0 <= i < j < |services| ==> services[i].id != services[j].id
    requires |clock| == |disk| == 2 * |services| + 3
    modifies store
    ensures store.Valid() && Status.Shaped(store.history)
    ensures !listed ==> store.services == old(store.services) && store.history == old(store.history) && decisions == []
    ensures listed ==> |decisions| == |services|
    ensures listed ==> forall i :: 0 <= i < |services| ==>
              Told(old(store.services), store.services, services[i], decisions[i], replies[i], clock[2 * i + 1])
    ensures listed ==> forall i :: 0 <= i < |services| ==>
              && decisions[i] == Decide(codec, specs[i], answers[i])
              && (services[i].id in store.services.Keys <==> Tracked(specs[i]))
    ensures listed ==>
              var operations := OperationsOf(codec, services, specs, answers, replies, clock[1..2 * |services| + 1],
                                             |services|);
              store.history == old(store.history) + operations + [Status.Operation.Prune(ListedIds(services))]
    ensures listed ==> forall id :: id in store.services.Keys ==>
              exists i :: 0 <= i < |services| && services[i].id == id
  {
    hide Decide, Tracked, Told, Same, Status.Replay, Status.Apply, Status.Shaped, Status.Members, Status.Store.Valid,
         Status.Store.Published;
    var ok := store.Heartbeat(clock[0], disk[0]);
    decisions := [];
    if !listed {
      return;
    }
    var n := |services|;
    var activeIds;
    decisions, activeIds := ReconcileEach(codec, services, specs, answers, replies, store,
                                          clock[1..2 * n + 1], disk[1..2 * n + 1]);
    ghost var start, passed := old(store.services), store.services;
    forall i | 0 <= i < n
      ensures Told(start, Status.Apply(passed, Status.Operation.Prune(Status.Members(activeIds))), services[i],
                   decisions[i], replies[i], clock[2 * i + 1])
    {
      PruneKeepsListed(passed, activeIds, services[i].id, i);
      assert clock[1..2 * n + 1][2 * i] == clock[2 * i + 1];
      StillTold(start, passed, Status.Apply(passed, Status.Operation.Prune(Status.Members(activeIds))), services[i],
                decisions[i], replies[i], clock[2 * i + 1]);
    }
    ActiveIdsAreListed(services, activeIds);
    PruneForgetsTheRest(store.services, activeIds);
    PruneIsShaped(store.history, activeIds);
    ok := store.Prune(activeIds, disk[2 * n + 1]);
    ok := store.Heartbeat(clock[2 * n + 2], disk[2 * n + 2]);
    forall id | id in store.services.Keys ensures exists i :: 0 <= i < n && services[i].id == id {
      var i :| 0 <= i < |activeIds| && activeIds[i] == id;
      assert services[i].id == id;
    }
  }

  ghost function ListedIds(services: seq<ServiceObject>): set<string> {
    set i | 0 <= i < |services| :: services[i].id
  }

  lemma ActiveIdsAreListed(services: seq<ServiceObject>, ids: seq<string>)
    requires |ids| == |services| && forall i :: 0 <= i < |services| ==> ids[i] == services[i].id
    ensures Status.Members(ids) == ListedIds(services)
  {
    forall i | 0 <= i < |services| ensures services[i].id in Status.Members(ids) {
      assert ids[i] in ids;
    }
    forall id | id in ids ensures id in ListedIds(services) {
      var i :| 0 <= i < |ids| && ids[i] == id;
      assert services[i].id == id;
    }
  }

  lemma PruneForgetsTheRest(entries: Status.Entries, activeIds: seq<string>)
    ensures forall id :: id in Status.Apply(entries, Status.Operation.Prune(Status.Members(activeIds))).Keys
                         <==> id in entries.Keys && id in activeIds
  {
  }

  lemma PruneKeepsListed(entries: Status.Entries, activeIds: seq<string>, id: string, i: nat)
    requires i < |activeIds| && activeIds[i] == id
    ensures Same(entries, Status.Apply(entries, Status.Operation.Prune(Status.Members(activeIds))), id)
  {
    assert id in activeIds;
  }

  lemma PruneIsShaped(ops: seq<Status.Operation>, activeIds: seq<string>)
    requires Status.Shaped(ops)
    ensures Status.Shaped(ops + [Status.Operation.Prune(Status.Members(activeIds))])
  {
  }
}
