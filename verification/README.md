# Verification of the reconciliation protocol

This project models the controller that injects Vault values into the
environment of Docker Swarm services, and proves what its authors intend of it.

A service is a versioned record of labels, an environment list and placement
constraints. Operators rewrite it; the controller rewrites it too, by an update
that Docker accepts only for the current version. Vault is a map of documents
whose versions only grow. One reconcile is a series of separate steps - inspect,
one metadata read per source, one data read per source, at most one update - and
anything may happen between two of them. The controller remembers nothing by
itself: all it knows of its last injection is in four labels, and a cheap check
on those labels decides whether any secret is read again.

| file | content |
|---|---|
| `Text.dfy` | cutting, trimming, byte order, sorted names |
| `Environment.dfy` | the environment list: meaning, merge, removal, the encoding behind the drift digest |
| `Labels.dfy` | the label contract: configuration, state labels, their text forms |
| `Declaration.dfy` | which configurations labels can declare, and how to declare each |
| `Desired.dfy` | field paths and the checked disjoint union of all sources |
| `Service.dfy` | a service as a value and as an object graph; cloning and in-place gate removal |
| `Decision.dfy` | one reconcile as a function of the service and of Vault's answers, and its laws |
| `Controller.dfy` | the reconcile as the program runs it, step by step over objects, proved equal to that function |
| `Protocol.dfy` | the interleaved protocol and the invariant that every step keeps |
| `Runs.dfy` | theorems about every run: gate safety, no lost writes, exact versions, the fast path |
| `Convergence.dfy` | how often a quiet run can change a service |
| `Progress.dfy` | a reconcile left alone injects what is due, and the gate opens |
| `TwoChanges.dfy` | exactly when a quiet run changes a service twice, and that it happens |
| `Delivery.dfy` | what arrives: the entries and labels an injection writes, as texts |
| `Outcomes.dfy` | enabled services are served and disabled ones cleaned up, stated over labels and constraints |
| `Lifetime.dfy` | what is left after any injections and a disable |
| `Backoff.dfy`, `Lease.dfy` | retry delays and the token lifecycle |
| `PlainText.dfy` | one codec that meets every law asked of JSON and the digest |
| `Status.dfy`, `FullPass.dfy` | the status store as a refinement of its history, and the full pass |

Code that the program runs step by step is imperative here - objects with
fields, loops over lists, an array compacted in place - and each such method is
proved against a declarative definition; the laws are lemmas about those
definitions.

Assumptions, all written out in contracts:

* `Codec` stands for JSON and SHA-256. `Faithful` says that parsing inverts
  printing and that no printed text or digest is empty; `CollisionFree` says
  that different inputs have different digests and that different
  configurations print differently. Each theorem names what it needs, and
  `PlainText.AssumptionsAreConsistent` exhibits a codec with both.
* Text is valid UTF-8, so a string is a sequence of code points and byte order
  is code point order.
* A Vault version never changes once written. It may become unreadable; that is
  a read that fails.
* In the protocol an operator may write any specification at any moment. Gate
  safety assumes `KeepsDiscipline`: a gate-requiring specification without the
  reserved constraint is either a rollback to one the service had before, or
  comes from one that had none either, with injector labels and managed values
  untouched; and a service that asks for the gate is created with it. The exactness of the cheap check assumes `Traceable` labels:
  `ForgesNothing`, that is, state labels are absent or those of one past
  injection, or the gate discipline for a service that asks for the gate.

Where the code and its description part ways the code is followed. The retry
delay is described as growing to a maximum; for an odd maximum the base jumps to
it one doubling early, and `Retry.BaseIsMinimum` states exactly when. The drift
check is described as detecting changed managed values. It does so whenever
names and values hold no NUL (`Environment.DigestDeterminesValues`); over
arbitrary text it does so if and only if at most one name is managed
(`Environment.DigestBlindSpot`, `Decision.FastPathBlindSpot`). And while a
quiet system is described as needing no second update, a reconcile that was
told an outdated version before Vault went quiet can cause one:
`TwoChanges.TwoChangesExactly` says exactly when, and
`TwoChanges.SecondChangeExample` is an instance.

## Model

The main results come first; the members they build on follow, file by file.

| member | source | states |
|---|---|---|
| Runs.GateSafety | internal/controller/controller.go:270-283 | in every run in which operators keep the gate discipline - with Swarm free to roll back to anything the service had, and gated edits free to write any labels - a service that asks for the gate and has none carries all four state labels, and its managed entries are exactly the values its configuration desires at the versions recorded in those labels |
| Delivery.ExposedIsDelivered | internal/controller/controller.go:270-283 | gate safety in texts: such a service names versions in its applied-versions label, and each of its variables means the text that Vault holds at exactly those versions - the field itself, or the scalar its mapped path leads to |
| Runs.NoLostWrites | internal/controller/controller.go:384-387 | in every run, whatever operators write, an accepted update, even of a reconcile that started from a stale listing, replaces exactly the specification it was computed from, changes something, changes only what the controller owns, and touches no other service |
| Runs.OnlyAcceptedUpdatesWrite | internal/controller/controller.go:211-402 | in every run the controller changes a service only by an accepted update before which nothing failed: labels parsed and passed the checks, every source was answered and read at exactly the answered version with the data Vault holds, every field was usable and no name clashed; it then changes that one service |
| Runs.ExactVersions | internal/controller/controller.go:285-321 | in every run, whatever operators write and whatever lands in Vault between the metadata reads and the data reads, or ever after, the entries sent are those desired at the versions recorded in the label |
| Runs.FastPathIsExactInRuns | internal/controller/controller.go:301-308 | in every run, with NUL-free managed entries and desired values, the cheap check passes if and only if reading everything at those versions would resolve and recomputing would keep the meaning of the environment, the labels and the constraints; state labels must not be made up, or the service asks for the gate and its discipline is kept |
| Runs.UngatedInjectionsRepeat | internal/controller/controller.go:274-283 | an update of a gate-requiring service without the gate has the sources and the gate flag of the past injection its state labels record - if operators make up no state labels, or if they keep the gate discipline |
| Runs.InjectionIsAtomic | internal/controller/controller.go:358-376 | what an injection sends has the four labels, the managed values and no gate, all for the same configuration and versions; a gate is lifted only under a gate-requiring configuration |
| Convergence.QuietRunsConverge | internal/controller/controller.go:301-308 | from any world with any reconciles in flight, with Vault and operators quiet, every interleaving changes a service at most twice, and at most once unless the exact condition for two holds; the first change is settled or what an outdated reconcile of the start writes with its reads completed, and after the latter a second one is settled |
| TwoChanges.TwoChangesExactly | internal/controller/controller.go:285-387 | a quiet run can change a service twice if and only if the service is live, its sources resolve now, and some reconcile of its current specification that was told a replaced version would, after the reads that are left to it, still pass every guard of an update |
| TwoChanges.OutdatedWorldsAreReached | internal/controller/controller.go:285-387 | for every gated service whose configuration resolves, a disciplined run from nothing that forges nothing - create the service, let a reconcile read everything, write one document again - leads to a world from which a quiet run changes it twice |
| TwoChanges.SecondChangeExample | internal/controller/controller.go:285-387 | the same for one service, one source and one document, with nothing assumed |
| Convergence.QuietRunsUpdateAtMostOnce | internal/controller/controller.go:301-308 | when no reconcile is in flight at the start, each service changes at most once, and a changed service is settled: no reconcile of it at the current versions sends anything |
| TwoChanges.SecondUpdateHappens | internal/controller/controller.go:285-387 | an outdated injection that Docker still accepts is followed by one at the current versions: the first specification carries the outdated injection, and in a consistent world holds the values of its versions; the second holds the current values at the current versions |
| Progress.InjectionHappens | internal/controller/controller.go:211-402 | a service that passes the checks, whose sources resolve and whose cheap check fails, is injected by the controller's own steps, whatever else is in flight: the update is accepted and holds the values desired at the current versions |
| Progress.GateOpens | internal/controller/controller.go:270-376 | a new gated service whose configuration resolves gets its values and loses the gate together |
| Progress.GatedServicesAreServed | internal/controller/controller.go:211-402 | for each such service a disciplined run from nothing creates it and ends with it holding the values its configuration desires now, its gate gone: gate safety does not hold by never opening |
| Outcomes.ServicesAreServed | internal/controller/controller.go:249-387 | from any world, an enabled service with something to inject - plain or gated, new, reconfigured, or with newer versions in Vault - is led by the controller's own steps to a specification without the gate that means the texts Vault holds now; stated over label texts, constraints and past state |
| Outcomes.NewServicesAreServed | internal/controller/controller.go:211-402 | from nothing, every new service whose gate is there exactly if it is asked for is created and served in a disciplined run |
| Outcomes.DisablingHappens | internal/controller/controller.go:241-247 | a service with state whose enabled label is gone or says a false text is led to its cleaned form, whatever its other labels say: the four state labels are gone, exactly the entries of other names are left, each where it was, and nothing else moved |
| Lifetime.Conservation | internal/controller/controller.go:358-376 | after any sequence of injections under changing configurations and a final disable, the environment is the original list without every name ever managed, in order and spelling; constraints lost at most the reserved ones; the labels are those an operator gave last, without state |
| Decision.SubmitsExactly | internal/controller/controller.go:249-387 | an enabled service is sent an update if and only if its labels and constraints pass the checks, every source resolves at its answered version, no two sources produce a name, and the labels, entries and constraints do not already seem current |
| Decision.FastPathIsComplete | internal/controller/controller.go:301-308 | for every service and every answer, if recomputing would keep the meaning of the environment, the labels and the constraints, the cheap check had already passed |
| Decision.FastPathIsExact | internal/controller/controller.go:301-308 | over the labels of one injection and NUL-free values the cheap check passes if and only if recomputing would keep everything |
| Decision.FastPathBlindSpot | internal/controller/controller.go:300-308 | without the NUL condition: the cheap check notices every later change of the injected values if and only if at most one name is managed |
| Decision.SlowPathAlwaysChanges | internal/controller/controller.go:378-387 | so the comparison before the update never suppresses it: every slow path that resolves its values submits a changed specification |
| Controller.ReconcileService | internal/controller/controller.go:211-402 | a reconcile sends at most one request, for the inspected version, with the decided specification; it writes no object it was given, and returns the report and its success, which is false exactly when the service was refused or Docker refused the update |
| FullPass.ReconcileAll | internal/controller/controller.go:150-185 | after a pass whose listing succeeded the stored ids are exactly those of the listed tracked services; for each, the store names it, dates the attempt, moves the last success only if nothing was to do or the update was accepted, and replaces warnings only by an accepted update; the store heard exactly one report or removal per service and then the pruning, whatever failed; after a failed listing the store keeps its entries |
| Controller.DesiredEnvironment | internal/controller/controller.go:310-355 | the nested loops succeed exactly when every source contributes at its exact version and contributions are pairwise disjoint, and give their union, independent of any order |
| Desired.DesiredTexts | internal/controller/controller.go:310-355 | that union, said in texts: it exists if and only if every source contributes and no name is given by two of them, and it gives a name a text if and only if some source does |
| Desired.AutoImportTexts | internal/controller/controller.go:323-342 | a source without mappings contributes if and only if its document is not empty and every field is a scalar with a usable name; each name then gets the text of its own field |
| Desired.MappedTexts | internal/controller/controller.go:344-354 | a mapped source contributes if and only if every path leads to a scalar; each mapped name then gets the text there |
| Delivery.SentTexts | internal/controller/controller.go:358-363 | an injection sets each variable it was asked for in one entry, name=text, with the text that was read |
| Labels.ParseConfig | internal/labels/labels.go:61-160 | walking the labels in whatever order yields the declared configuration, or fails exactly when the labels are not a valid declaration |
| Declaration.EnabledExactly | internal/labels/labels.go:61-160 | an enabled configuration is read if and only if the labels say it, text by text: one of six true texts, a true or false text or no label for the gate, every source under its spelled-out labels, trimmed and complete, no other label under the prefix, no clash |
| Declaration.DisabledExactly | internal/labels/labels.go:61-76 | the disabled configuration is read if and only if the enabled label is absent or says one of six false texts, whatever the other labels are |
| Declaration.DeclarableExactly | internal/labels/labels.go:61-160 | labels can declare exactly the configurations with dot-free source names, complete trimmed fields, representable mapped names and no clash; nothing else is ever parsed |
| Environment.MergeMeans | internal/environment/environment.go:43-69 | merging forgets the previously managed names and sets the desired ones, as meanings, if and only if no desired name has an equals sign |
| Environment.MergeTwice | internal/environment/environment.go:43-69 | merging, then merging again with the first names as managed, is one merge as lists |
| Environment.DigestBlindSpot | internal/environment/environment.go:79-94 | with arbitrary values, the encoding determines which values a fixed set of names has if and only if there is at most one name |
| Environment.DigestDeterminesValues | internal/environment/environment.go:79-94 | NUL-free maps with equal encodings are equal |
| Status.StoredExactly | internal/status/store.go:88-153 | a service is stored if and only if it was reported and not removed or pruned since |
| Status.LastSuccessIs | internal/status/store.go:88-103 | the stored last success is the time of the latest successful report since the last removal, and absent without one |
| Status.LastAttemptIs | internal/status/store.go:88-110 | the stored name and last attempt are those of the latest report since the last removal |
| Status.WarningsAre | internal/status/store.go:103-107 | the stored warnings are those of the latest report with an update since the last removal |
| TokenLease.TokenKeeper.RunTokenLifecycle | internal/vaultclient/client.go:146-217 | every sleep of the whole life lasts one check interval or until renewal is due, and ends in time; the sleeps under one lease fit the check intervals of its two thirds; the lease goes on after every usable lookup before its renewal is due, and is replaced otherwise |
| TokenLease.TwoThirdsExactly | internal/vaultclient/client.go:321-332 | two thirds of a lifetime is the integral part of two thirds of its nanoseconds |
| Retry.BaseClosedForm | internal/retry/backoff.go:29-40 | the base of a call is the doubled initial delay until that reaches twice the halved maximum, then the maximum |
| Retry.BaseIsMinimum | internal/retry/backoff.go:35-39 | it is the minimum of doubling and maximum if and only if the doubled value is not one below an odd maximum |
| Retry.DelayFitsExactly | internal/retry/backoff.go:42-52 | the jittered delay fits 64 bits for every base and every draw if and only if six fifths of the maximum fit |
| Runs.StepKeepsSafe | internal/controller/controller.go:358-387 | every step of every actor - Vault write, operator edit, rollback, read, update, failure - keeps each ungated gate-requiring specification in the history of a service backed by one of its past injections |
| Runs.EditKeepsSafe | internal/labels/labels.go:61-160 | a disciplined operator edit keeps the backing: foreign labels cannot change the configuration or the state |
| Runs.RunsAreConsistent | internal/controller/controller.go:285-321 | in every run past injections stay what Vault desires at their versions, every reconcile holds a specification its service has had, and what it read is what Vault holds |
| Runs.SentOwnership | internal/controller/controller.go:485-502 | an update changes nothing but managed names, state labels and reserved constraints |
| Runs.RunsAreKnown | internal/controller/controller.go:366-372 | if operators make up no state labels, those of every specification ever current come together from one past injection |
| Convergence.SentIsSettled | internal/controller/controller.go:366-382 | what an update computed from current versions writes cannot lead to another update |
| Convergence.StepKeepsQuiet | internal/dockerclient/client.go:46-56 | each controller step keeps every change of the service explained, and every reconcile either freshly read or a start one with more of Vault's answers |
| Lifetime.LifeConserves | internal/environment/environment.go:43-69 | at every moment of that sequence the list is the original entries never managed, then the values managed now |
| Lifetime.TailReplaced | internal/environment/environment.go:43-69 | merging over a list that ends in a managed tail replaces that tail and nothing else |
| Lifetime.LabelsConserved | internal/controller/controller.go:369-372 | through any sequence of injections the non-state labels stay those an operator gave last |
| Decision.InjectionSettles | internal/controller/controller.go:274-308 | reconciling a just injected service at the same versions passes the gate check and needs neither a data read nor an update |
| Decision.CleansExactly | internal/controller/controller.go:448-481 | a disabled service is sent an update if and only if it has state, a container, and a readable list of managed names |
| Decision.CleanupSettles | internal/controller/controller.go:448-481 | reconciling a service after its disable clean-up does nothing, whatever Vault says |
| Decision.FastPathIsSound | internal/controller/controller.go:301-308 | with state labels from one injection of the desired, NUL-free values, the cheap check implies that recomputing keeps the meaning of the environment, the labels and the constraints |
| Decision.RecordedInputs | internal/controller/controller.go:257-269 | what the checks read back from the labels is the recorded injection: its versions, its sources, its names |
| Decision.InjectedLabels | internal/controller/controller.go:365-372 | writing the state labels leaves the parsed configuration as it was, and they are read back as the versions and the names |
| Decision.InjectionOwnership | internal/controller/controller.go:358-376 | an injection leaves unmanaged entries, other labels, other constraints and every other part of the specification alone |
| Decision.CleanupOwnership | internal/controller/controller.go:456-468 | a clean-up leaves everything alone but managed entries and state labels |
| Protocol.StepKeepsConsistent | internal/controller/controller.go:211-402 | the consistency invariant is kept by every step, with any number of reconciles in flight |
| Protocol.DesiredStays | internal/controller/controller.go:310-321 | values desired at given versions are unaffected by later writes to Vault |
| Protocol.TaskAgrees | internal/controller/controller.go:290-321 | the values a reconcile computed from its two rounds of reads are the ones Vault holds at the versions it was told first |
| Controller.Admit | internal/controller/controller.go:253-283 | the checks before Vault is asked, including the refusal of an ungated first or changed injection |
| Decision.AdmittedExactly | internal/controller/controller.go:253-283 | those checks one by one: container, parsing labels, usable recorded names, a gate only if asked for, and only for a configuration that asks for the gate a gate or a finished injection of that configuration |
| Decision.CurrentExactly | internal/controller/controller.go:297-308 | the cheap check in texts: recorded versions, configuration digest, digest of the selected entries, no gate |
| Decision.UntrackedExactly | internal/controller/controller.go:212-219 | a service is left alone if and only if its enabled label and state labels are empty and it has no gate |
| Controller.StateIsCurrent | internal/controller/controller.go:297-308 | the cheap check as computed is the check on versions, hashes and gate |
| Controller.BuildUpdate | internal/controller/controller.go:358-376 | the objects built on the clone are the injected specification under the inspected id and version; no inspected object is written |
| Controller.RemoveManagedEnvironment | internal/controller/controller.go:448-481 | the clean-up request, its refusals, and its silence without state |
| Controller.InjectEnvironment | internal/controller/controller.go:249-387 | the whole enabled branch computes the decision that the laws are about |
| Controller.ReconcileTracked | internal/controller/controller.go:238-387 | for a tracked service the parsed configuration takes its branch, and the decision is never to forget it |
| Controller.CleanUp | internal/controller/controller.go:460-468 | the objects built on the clone are the cleaned specification under the inspected id and version |
| Service.CloneServiceForUpdate | internal/controller/controller.go:485-502 | the clone has the same value on fresh label, container and placement objects |
| Service.HasBootstrapGate | internal/controller/controller.go:504-515 | finds a reserved constraint, however it is spaced, exactly when there is one |
| Service.GateText | internal/controller/controller.go:539-543 | a constraint without white space is the gate if and only if it is the reserved text |
| Service.GateSpacing | internal/controller/controller.go:539-543 | white space anywhere in a constraint does not matter |
| Service.UngatedExactly | internal/controller/controller.go:520-537 | exactly the other constraints are kept, each in its place |
| Service.Compact | internal/controller/controller.go:520-537 | compacting over the same array leaves the order-preserving filter in front and reports whether anything was dropped |
| Service.RemoveBootstrapGate | internal/controller/controller.go:520-537 | removes every copy of the reserved constraint in place and writes nothing but the clone's placement |
| Service.UngatedMembers | internal/controller/controller.go:520-543 | exactly the operator's constraints are kept |
| FullPass.ReconcileOne | internal/controller/controller.go:211-236 | one service of the pass is forgotten when untracked; otherwise its entry has the time of this attempt, a last success that a refused reconcile leaves as it was, and warnings from an accepted update only; other entries stay |
| Environment.LastEntryWins | internal/environment/environment.go:15-25 | the meaning of a list gives each name the value of its last entry, and is silent on names with no entry |
| Environment.EntryParts | internal/environment/environment.go:17-22 | an entry is cut at its first equals sign; without one it is a name with an empty value |
| Environment.SelectedExactly | internal/environment/environment.go:29-38 | a requested name is selected if and only if some entry has it, with the value of the last one |
| Environment.AsMap | internal/environment/environment.go:15-25 | the loop computes that meaning |
| Environment.Select | internal/environment/environment.go:29-38 | the selected values are the meaning restricted to the names that have one |
| Environment.Merge | internal/environment/environment.go:43-69 | the result is the unmanaged entries in order followed by the sorted desired entries, for any order of walking the maps |
| Environment.Remove | internal/environment/environment.go:71-73 | the result is the list without the named entries, in order |
| Environment.WithoutExactly | internal/environment/environment.go:53-58 | dropping names keeps exactly the other entries, each in its place |
| Environment.MergedNamesOccurOnce | internal/environment/environment.go:43-69 | a desired name has exactly one entry in the merged list, in the tail |
| Environment.MergeKeepsTheRest | internal/environment/environment.go:43-69 | unmanaged entries, duplicates included, survive a merge unchanged |
| Environment.MergeOfCurrentValues | internal/environment/environment.go:43-69 | merging values the list already has keeps its meaning |
| Environment.RemoveAfterMerge | internal/environment/environment.go:71-73 | removing what a merge installed leaves the original list without managed and installed names |
| Environment.SelectAfterMerge | internal/environment/environment.go:29-69 | selecting the installed names from a merged list gives back the installed values |
| Environment.Hash | internal/environment/environment.go:79-94 | the digest is taken of name, NUL, value, NUL for every name in byte order |
| Environment.EncodedExactly | internal/environment/environment.go:79-94 | the hashed text starts with the smallest name, NUL, its value and NUL, and goes on with the rest |
| Environment.DecodeInvertsEncoded | internal/environment/environment.go:79-94 | NUL-free values are decoded from the hashed bytes, so the encoding loses nothing |
| Labels.ParseSecrets | internal/labels/labels.go:86-130 | the accumulation loop ends with the sources that the labels declare, exactly when every secret label is well formed |
| Labels.CheckSources | internal/labels/labels.go:135-157 | the checks pass exactly when every source is complete and names and mapped variables are pairwise distinct |
| Labels.LabelParts | internal/labels/labels.go:92-96 | a secret label is determined by its source and property: cutting at the first dot loses nothing |
| Labels.LabelForParts | internal/labels/labels.go:92-96 | and the label built from a dot-free source and a property is cut back into them |
| Labels.ConfiguredSources | internal/labels/labels.go:132-157 | an enabled configuration has a source, and its mapped names fit Docker's form |
| Labels.ForeignLabelsAreIgnored | internal/labels/labels.go:86-90 | labels outside the injector's prefix change neither configuration nor state |
| Labels.ConfigurationIgnoresState | internal/labels/labels.go:23-40 | two label sets that differ only in state labels declare the same configuration |
| Labels.StateRoundTrip | internal/controller/controller.go:369-372 | the four labels are read back as written, and taking them away restores the rest |
| Delivery.SentLabels | internal/controller/controller.go:365-372 | the four labels an injection writes, each under its own name: versions as answered, sorted names, digest of the values, digest of gate flag and sources |
| Labels.StateReadsBack | internal/labels/labels.go:183-227 | labels written for an injection parse to its versions and its sorted names |
| Labels.ConfigHashDetermines | internal/labels/labels.go:164-181 | equal configuration hashes mean equal sources and an equal gate flag |
| Labels.ParseManagedEnvironment | internal/labels/labels.go:195-211 | the recorded names, sorted; refused when one of them does not fit Docker's form |
| Labels.ManagedNamesExactly | internal/labels/labels.go:195-211 | the recorded names are read if and only if they parse and none is empty or has an equals sign, and come sorted |
| Declaration.DeclarationRoundTrip | internal/labels/labels.go:61-160 | each of those is parsed back from the labels written for it |
| Desired.ResolveField | internal/controller/controller.go:545-563 | the walk over the components finds what the path names, or fails |
| Desired.ResolvesToText | internal/controller/controller.go:545-584 | a path resolves to a text if and only if it leads, field by field through objects, to a scalar with that text; null, objects and lists give nothing |
| Desired.ResolveNested | internal/controller/controller.go:545-563 | a dot descends into an object field and into nothing else |
| Desired.AutoImportIsSelfMapping | internal/controller/controller.go:323-354 | importing every field equals mapping every field to itself, for dot-free representable field names |
| Desired.UnionIsExact | internal/controller/controller.go:586-593 | the desired environment holds each source's values under its names and nothing else |
| Desired.AddSource | internal/controller/controller.go:323-354 | the loops over one source succeed exactly when the source contributes and owns no taken name, and add exactly its contribution with itself as owner |
| Desired.DesiredNames | internal/controller/controller.go:323-356 | a desired environment is never empty and every name fits Docker's form |
| Status.SnapshotIsUnique | internal/status/store.go:187-203 | the order by name and id leaves one snapshot of given entries |
| Status.Store.SnapshotLocked | internal/status/store.go:187-203 | a snapshot has every entry exactly once, in that order |
| Status.SnapshotOrder | internal/status/store.go:187-203 | in a snapshot names never decrease, and among equal names ids increase |
| Status.Store.WriteLocked | internal/status/store.go:155-185 | the file becomes the current snapshot as a whole or stays as it was |
| Status.Store.Record | internal/status/store.go:88-110 | the map follows the history by one report even when the file cannot be written |
| Status.Store.Remove | internal/status/store.go:122-130 | the map follows the history by one removal |
| Status.Store.Prune | internal/status/store.go:134-153 | exactly the inactive services are dropped, and the file is written only when there were any |
| TokenLease.TokenKeeper.Turn | internal/vaultclient/client.go:151-216 | a planned sleep ends by two thirds of the granted lifetime and of what the latest lookup reported; if the lookup is usable and neither time has come, the lease stays and renewal is due at the sooner of the two; otherwise the lease is the renewal when there was one, else the first usable login |
| TokenLease.TokenKeeper.ReauthenticateUntilSuccess | internal/vaultclient/client.go:219-249 | succeeds exactly when some login is usable, and then the lease is that of the first usable one, granted at that moment |
| Retry.Backoff.Next | internal/retry/backoff.go:29-53 | on 64-bit fields with wrapping arithmetic the bases follow the closed recurrence for every maximum, and the delay keeps its bounds for any random draw |
| Retry.Jittered | internal/retry/backoff.go:42-52 | on wrapping 64-bit arithmetic the delay is at most the maximum, and within a fifth of the base when six fifths of the maximum fit |
| Text.PrecedesExactly | internal/environment/environment.go:81-85 | the sorting order is that of the characters at the first difference, a proper prefix first |
| Text.TrimSpaceExactly | internal/labels/labels.go:102-118 | trimming finds the core of a text, whatever white space surrounds it |

## Left out

- Which error is returned, and error texts: a refusal is one value.
- The report fields for state, gate, sources, names, versions and error: presentation, derived from the same branches.
- SHA-256, JSON and the text of numbers: library code; a digest is a function, JSON a typed inverse pair, and a scalar already carries its text.
- Vault and Docker network clients, AppRole requests, credential files and `Authenticate`: foreign calls; they appear as answers that may be missing and as an update accepted exactly for the current version.
- The event stream, timers, contexts and triggers: events only start reconciles, and a reconcile may start at any moment from any listing ever current.
- Order of reads within one reconcile: the protocol allows any order, the program uses sorted order; every real order is covered.
- Logging, tables, YAML, health check, file permissions and temporary files: a write of the file either replaces it or fails.
- `internal/config/config.go` and credential validation: flat checks.
- Swarm's scheduling and rollouts: the gate is present in a specification or not.
- 64-bit width of versions and of the times of the token lease: unbounded integers; the retry delay is 64-bit.
- Retry.Jittered: the product with 0.2 is exact integer division by five; the rounding of the float product is not modelled.
- TokenLease.TokenKeeper.RunTokenLifecycle: timers are exact and calls take no time; cancellation is the end of the answers.
- Store locking: operations of the status store run one at a time, as its mutex makes them.
