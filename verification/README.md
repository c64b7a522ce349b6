# kxs: verified models of its core logic

kxs is a Kubernetes client with a desktop and a terminal front end. This project models the parts of it
that are algorithms or protocols, and proves what they promise:

- **Editing a resource** (`Json`, `MergeDiff`, `PatchPaths`, `EditApply`): the editor sends the server a
  merge patch (section 2 of RFC 7386) from the document that was opened to the one that was saved, unless
  a path of the patch changed on the server meanwhile. The diff, the paths, the removal of server-owned
  fields, the conflict check and the server's merge fit together in one three-way merge theorem.
- **Resource quantities** (`DecimalText`, `Quantity`, `QuantityParse`, `QuantityPrint`): an exact
  fixed-point parser and printer over 128-bit nanounits in three notations.
- **What a pod needs** (`PodResources`): the order-sensitive accumulation over init containers and
  sidecars equals a maximum over start-up phases.
- **Pod watch** (`PodWatch`): a coalescing batcher, relist snapshots and the client's table agree with
  applying every event directly.
- **Terminal hand-off** (`EventPump`): a reader thread and the main thread share three atomic flags; the
  proof is over every interleaving.
- **Stream registry** (`StreamRegistry`): sessions are replaced while old streams still prune themselves.
- **Table refresh** (`TableRefresh`): watcher events become debounced fetches, with latency and rate bounds.
- **Log stream** (`LogStream`): batching that loses and reorders nothing.
- **Text formats** (`HumanDuration`, `TabWriter`, `PercentEncoding`): durations and their parser, column
  alignment, query encoding.
- **Small memories** (`RecencyLists`, `FuzzyMatch`): favourites, command history, the fuzzy row filter.

The code that changes things step by step is modelled by methods and classes that do so too; each is
proved equal to a specification function, and the lemmas are about those functions. Protocols are state
machines over their atomic steps, and their properties hold for every run.

## Findings

Where the code does not meet a property outright, the exact condition is proved:

- The diff round trip holds if and only if the edit introduces no explicit null member
  (`MergeDiff.DiffRoundTrip`; crates/kxs-cluster/src/edit.rs:113-139).
- The conflict check looks at touched paths only (crates/kxs-cluster/src/edit.rs:253-257). A concurrent
  change *above* a touched path passes it unless the object is still there: a plain value is overwritten
  and a deletion undone. `EditApply.NothingIsLost` says of every accepted edit exactly when no such change
  is lost; `EditApply.OverwritesAConcurrentScalar` and `EditApply.UndoesAConcurrentDeletion` are concrete
  edits for which one is.
- The patch is merged into whatever the server holds when it arrives, not into the document that was
  checked (crates/kxs-cluster/src/edit.rs:250-272). `EditApply.LatePatch` says exactly when a touched path
  still takes the edit then, and `EditApply.LateChangeSurvives` exactly when what the server held at any
  path, plain or absent, survives. `EditApply.OverwritesALateChange` is a change at the very path of the
  edit that is lost, though the check would have refused it a moment later.
- `strip_server_fields` also drops a patch's `metadata: {}`, although the server does not own it
  (`EditApply.StripPaths`; crates/kxs-cluster/src/edit.rs:178-195).
- Replacing a document that is no object by `{}` gives an empty patch, which `apply_edit` takes for
  nothing to send (`MergeDiff.EmptyDiff`; crates/kxs-cluster/src/edit.rs:114-116 and 241-246).
- The least 128-bit amount prints but does not read back (`QuantityPrint.CanonicalRoundTrip`;
  crates/kxs-cluster/src/describe/node.rs:107-131).
- Stopping the event pump can be satisfied by the `parked` flag of the round before
  (`EventPump.StaleParkedIsPossible`; crates/kxs-tui/src/runtime.rs:288-325); this is safe. Leaving by the
  time-out promises nothing (`EventPump.TimeoutPromisesNothing`; crates/kxs-tui/src/runtime.rs:324-329), and
  a reader thread that gave up is never replaced (`EventPump.ExitedReaderIsFinal`;
  crates/kxs-tui/src/runtime.rs:276-281).
- The stream ids are 32 bits wide and wrap (src-tauri/src/cluster_ipc.rs:20-22). That no stream is ever out
  of reach does not depend on them (`StreamRegistry.NoStreamIsOutOfReach`); the rest of the registry's
  promise holds throughout a run if and only if each start is harmless: every live stream that has the new
  id belongs to another tab and has lost its entry (`StreamRegistry.RegistryIsSafe`). Runs of fewer than
  2^32 steps are safe, and `StreamRegistry.WrappedIdsAreUnsafe` is a run of 2^32 + 3 that is not.
- The event pump's reader can still take one event after `pause` is set, even if stop gives up waiting,
  and never more (`EventPump.PauseLeavesOneCall`; crates/kxs-tui/src/runtime.rs:287-313).
- `parse_human_duration` multiplies and adds in 64 bits (crates/kxs-core/src/format.rs:134); where overflow
  wraps, its result is exact if and only if the whole sum fits (`HumanDuration.ParsesExactlyWhatFits`).
- A pod change delivered in the middle of a relist would be shown or lost depending on the flush tick
  (`PodWatch.ChangeDuringRelistDependsOnTicks`; crates/kxs-cluster/src/pods.rs:340-352); the refinement
  rests on the watcher not delivering one.

## Model

| member | source | states |
|---|---|---|
| JsonDocs.MergeOntoNothing | crates/kxs-cluster/src/edit.rs:110-116 | merging a document onto a non-object rebuilds it if and only if it has no null member (RFC 7386 section 2) |
| MergeDiff.MergePatchDiff | crates/kxs-cluster/src/edit.rs:113-139 | the recursive fill of `out` computes the specified diff, whatever the order of keys |
| MergeDiff.EmptyDiff | crates/kxs-cluster/src/edit.rs:113-139 | the diff is `{}` exactly for equal objects, and for `{}` replacing a non-object |
| MergeDiff.DiffMembers | crates/kxs-cluster/src/edit.rs:123-129 | the diff of two objects has a member for exactly the keys whose value differs, so the vacuous guard never drops a change |
| MergeDiff.NoNullsAreExpressible | crates/kxs-cluster/src/edit.rs:110-139 | an edited document without null members can be reached by a merge patch from every base |
| MergeDiff.DiffRoundTrip | crates/kxs-cluster/src/edit.rs:110-139 | merging the diff into the base gives the edited document, if and only if the edit introduces no explicit null member |
| PatchPaths.PathWalker.Walk | crates/kxs-cluster/src/edit.rs:144-155 | appends each leaf path below the current prefix exactly once and restores the prefix |
| PatchPaths.PatchPaths | crates/kxs-cluster/src/edit.rs:141-162 | the paths are distinct and are exactly the leaves of the patch; none for the empty patch |
| PatchPaths.PathsArePrefixFree | crates/kxs-cluster/src/edit.rs:141-162 | no touched path is a proper prefix of another |
| PatchPaths.NoPathsOnlyForEmptyPatch | crates/kxs-cluster/src/edit.rs:156-160 | a patch has no path if and only if it is `{}` |
| PatchPaths.UntouchedMeansEqual | crates/kxs-cluster/src/edit.rs:113-162 | the diff of two objects touches no path if and only if they are equal |
| PatchPaths.DiffLeaf | crates/kxs-cluster/src/edit.rs:113-162 | every leaf of a diff is a real change and carries the edited value, or null for a removed member |
| EditApply.PatchDocument.StripServerFields | crates/kxs-cluster/src/edit.rs:173-196 | the in-place removal leaves the specified patch |
| EditApply.StripPaths | crates/kxs-cluster/src/edit.rs:172-196 | stripping leaves exactly the paths outside `status` and the five server-owned metadata fields, if and only if the patch's metadata is not `{}` |
| EditApply.ServerOwnsThese | crates/kxs-cluster/src/edit.rs:176-188 | the fields never sent are `status` and five named ones of the metadata |
| EditApply.StalePaths | crates/kxs-cluster/src/edit.rs:253-257 | finds exactly the given paths whose value differs between base and latest |
| EditApply.CheckPatch | crates/kxs-cluster/src/edit.rs:243-263 | nothing is sent for an empty patch, a conflict lists exactly the contested paths, and a patch is sent if and only if it has paths and none is contested |
| EditApply.PlanEdit | crates/kxs-cluster/src/edit.rs:198-272 | refused exactly when `apiVersion`, `kind`, `metadata.name` or `metadata.namespace` changed; silent exactly when nothing is left to send; sent exactly when every touched path still has the base value on the server, else in conflict over exactly the others; and what is sent is the stripped diff |
| EditApply.LeafWins | crates/kxs-cluster/src/edit.rs:141-162 | a server merge puts the value of each leaf of the patch at its path, removes the path for a null, and lets `{}` leave an object that is there |
| EditApply.PatchCarriesTheEdit | crates/kxs-cluster/src/edit.rs:240-241 | each leaf of the stripped patch carries the edited value, or null where the edit has none, and `{}` only where the base had no object |
| EditApply.ClearPathsKept | crates/kxs-cluster/src/edit.rs:141-162 | a server merge keeps the target's value at every path not prefix-comparable with a touched one |
| EditApply.TouchedPathsTakeTheEdit | crates/kxs-cluster/src/edit.rs:215-272 | after an accepted edit every touched path holds the edited value, and is absent for an explicit null |
| EditApply.UneditedPathsStay | crates/kxs-cluster/src/edit.rs:215-272 | after an accepted edit every path at which base and edited agree holds the server's latest value |
| EditApply.ThreeWayMerge | crates/kxs-cluster/src/edit.rs:215-272 | an accepted edit gives the edited value at touched paths, the server's value where the edit changed nothing or the patch does not reach, and the server's at the four identifying paths |
| EditApply.OwnedFieldsKept | crates/kxs-cluster/src/edit.rs:172-196 | if `metadata` is an object before and after the edit, a merge of the stripped patch leaves every server-owned field as the server has it, even if the edit changed it |
| EditApply.UncontestedEdit | crates/kxs-cluster/src/edit.rs:215-272 | with no other writer, and `metadata` an object before and after, the outcome is the edited document if and only if the edit leaves the server's fields alone and introduces no null |
| EditApply.LatePatch | crates/kxs-cluster/src/edit.rs:250-272 | whatever document is current when the patch arrives, a touched path takes the edited value exactly unless that is `{}` and an object with members has appeared there; paths clear of the patch keep their current value |
| EditApply.ServerValueSurvives | crates/kxs-cluster/src/edit.rs:253-263 | where the server has no object, its plain value or its absence survives a merge that touches nothing at or above it if and only if no touched path runs through it |
| EditApply.NothingIsLost | crates/kxs-cluster/src/edit.rs:253-272 | if the server still holds the checked document, an accepted edit loses no concurrent change to a plain value or a deletion if and only if every changed path above a touched one still is an object |
| EditApply.BelowATouchedPath | crates/kxs-cluster/src/edit.rs:141-162 | at or below a touched path the merge leaves what the edit has there, nothing for a null, and the current value under an object that `{}` left in place |
| EditApply.LateChangeSurvives | crates/kxs-cluster/src/edit.rs:250-272 | for any document current when the patch arrives, a plain value or absence at a path survives if and only if no touched path runs through it and the touched path at or above it, if any, puts the same there |
| EditApply.OverwritesAConcurrentScalar | crates/kxs-cluster/src/edit.rs:253-263 | a concrete edit that passes the conflict check and overwrites a concurrent change above a touched path |
| EditApply.UndoesAConcurrentDeletion | crates/kxs-cluster/src/edit.rs:253-263 | a concrete edit that passes the conflict check and brings back an object deleted above a touched path |
| EditApply.OverwritesALateChange | crates/kxs-cluster/src/edit.rs:250-272 | a concrete change at the touched path that the check would refuse and that is overwritten when it arrives after the check |
| Quantity.ScanSound | crates/kxs-cluster/src/describe/node.rs:38-108 | what is scanned is a well-formed quantity that spells the text |
| Quantity.ScanComplete | crates/kxs-cluster/src/describe/node.rs:38-108 | every well-formed quantity is scanned into its own parts, so the grammar is unambiguous |
| QuantityParse.ScanNumber | crates/kxs-cluster/src/describe/node.rs:38-54 | the byte loop finds the digits, the point and where the number ends |
| QuantityParse.ReadTail | crates/kxs-cluster/src/describe/node.rs:55-98 | an exponent only where digits follow the marker, a suffix otherwise; nothing else, and no exponent beyond 32 bits |
| QuantityParse.Accumulate | crates/kxs-cluster/src/describe/node.rs:103-112 | the digits on both sides of the point as one number, or nothing if it exceeds 128 bits at any step |
| QuantityParse.ToNanos | crates/kxs-cluster/src/describe/node.rs:119-124 | scaling by a power of ten, rounded up; refused exactly when the power or the result does not fit |
| QuantityParse.Combine | crates/kxs-cluster/src/describe/node.rs:113-124 | binary suffix, exponent and fraction combined; the checked 32-bit and 128-bit steps refuse exactly what does not fit |
| QuantityParse.Parse | crates/kxs-cluster/src/describe/node.rs:32-132 | the parser computes the specified amount or refusal on every text |
| QuantityParse.Pow10InI128 | crates/kxs-cluster/src/describe/node.rs:119-122 | ten to the 38 is the last power of ten that the checked power accepts |
| QuantityParse.NanosAreTheCeiling | crates/kxs-cluster/src/describe/node.rs:113-124 | integer scaling and rounding give the ceiling of the exact rational value in nanounits |
| QuantityParse.FitsMeansEvaluated | crates/kxs-cluster/src/describe/node.rs:102-131 | a quantity is accepted exactly when its exponent, digits, scale and result fit their widths |
| QuantityParse.ParsedIsExact | crates/kxs-cluster/src/describe/node.rs:32-131 | a quantity is accepted exactly when its parts fit, and then the amount is the sign times the ceiling of its exact size: overflow never wraps |
| QuantityParse.OnlyQuantitiesParse | crates/kxs-cluster/src/describe/node.rs:32-102 | only a text that spells a well-formed quantity is accepted |
| QuantityParse.SuffixesAre | crates/kxs-cluster/src/describe/node.rs:76-94 | sixteen suffixes are known and no others |
| QuantityParse.DecimalSuffixesAreWorth | crates/kxs-cluster/src/describe/node.rs:77-86 | without a suffix a number counts units, and each decimal suffix is worth a thousand of the one before it, from nanounits up |
| QuantityParse.BinarySuffixesAreWorth | crates/kxs-cluster/src/describe/node.rs:87-92 | each binary suffix is worth 1024 of the one before it |
| QuantityParse.FractionContinues | crates/kxs-cluster/src/describe/node.rs:102-112 | digits after the point continue the number, each worth a tenth of the one before it |
| QuantityParse.ScaleIs | crates/kxs-cluster/src/describe/node.rs:102-118 | the power of ten follows from suffix or signed exponent and the digits after the point |
| QuantityParse.NotationIs | crates/kxs-cluster/src/describe/node.rs:76-101 | the notation of an amount is the one its text was written in |
| QuantityPrint.StripZeros | crates/kxs-cluster/src/describe/node.rs:157-162 | the first loop ends, keeps the value and leaves no trailing zero |
| QuantityPrint.Align | crates/kxs-cluster/src/describe/node.rs:163-166 | the second loop ends at a multiple of three, keeps the value and never leaves 128 bits |
| QuantityPrint.DecimalForm | crates/kxs-cluster/src/describe/node.rs:173-189 | the largest decimal unit that divides the amount is found; the end of the loop is unreachable |
| QuantityPrint.BinaryForm | crates/kxs-cluster/src/describe/node.rs:138-154 | the largest binary unit that divides the bytes is found |
| QuantityPrint.Canonical | crates/kxs-cluster/src/describe/node.rs:134-190 | every 128-bit amount prints as a whole number in the largest unit of its notation |
| QuantityPrint.CanonicalMakes | crates/kxs-cluster/src/describe/node.rs:134-190 | the printed number and unit make up exactly the amount |
| QuantityPrint.CanonicalChoice | crates/kxs-cluster/src/describe/node.rs:134-190 | which of the three forms is printed, in terms of the amount, and that no larger unit would leave a whole number |
| QuantityPrint.CanonicalRoundTrip | crates/kxs-cluster/src/describe/node.rs:32-190 | in all three notations the printed text reads back as the same amount, if and only if it is not the least 128-bit one |
| PodResources.ContainerAsksItsSpec | crates/kxs-cluster/src/describe/node.rs:271-286 | without the status a container asks for exactly the quantities of its own requests, or limits, that parse |
| PodResources.ContainerAsksTheLargest | crates/kxs-cluster/src/describe/node.rs:287-294 | with it a container asks for the largest of what its spec requests, unless the resize is infeasible, what it was given and what is allocated |
| PodResources.StatusIsFirst | crates/kxs-cluster/src/describe/node.rs:249-257 | a container's status is the first one of its name |
| PodResources.StatusOfPod | crates/kxs-cluster/src/describe/node.rs:249-269 | statuses of main containers come before those of init containers, and a resize is infeasible exactly for that pending condition |
| PodResources.ResourceAmounts.AddAmounts | crates/kxs-cluster/src/describe/node.rs:214-226 | the in-place sum per resource, saturating, in the notation of the current amount unless that is zero; other resources stay or are added |
| PodResources.ResourceAmounts.MaxAmounts | crates/kxs-cluster/src/describe/node.rs:228-239 | the in-place maximum per resource; the current amount stays on a tie |
| PodResources.Accumulate | crates/kxs-cluster/src/describe/node.rs:300-336 | the loops over main and init containers compute the specified aggregate |
| PodResources.AggregateContainers | crates/kxs-cluster/src/describe/node.rs:271-336 | the aggregate of what each container asks for, by spec or by status; status counts for an init container only if it restarts |
| PodResources.InitTotalsAre | crates/kxs-cluster/src/describe/node.rs:315-334 | after any number of init containers the three accumulators are the capped running total, the sidecar total and the peak so far |
| PodResources.AggregateIsPeak | crates/kxs-cluster/src/describe/node.rs:296-336 | for non-negative amounts the aggregate is, per resource, the largest demand of any start-up phase, capped at the 128-bit maximum |
| PodResources.PodTotalIsPeak | crates/kxs-cluster/src/describe/node.rs:271-336 | for every pod whose amounts are not negative, what its containers need in all is, per resource, the largest demand of any of its start-up phases; an init container goes by its status only if it restarts |
| PodResources.PodResourceAmounts | crates/kxs-cluster/src/describe/node.rs:342-366 | requests and limits of a pod after pod-level overrides and overhead |
| PodResources.PodRequestIs | crates/kxs-cluster/src/describe/node.rs:338-366 | what a pod requests is its own supported pod-level value that parses, else the start-up peak of its containers, plus its overhead |
| PodResources.PodLimitIs | crates/kxs-cluster/src/describe/node.rs:338-366 | a pod's limit is found the same way from its limits, and overhead raises it only if it is not zero |
| PodWatch.PodTable.Apply | src/lib/stores/podtable.svelte.ts:7-17 | the client's map after each kind of event: replaced, updated, reduced, unchanged |
| PodWatch.Batcher.Upsert | crates/kxs-cluster/src/pods.rs:273-276 | the row joins the batch, its pending delete is gone, and the two key sets stay disjoint |
| PodWatch.Batcher.Delete | crates/kxs-cluster/src/pods.rs:278-281 | the key joins the deletes, its pending row is gone, and the two key sets stay disjoint |
| PodWatch.Batcher.Flush | crates/kxs-cluster/src/pods.rs:283-296 | the events taken out do to any table what the batch would, and the batch is empty afterwards |
| PodWatch.DrivePodEvents | crates/kxs-cluster/src/pods.rs:323-363 | while the receiver is there, what was sent builds the client table of the run; otherwise the receiver has gone |
| PodWatch.ClientRefinesDirect | crates/kxs-cluster/src/pods.rs:272-363 | in every run, outside a relist the client table with the pending batch equals applying each event directly; during a relist nothing is pending |
| PodWatch.RelistShows | crates/kxs-cluster/src/pods.rs:340-352 | after a relist, whatever came before and wherever ticks and failures fall in it, the client shows exactly the keys delivered, each with its last row |
| PodWatch.ChangesShow | crates/kxs-cluster/src/pods.rs:353-361 | a change shows with the next tick and changes no other row; a failure changes none |
| PodWatch.WatcherStreamsAreWellFormed | crates/kxs-cluster/src/pods.rs:339-361 | relists and changes with ticks and failures anywhere are the runs the refinement is about |
| PodWatch.ClientShowsAMoment | crates/kxs-cluster/src/pods.rs:329-363 | at every moment, relists included, the client shows the table that applying each event directly gave at some earlier moment, never a mixture, and that moment never moves back |
| PodWatch.TicksDoNotMatter | crates/kxs-cluster/src/pods.rs:329-339 | the direct table does not depend on where the flush ticks fall |
| PodWatch.TickPlacementIsInvisible | crates/kxs-cluster/src/pods.rs:329-339 | any two placements of ticks show the client the same table once flushed |
| PodWatch.ChangeDuringRelistDependsOnTicks | crates/kxs-cluster/src/pods.rs:340-352 | a change inside a relist would be lost or shown depending on the tick, so the order of watch events is needed |
| EventPump.NextKeepsInv | crates/kxs-tui/src/runtime.rs:275-330 | every atomic step of either thread keeps the protocol's invariant |
| EventPump.HandOffIsSafe | crates/kxs-tui/src/runtime.rs:275-330 | in every interleaving, once stop saw `parked` the reader polls and reads nothing until start clears `pause`; at most one reader is ever spawned |
| EventPump.HandOverLastsUntilUnpaused | crates/kxs-tui/src/runtime.rs:275-281 | the hand-over ends only with the step that clears `pause` |
| EventPump.StopTriesFiftyTimes | crates/kxs-tui/src/runtime.rs:323-329 | stop looks at `parked` fifty times and gives up after that, never before |
| EventPump.PauseLeavesOneCall | crates/kxs-tui/src/runtime.rs:287-330 | in every interleaving, while `pause` is set the reader makes at most one more poll and one more read, whether or not stop saw it park |
| EventPump.StaleParkedIsPossible | crates/kxs-tui/src/runtime.rs:287-330 | a reachable state in which stop was satisfied by the flag of the previous round |
| EventPump.TimeoutPromisesNothing | crates/kxs-tui/src/runtime.rs:319-330 | a reachable state in which stop timed out and the reader is in a read |
| EventPump.ExitedReaderIsFinal | crates/kxs-tui/src/runtime.rs:275-314 | a reader that gave up stays gone: no later start replaces it |
| StreamRegistry.Sessions.StopAll | src-tauri/src/cluster_ipc.rs:43-61 | signals exactly the streams whose senders the handle holds |
| StreamRegistry.Sessions.OpenSession | src-tauri/src/cluster_ipc.rs:92-122 | the tab gets an empty handle and every stream of the replaced one is signalled |
| StreamRegistry.Sessions.CloseSession | src-tauri/src/cluster_ipc.rs:125-130 | the tab's handle goes and every stream of it is signalled |
| StreamRegistry.Sessions.WatchPods | src-tauri/src/cluster_ipc.rs:147-171 | the new pod watch takes the tab's slot and the one before it is signalled; refused without a session |
| StreamRegistry.Sessions.StreamLogs | src-tauri/src/cluster_ipc.rs:201-231 | a log stream takes the next global id and its entry; without a session no id is used |
| StreamRegistry.Sessions.WatchResourceTable | src-tauri/src/cluster_ipc.rs:296-335 | a table watch takes the next global id and its entry; without a session no id is used |
| StreamRegistry.Sessions.StopLogs | src-tauri/src/cluster_ipc.rs:233-244 | removes the id's entry from the tab's handle and signals its stream; nothing if there is none |
| StreamRegistry.Sessions.StopResourceTable | src-tauri/src/cluster_ipc.rs:338-349 | the same for a table watch |
| StreamRegistry.Sessions.PruneSelf | src-tauri/src/cluster_ipc.rs:216-229 | the end of a stream's task: log and table streams remove the entry under their id in their tab's current handle |
| StreamRegistry.StopEffect | src-tauri/src/cluster_ipc.rs:233-244 | stopping a log or table stream takes its entry out of the tab's handle and signals the stream that held it, and changes nothing else |
| StreamRegistry.OpenAndCloseEffect | src-tauri/src/cluster_ipc.rs:92-130 | opening gives the tab an empty handle, closing takes it away, and either signals exactly the streams of the handle that was there |
| StreamRegistry.StartEffect | src-tauri/src/cluster_ipc.rs:147-231 | with a session a start puts a new stream into its slot, signals the one it takes it from and counts the id up, wrapping at 2^32; without one nothing happens |
| StreamRegistry.PruneEffect | src-tauri/src/cluster_ipc.rs:216-229 | a stream that prunes itself removes what sits under its id in its tab's handle; pod watches never do |
| StreamRegistry.StepKeepsInv | src-tauri/src/cluster_ipc.rs:43-349 | every command and every late prune, harmless starts included, keeps entries with their own streams, owners apart and each id in one handle |
| StreamRegistry.StepRegisters | src-tauri/src/cluster_ipc.rs:43-349 | every command and every late prune, with any ids, leaves each stream registered or signalled |
| StreamRegistry.NoStreamIsOutOfReach | src-tauri/src/cluster_ipc.rs:43-349 | in every run, wrapped ids included, each stream is registered in its tab's current handle or was signalled |
| StreamRegistry.PruneTakesOwnEntry | src-tauri/src/cluster_ipc.rs:17-22 | a stream that prunes itself finds its own entry or none, even in a replaced handle |
| StreamRegistry.RegistryIsSafe | src-tauri/src/cluster_ipc.rs:17-22 | over every interleaving: an id sits in at most one handle, a prune takes its own entry or nothing and every stream is registered or signalled, throughout the run if and only if each of its starts is harmless |
| StreamRegistry.ShortRunsAreFresh | src-tauri/src/cluster_ipc.rs:17-22 | in a run of fewer than 2^32 steps no start takes an id that any earlier stream has had |
| StreamRegistry.ShortRunsAreSafe | src-tauri/src/cluster_ipc.rs:17-22 | so every such run is safe throughout |
| StreamRegistry.StartIsSafe | src-tauri/src/cluster_ipc.rs:207-215 | starting a stream leaves the registry safe if and only if every live stream with the new id belongs to another tab and has lost its entry |
| StreamRegistry.HarmfulStartIsUnsafe | src-tauri/src/cluster_ipc.rs:207-215 | any other start breaks the promise at once |
| StreamRegistry.WrappedIdsAreUnsafe | src-tauri/src/cluster_ipc.rs:17-22 | a run of 2^32 + 3 steps from the start of the app reaches a state in which a running stream has lost its entry to another |
| TableRefresh.TableWatch.EmitTable | crates/kxs-cluster/src/resources.rs:283-295 | one fetch, answered by its table or its error; a refused send ends the watch |
| TableRefresh.TableWatch.Turn | crates/kxs-cluster/src/resources.rs:321-358 | one pass of the loop: each input's effect on deadline, first-relist flag, fetches and what is sent |
| TableRefresh.TableWatch.DriveTableEvents | crates/kxs-cluster/src/resources.rs:300-359 | the first fetch and the loop carry out the specified run |
| TableRefresh.FirstRelistFlag | crates/kxs-cluster/src/resources.rs:338-346 | the flag is set exactly until the first relist is done |
| TableRefresh.ChangesAreDueInTime | crates/kxs-cluster/src/resources.rs:312-358 | in every run an unserved change, later relist or resync is due at most `debounce` after it was consumed, and a pending deadline is exactly `debounce` after one of them |
| TableRefresh.FetchesAreSpaced | crates/kxs-cluster/src/resources.rs:312-358 | each fetch starts at least `debounce` after the one before it ended |
| TableRefresh.FetchRateIsBounded | crates/kxs-cluster/src/resources.rs:219-228 | at most width / debounce + 1 fetches start in any window, however fast the changes come |
| TableRefresh.OneReplyPerFetch | crates/kxs-cluster/src/resources.rs:283-295 | every fetch is answered by exactly one table or error event |
| TableRefresh.TurnSends | crates/kxs-cluster/src/resources.rs:283-358 | what each input sends, table or error by the fetch, and that the watch goes on after every accepted send and ends with a refused one, a stop or its stream |
| TableRefresh.FirstReply | crates/kxs-cluster/src/resources.rs:312-316 | the first fetch is answered at once and leaves no deadline |
| TableRefresh.AnyInputMayCome | crates/kxs-cluster/src/resources.rs:321-337 | a running watch accepts any input at any later time, and the timer exactly from its deadline on |
| LogStream.LogPump.RunLogStream | crates/kxs-cluster/src/logs.rs:73-107 | the loop sends and keeps what the specified run does, and returns when it does |
| LogStream.LinesAreConserved | crates/kxs-cluster/src/logs.rs:73-107 | at every turn the sent batches and the pending one hold exactly the lines read, in order; batches have 1 to 50 lines |
| LogStream.TickDeliversAll | crates/kxs-cluster/src/logs.rs:80-83 | after a tick nothing is pending: every line read has been sent |
| LogStream.LineWaits | crates/kxs-cluster/src/logs.rs:85-90 | a line is kept until there are fifty, which are then sent at once |
| LogStream.WhenItReturns | crates/kxs-cluster/src/logs.rs:77-106 | the loop returns on a stop, which sends nothing, on the end of the stream, and when a send of this turn is refused; never otherwise |
| LogStream.StreamEndDeliversAll | crates/kxs-cluster/src/logs.rs:92-105 | end of stream or error delivers every line read and then exactly one terminal event |
| LogStream.RunsUntilStreamEnds | crates/kxs-cluster/src/logs.rs:77-107 | while sends are accepted and nobody stops it, the loop runs until the stream ends |
| HumanDuration.ParseHumanDuration | crates/kxs-core/src/format.rs:112-140 | the parser loop computes the sum of numbers and units, each product and sum wrapped to 64 bits, or refuses |
| HumanDuration.ParsesExactlyWhatFits | crates/kxs-core/src/format.rs:118-136 | the result is the mathematical sum if and only if that sum fits 64 bits |
| HumanDuration.AgeSecs | crates/kxs-core/src/format.rs:16-37 | prints the two largest units of an age, the days alone from thirty days on |
| HumanDuration.DurationRoundTrip | crates/kxs-core/src/format.rs:41-140 | reading back a printed duration gives it rounded down to its bucket's granularity, and fails exactly below -1 |
| HumanDuration.DurationUnits | crates/kxs-core/src/format.rs:41-95 | which units a duration shows, by its length in seconds, and that a second unit is shown only if it is not zero |
| HumanDuration.AgeShows | crates/kxs-core/src/format.rs:16-37 | an age shows its two largest units, zero or not, seconds alone below a minute and days alone from thirty on |
| HumanDuration.OnlyFiveUnits | crates/kxs-core/src/format.rs:113-132 | the parser knows five units and no others |
| HumanDuration.AgeRoundTrip | crates/kxs-core/src/format.rs:16-37 | the same for ages |
| HumanDuration.FlooredIsMonotone | crates/kxs-core/src/format.rs:16-95 | rounding never overstates a duration or an age and keeps their order |
| HumanDuration.TextsKeepOrder | crates/kxs-core/src/format.rs:16-140 | the text of a longer duration or age never reads as a shorter one, and two durations, or two ages, share a text exactly when they round to the same one |
| TabWriter.EscapingIsVisible | crates/kxs-cluster/src/describe/writer.rs:131-135 | the two replacements show each escape and carriage return, keep all else and leave neither control |
| TabWriter.EscapedOne | crates/kxs-cluster/src/describe/writer.rs:131-135 | what becomes of each character, and that a text is escaped character by character |
| TabWriter.Writer.Cells | crates/kxs-cluster/src/describe/writer.rs:55-65 | appends a row with its first cell indented; an empty row becomes an empty text line |
| TabWriter.Writer.Finish | crates/kxs-cluster/src/describe/writer.rs:81-127 | the text is, line by line, each escaped line laid out in the maximal run of lines with columns around it, and nothing else |
| TabWriter.FinishLines | crates/kxs-cluster/src/describe/writer.rs:88-126 | the block loop finds the maximal runs and emits each line once, in order |
| TabWriter.LinesAreInOrder | crates/kxs-cluster/src/describe/writer.rs:88-126 | the output is the rendered lines in order, each ended by a line feed |
| TabWriter.LineEnds | crates/kxs-cluster/src/describe/writer.rs:90-124 | a trimmed line loses exactly its trailing white space, any other is kept whole, and a line without columns is its one cell |
| TabWriter.Widths | crates/kxs-cluster/src/describe/writer.rs:104-112 | the width array holds, per column, the largest demand of the block's lines |
| TabWriter.LayOut | crates/kxs-cluster/src/describe/writer.rs:113-120 | pads each cell but the last to its column; the subtraction never goes below zero |
| TabWriter.WidthIsExact | crates/kxs-cluster/src/describe/writer.rs:104-112 | a column is exactly as wide as its widest cell that is not a line's last, plus two |
| TabWriter.CellStartsAtColumn | crates/kxs-cluster/src/describe/writer.rs:113-120 | cell c starts at the sum of the earlier widths, and at least two spaces and nothing else separate it from the next |
| TabWriter.ColumnsAlign | crates/kxs-cluster/src/describe/writer.rs:98-124 | any two lines with no single-cell line between them show cell c at the same offset in the output; only trailing white space is cut off |
| TabWriter.CellIsShown | crates/kxs-cluster/src/describe/writer.rs:113-124 | in the output a cell stands at the offset of its column; only white space at the end of a line is cut off |
| PercentEncoding.EncodeQueryValue | crates/kxs-cluster/src/resources.rs:146-157 | the byte loop computes the specified encoding |
| PercentEncoding.EncodeRoundTrip | crates/kxs-cluster/src/resources.rs:144-157 | decoding (section 2.1 of RFC 3986) gives back every byte string |
| PercentEncoding.OctetBecomes | crates/kxs-cluster/src/resources.rs:150-155 | letters, digits and four marks are kept; any other octet becomes a percent sign and two upper-case digits of base sixteen, high one first |
| PercentEncoding.EncodedConcat | crates/kxs-cluster/src/resources.rs:149-156 | the encoding goes octet by octet |
| PercentEncoding.OutputsAreTheNormalForms | crates/kxs-cluster/src/resources.rs:144-157 | the outputs are exactly the strings of unreserved characters and upper-case triples of other octets |
| PercentEncoding.Injective | crates/kxs-cluster/src/resources.rs:144-157 | different byte strings are encoded differently |
| PercentEncoding.NoDelimiters | crates/kxs-cluster/src/resources.rs:144-157 | nothing but unreserved characters (section 2.3 of RFC 3986) and percent signs appears |
| RecencyLists.NamespaceSwitcher.SetNamespace | crates/kxs-tui/src/app.rs:242-261 | nothing happens without a session or for the namespace in force; otherwise it is set, remembered for the context alone, and shown |
| RecencyLists.NamespaceSwitcher.RememberNamespace | crates/kxs-tui/src/app.rs:264-279 | a name moves to the front of its context's favourites, whatever was configured: its first occurrence goes and the list is cut at nine; no name leaves them alone |
| RecencyLists.NamespaceSwitcher.Switches | crates/kxs-tui/src/app.rs:242-279 | after any run of switches in a session its favourites are the first nine of the list that is never truncated, and no other context changed |
| RecencyLists.RememberedStaysDistinct | crates/kxs-tui/src/app.rs:272-278 | favourites without repeats have none after a switch either |
| RecencyLists.BoundCommutes | crates/kxs-tui/src/app.rs:273-277 | truncating a list before a name is moved to its front makes no difference to the truncated result |
| RecencyLists.FavouritesAreTheMostRecent | crates/kxs-tui/src/app.rs:264-279 | truncating at every switch gives the first nine of the untruncated list from any start; from at most nine names without repeats these are the nine most recently used |
| RecencyLists.FavouriteUntilNineOthers | crates/kxs-tui/src/app.rs:263-279 | a name is a favourite exactly until nine other names were used after its last use |
| RecencyLists.CommandHistory.RememberCommand | crates/kxs-tui/src/app.rs:1565-1575 | a repeat of the last command changes nothing but the position; anything else is appended, and at fifty the oldest goes |
| RecencyLists.CommandHistory.HistoryRepeat | crates/kxs-tui/src/app.rs:1537-1548 | runs the most recent command again, or none |
| RecencyLists.CommandHistory.HistoryStep | crates/kxs-tui/src/app.rs:1551-1562 | moves from the position, or the last command if it is past that, clamped to the ends, and runs the command there |
| RecencyLists.CommandHistory.HandleKeys | crates/kxs-tui/src/app.rs:1536-1575 | the methods carry out any run of keys as specified |
| RecencyLists.HistoryIsTheLastFifty | crates/kxs-tui/src/app.rs:1536-1575 | after any run of keys the history is the last fifty submissions with adjacent repeats collapsed, and the position is within it |
| RecencyLists.CollapsedHasNoRepeats | crates/kxs-tui/src/app.rs:1564-1569 | no two adjacent commands of the collapsed history are equal |
| RecencyLists.StepsBackReach | crates/kxs-tui/src/app.rs:1550-1575 | after any keys and a submission, the presses of `[` run the commands submitted before it one by one, and stay at the oldest of the last fifty |
| RecencyLists.StepsForwardReach | crates/kxs-tui/src/app.rs:1550-1562 | the presses of `]` run the newer commands one by one, up to the last and no further |
| FuzzyMatch.FuzzyMatch | crates/kxs-cluster/src/table/filter.rs:68-72 | true if and only if some strictly increasing choice of positions in the text spells the needle |

## Left out

- The order in which object members are visited and rows and keys are flushed: the source's sorted maps are modelled as maps and sets, so paths and rows are characterised as sets.
- YAML parsing, HTTP, the client library, timers and channels: streams are sequences of inputs, `send` is a returned flag, and the server is the merge of RFC 7386.
- `stop` in the pod watch, which is modelled as the end of the input sequence, and the text and formatting of error messages throughout.
- The client's sorted row list: only the map behind it is modelled.
- The notation of an amount through the quantity round trip: only the value survives, since a binary amount may print in decimal.
- `rounded_units`, `percent` and the rest of the node description: one division each, and text layout.
- PodResources.AggregateIsPeak: says nothing about negative amounts, which the parser accepts and the cluster does not.
- EventPump.HandOffIsSafe: does not cover a stop that times out, about which nothing holds.
- The drain of pending input between a suspended child and the next start, which runs on the main thread while it owns the terminal.
- StreamRegistry.Sessions.StopAll: leaves out the senders of exec sessions and port forwards, which the source signals too; their ids are numbered per handle and they never prune themselves.
- The resync timer's own schedule: a resync tick may come at any time, so the bounds on fetches do not rest on its spacing.
- TableRefresh.ChangesAreDueInTime: counts from the moment the loop consumes a change; how long a change waits in the stream during a fetch is not bounded, and changes between the first fetch and the first relist are covered by the resync only.
- A build with overflow checks, in which `parse_human_duration` stops the program where the modelled one wraps.
- The other entry points of the tab writer, each of which appends one line of fixed cells.
- `age` and `human_age`, which parse a timestamp and call the two printers.
- Page-by-page listing and the mapping of server tables to rows in `resources.rs`.
- The failure to open a log stream, which sends one error and returns.
- The other forms of the row filter: label selectors and regular expressions.
- What a repeated command does, and the switch from one session to another between namespace changes.
- Floating-point utilisation, sorting by mixed cell values, views, themes, key maps and the text of the other describers.
