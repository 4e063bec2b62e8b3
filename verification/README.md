# A model of confii-go's configuration core

confii-go merges ordered configuration layers into one snapshot, publishes it,
and changes it through transactions while readers keep running. These modules
model that core in Dafny 4.11 and prove what it is for. `dafny verify
dfyconfig.toml` verifies the whole project.

**Values and trees.** `Values` and `Paths` hold the value type, dotted paths and
the meaning of Get and Set. `Store` has the Go maps as a heap with references,
with the in-place operations as methods; `StoreTrees` proves that on a tree they
mean the path functions. `GraphCopy` is the deep copy of cyclic and shared
graphs, `CopiedTrees` its effect on trees. `Flatten` and `Diff` are the flat form
and the recursive comparison.

**Layers.** `Compose` (includes and defaults over a file system) with `Includes`
on who wins, `EnvHandler`, `Merge` with `MergeRules` on per-path rules,
`FileTracker`, and `Load` with the layer cache, the incremental selection, Reload
and Extend; `Plans` has the source plan and its conflicts. `Selection`, `Incremental` and `ReloadRuns` relate
incremental reloads to full ones, `ExtendReload` and `ExtendEnvironment` relate
Extend to a reload, and `ReloadExamples` has runs in which they differ.

**Secrets.** `SecretRef` (grammar, parser, printer), `Admission`, `Resolver`,
`ResolverClose` (the close protocol as a state machine), `SecretSession` (the
single-flight table as a state machine), `Materialize` (sequential walk and
worker pool), `Redaction`. `Templates` and `ResolverAnswers` say what
materialization and resolution make of a text, by `Positions` inside values.

**The snapshot's life.** `Snapshots` and `Overrides` are the published state and
the override stack; `Lifecycle` is the machine of all operations, with one step
per critical section, and `LifecycleRuns` its safety over whole runs;
`ConfigObject` has the object's methods over its fields; `Effects` says what the
operations do path by path; `Operations` joins loading, materialization and
redaction to the machine, and `Sensitivity` follows the sensitive paths over
whole runs. `SharedObjects`, `OverrideHeap` and `OverrideHeapRuns`
are the override stack on the heap, where the replay loop shares payload objects;
`PayloadWear`, `SharedMaps`, `RawWear`, `RestoreWear`, `OverlapRuns` and
`OverrideLeak` say what that sharing does.

Where the code does something its documentation does not say, the model follows
the code, with a concrete example and the exact condition:

- The replay loop of a restore stores the frames' own payload maps. Replayed
  together with a later frame that writes below such a map, the map gets what that
  frame writes, and keeps it when the frame is restored
  (`OverrideLeak.ThreeFramesLeak`). It takes a third frame whose restore replays
  the two together: the two alone are clean (`OverrideLeak.TwoFramesClean`).
  `RestoreWear.RestoreWears` has the exact condition for a payload to stay intact,
  `OverlapRuns.OverlapRunIff` the one for a later restore of the run to be right,
  and `OverrideHeapRuns.AnyOrderOnHeap` the runs in which nothing of this shows.
  The theorems of `Overrides` and `LifecycleRuns` are about values.
- A restore inside a scope discards every Set, Reload, Extend, RefreshSecrets and
  RollbackToVersion published inside it (`Overrides.RestoreForgets`).
- An incremental reload can miss a change that leaves the hashes in place: a source
  dropped for lack of data and back with its old content, a source used uncomposed
  whose include is repaired, a tracked file that disappears
  (`Incremental.OutdatedIff`; `ReloadExamples.RevertedExample`,
  `RepairedIncludeExample`, `GoneIncludeExample`).
- Extend tracks a shared include again; an earlier layer built from its old
  content then stays stale (`ExtendReload.ExtendFaithfulIff`,
  `ReloadExamples.SharedIncludeExample`). Extend also leaves the source plan as it
  was.
- Extend and a later full reload can show different environment maps
  (`ExtendEnvironment.ExtendThenReloadIff`, `ReloadExamples.SectionedExample`).
- The single-flight key does not tell secrets apart when a part of the request
  holds a NUL character (`SecretSession.PlainIff`, `MisansweredIff`).
- A reference reached through empty keys only is not redacted
  (`Redaction.RedactionIff`).
- Deep merge is not associative (`Merge.AssociativeIff`).

## Model

| member | source | states |
|---|---|---|
| LifecycleRuns.Serializable | config_source_transaction.go:59-134 | for every interleaving of Set, Override, restore, Reload, Extend, RefreshSecrets, RollbackToVersion, Freeze and Close, the published state is that of the committed operations performed one at a time in commit order |
| LifecycleRuns.LogGrows | config_source_transaction.go:97-132 | a step commits at most one operation, and only at the end of the commit order |
| Lifecycle.SnapshotUnchanged | config_source_transaction.go:111-118 | a revision that still equals the one of the snapshot means that the snapshot is the published content |
| Lifecycle.RevisionCounts | config_runtime_mutation.go:91-99 | the revision grows at every publication and never otherwise, so two equal revisions have no publication between them |
| LifecycleRuns.RetryMeansCommit | config_runtime_mutation.go:104-114 | a call starts over only if another call published since its snapshot |
| LifecycleRuns.NothingAfterClose | config_lifecycle.go:69-110 | nothing commits once the configuration is closed; only the frozen flag can still be set |
| LifecycleRuns.FrozenRespected | config_lifecycle.go:15-24 | Set, Reload, Extend, RefreshSecrets and RollbackToVersion commit only from states that are neither frozen nor closed, and an Override only from one that is not closed |
| LifecycleRuns.DrainRestores | config_override.go:154-171 | when the override stack drains, the three maps, the attribution, the sensitive paths and the frozen flag are those in front of the first push, whatever committed in between |
| LifecycleRuns.RestoreRebuilds | config_override.go:228-292 | a restore inside a scope leaves the maps and attribution of its opening with exactly the active frames replayed; everything else committed inside the scope is gone (on values) |
| LifecycleRuns.CallNotStuck | config_source_transaction.go:43-57 | no call waits for another: a call in progress always has a step of its own |
| LifecycleRuns.OutcomeMeans | config_source_transaction.go:59-134 | a call that ends has committed its log entry, or published nothing: refused by a flag, cancelled, with nothing to do, or failed in its own work on a snapshot |
| LifecycleRuns.FailureIsCurrent | config_mutation.go:117-127 | a failed Override, or Set of a path that can be set, is reported only when the snapshot it failed on is still what is published |
| Lifecycle.NextInv | config_source_transaction.go:59-134 | every step of every call keeps the invariant: published state, commit order and the snapshots of calls in progress agree |
| Overrides.AnyOrder | config_override.go:189-305 | after any run of pushes and restores in any order, the maps and attribution are the captured base with exactly the surviving frames replayed in push order (on values; on the heap: `OverrideHeapRuns.AnyOrderOnHeap`) |
| Overrides.Survivors | config_override.go:204-211 | the active frames are exactly those pushed and not restored since |
| Overrides.RestoresCommute | config_override.go:183-189 | two frames can be restored in either order with the same result, drained or not (on values, which the heap shows: `OverrideHeapRuns.HeapShowsRun`) |
| Overrides.RestoreTwice | config_override.go:191-200 | a second restore of the same frame changes nothing |
| Overrides.RestoreForgets | config_override.go:228-292 | the result of a restore depends on the base and the frames only, not on what was published inside the scope |
| Overrides.BaseStays | config_override.go:152-166 | the captured base stays the same while any frame is active |
| Overrides.PushKeeps | config_override.go:145-173 | a push that succeeds leaves the maps equal to the base with all frames replayed, and uses an id no active frame has |
| Snapshots.SetKeysIsReplay | config_override.go:241-289 | where the atomic candidate of an Override can be built, the best-effort replay of its keys builds the same |
| OverrideHeapRuns.AnyOrderOnHeap | config_override.go:189-305 | the same on the heap, with the replay loop storing the frames' payload objects uncopied, the raw one in two maps: after any run in any order that never replays a key below a map-valued one, the live objects read as the maps before the run with exactly the surviving frames replayed |
| OverrideHeapRuns.HeapShowsRun | config_override.go:145-305 | in such a run the heap shows the state of the value-level run after every push and restore, so its theorems carry over |
| OverrideHeap.ReplayOnHeap | config_override.go:228-290 | one uncopied replay on fresh copies of the base: the three live maps read as the values replayed, and no earlier object changes, payloads included |
| OverrideHeapRuns.ReplayFrames | config_override.go:241-290 | the loops of a restore over frames and sorted keys, in place on the three maps |
| OverrideHeapRuns.ReplayOne | config_override.go:246-289 | one key of the loop: three in-place writes, skipping the rest at the first that fails |
| OverrideHeapRuns.StackIsReplay | config_override.go:241-290 | the keys the loop visits are those of the value-level replay, in its order |
| RestoreWear.RestoreIsRight | config_override.go:228-290 | over payloads as pushes left them, a restore shows the intended trees in all three live maps, whatever lies below what |
| RestoreWear.RestoreWears | config_override.go:228-290 | the general condition: such a restore leaves in the effective and the raw object of a map payload what the later keys below it that reach it make of it; each is intact exactly when that is what was pushed |
| RestoreWear.PushKeepsPrivate | config_override.go:125-173 | pushes give every frame payload objects of its own |
| OverlapRuns.PrivateRun | config_override.go:125-290 | payloads stay with their frames, apart from each other and from the base, along every run that replays no key below a map-valued one |
| OverlapRuns.OverlapKeepsBase | config_override.go:228-290 | whatever lies below what, a restore leaves the captured base as it was |
| OverlapRuns.OverlapIsRight | config_override.go:189-290 | the first restore of a run that replays a key below a map-valued one is right in all three maps |
| OverlapRuns.WornReads | config_override.go:228-290 | and leaves in the objects of each key the values that the later keys made of them |
| OverlapRuns.WornRun | config_override.go:59-305 | what such a restore did to the payloads stays as it is through every later push, restore, drain and new scope that replays no key below a map-valued one |
| OverlapRuns.OverlapRunReads | config_override.go:189-305 | so every such later restore shows the survivors with the values their objects hold, not with those pushed |
| OverlapRuns.OverlapRunIff | config_override.go:189-305 | over whole runs with one overlapping restore: a later restore whose keys do not contain one another, in maps that take them, shows the intended maps if and only if none of the payloads it replays was changed by the overlapping one |
| PayloadWear.PayloadWornIff | config_override.go:241-264 | the same condition for the effective payloads in one replay of any list of keys |
| RawWear.RawPayloadWornIff | config_override.go:246-289 | and for the raw ones, whose object is stored in both the unresolved and the merged map and so written twice |
| RawWear.LiveMapsRight | config_override.go:241-290 | the three live maps after such a replay, sharing and all |
| SharedMaps.PairStep | config_override.go:265-289 | one key set in two maps that share objects at equal places: one write where the paths meet in a shared object, two apart elsewhere, and each map ends as if written alone |
| PayloadWear.ApartIsIntact | config_override.go:241-290 | without a key below an earlier map no effective payload wears |
| RawWear.ApartIsIntactRaw | config_override.go:241-290 | nor does a raw one |
| OverrideLeak.ThreeFramesLeak | config_override.go:241-290 | frames "z", "a" (a map) and "a.y": restoring "z" replays the other two together, and after "a.y" is restored too its leaf is still under "a" in all three maps, in every such run on the heap |
| OverrideLeak.LeakHappens | config_override.go:189-305 | and there is such a run from every heap that shows such a state |
| OverrideLeak.LeakFromNothing | config_override.go:189-305 | so the code has one: a heap with the start state exists, and its run ends in maps that the value-level run does not have |
| OverrideLeak.TwoFramesClean | config_override.go:228-290 | frames "a" and "a.y" alone are clean: restoring "a.y" replays "a" as it was pushed |
| OverrideLeak.WearShowsIff | config_override.go:241-289 | the next replay of a frame alone shows the map that was pushed exactly when its payload object still holds it |
| OverrideLeak.CanStep | config_override.go:59-305 | where the heap shows the state, every push and restore can be taken |
| CopiedTrees.CopyIsPrivateTree | config_override.go:154-166 | the deep-copied base is a tree of the same value that shares no object with anything that existed |
| ConfigObject.MutationCandidate.Set | config_runtime_mutation.go:67-87 | sets one key in all three private maps, with classification and attribution, or fails |
| ConfigObject.MutationCandidate.SetAll | config_override.go:108-114 | sets the keys of an Override in order up to the first failure |
| ConfigObject.Config.TakeSnapshot | config_source_transaction.go:68-80 | the read-locked start of an attempt: refused when closed, or frozen for all but Override |
| ConfigObject.Config.PublishAttempt | config_override.go:136-173 | the write-locked end of an attempt: refused, asked to retry, or the committed state; a first push captures the base |
| ConfigObject.Config.Publish | config_source_transaction.go:139-152 | publication replaces the whole snapshot and raises the revision by one |
| ConfigObject.Config.Set | config_mutation.go:54-157 | a Set without interference leaves the state of the lifecycle operation and reports whether it published |
| ConfigObject.Config.Override | config_override.go:59-181 | an Override without interference, with a frame id that was not active before |
| ConfigObject.Config.ReplayOneKey | config_override.go:246-289 | one replayed key: each map in turn, skipping the rest at the first that cannot take it |
| ConfigObject.Config.ReplayInto | config_override.go:241-290 | one frame of the replay, keys in sorted order |
| ConfigObject.Config.Remove | config_override.go:204-211 | takes a frame out of the stack wherever it is |
| ConfigObject.Config.Rebuild | config_override.go:228-290 | replays the active frames on the base |
| ConfigObject.Config.Restore | config_override.go:189-305 | the restore closure, over the object's fields |
| ConfigObject.Config.Rollback | config_observe.go:328-357 | makes all three maps the version's, and reports whether that was published |
| ConfigObject.Config.RefreshSecrets | config_materialize.go:278-336 | resolves the unresolved map anew, classifies it again, and reports the outcome |
| ConfigObject.Config.RunSource | config_source_transaction.go:59-134 | runs a source operation, publishes its candidate whole or not at all, and reports which |
| ConfigObject.Config.Freeze | config_lifecycle.go:20-24 | sets the flag and nothing else |
| ConfigObject.Config.Close | config_lifecycle.go:69-73 | sets the flag and nothing else |
| Effects.SetEffect | config_mutation.go:117-152 | a Set is rejected exactly for an invalid or blocked path, an existing key it may not replace, or an invalid result; otherwise each map holds the right value at the path and is unchanged off it, the key's attribution has its origin, override count, environment and history, and other keys' attributions and the sources stay |
| Effects.PushEffect | config_override.go:108-173 | a pushed key that no other key of the same call contains or lies on holds its values in all three maps; the result is valid; the flag, id, stack and revision after the push |
| Effects.PushTracked | config_override.go:108-135 | each key of an Override is recorded once, with origin, override count, environment and history; no other key is |
| Effects.PushIff | config_override.go:59-135 | an Override whose keys lie apart is refused exactly when the configuration is closed, a key is no path or is blocked in one of the maps, or the result is not valid |
| Effects.ReplayKeyEffect | config_override.go:246-289 | what the replay of one key does to each map and to the attribution, path by path, whichever of the maps cannot take it |
| Effects.RestoreEffect | config_override.go:189-292 | a restore takes out its frame and no other, keeps the others in order, thaws the configuration inside a scope and gives back the base at its end |
| Effects.RefreshAndRollbackEffect | config_observe.go:343-357 | a refresh changes the effective map and classification only; a rollback replaces all three maps, the attribution and the sensitive paths by the version's, empty path left out, and keeps the sources |
| Operations.PublishesMaterialized | config_materialize.go:24-50 | what a reload, extension or refresh publishes is the unresolved map with every reference read from the store, classified from the unresolved map |
| Operations.DumpsAgree | config_redacted.go:99-167 | snapshots with the same unresolved map, materialized from any two stores, have the same redacted dump |
| Operations.ReloadsAgree | config_reload.go:71-123 | an incremental reload publishes what a full one publishes, or nothing when the full one would publish the maps already there |
| Sensitivity.RunClassified | config_override.go:228-292 | in every reachable state of a run without a rollback, the published sensitive paths are exactly the declared ones and those at which the unresolved map holds a string with a reference, in lists too |
| Sensitivity.LoadingIsHonest | config_materialize.go:24-50 | reloads and extensions publish such snapshots, from any sources |
| Sensitivity.ClassifyIff | config_inspect.go:241-260 | the classification finds exactly the dotted paths of strings with references, at any position |
| Sensitivity.ClassifiedPaths | config_sensitive.go:20-26 | by dotted path: declared paths, strings with a reference and lists with such a string are sensitive |
| Sensitivity.DumpHides | config_redacted.go:118-183 | at every path at or below a declared one, or one that holds a reference, the dump of such a snapshot stops at the marker |
| Sensitivity.PublishesChecked | config_materialize.go:24-50 | what a reload or an extension publishes is valid, and every opener in its unresolved map starts one well-formed reference |
| Load.Candidate.Load | config_load.go:39-247 | loads the chosen sources, keeps the other layers, and rebuilds merged map, environment map and plan; equal to the functional pass |
| Load.Candidate.SelectSources | config_reload.go:71-91 | the incremental selection, including what looking at the files does to the tracker |
| Load.Candidate.LookAt | config_reload.go:80-87 | looks at the includes of a layer up to the first that changed |
| Load.Candidate.TrackEach | config_load.go:197-200 | tracks a source and its includes |
| Load.Candidate.PrepareReload | config_reload.go:56-96 | a reload that selects nothing publishes nothing |
| Load.Candidate.PrepareExtend | config_extend.go:15-116 | adds one source to the candidate, or leaves it as it was |
| Plans.AssembleFailsIff | config_load.go:202-247 | when layers cannot be put together: sections under named files, a hybrid load without both models, and a hybrid one under the rejecting policy exactly when an environment file and a section write the same key |
| Plans.ConflictIff | config_environment_strategy.go:178-202 | a conflict is a key both models write; it names the loaders that write it, once each and in loading order, and the last of them |
| Plans.AssembledFrom | config_load.go:208-220 | a load merges the layers in loading order; the environment's map merges their resolved shares when some loader is the environment's own file, and is resolved from the merged map otherwise; auto becomes sectioned when sections were seen |
| Plans.HybridPlan | config_load.go:221-247 | the plan of a load that succeeds reports exactly these keys, and only under the hybrid strategy |
| Plans.PlanLayersAre | config_load.go:61-70 | the plan lists every loader in order, with its role and the leaf keys it contributes |
| Plans.LoadTolerates | config_load.go:119-176 | unless errors are raised, a source that cannot be read is left out, one that cannot be composed is used as read, and the load succeeds |
| Selection.SelectedIff | config_reload.go:71-91 | a source is left out of an incremental reload exactly when it is tracked and unchanged, is not the second loader of a missing file, and no loader of it has an include that changed: read off tracker, cache and disk |
| Selection.NothingSelectedIff | config_reload.go:88-96 | an incremental reload publishes nothing exactly when that holds of every source |
| Incremental.OutdatedIff | config_load.go:119-176 | such a layer would be loaded otherwise now exactly when it was dropped and its source has data again (or fails under the raise policy), its file is gone, it is used uncomposed and composes by now, or an include of it is gone; only an include that was gone at an earlier look and is back has no hash and needs composing again |
| Incremental.IncrementalIff | config_reload.go:71-91 | whenever a full load succeeds, the incremental one ends with the same layers if and only if no layer that is passed over is outdated in that sense |
| Incremental.IncrementalIsFull | config_reload.go:71-96 | without stale layers, an incremental reload gives the layers, merged map, environment map and plan of a full one, or its error |
| Incremental.IncrementalKeepsFaithful | config_load.go:197-225 | such a reload keeps the relation between tracked hashes and the content each cached layer was built from |
| Incremental.FullLoadIsFaithful | config_load.go:93-117 | a full load establishes that relation whatever was cached before |
| Selection.SelectFacts | sourcetrack/filetracker.go:92-130 | a source is passed over only if none of its readable tracked files changed |
| Incremental.UnchangedRebuilds | config_load.go:134-181 | a layer whose files are tracked and unchanged would be built again exactly |
| ReloadRuns.RunIsFullLoad | config_reload.go:43-51 | after any number of incremental reloads in which every load returned data and no file disappeared, layers, maps and plan are those of one full load of the last world |
| ReloadRuns.LoadedRunIsFullLoad | config_reload.go:43-51 | the same from the start: one full load of clean sources over an empty tracker, then such reloads |
| ReloadRuns.CleanLoadIsGood | config_load.go:93-117 | a full load of clean sources establishes what the run theorem starts from, whatever came before |
| ReloadRuns.SteadyReload | config_reload.go:43-51 | one such reload agrees with a full one and leaves every file tracked |
| ReloadRuns.DroppedIff | config_load.go:145-149 | under the raise policy with readable files, an incremental reload misses a layer exactly when a source dropped for lack of data has data again and is passed over |
| ReloadRuns.FullIgnoresCache | config_load.go:93-100 | a full load does not depend on the cached layers |
| ReloadExamples.RevertedExample | config_load.go:145-149 | a run: a file, emptied and restored, whose layer no incremental reload brings back |
| ReloadExamples.RepairedIncludeExample | config_load.go:151-176 | a run under the warn policy: a source used uncomposed because its include was missing stays so after the include appears |
| ReloadExamples.GoneIncludeExample | sourcetrack/filetracker.go:109-123 | a run: a tracked include disappears, and the incremental reload keeps the layer where a full load fails |
| ExtendReload.ExtendFaithfulIff | config_extend.go:94-108 | after Extend the tracker is still faithful to the earlier layers exactly when none of the files they share with the new source changed since they were built |
| ReloadExamples.SharedIncludeExample | config_extend.go:104-108 | a run: load, edit of the common include, Extend with a second source: the earlier layer stays old under incremental reload |
| ExtendReload.ExtendThenReload | config_extend.go:70-94 | what Extend and a full reload of unchanged sources right after it show, for every merger: the same layers and merged map; in the environment map the resolved layer merged on top, against the contributions merged or the merged map resolved |
| ExtendEnvironment.ExtendThenReloadIff | config_extend.go:70-80 | under a deep merger the two environment maps are equal if and only if, with an environment file in use, the contributions merge to the same, and otherwise resolving commutes with merging |
| ExtendEnvironment.ReplaceExtendIff | config_extend.go:70-80 | under a merger that replaces they are equal unless the new source is an environment file whose layer has environment sections |
| ExtendEnvironment.ResolveCommutesIff | envhandler/handler.go:97-134 | for every two layers and environment, when resolving and then merging gives what merging and then resolving gives |
| ExtendEnvironment.SectionedIff | envhandler/handler.go:97-134 | for two sectioned layers: exactly when the earlier environment section agrees with the later default section wherever the later environment section has nothing |
| ExtendEnvironment.FlatLayerIff | envhandler/handler.go:140-167 | for a layer without sections on a sectioned one: exactly when the map stays environment-aware and already has all the layer has |
| ExtendEnvironment.FlatBaseIff | envhandler/handler.go:140-167 | for a sectioned layer on one without sections: exactly when the layer replaces everything |
| ExtendEnvironment.PlainIff | envhandler/handler.go:140-167 | for two layers without sections: exactly when they are not environment-aware together |
| ExtendEnvironment.SameMergeIff | internal/dictutil/merge.go:19-34 | when two deep merges are equal, decided key by key without merging: the condition on the named-files path |
| ReloadExamples.SectionedExample | config_extend.go:70-80 | a run of load, Extend and full reload on two sectioned sources whose environment maps differ |
| FileTracker.FileTracker.Track | sourcetrack/filetracker.go:64-84 | records the content hash of a readable file and clears its classification; a failed read changes nothing |
| FileTracker.FileTracker.HasChanged | sourcetrack/filetracker.go:92-130 | answers by content and classifies what it cannot read |
| FileTracker.FileTracker.IsTrackable | sourcetrack/filetracker.go:139-147 | neither a remote source nor classified as untrackable |
| FileTracker.FileTracker.Restore | sourcetrack/filetracker.go:207-216 | replaces the whole state by the snapshot |
| FileTracker.IsNonFileSource | internal/sourcekind/sourcekind.go:60-71 | case-insensitive test against the scheme prefixes |
| FileTracker.ChangedIff | sourcetrack/filetracker.go:86-130 | a tracked file reads as changed exactly when its content differs |
| FileTracker.UntrackableStaysQuiet | sourcetrack/filetracker.go:109-123 | a file that was missing once reads as unchanged until it is tracked again, even if it returns with other content |
| Compose.DependenciesExact | compose/composer.go:231-257 | the dependency list has no duplicates and is exactly the files opened, in order |
| Compose.DependenciesComplete | compose/composer.go:120-139 | while the listed files keep their content, composing again gives the same result and list |
| Compose.LostIncludeFails | compose/composer.go:268-297 | a listed file that goes missing makes composing fail, if the other listed files that are left are unchanged |
| Compose.DependenciesOpened | compose/composer.go:268-297 | a successful composition opened every listed file under its canonical name and decoded it |
| Compose.NoDirectives | compose/composer.go:141-176 | no directive key survives, for any merger that takes its keys from its inputs |
| Compose.MergersKeepKeys | merge/strategy.go:52-68 | the configurable merger is one of those, under every strategy |
| Compose.Precedence | compose/composer.go:154-171 | an included setting wins over the file's own, and that over the defaults |
| Includes.LastIncludeWins | compose/composer.go:234-263 | among compatible includes the last listed one that defines a setting decides it, over the earlier ones and over the file itself |
| Includes.IncludesFold | compose/composer.go:234-263 | the includes merge to the deep fold, in listed order, of each include's own composition; one already visited adds nothing |
| Includes.IncludesInOrder | compose/composer.go:214-225 | an include list is read front to back, and only its strings count |
| Includes.IncludesVisited | compose/composer.go:234-263 | when the include loop succeeds, every listed path named a file, and each has been visited |
| Includes.LastDefaultWins | compose/composer.go:178-209 | the last entry of _defaults that gives a key decides it |
| Includes.DefaultGiven | compose/composer.go:178-209 | and every default comes from an entry that gives it |
| Includes.GivesIff | compose/composer.go:190-207 | an entry gives a key its value as text around its first colon, without surrounding spaces, or as a map entry other than "optional" |
| Compose.Composer.ComposeAt | compose/composer.go:141-176 | composition with its visited set and dependency list changed in place, also on failure |
| Compose.Composer.ProcessIncludes | compose/composer.go:211-266 | the include loop |
| Compose.Composer.ReadAndCompose | compose/composer.go:268-297 | reads, decodes and composes one file |
| Compose.Composer.ProcessDefaults | compose/composer.go:178-209 | the defaults loop |
| Compose.Composer.PathsOf | compose/composer.go:214-225 | the include paths; entries that are not strings are ignored |
| EnvHandler.ResolvedFrom | envhandler/handler.go:97-134 | a setting of the environment hides the default's, which shows through elsewhere; no other section is visible |
| EnvHandler.ResolvedWhole | envhandler/handler.go:97-134 | a configuration with neither the environment's key nor a default section beside another map is taken whole |
| EnvHandler.IsEnvironmentAware | envhandler/handler.go:140-167 | the detection rule |
| Merge.ResolveStrategy | merge/strategy.go:137-155 | the chosen strategy is that of the exact rule or of the longest parent, whatever the iteration order |
| Merge.MergeLayers | merge/merge.go:51-65 | folds the layers, skipping absent ones |
| Merge.AdvancedIsDeep | merge/strategy.go:70-113 | with deep merge or union as default and no rules, the configurable merger is plain deep merge |
| Merge.MergeAllIsDeepFold | merge/merge.go:51-65 | folding layers with such a merger is folding them by deep merge |
| Merge.LastLayerWins | internal/dictutil/merge.go:19-34 | in a deep-merged fold of shape-compatible layers, a value is that of the last layer defining its path |
| Merge.DeepMergeAt | internal/dictutil/merge.go:19-34 | the overlay's value where it defines the path, the base's elsewhere |
| Merge.AssociativeIff | internal/dictutil/merge.go:19-34 | deep merge is associative exactly where no map is hidden under a non-map only to meet a later map that does not replace all of it |
| Merge.CompatibleIsTransparent | internal/dictutil/merge.go:19-34 | shape-compatible layers qualify |
| Merge.NotAssociativeExample | internal/dictutil/merge.go:19-34 | three trees that do not |
| Merge.PlainStrategies | merge/strategy.go:52-113 | without rules, replace keeps the overlay only, shallow merge replaces whole top-level entries, and intersection intersects |
| Merge.IntersectionIff | merge/strategy.go:115-135 | an intersection holds a setting exactly when both trees hold it |
| Merge.IntersectionsAgree | merge/strategy.go:211-289 | the intersection under a rule stores nil exactly where the one at a whole level omits the key |
| Merge.KeysFromInputs | merge/strategy.go:52-135 | no strategy invents a key |
| MergeRules.MergedAt | merge/strategy.go:52-257 | with rules, path by path at any depth: where both trees have a value, what the rule in force makes of the two, down to the elements of an appended or prepended list; else the value of the one that has it, unless the whole level is replaced |
| MergeRules.InForceIff | merge/strategy.go:137-155 | the rule in force is that of the path itself, else that of its longest parent, else the default |
| MergeRules.AppendsAll | merge/merge.go:51-65 | over any number of layers, a list under an append rule gathers the elements of all of them, earlier layers first |
| MergeRules.IntersectedLevel | merge/strategy.go:70-78 | where the whole level is intersected, a setting stays exactly when both trees have it |
| MergeRules.AbsentSkipped | merge/merge.go:59-63 | an absent layer after the first changes nothing |
| Redaction.RedactionIff | config_redacted.go:99-167 | the redacted dump of a materialized tree is the same for every two stores exactly when no reference sits at an empty path; non-empty keys rule that out |
| Redaction.RedactKeeps | config_redacted.go:118-167 | at a path not at or below a sensitive one the dump has the redaction of the value found there, and a scalar, list or map with nothing sensitive inside is shown unchanged |
| Redaction.RedactHides | config_redacted.go:118-167 | at a path at or below a sensitive one the dump stops at the marker |
| Redaction.SensitiveIff | config_redacted.go:176-183 | a path is sensitive exactly when the segments of a sensitive path are a prefix of its own |
| Redaction.PlainUnchanged | config_redacted.go:118-167 | a value without a sensitive path inside is shown as it is, lists and maps included |
| Redaction.SensitiveDownward | config_redacted.go:176-183 | everything below a sensitive path is sensitive |
| Redaction.RedactValue | config_redacted.go:118-167 | the walk, building fresh maps and lists |
| Redaction.IsSensitive | config_redacted.go:176-183 | the scan of the sensitive paths |
| Redaction.Collect | config_inspect.go:241-260 | adds the paths of the strings that hold references to the caller's set |
| Materialize.Materializer.ApplyPool | config_materialize.go:127-187 | for every schedule of the workers, an error exactly when some entry fails, and otherwise the sequential result |
| Materialize.PoolEnd | config_materialize.go:127-187 | when all workers have exited, either a cause is set or every index is filled |
| Materialize.Materializer.ApplyMap | config_materialize.go:93-125 | the sequential walk over a map |
| Materialize.Materializer.ApplyList | config_materialize.go:189-211 | the walk over a list |
| Materialize.Materializer.ApplyText | config_secret_self.go:589-628 | replaces every reference of a string |
| Templates.FilledTemplate | config_secret_self.go:589-628 | a text whose openers all start references becomes the same text with the store's answer for each reference in its place |
| Templates.FilledPieces | config_secret_self.go:589-628 | any text: the same gaps, and for each reference the answer for what its slice parses to; it can be filled exactly when all have one |
| Templates.FilledAt | config_materialize.go:93-211 | a tree is filled string by string: at every position, through maps and lists, what was there with its references replaced |
| Templates.ResolvableIff | config_materialize.go:93-211 | and it can be filled exactly when each of its strings can |
| Templates.AdmittedIff | config_admission.go:221-266 | a tree is admitted exactly when the string at every position is |
| Templates.SpliceWeave | secret/resolver.go:150-188 | a substitution is the gaps between the references with the new texts in order |
| Positions.AtKeys | configmap/path.go:58-78 | dotted paths are the positions made of keys |
| SecretSession.ReadAtMostOnce | config_secret_self.go:558-587 | in a session each secret reaches the provider at most once |
| SecretSession.SameAnswer | config_secret_self.go:558-587 | any two callers that return for one secret return the same value or error |
| SecretSession.AnswersOwnSecret | config_secret_self.go:558-587 | with NUL-free providers and keys an answer comes from a read of exactly the secret asked for, by its first caller |
| SecretSession.CacheKeyInjective | config_secret_self.go:563-563 | the table key tells secrets apart when provider and key are NUL-free |
| SecretSession.PlainIff | config_secret_self.go:563-563 | a request is the only one with NUL-free provider and key that has its table key exactly when it is NUL-free there itself |
| SecretSession.UnmistakableIff | config_secret_self.go:563-563 | no other request at all shares a table key exactly when provider, key and version are all NUL-free |
| SecretSession.MixUpRuns | config_secret_self.go:558-587 | for any two requests with one table key there is a session in which the second is answered with the first's value and never read |
| SecretSession.MisansweredIff | config_secret_self.go:558-587 | a request can be answered without ever being read exactly when one of its parts holds a NUL |
| SecretSession.WaitersProgress | config_secret_self.go:566-574 | a waiting caller can return or its first caller is still reading |
| SecretRef.ParseIff | internal/secretref/reference.go:99-111 | the parser accepts exactly the texts of the grammar |
| SecretRef.PrintParse | internal/secretref/reference.go:187-218 | printing then parsing returns the reference, and no shorter text does |
| SecretRef.ParsedIsValid | internal/secretref/reference.go:152-169 | everything parsed is valid and survives printing |
| SecretRef.TextsOf | internal/secretref/reference.go:69-70 | at most two texts parse to a reference, and which |
| SecretRef.UnrepresentableExample | internal/secretref/reference.go:187-218 | why an invalid reference must not be printed: it would spell another secret |
| SecretRef.MatchSound | internal/secretref/reference.go:69-92 | whatever the matcher finds, the grammar derives |
| SecretRef.MatchComplete | internal/secretref/reference.go:69-92 | whatever the grammar derives is found, whatever follows it |
| Admission.AdmitString | config_admission.go:274-295 | a string is admitted exactly when every opener starts one well-formed, non-nested reference |
| Admission.AdmittedHits | config_admission.go:274-295 | in an admitted string the matches are exactly the openers |
| Admission.AdmitValue | config_admission.go:221-266 | a tree is admitted exactly when every string in it is |
| Admission.SpliceBack | secret/resolver.go:150-188 | substitution touches nothing between the references |
| Admission.FindCovers | internal/secretref/reference.go:118-128 | the scan finds every match that does not start inside an earlier one |
| Admission.HitComplete | internal/secretref/reference.go:118-128 | a match at a position is found there |
| Resolver.NoReadAfterFailure | secret/resolver.go:130-188 | after the first failure no store is read |
| Resolver.ResolveIdempotent | secret/resolver.go:115-188 | what a successful resolution returns resolves to itself |
| Resolver.ResolvedReads | secret/resolver.go:115-188 | a routed reference reads nothing, each reference costs at most one read, and only the last read can have failed |
| Resolver.StopsAtFailure | secret/resolver.go:115-188 | a failing key ends the resolution |
| Resolver.CacheKeysDistinct | secret/resolver.go:277-332 | different secrets have different cache keys |
| ResolverAnswers.LookupAnswer | secret/resolver.go:277-353 | a lookup answers with the field asked for of a value the store returned for exactly that prefixed key and version, read anew unless a cached one is usable; it fails exactly for a failed read or a field that is not there |
| ResolverAnswers.ResolvedText | secret/resolver.go:115-188 | a resolved text is the text around its references unchanged, and for each reference, in order, the formatted answer for it |
| ResolverAnswers.SessionHonest | secret/resolver.go:237-332 | over any sequence of resolutions, lookups and cache clearings the cache holds only what the store returned for that secret and version |
| Resolver.Resolver.Resolve | secret/resolver.go:115-188 | the substitution over a whole string, leaving it as it was when a key fails |
| Resolver.Resolver.Lookup | secret/resolver.go:277-332 | one key: cache, store, field |
| Resolver.Resolver.ReplaceAll | secret/resolver.go:115-188 | the substitution with its cache and error threaded through |
| Resolver.Resolver.ExtractPath | secret/resolver.go:334-353 | the field walk |
| Resolver.Resolver.ClearCache | secret/resolver.go:237-241 | empties the cache |
| ResolverClose.ClosedForGood | secret/resolver_close.go:39-67 | once any Close has returned, the cache is empty for good, no store read is running or will start, and every Close returns the same result |
| ResolverClose.StoreClosedOnceAndIdle | secret/resolver_close.go:39-67 | the store is closed at most once and never during a read |
| ResolverClose.CloseNotStuck | secret/resolver_close.go:75-85 | while Close waits, it can go on or a resolution in flight can |
| ResolverClose.NextInv | secret/resolver_close.go:39-85 | every step of every resolution and Close keeps the protocol's invariant |
| GraphCopy.DeepCopy | internal/dictutil/copy.go:36-141 | a new graph isomorphic to the reachable one, cyclic or shared, by a renaming into fresh objects |
| GraphCopy.Copier.Copy | internal/dictutil/copy.go:60-141 | the recursion over unvisited objects |
| GraphCopy.CopyIsIsolated | internal/dictutil/copy.go:26-44 | nothing reachable from the copy existed before |
| GraphCopy.CopyReads | internal/dictutil/copy.go:60-141 | reading any path in the copy gives the image of reading it in the source |
| Store.Heap.Set | configmap/path.go:89-123 | the in-place cursor walk, on any heap; the heap is unchanged on error |
| Store.Heap.Get | configmap/path.go:58-76 | the read walk |
| Store.Heap.BuildBranch | configmap/path.go:179-189 | a fresh chain of maps |
| StoreTrees.SetRefines | configmap/path.go:89-123 | on a tree, the in-place Set is the path update of the value it represents, fails exactly when that does, and changes no other object |
| StoreTrees.SetOnTree | configmap/path.go:85-123 | get-after-set and no effect at incomparable paths, on the heap |
| StoreTrees.GetRefines | configmap/path.go:54-76 | the in-place Get reads the represented value |
| Paths.GetAfterSet | configmap/path.go:85-123 | get after set returns the value |
| Paths.SetFrame | configmap/path.go:85-123 | paths that neither contain nor lie on the written one are unchanged |
| Paths.SetFailsIff | configmap/path.go:105-111 | a write fails exactly when a proper prefix of its path holds a non-map |
| Paths.SetsCommute | configmap/path.go:85-123 | writes to incomparable paths commute |
| Paths.SetTwice | configmap/path.go:85-123 | setting twice is setting once |
| Paths.SplitOfJoin | configmap/path.go:157-168 | splitting a joined path gives its segments |
| Paths.JoinOfSplit | configmap/path.go:157-168 | joining a split path gives the text |
| Paths.BelowIsStrictPrefix | config_redacted.go:176-183 | the textual prefix test with a dot is the strict-prefix test on segments |
| Flatten.Flattener.Flatten | internal/dictutil/flatten.go:18-30 | writes exactly the leaves into the shared map, in any order |
| Flatten.FlattenTree | internal/dictutil/flatten.go:12-16 | the flat map has exactly the names of leaves, each with the value of a leaf of that name |
| Flatten.FlattenRoundTrip | internal/dictutil/flatten.go:12-30 | for non-empty dot-free keys and no empty submaps, writing the flat entries back through Set in any order rebuilds the tree |
| Flatten.NamesAreLeaves | configmap/path.go:191-210 | the listed names are exactly those of the leaves |
| Flatten.Keys | configmap/path.go:130-155 | the leaf names in order, with a prefix those strictly below it, without duplicates for dot-free keys |
| Flatten.CollectKeys | configmap/path.go:191-210 | the recursion that appends to the shared list |
| Diff.EmptyIff | diff/differ.go:81-133 | no difference is reported exactly when the trees are equal up to the JSON text of the leaves |
| Diff.ApplyGives | diff/differ.go:81-133 | carrying the differences out on the first tree gives the second, up to leaves |
| Diff.EntrySays | diff/differ.go:81-133 | every entry, at every level, names its path and has its kind, old and new value from what the two trees hold there |
| Diff.Symmetric | diff/differ.go:81-133 | swapping the trees swaps added and removed, old and new, at every level |
| Diff.DiffIsTidy | diff/differ.go:72-133 | keys ascend strictly and paths are right at every level |
| Diff.SameIsEqual | diff/differ.go:135-139 | equality up to leaves is equality when the JSON text tells values apart |
| Diff.Compare | diff/differ.go:81-133 | the loop over the sorted keys |
| Diff.TotalIsSum | diff/differ.go:141-158 | the total is the sum of the three counts |
| Diff.CountSwapped | diff/differ.go:141-158 | swapping the trees exchanges the counts of added and removed |
| Diff.CountsEntries | diff/differ.go:141-158 | each counter is the number of entries of its kind, over all levels |
| Diff.Summary.CountDiffs | diff/differ.go:150-158 | the counters, updated in place through the recursion |
| Diff.Redact | diff/differ.go:46-61 | the redacting recursion |
| Diff.RedactedEntry | diff/differ.go:42-70 | redaction keeps the shape at every depth and replaces exactly the populated values at, above or below a sensitive path |
| Diff.MatchesIff | diff/differ.go:63-70 | at, above or below: the segments of one path are a prefix of those of the other |
| Diff.MatchesSensitive | diff/differ.go:63-70 | the scan of the sensitive paths |
| Values.SortedUnique | config_override.go:82-89 | a set of keys has one sorted enumeration, so the processing order is determined |

## Left out

- Loaders, stores, decoders, schema and struct validation: a loader is a function from content to an optional map, a store from reference to result, validation an arbitrary predicate on the effective map.
- Value resolvers and custom hooks (env, file, url, cmd, `self` references, type casting): only the secret hook is modelled; the materialized value of a Set or Override is a parameter of the operation.
- Callbacks, events, metrics, logging, timestamps, source line numbers and watchers: they do not feed back into the snapshot.
- Cancellation and deadlines: a step that ends a call in the lifecycle machine and in the session table; not modelled in the sequential methods.
- Retry loops as loops: their termination depends on other calls, so they are the return to the `Looping` state in `Lifecycle`; the methods of `ConfigObject` are one attempt.
- RestoreWear.RestoreWears: is about one replay of payloads that no earlier replay has tied together.
- OverlapRuns.OverlapRunIff: follows runs with one restore that replays a key below a map-valued one, anywhere in the run; a second one over payloads that the first has tied together is not followed.
- OverrideHeapRuns.HeapShowsRun: a push reads the live maps and leaves new trees with the candidate's values; that DeepCopy and Set produce them is `CopiedTrees.CopyIsPrivateTree` and `StoreTrees.SetRefines`.
- ConfigObject.Config.Set: one attempt, as are Override, Rollback, RefreshSecrets and RunSource; the retry loop is in `Lifecycle`.
- LifecycleRuns.RestoreRebuilds: like `Overrides.AnyOrder` and `Overrides.RestoresCommute`, is about the values of frames; `OverrideHeapRuns.HeapShowsRun` carries them to the heap for runs that never replay a key below a map-valued one.
- Load.Candidate.PrepareReload: ends, like PrepareExtend, with the loaded candidate; admission, materialization and validation follow in `Operations`.
- ReloadRuns.RunIsFullLoad: assumes that every load returns data and that no file disappears, which the code needs; `Incremental.OutdatedIff` has the exact condition for one reload.
- Incremental.IncrementalIff: each load and reload sees one state of the disk, so a file that changes between being read and being tracked is not modelled; hashes are assumed free of collisions.
- ExtendEnvironment.ExtendThenReloadIff: is for deep mergers, and `ExtendEnvironment.ReplaceExtendIff` for one that replaces; under mergers with rules or other strategies only the two formulas of `ExtendReload.ExtendThenReload` are given.
- Load.Candidate.Load: the attribution of keys to sources is opaque (`Operations.Attribute`), and the keys and conflicts of a plan are sets and maps instead of sorted lists.
- Merge.ResolveStrategy: comparing lists with `==` inside an intersection panics in the code and is structural equality here.
- GraphCopy.DeepCopy: slices, arrays and struct values are opaque leaves; the code identifies slices by address without their length.
- Lifecycle.NextInv: a rollback's attribution and sensitive paths come with the version; version retention is not modelled.
- Sensitivity.RunClassified: a rollback publishes the sensitive paths that come with its version (`Effects.RefreshAndRollbackEffect`), so runs with one are not covered.
- Redaction.RedactionIff: after a rollback the unresolved map holds materialized values, so the property is about maps that loading produced.
- Resolver cache expiry is an arbitrary answer of the cache; the clock is not modelled.
- Admission of typed shapes, exporters, builders, self-configuration discovery and the command line: configuration wiring.
- The SourcePlan's loader type names and the self-configuration's strategy parsing.
