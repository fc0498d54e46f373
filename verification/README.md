# bpfman: models and proofs

bpfman loads eBPF programs on a machine; in Kubernetes an operator and one agent per node drive it. This project models
the four parts of bpfman where correctness spans many functions, and proves what those parts promise:

* **The reconcile protocol** of the node agents and the operator (`AgentModel`, `AgentReconciler`, `OperatorModel`,
  `Cluster` and the modules of their theorems). A pass of an agent is a function from what it can see, plus an `Oracle`
  with everything it cannot decide: which calls fail, the kernel's program IDs, Go's map iteration order. The cluster is a
  transition system of users, the API server, one operator and any number of agents. Proved: deletion safety over every
  interleaving, and its progress counterpart whatever else happens in between; a whole-run invariant; that no loaded
  program outlives its *Program, and exactly which step breaks that; one write per pass; convergence with a falling
  measure, the exact condition on a state and on a spec under which a run of passes settles, the legal specs for which it
  never does, and that those starve every *Program listed behind them; and, whatever fails, that every condition written
  is true, when a pass asks to be run again, and what the operator's verdict means (`AgentTruth`, `AgentHonesty`,
  `AgentOutcomes`, `ClusterOperator`). `AgentLimits` gives the exact conditions under which one iteration keeps the
  invariant, and runs that lose or mix up programs.
* **The daemon's bookkeeping** (`DaemonModel`, `BpfManager` and the modules of their theorems): reference-counted map
  sharing, pin directories, positions, dispatchers and their ten slots. Proved: the database refines a simple model of
  who uses which maps, over every run of adds that succeed or fail at any point and of removes; slots stay exact; a live
  program can always be removed; and a packet meets the programs of its hook in priority order, each under its own list.
  `HookTrees` has the dispatcher trees that a failed load leaves behind: exactly when a hook stays in order, is repaired,
  stays usable, or is lost for ever.
* **The encoding of program trees** (`Sled`, `TreeKeys`, `PrefixedMaps`, `ProgramView`, `ProgramStore`): lists under
  decimal index keys, user maps under prefixes, and the life of a program from its temporary tree to its rebuilding.
* **The dispatcher chain** (`ProceedOn`, `TcProceedOn`, `XdpProceedOn`, `DispatcherChain`): a small compiler from the
  user's proceed-on names to integers, entries, stored bytes and a bit mask, and the unrolled C chain that tests the mask.

Code that changes things in place is a class or a method with loops (`AgentReconciler.Reconciler`,
`OperatorModel.ReconcileBpfProgram`, `BpfManager.Manager`, `ProgramStore.ProgramTree`, the proceed-on conversions and the
dispatchers). Each such method is proved equal to a specification function, and the theorems are about those functions.
`dafny verify dfyconfig.toml` checks everything.

Where code and comments disagree the model follows the code: `bpfman/src/lib.rs:410-413` says attached programs win ties,
but the sort key puts `false` before `true`; `StepPositions.NewcomerBeforeEquals` states what that means.

## Hypotheses

* Passes of agents and operator are atomic and read a current cache. How bpfman lists a loaded program is a function of
  the spec it was asked to load (`lists` in the `Oracle`). `Listing` gives that function as the code has it: an empty
  function name is replaced by the image's, proceed-on codes go through the database, all else comes back as requested.
* Deletion safety and the run invariant: ID annotations parse, unloads succeed, the write that records a new ID succeeds,
  and a BpfProgram without its finalizer does not become expected again (the two exact conditions in `AgentLimits` show
  that each of these is needed); kernel IDs and Kubernetes UIDs are fresh.
* Convergence: a fixed spec, distinct expected names and succeeding calls. Whether every expected BpfProgram that should be
  loaded echoes (bpfman lists its spec so that the agent recognises it) or already runs as requested is not a hypothesis but
  the exact condition; for outcomes instead of states it also takes kernel IDs that differ from the annotation's.
* Daemon runs: the random pre-load name and the kernel's program ID are fresh, that is neither a live program nor a live
  map index (`UsedByLists.ReusedIdForgetsFirstUser` shows why), and the iteration order lists every tree once.

## Model

| member | source | states |
|---|---|---|
| `AgentWrites.DeletingNeverErrs` | bpfman-operator/controllers/bpfman-agent/common.go:175-266 | a reconcile of a BpfProgram that is being deleted never returns an error, whatever fails: failures come back as conditions |
| `AgentWrites.AtMostOneWritePerPass` | bpfman-operator/controllers/bpfman-agent/common.go:123-171 | for any programs, views and pattern of failures a whole pass makes at most one Kubernetes write, to one object of its own node or a new one |
| `AgentSafety.UnloadOwn` | bpfman-operator/controllers/bpfman-agent/internal/bpfman-core.go:120-127 | unloading by the recorded ID drops the BpfProgram's own program and nothing else |
| `AgentSafety.ReconcileEffect` | bpfman-operator/controllers/bpfman-agent/common.go:175-266 | what a reconcile of one BpfProgram may change: only its own loaded program, and afterwards that program is backed or gone |
| `AgentSafety.DeleteOneKeepsInv` | bpfman-operator/controllers/bpfman-agent/common.go:570-609 | one deletion iteration keeps every loaded program backed by an object with finalizer and matching ID |
| `AgentSafety.UpdateOneKeepsInv` | bpfman-operator/controllers/bpfman-agent/common.go:635-700 | the same for one create-or-update iteration |
| `AgentSafety.PassKeepsInv` | bpfman-operator/controllers/bpfman-agent/common.go:123-171 | the same for a whole pass over any list of programs, for every iteration order |
| `AgentTruth.ComparesWhatIsAsked` | bpfman-operator/controllers/bpfman-agent/internal/cmp.go:28-183 | the comparison accepts a listed program if and only if owner, UID, attach point, map owner ID, function name, proceed-on codes, bytecode and the other compared fields are what the *Program and the BpfProgram ask for now |
| `AgentTruth.ReconcileTruth` | bpfman-operator/controllers/bpfman-agent/common.go:175-266 | for every pattern of failures: each of the nine conditions is returned if and only if it is true of what is wanted and of what bpfman has afterwards, a load happens exactly when nothing is in the way and what runs is not what is asked for, and an error or a nil progId comes back exactly where the source has them |
| `AgentTruth.NilIdCrashes` | bpfman-operator/controllers/bpfman-agent/common.go:195-236 | in any state at all, a reconcile dereferences a missing ID annotation if and only if the program is listed and has to be unloaded |
| `AgentTruth.ChangeReloads` | bpfman-operator/controllers/bpfman-agent/common.go:211-224 | a change of anything the request is made of, say the map owner's ID, makes the next reconcile load exactly what is asked for now |
| `AgentTruth.FailureExactly` | bpfman-operator/pkg/helpers/helpers.go:316-338 | the operator takes a condition for a failure if and only if bpfman does not have what is wanted, or the agent could not find out |
| `AgentHonesty.PassTellsTruth` | bpfman-operator/controllers/bpfman-agent/common.go:123-171 | for every pattern of failures: each condition that a pass writes is true of what bpfman has then, and after an Unchanged pass so is the one condition of every BpfProgram of its list |
| `AgentOutcomes.OutcomeExactly` | bpfman-operator/controllers/bpfman-agent/common.go:128-170 | for every pattern of failures: a pass reports Updated or Crashed if and only if its last turn did, and Unchanged if and only if the list succeeded and every turn ended Unchanged, so every *Program was readable; otherwise it asks to be run again |
| `AgentOutcomes.UpdateReports` | bpfman-operator/controllers/bpfman-agent/common.go:661-700 | exactly what a visit to an expected BpfProgram writes, and when it goes on, asks for another pass or reports Updated |
| `AgentOutcomes.DeleteReports` | bpfman-operator/controllers/bpfman-agent/common.go:570-609 | the same for a deletion visit |
| `AgentOutcomes.CreateReports` | bpfman-operator/controllers/bpfman-agent/common.go:635-650 | a missing BpfProgram is created as expected, with finalizer and without ID and condition; a failure asks for another pass |
| `AgentOutcomes.CrashesExactly` | bpfman-operator/controllers/bpfman-agent/common.go:687-691 | a visit dereferences a nil progId if and only if the annotation parses and the first load fails, or an unload fails while progId is unset |
| `AgentOutcomes.SettledMeans` | bpfman-operator/controllers/bpfman-agent/common.go:661-700 | settled, in terms of the fields: runs with exactly what is asked for and says Loaded, or does not run and says why |
| `AgentConvergence.ReconcileReaches` | bpfman-operator/controllers/bpfman-agent/common.go:175-266 | with succeeding calls a reconcile leaves bpfman with a program exactly when it should be loaded: the one found as requested, or a new one loaded for the current request; progId is its ID |
| `AgentConvergence.WriteAfterReconcile` | bpfman-operator/controllers/bpfman-agent/common.go:661-700 | the write after a reconcile strictly lowers the object's rank unless its spec does not echo, or there is nothing left to write and the object is settled, or was just loaded to no avail under the ID its annotation had |
| `AgentConvergence.DeleteOneProgress` | bpfman-operator/controllers/bpfman-agent/common.go:570-609 | a deletion iteration strictly lowers the rank, or the object is cleaned up |
| `AgentConvergence.DeleteFromProgress` | bpfman-operator/controllers/bpfman-agent/common.go:559-614 | the deletion loop either improves the node strictly or leaves every visited object cleaned up, in any map order |
| `AgentConvergence.UpdateFromProgress` | bpfman-operator/controllers/bpfman-agent/common.go:620-713 | the create-or-update loop makes nothing worse and helps no BpfProgram whose spec does not echo; it improves strictly if none such has to be loaded, or finds existing names equal to expected ones, with nothing left to write |
| `AgentConvergence.PassProgress` | bpfman-operator/controllers/bpfman-agent/common.go:123-171 | a pass over any list reports Updated, and the distance strictly falls if every expected BpfProgram that should be loaded echoes or runs as requested, or reports Unchanged, wrote nothing, and all is settled up to loads under an ID the annotation already had; no pass changes whether that condition holds |
| `AgentConvergence.Converges` | bpfman-operator/controllers/bpfman-agent/common.go:620-713 | if every expected BpfProgram that should be loaded echoes or already runs as requested, in every run of passes one of the first distance+1 is Unchanged and finds everything settled |
| `AgentConvergence.DeletionConverges` | bpfman-operator/controllers/bpfman-agent/common.go:559-614 | at most two Updated passes per BpfProgram precede Unchanged; then none is loaded, none has the finalizer, all say Unloaded |
| `AgentConvergence.SettledStaysUnchanged` | bpfman-operator/controllers/bpfman-agent/common.go:723-777 | a settled node stays settled: further passes report Unchanged and write nothing |
| `AgentFrame.PassFollows` | bpfman-operator/controllers/bpfman-agent/common.go:723-777 | whatever fails within the hypotheses of safety, a pass changes no object and no program of a *Program outside its list, and sets back the deletion of none |
| `AgentFrame.PassAdvances` | bpfman-operator/controllers/bpfman-agent/common.go:136-161 | a pass over any list that reaches a *Program being deleted, with succeeding calls for it, finishes it on that node or brings it strictly closer |
| `Listing.EchoExact` | bpfman-api/src/lib.rs:48-60 | a list of valid codes of at most eleven, the API's limit, is listed as requested if and only if it is not empty and, with eleven entries, all from the third on are equal |
| `Listing.ListedExact` | bpfman-operator/controllers/bpfman-agent/internal/cmp.go:98-121 | the same for whatever list a TC or XDP request has, so exactly when the comparison can succeed |
| `AgentChurn.EchoesExactly` | bpfman-operator/controllers/bpfman-agent/internal/cmp.go:43-121 | the agent recognises a spec in the listing if and only if it has a function name, or a file or nameless image, and its proceed-on list, if any, is not empty and, with eleven entries, constant from the third on |
| `AgentChurn.VisitChurns` | bpfman-operator/controllers/bpfman-agent/common.go:211-224 | a visit to a loaded BpfProgram whose spec does not echo reloads it, records the new ID, reports Updated and leaves it unrecognised |
| `AgentChurn.NeverSettles` | bpfman-operator/controllers/bpfman-agent/common.go:620-713 | once a BpfProgram whose spec does not echo is loaded, no pass over any list with its *Program ever reports Unchanged, in runs of any length with succeeding calls |
| `AgentChurn.ChurnStarves` | bpfman-operator/controllers/bpfman-agent/common.go:151-161 | as long as the list keeps its order, every *Program behind such a one is never looked at: through all those passes its objects and programs stay as they are, also if it is being deleted |
| `AgentChurn.SettlesExactly` | bpfman-operator/controllers/bpfman-agent/common.go:620-713 | a run longer than the distance settles if and only if at its start every expected BpfProgram that should be loaded echoes or runs as requested |
| `AgentChurn.UnchangedExactly` | bpfman-operator/controllers/bpfman-agent/common.go:620-713 | the same for reaching an Unchanged pass at all, if no load gets the ID that the annotation had before |
| `AgentChurn.UnrecognisableNeverSettles` | bpfman-operator/controllers/bpfman-agent/internal/cmp.go:43-121 | every legal spec that fails the condition has runs of any length in which nothing fails and every pass reloads it |
| `AgentChurn.ElevenActionsNeverSettle` | bpfman-operator/apis/v1alpha1/tcProgram_types.go:70-75 | so a *Program that names all eleven TC actions is reloaded by every pass |
| `AgentChurn.EmptyNameNeverSettles` | bpfman/src/types.rs:608-636 | so is every *Program without a function name whose image has one, because the listing shows the image's |
| `AgentChurn.OldIdHidesReload` | bpfman-operator/controllers/bpfman-agent/common.go:684-700 | a load under the ID the annotation still has reports Unchanged although every later pass reloads the program |
| `AgentLimits.DeleteOneExact` | bpfman-operator/controllers/bpfman-agent/common.go:195-236 | deletion keeps the invariant if and only if it does not drop the finalizer of a program whose ID does not parse or whose unload fails |
| `AgentLimits.UpdateOneExact` | bpfman-operator/controllers/bpfman-agent/common.go:635-700 | for every pattern of failures, create-or-update keeps the invariant if and only if it does not record a stale progId after a failed unload and a program it loads has its finalizer and gets its ID into the annotation |
| `AgentLimits.FailedUnloadOrphans` | bpfman-operator/controllers/bpfman-agent/common.go:231-236 | a run in which a failing unload, reported with a nil error, ends with the operator letting go of a running program |
| `AgentLimits.FailedUnloadMixesIds` | bpfman-operator/controllers/bpfman-agent/common.go:684-695 | a pass in which a failing unload makes the agent write another BpfProgram's ID into the annotation |
| `AgentLimits.UnparsableIdOrphans` | bpfman-operator/controllers/bpfman-agent/common.go:195-201 | a run in which an ID annotation that does not parse ends the same way as a failing unload |
| `AgentLimits.FailedIdWriteForgetsId` | bpfman-operator/controllers/bpfman-agent/common.go:684-695 | whenever the write that records a new ID fails, the program runs under an ID that no annotation names |
| `AgentLimits.ReusedKernelIdBreaks` | bpfman-operator/controllers/bpfman-agent/common.go:684-695 | a load under an ID in use always breaks the invariant |
| `AgentLimits.ReexpectedObjectOrphans` | bpfman-operator/controllers/bpfman-agent/common.go:514-537 | a run in which an object that lost its finalizer is expected again, is loaded without one and is left running |
| `AgentReconciler.Reconciler.ReconcileBpfProgram` | bpfman-operator/controllers/bpfman-agent/common.go:175-266 | updates progId and bpfman in place exactly as the function ReconcileBpf does, whose every result AgentTruth.ReconcileTruth explains, nil dereference included |
| `AgentReconciler.Reconciler.UpdateBpfStatus` | bpfman-operator/controllers/bpfman-agent/common.go:452-485 | rewrites the conditions to the single current one, and reports whether it had to, as UpdateStatus says |
| `AgentReconciler.Reconciler.RemoveBpfFinalizer` | bpfman-operator/controllers/bpfman-agent/common.go:435-446 | removes the finalizer if present, letting a terminating object go, as RemoveFinalizer says |
| `AgentReconciler.Reconciler.HandleProgDelete` | bpfman-operator/controllers/bpfman-agent/common.go:559-614 | the loop over the map, in any order, ends in the state and outcome of DeleteFrom |
| `AgentReconciler.Reconciler.HandleProgCreateOrUpdate` | bpfman-operator/controllers/bpfman-agent/common.go:620-713 | the loop that shrinks the map of existing objects ends in the state and outcome of UpdateFrom |
| `AgentReconciler.Reconciler.ReconcileOneProgram` | bpfman-operator/controllers/bpfman-agent/common.go:723-777 | one *Program, as ReconcileProgram says |
| `AgentReconciler.Reconciler.Reconcile` | bpfman-operator/controllers/bpfman-agent/common.go:123-171 | one whole pass with its early exits and its remembered requeue, as ReconcileCommon does, whose outcome AgentOutcomes.OutcomeExactly explains |
| `OperatorModel.WithFinalizer` | bpfman-operator/controllers/bpfman-operator/common.go:112-124 | lists exactly the BpfPrograms that still carry a finalizer; empty if and only if there is none |
| `OperatorModel.Failed` | bpfman-operator/pkg/helpers/helpers.go:316-338 | lists exactly the BpfPrograms whose first condition is missing or a failure |
| `OperatorModel.ReconcileBpfProgram` | bpfman-operator/controllers/bpfman-operator/common.go:65-146 | the loops over nodes and BpfPrograms reach the decision of Decide, which ClusterOperator.OperatorExactly explains |
| `ClusterOperator.OperatorExactly` | bpfman-operator/controllers/bpfman-operator/common.go:65-146 | the operator's step in terms of the objects that exist: first it adds its finalizer and nothing else; a deleting *Program goes if and only if no BpfProgram has a finalizer; otherwise the one condition says which of a missing node, trouble or success it is |
| `ClusterOperator.NamesExactly` | bpfman-operator/controllers/bpfman-operator/common.go:112-142 | the status message names exactly the BpfPrograms that hold up the deletion or are in trouble |
| `ClusterOperator.ProtectedOverRuns` | bpfman-operator/controllers/bpfman-operator/common.go:71-73 | from its finalizer on until the operator drops it, a *Program exists whatever users do, and no deletion of it can leave a program behind |
| `ClusterOperator.WishesCount` | bpfman-operator/controllers/bpfman-agent/common.go:435-446 | an edited spec is what agents act on from then on, and an object whose deletion was asked for goes with its finalizer |
| `ClusterOperator.UnchangedTells` | bpfman-operator/controllers/bpfman-agent/common.go:123-171 | an Unchanged pass of an agent, whatever failed in it, leaves the *Program's conditions on that node true |
| `ClusterOperator.SuccessTellsTruth` | bpfman-operator/controllers/bpfman-operator/common.go:94-146 | if the conditions are true, ReconcileSuccess means that each BpfProgram runs under the ID of its annotation, loaded for this *Program, or does not run and says why |
| `Cluster.StepKeepsInv` | bpfman-operator/controllers/bpfman-agent/common.go:123-171 | no step of anybody breaks the invariant of any node |
| `Cluster.RunKeepsInv` | bpfman-operator/controllers/bpfman-agent/common.go:559-713 | after every run each loaded program belongs to a BpfProgram of that node and of the *Program it was loaded for, with finalizer and matching ID annotation |
| `Cluster.DeletionSafety` | bpfman-operator/controllers/bpfman-operator/common.go:112-137 | in every interleaving, when the operator drops its finalizer from a *Program, no node has any program loaded for it, whether or not its BpfProgram still exists |
| `ClusterProgress.DeletionFinishes` | bpfman-operator/controllers/bpfman-operator/common.go:126-132 | in any run of allowed steps (passes over any lists with failures, users, operator, object deletions), once every node was served more often than twice the number of the deleting *Program's BpfPrograms there, the operator drops its finalizer unless it already did; a pass serves it if it reaches it and its calls for it succeed |
| `ClusterProgress.StepEases` | bpfman-operator/controllers/bpfman-agent/common.go:559-614 | no step of anybody sets back the deletion of a *Program on any node |
| `ClusterOrphans.OrphanedExactly` | bpfman-operator/controllers/bpfman-operator/common.go:71-73 | a step leaves a loaded program without its *Program if and only if it is a user's deletion of a running *Program that does not have the operator's finalizer yet |
| `ClusterOrphans.NoOrphansOverRuns` | bpfman-operator/controllers/bpfman-operator/common.go:71-137 | after every run without such a step each loaded program belongs to a *Program that exists |
| `ClusterOrphans.OrphanForEver` | bpfman-operator/controllers/bpfman-agent/common.go:123-171 | an orphan stays loaded as it is until a *Program of its name is created |
| `ClusterOrphans.EarlyDeletionLeaks` | bpfman-operator/controllers/bpfman-operator/common.go:71-73 | a run from the empty cluster, with nothing failing, that ends with an orphan |
| `Cluster.ObjectNeverLostWhileLoaded` | bpfman-operator/controllers/bpfman-agent/common.go:559-614 | no step makes a BpfProgram object disappear while its program stays loaded somewhere |
| `Cluster.FixedPointSettled` | bpfman-operator/controllers/bpfman-agent/common.go:620-713 | an agent whose healthy pass reports Unchanged and leaves bpfman as it is has everything as its *Programs ask |
| `OperatorModel.SuccessExact` | bpfman-operator/controllers/bpfman-operator/common.go:94-146 | for a live *Program the operator decides on success if and only if every node has a BpfProgram and none of them reports a failure |
| `Cluster.SuccessIsTruthful` | bpfman-operator/controllers/bpfman-operator/common.go:94-146 | when every agent's healthy pass reports Unchanged and leaves bpfman as it is, the operator reports success if and only if every node has a BpfProgram and each runs as requested, or is not selected, or has no containers |
| `Sled.SortedUnique` | bpfman/src/types.rs:903-920 | the key order of a scan is determined by the set of keys |
| `Sled.ListReadsBackPermuted` | bpfman/src/types.rs:889-920 | a list of any length under a fresh prefix reads back with exactly its elements, repetitions included |
| `Sled.ShortListReadsBack` | bpfman/src/types.rs:889-920 | up to ten elements it reads back unchanged |
| `Sled.ElevenReadsBackScrambled` | bpfman/src/types.rs:889-920 | with eleven, string order puts the last element third |
| `Sled.U32RoundTrip` | bpfman/src/utils.rs:83-89 | native-endian bytes of a u32 read back as the same number |
| `Sled.I32RoundTrip` | bpfman/src/utils.rs:99-105 | the same for i32, in two's complement |
| `ProceedOn.MaskTests` | bpfman/src/types.rs:1902-1908 | a mask built by OR-ing bits has exactly those bits |
| `ProceedOn.MaskPermutation` | bpfman/src/types.rs:1902-1908 | the mask does not depend on the order of the list |
| `ProceedOn.FirstError` | bpfman/src/types.rs:1881-1900 | element-wise conversion fails at the first element that does not convert, with that element |
| `ProceedOn.EntriesReadBack` | bpfman/src/types.rs:889-920 | any nonempty proceed-on list on a fresh tree comes back as a permutation of itself, unchanged up to ten; an empty one as the default |
| `ProceedOn.StoredKeepsMask` | bpfman/src/types.rs:889-920 | for TC and XDP alike, storing and reading a nonempty list keeps its mask |
| `ProceedOn.SlotMaskAdmits` | bpfman/src/types.rs:1902-1908 | for every list of names the mask in the slot admits exactly the codes of the entries bpfman received |
| `ProceedOn.AskedIsNamed` | bpfman-operator/controllers/bpfman-agent/tc-program.go:94-125 | for nonempty lists of valid names those are exactly the named codes |
| `TcProceedOn.ToInt` | bpfman-operator/controllers/bpfman-agent/tc-program.go:94-125 | keeps the codes of known names in order and drops unknown ones |
| `TcProceedOn.FromInt32s` | bpfman/src/types.rs:2047-2061 | all codes convert, or the first bad one is reported; an empty list means the default |
| `TcProceedOn.FromStrings` | bpfman/src/types.rs:2038-2045 | all names convert, or the first bad one is reported |
| `TcProceedOn.Mask` | bpfman/src/types.rs:2063-2069 | the loop computes the mask of the shifted codes |
| `TcProceedOn.AsActionVec` | bpfman/src/types.rs:2071-2077 | the codes of the entries in order |
| `TcProceedOn.MaskIsMembership` | bpfman/src/types.rs:2063-2069 | bit code+1 is set if and only if the list names that code |
| `TcProceedOn.GoAndRustAgree` | bpfman-operator/controllers/bpfman-agent/tc-program.go:94-125 | the Go integers followed by from_int32s give the entries of from_strings if and only if the names are nonempty and all valid |
| `TcProceedOn.StoredMaskUnchanged` | bpfman/src/types.rs:1001-1029 | storing and reading keeps the mask of every nonempty list, however long |
| `XdpProceedOn.ToInt` | bpfman-operator/controllers/bpfman-agent/xdp-program.go:92-113 | keeps the codes of known names in order and drops unknown ones |
| `XdpProceedOn.FromInt32s` | bpfman/src/types.rs:1890-1900 | all codes convert, or the first bad one is reported; an empty list means the default |
| `XdpProceedOn.FromStrings` | bpfman/src/types.rs:1881-1888 | all names convert, or the first bad one is reported |
| `XdpProceedOn.Mask` | bpfman/src/types.rs:1902-1908 | the loop computes the mask of the codes |
| `XdpProceedOn.AsActionVec` | bpfman/src/types.rs:1910-1915 | the codes of the entries in order |
| `XdpProceedOn.MaskIsMembership` | bpfman/src/types.rs:1902-1908 | a bit is set if and only if the list names that code |
| `XdpProceedOn.GoAndRustAgree` | bpfman-operator/controllers/bpfman-agent/xdp-program.go:92-113 | the Go integers followed by from_int32s give the entries of from_strings if and only if the names are nonempty and all valid |
| `XdpProceedOn.StoredMaskUnchanged` | bpfman/src/types.rs:889-920 | storing and reading keeps the mask of every nonempty list, however long |
| `DispatcherChain.FirstStopMeans` | bpf/tc_dispatcher.bpf.c:111-183 | the meaning of a chain: the default if every slot goes on, else the value of the first that does not |
| `DispatcherChain.TcDispatcher` | bpf/tc_dispatcher.bpf.c:111-183 | the unrolled chain with the shifted bit test returns the first value its own slot's mask does not admit, else TC_ACT_OK |
| `DispatcherChain.XdpDispatcher` | bpf/xdp_dispatcher_v2.bpf.c:133-205 | the same for XDP, else XDP_PASS |
| `DispatcherChain.ChainMeans` | bpf/tc_dispatcher.bpf.c:111-183 | masks that admit given code sets make the chain return the first code outside its own program's set |
| `DispatcherChain.RunTc` | bpf/tc_dispatcher.bpf.c:111-183 | for at most ten arbitrary TC lists and any valid codes the configured dispatcher returns the first code not in its own list, else OK |
| `DispatcherChain.RunXdp` | bpf/xdp_dispatcher_v2.bpf.c:133-205 | the same for XDP and PASS |
| `DispatcherChain.DefaultsAgree` | bpfman/src/types.rs:1871-1878 | an empty list means in bpfman what the API's default names mean, and the default verdicts are the codes of ok and pass |
| `DispatcherChain.EndToEnd` | bpf/tc_dispatcher.bpf.c:111-183 | from the users' names through agent, API, storage and mask to the verdict: the first code its own program did not name, for any sound conversion table |
| `DispatcherChain.TcEndToEnd` | bpfman-operator/controllers/bpfman-agent/tc-program.go:94-125 | that for TC |
| `DispatcherChain.XdpEndToEnd` | bpfman-operator/controllers/bpfman-agent/xdp-program.go:92-113 | that for XDP |
| `UsedByLists.WrittenIds` | bpfman/src/lib.rs:1103-1112 | a used-by list written where none was reads back as exactly those IDs |
| `UsedByLists.ProgUsedBy` | bpfman/src/types.rs:569-606 | a program's own list is replaced as a whole |
| `UsedByLists.PushIsFresh` | bpfman/src/lib.rs:1114-1122 | pushing at length+1 never overwrites an entry, records exactly one more ID, and keeps every index within the number of entries |
| `UsedByLists.RewrittenMapTree` | bpfman/src/lib.rs:1061-1062 | clearing and rewriting a map tree records exactly the new list and restores the index bound |
| `UsedByLists.SwapRemoveRemoves` | bpfman/src/lib.rs:1057-1059 | swap_remove takes out exactly one occurrence |
| `UsedByLists.UpdateUsersFrame` | bpfman/src/lib.rs:996-1001 | telling the users changes only used-by lists, and only of listed programs |
| `UsedByLists.UpdateUsersTells` | bpfman/src/lib.rs:996-1001 | every listed live program gets the new list |
| `UsedByLists.ReusedIdForgetsFirstUser` | bpfman/src/lib.rs:1103-1112 | why IDs must be fresh: a program with own maps under the ID of a gone owner overwrites the first sharer |
| `MapSharing.JoinKeepsInv` | bpfman/src/lib.rs:978-1040 | in the simple model a new user keeps every index recording exactly its live users |
| `MapSharing.LeaveKeepsInv` | bpfman/src/lib.rs:1048-1087 | the same for a leaving user; the last one takes entry and directory away |
| `MapSharing.SharerRefines` | bpfman/src/lib.rs:978-1007 | save_map and swap_tree of a sharing program act as the simple join of its owner's index |
| `MapSharing.OwnerRefines` | bpfman/src/lib.rs:1008-1036 | with maps of its own they act as the join of its own new index |
| `MapSharing.RemoveRefines` | bpfman/src/lib.rs:1048-1087 | delete_map succeeds and acts as the simple leave, whatever else the removal changed |
| `Slots.SortSorts` | bpfman/src/lib.rs:422-428 | the sort orders by (priority, attached with false first, name) |
| `Slots.PositionsAreRanks` | bpfman/src/lib.rs:414-457 | the setters number a group exactly 0..n-1 in key order and change nothing but positions of that group |
| `Slots.PositionsMonotone` | bpfman/src/lib.rs:414-457 | positions do not repeat, leave no gap, and follow the key |
| `Slots.PositionsByKey` | bpfman/src/lib.rs:438-457 | with the key written out: a lower priority value, then not yet attached, then the smaller name gets the lower position |
| `Slots.PositionsStable` | bpfman/src/lib.rs:438-457 | programs that the key does not tell apart keep the order in which the database lists them |
| `Slots.NewDispatcherSlots` | bpfman/src/multiprog/tc.rs:111-119 | a dispatcher over a numbered group records its size, and slot i holds the mask of the program at position i |
| `SlotSteps.AttachSlots` | bpfman/src/lib.rs:490-569 | a valid program is attached if and only if its group has a free slot of ten, and then all groups are in order |
| `SlotSteps.DetachSlots` | bpfman/src/lib.rs:887-936 | removing never underflows the extension count, never fails to build, and leaves all groups in order |
| `DaemonSteps.FinishRefines` | bpfman/src/lib.rs:137-145 | the bookkeeping after a load succeeds and adds exactly one user |
| `DaemonSteps.RefusedUndone` | bpfman/src/lib.rs:147-158 | an add refused at any point leaves maps, dispatchers, every live program's sharing and every directory but possibly its own as they were |
| `DaemonSteps.RefusedDirsExact` | bpfman/src/lib.rs:546-563 | a refused add leaves no directory behind if and only if it is not a multi-attach program with own maps whose dispatcher load failed after pinning: there the tree with the pin path is deleted before the clean-up reads it |
| `DaemonSteps.AddRefines` | bpfman/src/lib.rs:97-161 | an add succeeds, when slots are in order, if and only if its owner's maps exist, no call fails and its hook has a free slot; then the program joins its index; otherwise maps, dispatchers and the sharing of live programs are as before, while positions, its own directory or its pre-load tree may be left changed |
| `DaemonSteps.AttachIff` | bpfman/src/lib.rs:516-519 | the ten-slot limit, exactly |
| `DaemonSteps.AddKeepsSlots` | bpfman/src/lib.rs:490-569 | an add, successful or refused before the dispatcher load, keeps all slots exact |
| `DaemonSteps.RemoveSharing` | bpfman/src/lib.rs:164-218 | a removal makes exactly its program leave the shared maps |
| `DaemonSteps.SaveMapErrs` | bpfman/src/lib.rs:978-1040 | save_map fails if and only if the named owner has no map tree, or a program with own maps has no pin path |
| `DaemonSteps.DeleteMapErrs` | bpfman/src/lib.rs:1048-1087 | delete_map fails if and only if there is no map tree, or the last user leaves and the directory is gone already |
| `DaemonSteps.RemoveErrs` | bpfman/src/lib.rs:164-218 | every failing exit of remove_program and what it leaves: nothing changed, or the program lost with maps, directories and dispatchers as before and the rest of its group numbered without gaps |
| `DaemonSteps.RemoveKeepsSlots` | bpfman/src/lib.rs:164-218 | a removal keeps all slots exact |
| `DaemonRuns.SharingOverRuns` | bpfman/src/lib.rs:978-1087 | after every run of adds (failing anywhere or succeeding) and clean removes a map tree exists exactly when used, lists exactly its live users once each, every user's copy agrees and its directory exists, also after the owner is gone |
| `DaemonRuns.PinDirsSafe` | bpfman/src/lib.rs:962-970 | a directory that disappears has no live user: its last one was just removed, or a failed add took its own back |
| `DaemonRuns.AddDirs` | bpfman/src/lib.rs:147-158 | a successful add removes no directory, a failed one touches at most its own |
| `DaemonRuns.DirsOverRuns` | bpfman/src/lib.rs:1048-1087 | after every run without a failed dispatcher load the directories are exactly those of the maps in use |
| `DaemonRuns.SlotsOverRuns` | bpfman/src/lib.rs:887-909 | after every run without a failed dispatcher load each group is in order, counts match and are at most ten, and any live program can be removed |
| `DaemonRuns.DispatcherRunsGroup` | bpfman/src/multiprog/tc.rs:111-119 | a group's dispatcher returns the first code, in slot order, that its own program did not ask for |
| `DaemonRuns.PacketsOverRuns` | bpfman/src/multiprog/tc.rs:111-119 | that for every hook after every run without a failed dispatcher load |
| `StepPositions.AddPositions` | bpfman/src/lib.rs:414-432 | a successful add numbers its group in key order and leaves every other group's attributes alone |
| `StepPositions.NewcomerBeforeEquals` | bpfman/src/lib.rs:410-432 | a new program sits behind exactly those with a lower priority value, so before its equals |
| `StepPositions.RemovePositions` | bpfman/src/lib.rs:438-457 | a successful remove renumbers what is left in key order and leaves every other group alone |
| `StepPositions.AddOrdersByKey` | bpfman/src/lib.rs:414-432 | so after a successful add, for the programs that were there |
| `StepPositions.RemoveOrdersByKey` | bpfman/src/lib.rs:438-457 | and after a successful remove, for those that are left |
| `StepPositions.AddKeepsAttributes` | bpfman/src/lib.rs:97-161 | a successful add keeps every name and attribute but positions, and stores its own program as given, attached |
| `StepPositions.RemoveKeepsAttributes` | bpfman/src/lib.rs:164-218 | a successful remove takes exactly its program away and keeps all other names and attributes |
| `StepPositions.AddRebuilds` | bpfman/src/multiprog/mod.rs:94-105 | a successful add gives its hook the next revision, wrapping at 32 bits, the first being 1, and touches no other hook |
| `StepPositions.RemoveRebuilds` | bpfman/src/lib.rs:887-936 | a successful remove takes the dispatcher away with the last program and otherwise does the same |
| `PositionGaps.FailedLoadPositions` | bpfman/src/lib.rs:528-556 | after a failed dispatcher load positions are still 0..n-1 if and only if the failed program's priority value is above all attached ones |
| `PositionGaps.GapAndLeak` | bpfman/src/lib.rs:528-563 | a dispatcher load that fails after pinning, for a program that would not rank last, leaves a gap in the positions and a directory of a program that was never loaded |
| `PositionGaps.GapExample` | bpfman/src/lib.rs:528-563 | two adds from the empty database that end that way |
| `HookTrees.ExactStep` | bpfman/src/lib.rs:490-569 | an operation on a hook with one tree of the right number never panics, is refused only for an eleventh program, and keeps the hook in order if and only if no dispatcher load fails in it |
| `HookTrees.ExactOverRuns` | bpfman/src/lib.rs:887-936 | so does every run without a failed load, whichever tree is found |
| `HookTrees.StepKeeps` | bpfman/src/lib.rs:887-936 | whatever fails, a removal costs its program, a recorded number is not lost from a tree that stays, and the link is there after a load and gone after the last removal |
| `HookTrees.RepairedExactly` | bpfman/src/lib.rs:336-357 | after a failed load the next operation repairs the hook if and only if it finds the old tree and does not remove the last program |
| `HookTrees.UsableExactly` | bpfman/src/multiprog/mod.rs:107-116 | no operation can panic if and only if every tree of the hook has its number recorded |
| `HookTrees.FirstLoadBricks` | bpfman/src/multiprog/xdp.rs:60-140 | a first load that fails before the number is recorded leaves a hook with trees and no number |
| `HookTrees.BrickedForEver` | bpfman/src/multiprog/mod.rs:107-116 | every later operation on such a hook panics, in runs of any length |
| `HookTrees.StaleTreeUnlinks` | bpfman/src/lib.rs:901-909 | four operations after which a stored program is no longer linked, because a stale tree's number said it was the last |
| `BpfManager.Manager.GetMapsUsedBy` | bpfman/src/lib.rs:1124-1134 | the scan returns the recorded IDs in key order |
| `BpfManager.Manager.SetMapsUsedBy` | bpfman/src/lib.rs:1103-1112 | inserts under index keys without clearing |
| `BpfManager.Manager.PushMapsUsedBy` | bpfman/src/lib.rs:1114-1122 | inserts at length+1 |
| `BpfManager.Manager.ClearMapsUsedBy` | bpfman/src/lib.rs:1136-1142 | removes exactly the entries under the prefix |
| `BpfManager.Manager.SaveMap` | bpfman/src/lib.rs:978-1040 | changes the trees in place as SaveMap of the model says, failures included |
| `BpfManager.Manager.DeleteMap` | bpfman/src/lib.rs:1048-1087 | the same for DeleteMap |
| `BpfManager.Manager.FilterPrograms` | bpfman/src/lib.rs:383-407 | the trees of one group in iteration order |
| `BpfManager.Manager.SetProgramPositions` | bpfman/src/lib.rs:438-457 | filter, sort and the numbering loop, as SetPositions says |
| `BpfManager.Manager.FillActions` | bpfman/src/multiprog/tc.rs:111-114 | the mask array is filled by position; a missing or too large position fails |
| `BpfManager.Manager.NewDispatcher` | bpfman/src/multiprog/mod.rs:30-77 | builds the dispatcher of a group with the next revision, or fails without programs |
| `BpfManager.Manager.AddProgram` | bpfman/src/lib.rs:97-161 | the whole add with all its exits, as the function AddProgram says |
| `BpfManager.Manager.RemoveProgram` | bpfman/src/lib.rs:164-218 | the whole removal, as the function RemoveProgram says |
| `TreeKeys.KeysApart` | bpfman/src/types.rs:31-92 | no fixed key starts with a prefix and no key starts with two, whatever users append |
| `TreeKeys.TextInjective` | bpfman/src/types.rs:31-92 | no two fixed keys have the same text |
| `PrefixedMaps.MapReadsBack` | bpfman/src/types.rs:474-545 | a user map set on a fresh tree reads back the same, for arbitrary string keys |
| `PrefixedMaps.PutMapMerges` | bpfman/src/types.rs:474-545 | on any tree, setting adds the map to what getting returns |
| `ProgramView.StoredReads` | bpfman/src/types.rs:1496-1530 | a tree with the layout of a kind is read as that variant with those attributes |
| `ProgramView.AbsentMeans` | bpfman/src/types.rs:452-472 | a missing retprobe flag is false, a missing PID none, a file name wins over an image and fentry over fexit |
| `ProgramView.RebuildRoundTrip` | bpfman/src/types.rs:337-382 | for all seven kinds, whatever bookkeeping was written in between, the moved tree is rebuilt as the same program with only the ID new, and as nothing under another ID |
| `ProgramStore.CellRoundTrip` | bpfman/src/utils.rs:83-135 | every stored value is decoded by its getter to what was set |
| `ProgramStore.PutView` | bpfman/src/types.rs:392-418 | setting a fixed key changes what that key's getter returns and nothing else |
| `ProgramStore.MetadataView` | bpfman/src/types.rs:512-545 | set_metadata changes what get_metadata returns and nothing any other getter returns |
| `ProgramStore.GlobalDataView` | bpfman/src/types.rs:474-510 | the same for global data |
| `ProgramStore.ListView` | bpfman/src/types.rs:889-901 | writing a list changes only what is seen under its prefix |
| `ProgramStore.ProgramTree.SetUserMap` | bpfman/src/types.rs:512-523 | entry by entry in any hash map order, the tree ends with exactly the map added |
| `ProgramStore.ProgramTree.SetList` | bpfman/src/types.rs:889-901 | the loop writes one entry per index key |
| `ProgramStore.ProgramTree.SetLocation` | bpfman/src/types.rs:421-450 | file or image keys, optional credentials only if given |
| `ProgramStore.ProgramTree.SetData` | bpfman/src/types.rs:301-333 | ProgramData::new, write by write |
| `ProgramStore.ProgramTree.SetAttributes` | bpfman/src/types.rs:857-1345 | the constructors of the seven kinds, write by write |
| `ProgramStore.ProgramTree.CopyInto` | bpfman/src/types.rs:337-354 | the copy loop merges every entry into the other tree |
| `ProgramStore.ProgramTree.SwapTree` | bpfman/src/types.rs:358-382 | everything is merged into the tree named after the new ID, whatever that held, and the new ID is recorded |
| `ProgramStore.BuildMoveRebuild` | bpfman/src/types.rs:337-382 | building, copying, moving and rebuilding any program returns that program with the new ID |

## Left out

- Stale caches and several agent types on one node: a pass is atomic, reads the current state, and one agent reconciles one kind of *Program.
- What precedes a pass: watches, predicates, label selectors, interface and container lookup; expected BpfPrograms and the resolved map owner are inputs.
- `DoesProgExist` compares neither TC direction nor global data; the model keeps that, so "loaded as requested" is up to those two.
- Wording of conditions, log messages and status messages beyond the condition and the names listed.
- Loading, attaching and pinning in the kernel: an add gets a stage at which it fails, an interface index and a kernel ID. Of kernel failures while a removal rebuilds a dispatcher only the trees in `HookTrees` are modelled.
- A dispatcher load that fails leaves an incomplete dispatcher tree of the next revision; `HookTrees` models the trees of one hook with their numbers, but the daemon's model has one dispatcher per hook, so its slot theorems are about runs in which no dispatcher load fails (`Orderly`), while map sharing is proved for all failures.
- SlotsOverRuns: only for runs without a failed dispatcher load, because such a load leaves the trees of `HookTrees` and the gaps of `PositionGaps.FailedLoadPositions`.
- PacketsOverRuns: likewise only without a failed dispatcher load.
- In `HookTrees` a removal that finds no dispatcher tree wraps around as a release build does; a build with overflow checks panics there.
- Dispatchers are keyed by hook and interface index; the source finds them by a substring of tree names, under which XDP interface 1 also matches 10.
- Trees are entries of a map keyed by their name; the handles that `Program` clones share are that entry, so no separate aliasing is modelled.
- Trees left behind by the early exits of add_program stay in the model too; nothing is claimed about removing them.
- Image pulling, signature checks, database opening and configuration files; a load refused because the given function name is not the image's is one more load that fails.
- U32RoundTrip: native-endian bytes are little-endian ones; big-endian machines are not modelled.
- I32RoundTrip: likewise little-endian only.
- CellRoundTrip: likewise little-endian only, and a byte is a `char`, so UTF-8 decoding of stored strings is not modelled.
- SwapTree: the drop of the old tree is part of `DaemonModel.SwapTree`, not of this method.
- Return codes for which the C shift is undefined (outside -1..30 for TC, 0..31 for XDP), `compat_test`'s value, which the chain ignores, and the older XDP dispatcher, whose chain is the same.
- Enum tables such as the names of program types, generated code, exporters, examples and build tasks.
