# ContractCapsule verification

A Dafny model of the parts of ContractCapsule whose correctness depends on several pieces of
code at once, with machine-checked proofs about every input, every run and every interleaving.
`dafny verify dfyconfig.toml` checks the whole project.

**Runtime replacement.** A scope has an active binding with a generation counter, an action
automaton with an epoch counter, single-use boundary tickets, write-once prepared records and an
append-only log of activation and rollback receipts. `StoreSpec` gives each transaction as a
function on the tables; `RuntimeStore.Store` is the object that updates the tables in place. Each of
its methods is proved to implement its function, including that a failed transaction leaves the
tables as they were, and to extend the object's history by that one transaction, so the theorems
about runs hold of the object after any calls. `StoreInvariant` proves one inductive invariant over all
transactions, `StoreRuns` derives what holds over every run, `StoreCycles` builds runs that reach its
bounds, and `SwapController` interleaves the read-then-transact steps of any number of controllers
over the store. `StoreGuards` says, field by field, exactly when each transaction commits and what it
then leaves behind; `StoreHistory` traces the rows of every run back to the transactions that may
write them, and `ControllerGates` traces every pointer move back to the gate that let it through.

**Resolution and selection.** `Closure` holds the two closure algorithms and the conflict scan,
`CapsuleGraph` the graph of atoms and private marker nodes with its queries, `Declarations` and
`Assembly` the object that builds it, `Selection` the budgeted greedy selector, and `Membership`
the manifest and the independent check of it. `AssemblyMeaning`, `GraphMeaning` and
`SelectionMeaning` restate success, queries, labels and accepted manifests in terms of the admitted
capsules, the edges and the rendered totals alone.

**Reference semantics.** `ReferenceSemantics` states the view and its validation declaratively,
`ReferenceCompiler` is the compiler step by step, proved to emit exactly that view, and
`ReferenceTheorems` relates compiler and validator. `ReferenceMeaning` says what a compiled and an
accepted view mean for the supplied capsules, without the functions that compute them.

**Self-contained cores.** `ScopeGlob` is the two-level glob matcher, `TwinEvaluation` the evaluator
of twin runs, `TwinLog` and `TwinRunner` the protocol that produces them, `TwinProof` the proof that
evaluator and protocol fit, `TwinAttempt` the loop over repetitions and their joint judgement,
`TwinDoubt` what a stage may leave behind and how the runner heeds it, `TwinExamples` two concrete
profiles, and `TreeObjects`, `TreeBudget`, `TreeNames` and `TreeWalk` the bounded reading of a Git
tree. `GlobMeaning`, `TwinMeaning` and `TreeMeaning` state what the verdicts of these cores mean for
the strings, processes and bytes they are about.

Conventions: digests, identities and HMACs are free constructors, so two of them are equal only if
what they bind is equal. Clock readings, generated ids, validator answers and container outcomes
are arbitrary inputs. An id that is already taken makes a transaction fail, as the primary keys do,
so no freshness is assumed. Errors are results, not preconditions.

Two places where the code does less than one might expect are proved as they are. Validating the
reference compiler's own output is exact only for distinct references and exact policies:
`ReferenceTheorems.ValidateCompiled` says precisely what is added otherwise, with two concrete
inputs. A twin pair of a profile without pair checks, which a contract without differential clauses
leads to, runs to the end and is then never accepted: `TwinProof.PairAccepted` makes having a pair
check the exact condition, and `TwinExamples.RunProfile` runs a profile of each kind.

The runner tests its certainty before the new executor, the post-checks and the pair checks, but
starts the old executor on the blockers alone. That no executor starts once a stage left something
behind therefore rests on the runtime, which reports a container it could not remove and a process
whose end is uncertain as blockers too (src/contractcapsule/swap/docker_runner.py:85-93 and 113-122);
`TwinAttempt.ExecutorsNeverInDoubt` proves it from that.

## Model

| member | source | states |
|---|---|---|
| `RuntimeStore.Store.Initialize` | src/contractcapsule/swap/store.py:516-559 | a scope is created idle at generation and epoch 0 with the proved binding, at most once; otherwise nothing changes |
| `RuntimeStore.Store.ScanActions` | src/contractcapsule/swap/store.py:561-606 | the loop over a scope's action rows collects exactly the running operations, the highest epoch and the states at it, which `Row` then tests |
| `RuntimeStore.Store.Row` | src/contractcapsule/swap/store.py:561-643 | reading a row fails exactly when the scope is missing or its self-consistency test fails |
| `RuntimeStore.Store.BeginAction` | src/contractcapsule/swap/store.py:662-753 | replays a known operation, refuses a busy scope, or starts a new epoch; failures change nothing |
| `RuntimeStore.Store.EndAction` | src/contractcapsule/swap/store.py:755-835 | in every reachable state it succeeds exactly with the lease of the scope's running action; row and action are then both uncertain if the caller says so and else both idle, and the action has the given outcome |
| `RuntimeStore.Store.Reconcile` | src/contractcapsule/swap/store.py:883-948 | an uncertain scope returns to idle, row and action together, only with a proof signed for its uncertain operation and epoch |
| `RuntimeStore.Store.ReserveBoundary` | src/contractcapsule/swap/store.py:973-1032 | a ticket is issued only at the expected generation of an idle scope for the operation of the current epoch |
| `RuntimeStore.Store.SpendTicket` | src/contractcapsule/swap/store.py:1034-1057 | marking a ticket consumed changes that row alone |
| `RuntimeStore.Store.ConsumeBoundary` | src/contractcapsule/swap/store.py:1034-1057 | a ticket is consumed only if genuine, pending, unexpired and for the current generation and epoch |
| `RuntimeStore.Store.SavePrepared` | src/contractcapsule/swap/store.py:1541-1582 | a preparation is written at most once and never changed |
| `RuntimeStore.Store.FindReceipt` | src/contractcapsule/swap/store.py:1172-1236 | the scan over receipts finds the first matching one, or there is none |
| `RuntimeStore.Store.CommitReceipt` | src/contractcapsule/swap/store.py:1252-1332 | pointer move, ticket consumption and receipt insertion happen all three or not at all |
| `RuntimeStore.Store.CommitActivation` | src/contractcapsule/swap/store.py:1252-1374 | the transaction of an activation writes only pointer, ticket and receipt rows, and changes them exactly when the gate authorised it, preparation and ticket have not expired, the approval is a digest and every other guard holds |
| `RuntimeStore.Store.ActivatePrepared` | src/contractcapsule/swap/store.py:1213-1374 | an activation is replayed for its operation, or committed exactly when the gate authorised it and every guard holds, or refused without effect |
| `RuntimeStore.Store.RollbackReceipt` | src/contractcapsule/swap/store.py:1425-1539 | a rollback is replayed for its operation, or committed exactly when authorised against the active activation under every guard, or refused without effect |
| `RuntimeStore.Attempted` | src/contractcapsule/swap/store.py:516-1586 | each call on the object extends its run by one transaction, keeps the invariant and loses no row |
| `RuntimeStore.UndoneByRollback` | src/contractcapsule/swap/store.py:1425-1539 | a rollback that changes anything undoes the newest move, in every state the object can reach |
| `RuntimeStore.Ledgers` | src/contractcapsule/swap/store.py:516-1586 | after any calls the object's receipts are gapless ledgers that replay to the active bindings, bounded by the actions begun, and its rows pass their test |
| `StoreGuards.RowTest` | src/contractcapsule/swap/store.py:561-643 | on any tables whatever, reading a row succeeds exactly when the stored generations agree, the running actions are exactly the one the row names at its epoch, and the newest actions are in the row's state |
| `StoreGuards.InitializeCommits` | src/contractcapsule/swap/store.py:516-559 | in every reachable state a scope is created exactly by a validated generation-zero binding with a proof signed for this scope and it, and only once |
| `StoreGuards.BeginCommits` | src/contractcapsule/swap/store.py:662-753 | a new action starts exactly for a new operation of an idle scope, one epoch on; a known one is replayed, with its stored outcome and epoch, exactly for the same request on an idle scope |
| `StoreGuards.EndCommits` | src/contractcapsule/swap/store.py:755-835 | an action ends exactly with the lease of the scope's running action, and row and action are then uncertain or idle as the caller says, with the outcome stored |
| `StoreGuards.ReconcileCommits` | src/contractcapsule/swap/store.py:883-948 | a scope is reconciled exactly with a proof signed for its uncertain action at that epoch; row and action become idle and nothing else changes |
| `StoreGuards.ReserveCommits` | src/contractcapsule/swap/store.py:973-1032 | a ticket is issued exactly for the operation just finished, at the pointer's generation, under an unused id, for more than zero and at most ten minutes, signed for what it says |
| `StoreGuards.ConsumeCommits` | src/contractcapsule/swap/store.py:1034-1057 | a boundary is consumed exactly with the stored pending ticket, signed, not expired, for the current generation, epoch and operation |
| `StoreGuards.PrepareCommits` | src/contractcapsule/swap/store.py:1541-1582 | a preparation is stored exactly for a known scope under an unused id, unchanged |
| `StoreGuards.Loaded` | src/contractcapsule/swap/store.py:1059-1099 | a preparation is read back exactly as stored, under its own id and scope, and only if its new binding is one generation after its old one |
| `StoreGuards.ActivateCommits` | src/contractcapsule/swap/store.py:1213-1374 | an activation changes the tables exactly when its operation has none yet, the gate authorised it, the approval is a digest, preparation and ticket have not expired and match the row; pointer, ticket and receipt are then the ones stated field by field |
| `StoreGuards.RollbackCommits` | src/contractcapsule/swap/store.py:1425-1539 | a rollback changes the tables exactly when its operation has none yet, the gate authorised it, its source is the active activation and the ticket is spendable; the earlier capsule, view and input are then active one generation on |
| `StoreHistory.RunningStep` | src/contractcapsule/swap/store.py:755-835 | a running action leaves that state in one transaction only by an end with its lease; it is then uncertain exactly if the end says so, and idle otherwise, and has the outcome of the end |
| `StoreHistory.UncertainStep` | src/contractcapsule/swap/store.py:883-948 | an uncertain action leaves that state in one transaction only by a reconciliation with a proof signed for it and its epoch |
| `StoreHistory.UncertainStays` | src/contractcapsule/swap/store.py:883-948 | over every continuation of every run without such a proof an uncertain action and its scope stay exactly as they are, so nothing begins and no pointer moves |
| `StoreHistory.LeaseEnds` | src/contractcapsule/swap/store.py:755-835 | the lease of a begun action ends it after any transactions that do not present that lease, with the state and outcome the end gives |
| `StoreHistory.OutcomeStep` | src/contractcapsule/swap/store.py:662-948 | an action that is not running keeps its request, epoch and outcome in every transaction |
| `StoreHistory.OutcomeReplayed` | src/contractcapsule/swap/store.py:672-697 | after an action has ended, whatever happened since, a begin of its operation with another request is a replay conflict, and one with the same request on the idle scope replays its epoch and outcome |
| `StoreHistory.ReceiptsHaveGrounds` | src/contractcapsule/swap/store.py:1213-1539 | every receipt of every run was committed by one transaction of it that passed every guard of its kind in the state it met |
| `StoreHistory.MovesAreAuthorised` | src/contractcapsule/swap/store.py:1238-1250 | every receipt of every run comes from a transaction that was authorised, before its ticket expired and, for an activation, before its stored preparation expired, and carries that transaction's approval |
| `StoreHistory.TicketsAreReserved` | src/contractcapsule/swap/store.py:973-1032 | every ticket of every run was reserved by a transaction of it, for at most ten minutes, for the operation just finished at the generation and epoch it names |
| `StoreHistory.PreparationsAreSaved` | src/contractcapsule/swap/store.py:1541-1582 | every preparation of every run was saved by one of its transactions exactly as it is stored |
| `StoreHistory.ScopesAreProved` | src/contractcapsule/swap/store.py:516-559 | every scope of every run was created by a validated proof signed for it and its first binding |
| `StoreHistory.Refusals` | src/contractcapsule/swap/store.py:662-753 | which error a begin or a reservation is refused with: an unknown scope, another request, a running or an uncertain scope, another generation |
| `StoreHistory.MoveRefusals` | src/contractcapsule/swap/store.py:1213-1235 | an activation of an activated operation under another preparation is a replay conflict, and a rollback of an activation that is no longer active a generation mismatch |
| `StoreInvariant.RowAccepted` | src/contractcapsule/swap/store.py:561-643 | the invariant implies the self-consistency test of a row |
| `StoreInvariant.LedgerEpochs` | src/contractcapsule/swap/store.py:1252-1332 | epochs never decrease along a ledger, and every activation starts a later epoch than all entries before it |
| `StoreInvariant.AtItsGeneration` | src/contractcapsule/swap/store.py:1252-1332 | a receipt sits in its scope's ledger at the generation it left |
| `StoreInvariant.ActivationUnique` | src/contractcapsule/swap/store.py:1213-1235 | an operation is activated at most once |
| `StoreInvariant.RollbackFollowsSource` | src/contractcapsule/swap/store.py:1450-1471 | a rollback directly follows the activation of its operation and names it |
| `StoreInvariant.RollbackUnique` | src/contractcapsule/swap/store.py:1438-1449 | an operation is rolled back at most once |
| `StoreInvariant.BeginKeeps` | src/contractcapsule/swap/store.py:662-753 | beginning an action keeps the invariant |
| `StoreInvariant.EndKeeps` | src/contractcapsule/swap/store.py:755-835 | ending an action keeps the invariant |
| `StoreInvariant.ReconcileKeeps` | src/contractcapsule/swap/store.py:883-948 | reconciling keeps the invariant |
| `StoreInvariant.ReserveKeeps` | src/contractcapsule/swap/store.py:973-1032 | reserving a ticket keeps the invariant |
| `StoreInvariant.ConsumeKeeps` | src/contractcapsule/swap/store.py:1034-1057 | consuming a ticket keeps the invariant |
| `StoreInvariant.PrepareKeeps` | src/contractcapsule/swap/store.py:1541-1582 | saving a preparation keeps the invariant |
| `StoreInvariant.ActivateKeeps` | src/contractcapsule/swap/store.py:1252-1374 | activating keeps the invariant |
| `StoreInvariant.RollbackKeeps` | src/contractcapsule/swap/store.py:1425-1539 | rolling back keeps the invariant |
| `StoreInvariant.InitializeKeeps` | src/contractcapsule/swap/store.py:516-559 | initialising a scope keeps the invariant |
| `StoreInvariant.ApplyKeeps` | src/contractcapsule/swap/store.py:516-1586 | every attempted transaction keeps the invariant and only ever adds information to other rows |
| `StoreInvariant.ReachableOk` | src/contractcapsule/swap/store.py:516-1586 | every state reachable from the empty store satisfies the invariant |
| `StoreRuns.PointerStep` | src/contractcapsule/swap/store.py:1252-1332 | a transaction leaves a scope's pointer alone or commits exactly one receipt for it while the scope is idle |
| `StoreRuns.GaplessLedger` | src/contractcapsule/swap/store.py:1252-1539 | over every run, exactly one receipt leaves each generation below the current one, and replaying the ledger from the bootstrap binding gives the stored active binding |
| `StoreRuns.EntryBound` | src/contractcapsule/swap/store.py:1101-1164 | ledger entry g belongs to an epoch large enough that at most two entries share each epoch |
| `StoreRuns.GenerationBound` | src/contractcapsule/swap/store.py:662-753 | over every run the generation is at most twice the action epoch |
| `StoreCycles.BoundReached` | src/contractcapsule/swap/store.py:662-1539 | for every n some run of n actions, each activated and rolled back, reaches generation 2n, so the bound cannot be improved |
| `StoreCycles.Cycle` | src/contractcapsule/swap/store.py:662-1539 | from any such state one more action, activation and rollback go through every guard |
| `StoreRuns.EpochsAreABijection` | src/contractcapsule/swap/store.py:698-753 | epochs number the actions of a scope 1 to the current epoch without gaps or repeats |
| `StoreRuns.OneMoveOfEachKind` | src/contractcapsule/swap/store.py:1213-1235 | every receipt belongs to a recorded operation, which has at most one activation and one rollback |
| `StoreRuns.SealedForever` | src/contractcapsule/swap/store.py:1144-1164 | once the epoch has moved past an operation, no continuation of the run adds a receipt for it |
| `StoreRuns.RollbackUndoesLastMove` | src/contractcapsule/swap/store.py:1450-1539 | a committed rollback undoes the newest move and restores the earlier capsule, view and input two generations later |
| `StoreRuns.RowNeverRejected` | src/contractcapsule/swap/store.py:561-643 | every reachable state passes the self-consistency test of every row |
| `StoreRuns.OneUnfinishedAction` | src/contractcapsule/swap/store.py:698-835 | at most one action of a scope is not idle, and it carries the row's epoch, state and current operation |
| `StoreRuns.BusyStep` | src/contractcapsule/swap/store.py:1144-1149 | while a scope is not idle no transaction changes its binding, generation or epoch, and only ending or reconciling makes it idle |
| `StoreRuns.ActionSeesOneBinding` | src/contractcapsule/swap/store.py:698-723 | whatever interleaves, an action sees one binding until its scope is idle again |
| `StoreRuns.BeginKeepsBinding` | src/contractcapsule/swap/store.py:698-753 | a begun action starts from the binding that was active, in the next epoch, for a new operation |
| `StoreRuns.TicketsSpentOnce` | src/contractcapsule/swap/store.py:1307-1317 | receipts carry pairwise distinct tickets, all consumed and reserved for that scope, operation and generation |
| `StoreRuns.OneTicketPerGeneration` | src/contractcapsule/swap/store.py:1101-1164 | of all tickets reserved at one generation at most one ever moves the pointer |
| `StoreRuns.ConsumedStaysConsumed` | src/contractcapsule/swap/store.py:1101-1142 | in no continuation is a consumed ticket usable again, and none adds a receipt that carries it |
| `StoreRuns.OtherScopesUntouched` | src/contractcapsule/swap/store.py:516-1586 | a transaction on one scope leaves every row and the ledger of every other scope unchanged |
| `SwapController.ActivationPerPrepared` | src/contractcapsule/swap/store.py:1383-1402 | a preparation is activated at most once |
| `SwapController.RollbackPerSource` | src/contractcapsule/swap/store.py:1404-1423 | an activation is rolled back at most once |
| `SwapController.ActivationLookupsAgree` | src/contractcapsule/swap/store.py:1213-1235 | the lookup by prepared id and the lookup by operation inside the transaction find the same receipt |
| `SwapController.RollbackLookupsAgree` | src/contractcapsule/swap/store.py:1404-1449 | the lookup by source receipt and the lookup by operation give the same answer |
| `SwapController.NextKeeps` | src/contractcapsule/swap/controller.py:111-180 | every step of every controller keeps the invariant and the truth of all calls in flight |
| `SwapController.RunKeeps` | src/contractcapsule/swap/controller.py:111-180 | so does every interleaving of any number of calls |
| `SwapController.ActivationsAgree` | src/contractcapsule/swap/controller.py:111-145 | all returning activations of one preparation give the same receipt, and it is the only one recorded for it |
| `SwapController.RollbacksAgree` | src/contractcapsule/swap/controller.py:147-180 | all returning rollbacks of one activation give the same receipt, and it is the only one recorded for it |
| `SwapController.ActivationFoundAgain` | src/contractcapsule/swap/controller.py:111-126 | a call for an activated preparation returns the recorded receipt, also after a rollback |
| `SwapController.ActivationReplayedInside` | src/contractcapsule/swap/store.py:1213-1235 | a call that finds the receipt only inside its transaction returns it unchanged, whatever its ticket or gate |
| `SwapController.RollbackFoundAgain` | src/contractcapsule/swap/controller.py:147-165 | a call for a rolled-back activation returns the recorded rollback |
| `SwapController.RollbackReplayedInside` | src/contractcapsule/swap/store.py:1438-1449 | a call that finds the rollback only inside its transaction returns it unchanged, whatever its ticket or gate |
| `ControllerGates.CallsAreGrounded` | src/contractcapsule/swap/controller.py:111-180 | in every interleaving each call was started with its arguments, and what it carries into its transaction was read and accepted at an earlier step of that call |
| `ControllerGates.StepIsTransaction` | src/contractcapsule/swap/controller.py:111-180 | what a step of a call does to the store is one transaction or nothing, so every run of controllers is a run of the store |
| `ControllerGates.MovesAreGated` | src/contractcapsule/swap/controller.py:111-180 | in every interleaving each activation and rollback was added by an authorised transaction of a direct client, or by a call whose gate accepted it in its transaction on the same record it had read and accepted before, with the approval accepted then |
| `ControllerGates.RefusedCalls` | src/contractcapsule/swap/controller.py:128-145 | a call whose record or approval is turned down raises, and one whose gate is turned down in its transaction leaves the store as it was |
| `ControllerGates.OpenGates` | src/contractcapsule/swap/controller.py:111-145 | a call that nothing stands in the way of goes through in three steps and returns exactly the receipt its transaction commits |
| `ControllerGates.OpenRollback` | src/contractcapsule/swap/controller.py:147-180 | so does a rollback call against the active activation |
| `Closure.DependencyClosure` | src/contractcapsule/resolve/closure.py:6-18 | the worklist ends and returns exactly the nodes reachable along mandatory requirements |
| `Closure.CloseLeast` | src/contractcapsule/resolve/closure.py:6-18 | the closure is the least closed superset |
| `Closure.CloseMonotone` | src/contractcapsule/resolve/closure.py:6-18 | the closure is monotone in the nodes |
| `Closure.CloseIdempotent` | src/contractcapsule/resolve/closure.py:6-18 | closing twice changes nothing |
| `Closure.CloseDistributes` | src/contractcapsule/resolve/closure.py:6-18 | the closure of a union is the union of the closures |
| `Closure.RoundRobinClosure` | src/contractcapsule/formal.py:428-447 | repeated passes end with the closure over known targets and exactly the unknown targets required from it |
| `Closure.RoundRobinAgrees` | src/contractcapsule/formal.py:428-447 | with nothing missing, both closure algorithms give the same set |
| `Closure.MissingIffUnknown` | src/contractcapsule/formal.py:428-447 | something is reported missing exactly when the worklist closure leaves the known atoms |
| `Closure.DetectConflicts` | src/contractcapsule/resolve/conflicts.py:7-18 | there is no conflict exactly when no conflict edge has both ends among the nodes |
| `Closure.ConflictsMonotone` | src/contractcapsule/resolve/conflicts.py:7-18 | more nodes never lose a conflict |
| `CapsuleGraph.KeyInjective` | src/contractcapsule/resolve/graph.py:32-46 | the key of a well-formed reference determines it |
| `CapsuleGraph.MarkersDistinct` | src/contractcapsule/resolve/graph.py:32-37 | markers of different capsules and the two markers of one capsule are different nodes |
| `CapsuleGraph.ProjectionLosesNothing` | src/contractcapsule/resolve/graph.py:75-103 | the closed atoms of a selection have the closure, conflicts and links of the selection |
| `CapsuleGraph.CloseAtomsMonotone` | src/contractcapsule/resolve/graph.py:75-89 | closing fewer atoms succeeds whenever closing more does, with a smaller result |
| `CapsuleGraph.CloseAtomsUnion` | src/contractcapsule/resolve/graph.py:75-89 | closing a union of atoms gives the union of their closures |
| `CapsuleGraph.ConflictFreePart` | src/contractcapsule/resolve/graph.py:91-92 | a part of a conflict-free selection is conflict-free |
| `CapsuleGraph.RequirementsMet` | src/contractcapsule/resolve/graph.py:211-244 | in a closed selection each requirement of each participating capsule is met by exactly one locked, complete provider whose whole payload is selected and which participates in turn |
| `CapsuleGraph.VersionsExclusive` | src/contractcapsule/resolve/graph.py:245-250 | a conflict-free closed selection never mixes two versions of a capsule nor capsules that exclude each other |
| `CapsuleGraph.AtomDependenciesMet` | src/contractcapsule/resolve/graph.py:362-371 | in a closed selection every atom has the atoms it requires and, without conflicts, none it excludes |
| `CapsuleGraph.DeclaredRequirementMet` | src/contractcapsule/resolve/graph.py:294-348 | a declared mandatory requirement with a selected source is met by exactly one complete, locked, accepted version with its whole payload selected, or by the named atom owned only by locked and accepted capsules |
| `CapsuleGraph.DeclaredConflictAvoided` | src/contractcapsule/resolve/graph.py:294-360 | no accepted version of a capsule that a selected declaration excludes takes part |
| `CapsuleGraph.InterfaceServed` | src/contractcapsule/resolve/graph.py:193-209 | whatever contains the roots serves each required interface by exactly one complete capsule that is fully contained |
| `Declarations.ResolvedHolds` | src/contractcapsule/resolve/graph.py:294-348 | what is inserted for a resolved declaration is what the graph promises about it |
| `Assembly.Builder.Add` | src/contractcapsule/resolve/graph.py:117-130 | inserting an edge never makes a mandatory edge optional |
| `Assembly.Builder.AdmitAtom` | src/contractcapsule/resolve/graph.py:149-161 | an atom is admitted unless it contradicts one with its id, and ownership edges are exactly those of the admitted atoms |
| `Assembly.Builder.Inventory` | src/contractcapsule/resolve/graph.py:132-147 | fails exactly on contradicting atoms or reserved names; otherwise atoms, owners, completeness and edges are exactly those of the admission |
| `Assembly.Builder.Unique` | src/contractcapsule/resolve/graph.py:185-191 | yields the provider exactly when there is one candidate |
| `Assembly.Builder.Roots` | src/contractcapsule/resolve/graph.py:193-209 | succeeds exactly when every required interface parses and has one complete provider and all required atoms exist; the roots are the payloads of those providers |
| `Assembly.Builder.Requirements` | src/contractcapsule/resolve/graph.py:233-244 | links a consumer to exactly the sole provider of each requirement, or fails |
| `Assembly.Builder.Exclusions` | src/contractcapsule/resolve/graph.py:245-247 | marks exactly the capsules matching a declared conflict |
| `Assembly.Builder.Manifests` | src/contractcapsule/resolve/graph.py:233-250 | fails exactly when some manifest does not resolve; otherwise adds exactly the requirement, conflict and version edges |
| `Assembly.Builder.AtomLinks` | src/contractcapsule/resolve/graph.py:267-292 | an atom's requirements resolve exactly when every owner locks every other owner of the target |
| `Assembly.Builder.AtomicEdges` | src/contractcapsule/resolve/graph.py:362-371 | adds exactly the edges the atoms declare, or fails |
| `Assembly.Builder.NodeError` | src/contractcapsule/resolve/graph.py:252-260 | a name is refused exactly when it is reserved or names both an atom and a capsule |
| `Assembly.Builder.Explicit` | src/contractcapsule/resolve/graph.py:294-360 | a declaration fails exactly when its names, versions, locks or provider do not resolve, and otherwise inserts exactly what it stands for; the guard on unknown sources never fires |
| `Assembly.Builder.Explicits` | src/contractcapsule/resolve/graph.py:372-374 | fails exactly when some declaration does not resolve; otherwise adds exactly the edges of all declarations, mandatory if one of them is |
| `Assembly.EdgesExact` | src/contractcapsule/resolve/graph.py:377-385 | the graph has the ownership, manifest, version, atom and declared edges and no others |
| `Assembly.ConflictsAreDeclared` | src/contractcapsule/resolve/graph.py:91-92 | every reported conflict comes from a manifest, from two versions of a capsule, from an atom or from a declaration |
| `Assembly.RootsServed` | src/contractcapsule/resolve/graph.py:193-209 | each required interface has exactly one complete provider, and its payload is among the roots |
| `Assembly.ResolveGraph` | src/contractcapsule/resolve/graph.py:377-401 | succeeds exactly when the admission is resolvable; the result is the admission's inventory with exactly the edges it stands for, the roots of the required interfaces, and every requirement, exclusion, atom link and declaration in place |
| `AssemblyMeaning.ResolvableMeans` | src/contractcapsule/resolve/graph.py:132-401 | said of the admitted capsules alone: an admission can be assembled exactly when capsules agree on atoms of one id, no name is reserved or ambiguous, each required interface, manifest requirement and binding declaration has exactly one whole, locked and accepted answer, every other capsule that brings a required atom is locked, and all constraints can be read |
| `AssemblyMeaning.RequirementsAreDeclared` | src/contractcapsule/resolve/graph.py:117-374 | every strict requirement of an assembled graph is one between an atom and its owner, or comes from a manifest, an atom or a binding declaration |
| `GraphMeaning.QueriesMean` | src/contractcapsule/resolve/graph.py:75-103 | the queries fail exactly when the selection has an unknown atom or reaches a node that does not exist; else they give the atoms in every saturated superset and, as links, exactly the strict requirements between nodes reached, from the one that requires to the one required |
| `GraphMeaning.ConflictsMean` | src/contractcapsule/resolve/graph.py:91-92 | the reported conflicts are exactly the pairs of nodes reached that some conflict edge opposes |
| `GraphMeaning.MatchesMeans` | src/contractcapsule/resolve/graph.py:221-231 | a capsule matches a declaration exactly when it publishes an interface of the declared family and its version satisfies the declared constraint |
| `GraphMeaning.RequirementMeans` | src/contractcapsule/resolve/graph.py:211-244 | each requirement of a participating capsule is met by a locked capsule that publishes the family at an accepted version, has atoms, and has all of them admitted and selected |
| `GraphMeaning.ConflictMeans` | src/contractcapsule/resolve/graph.py:245-250 | no participating capsule publishes a family and version another one declares a conflict with, and none takes part in two versions |
| `GraphMeaning.DeclarationMeans` | src/contractcapsule/resolve/graph.py:294-360 | a binding declaration with a selected source is met by a version that is the declaring capsule or locked by it, accepted and selected whole, or by an atom whose every owner is locked and accepted |
| `GraphMeaning.DeclaredConflictMeans` | src/contractcapsule/resolve/graph.py:323-360 | a declared conflict keeps out every accepted version; on an atom it does so if there is no constraint or some owner of the atom is accepted |
| `Selection.ByClassStable` | src/contractcapsule/compile/session.py:318-319 | sorting by class keeps the ranker's order inside each class |
| `Selection.ByClassSorted` | src/contractcapsule/compile/session.py:318-319 | no atom is considered before one of a more important class |
| `Selection.ByClassMembers` | src/contractcapsule/compile/session.py:318-319 | sorting by class loses and adds nothing |
| `Selection.Compilation.Rank` | src/contractcapsule/compile/session.py:223-245 | a ranking is accepted exactly when it lists every atom of the graph once, unchanged and with a finite score |
| `Selection.Compilation.AddMandatory` | src/contractcapsule/compile/session.py:284-297 | succeeds exactly when the closure of the seeds exists, is conflict-free and fits, and is then what is selected; new atoms get the given reason if they are seeds and else that of a dependency, all others keep theirs; a conflict and an overflow have their own codes |
| `Selection.Compilation.Consider` | src/contractcapsule/compile/session.py:318-334 | fails exactly when a matched, unselected candidate does not close, conflicts or does not render; otherwise the atom ends up selected with its closure or excluded because that did not fit, and exactly the labels of the atoms added or excluded change |
| `Selection.Compilation.Select` | src/contractcapsule/compile/session.py:299-338 | succeeds exactly when the P0 part and the whole mandatory part are affordable, every candidate can be judged in its turn and the expansion fits; the result is closed, conflict-free, contains all mandatory atoms, fits and is rendered exactly; every atom has the label of the step that selected it or of why it was not, and an overflow or conflict of the mandatory part has its own code |
| `Selection.TaskServed` | src/contractcapsule/compile/session.py:299-338 | in a completed selection each interface the task requires is provided by exactly one complete capsule whose whole payload is selected |
| `Selection.FinalTestNeverFires` | src/contractcapsule/compile/session.py:386-392 | the final selection test cannot fire after a completed selection |
| `Selection.NoExcludedAtomStillFits` | src/contractcapsule/compile/session.py:318-334 | with monotone cost no excluded matched atom would still fit with its closure |
| `SelectionMeaning.RankingMeans` | src/contractcapsule/compile/session.py:223-245 | a ranker's answer is accepted exactly when it names no atom twice, leaves none out and gives each unchanged with a finite score |
| `SelectionMeaning.OrderMeans` | src/contractcapsule/compile/session.py:318-319 | atoms are considered class by class, P0 first and transient ones last |
| `SelectionMeaning.TurnMeans` | src/contractcapsule/compile/session.py:318-334 | a turn changes the selection exactly when the atom matched, is not selected and what it reaches with the selection exists, is unopposed and is rendered within the budget; it then adds exactly the atoms reached |
| `SelectionMeaning.SelectableMeans` | src/contractcapsule/compile/session.py:299-338 | when selection goes through, in terms of reached nodes, opposing edges and rendered totals |
| `SelectionMeaning.SelectedMeans` | src/contractcapsule/compile/session.py:299-338 | a completed selection holds all that is asked for and reached and nothing else than what asked-for and relevant atoms reach; an atom left out did not match, or its rendering with part of the selection exceeded the budget |
| `SelectionMeaning.LabelsMean` | src/contractcapsule/compile/session.py:284-315 | P0 atoms are labelled as such, what only they reach as a dependency, other atoms asked for as required by the task, and the rest of the mandatory part as a dependency |
| `Membership.CheckMembership` | src/contractcapsule/validate/compression.py:45-80 | accepts exactly the manifests that record some closed, conflict-free selection containing the mandatory closure, and returns it; what they record, links and their direction included, is said by `GraphMeaning.RecordsMean` |
| `Membership.OnlyItsSelection` | src/contractcapsule/validate/compression.py:51-55 | a manifest can record only the atoms it marks selected |
| `Membership.FallbackNeverFires` | src/contractcapsule/compile/manifest.py:99-102 | the empty-identity fallback never fires for a valid selection |
| `Membership.SelectionPassesCheck` | src/contractcapsule/compile/manifest.py:41-63 | the manifest of a completed selection records it, so the check accepts it; its links run from the node that requires to the one required, by `GraphMeaning.RecordsMean` |
| `Membership.AcceptedManifestIsCoherent` | src/contractcapsule/validate/compression.py:45-80 | any accepted manifest lists capsules whose requirements are met by listed, fully selected providers and that do not exclude each other |
| `Membership.AcceptedManifestServes` | src/contractcapsule/validate/compression.py:45-80 | any accepted manifest lists, for each required interface, its one complete provider with the whole payload selected |
| `GraphMeaning.ValidMeans` | src/contractcapsule/validate/compression.py:45-80 | a selection is valid exactly when it holds every atom asked for and every atom it reaches, and reaches nothing unknown and no two opposed nodes |
| `GraphMeaning.RecordsMean` | src/contractcapsule/validate/compression.py:45-80 | an accepted manifest lists as capsules exactly the owners of selected atoms, no conflicts, a decision for every owner and atom, and as links (x, y) exactly the strict requirements of x on y between nodes in the least closed superset of the selection |
| `GraphMeaning.LinksListed` | src/contractcapsule/compile/manifest.py:112-116 | from assembly: an accepted manifest has a link from each selected atom to every atom it requires and to its owners' presence, and from each listed capsule's presence to the unit of its one provider |
| `GraphMeaning.ManifestMeans` | src/contractcapsule/compile/manifest.py:41-102 | the manifest of a session decides on each atom under each owner with the session's reason, or as blocked when it has none, and lists no capsules of contradicting versions |
| `GraphMeaning.ReasonsRecorded` | src/contractcapsule/compile/manifest.py:51-63 | after a completed selection every decision has the session's own reason |
| `ReferenceSemantics.CheckCapsules` | src/contractcapsule/formal.py:450-484 | the pass over the capsules collects exactly their blockers and the capsules without any, or none on a clash |
| `ReferenceCompiler.RankCapsules` | src/contractcapsule/formal.py:450-488 | checking and ranking give exactly the prescribed blockers, ranking and audit phases |
| `ReferenceCompiler.SelectAtoms` | src/contractcapsule/formal.py:489-517 | repeated passes over the ranked capsules' requirements select exactly what the validator recomputes, which by `ReferenceMeaning.SelectionMeans` is the least set with every P0 or relevant atom and what those require |
| `ReferenceCompiler.ContentOf` | src/contractcapsule/formal.py:518-523 | however the selected atoms are listed, sorting them gives the same content |
| `ReferenceCompiler.SelectionBlockers` | src/contractcapsule/formal.py:502-544 | the selection adds exactly its missing, conflict, policy and budget blockers |
| `ReferenceCompiler.Compile` | src/contractcapsule/formal.py:450-580 | the compiler's steps produce exactly the prescribed view, which by `ReferenceMeaning.CompiledMeans` shows what the usable capsules call for |
| `ReferenceTheorems.RankedMembers` | src/contractcapsule/formal.py:450-488 | the ranking is sorted and holds exactly the eligible capsules when no identities clash |
| `ReferenceTheorems.RankingResolves` | src/contractcapsule/formal.py:603-633 | resolving the references of a compiled ranking gives back that ranking |
| `ReferenceTheorems.P0AlwaysExact` | src/contractcapsule/formal.py:636-700 | every P0 atom is selected and listed as exact |
| `ReferenceTheorems.HandlesBacked` | src/contractcapsule/formal.py:744-760 | evidence handles of well-formed capsules always resolve |
| `ReferenceTheorems.ValidateCompiled` | src/contractcapsule/formal.py:763-798 | validating a compiled view reports exactly its blockers, plus an inconsistency iff a reference was ranked twice and an inexact policy iff a ranked capsule has one |
| `ReferenceTheorems.ValidIffNothingBlocked` | src/contractcapsule/formal.py:763-798 | for distinct references and exact policies the two blocker sets are equal |
| `ReferenceTheorems.DuplicateFailsValidation` | src/contractcapsule/formal.py:603-615 | a capsule supplied twice compiles without blockers and then fails validation |
| `ReferenceTheorems.InexactFailsValidation` | src/contractcapsule/formal.py:744-752 | an inexact policy without P0 atoms compiles without blockers and then fails validation |
| `ReferenceTheorems.AcceptanceMeansClosed` | src/contractcapsule/formal.py:703-798 | whatever the view, acceptance means its selection is the least closure of the ranked capsules' seeds, conflict-free, within budget and from sound capsules; `ReferenceMeaning.AcceptedMeans` says it of the atoms themselves |
| `ReferenceMeaning.ClashMeans` | src/contractcapsule/formal.py:303-326 | capsules clash exactly when two of them say different things under one reference, atom id or evidence id |
| `ReferenceMeaning.WellFormedMeans` | src/contractcapsule/formal.py:329-397 | which defect of a capsule leads to which structural blocker, and to none exactly when it has no defect |
| `ReferenceMeaning.EligibilityMeans` | src/contractcapsule/formal.py:400-417 | a capsule is out of scope exactly when it does not cover the task's repository, environment or a prefix of its path, incompatible exactly when an interface is missing, unauthorised and stale likewise |
| `ReferenceMeaning.RankedMeans` | src/contractcapsule/formal.py:450-488 | the ranking holds exactly the supplied capsules that are sound, current, open to the principal and cover the task's repository, environment, path and interfaces, none if any two contradict each other, more relevant first and then by reference |
| `ReferenceMeaning.SelectionMeans` | src/contractcapsule/formal.py:636-700 | the selection is the least set that holds every atom with P0 class or positive relevance and, with an atom, every known one it requires; missing and conflicts are exactly those of selected atoms |
| `ReferenceMeaning.ContentMeans` | src/contractcapsule/formal.py:518-523 | the text is the statements of the selected atoms, each once, P0 first, then by relevance and id, joined by line breaks |
| `ReferenceMeaning.BlockersMean` | src/contractcapsule/formal.py:450-544 | which property of the supplied capsules each blocker of a compiled view stands for |
| `ReferenceMeaning.SelectionBlockersMean` | src/contractcapsule/formal.py:502-544 | which property of the selection and of its costs each remaining blocker stands for |
| `ReferenceMeaning.Totals` | src/contractcapsule/formal.py:485-544 | costs and relevance are what the atoms add up to, in whatever order |
| `ReferenceMeaning.CompiledMeans` | src/contractcapsule/formal.py:450-580 | a compiled view names what it is for and shows exactly what the usable capsules call for: every P0 or relevant atom, the least such selection, exact ids, handles and text |
| `ReferenceMeaning.AcceptedCapsules` | src/contractcapsule/formal.py:729-798 | acceptance of any view means that the supplied capsules do not contradict each other, are sound, current and open to the principal, and that the view repeats what it was compiled from |
| `ReferenceMeaning.AcceptedMeans` | src/contractcapsule/formal.py:603-798 | acceptance of any view means that its ranking names different supplied capsules in order, that it shows exactly what they call for, that everything required is selected and nothing in conflict is, and that both costs are within the budget |
| `ScopeGlob.CellDecides` | src/contractcapsule/resolve/scope.py:21-46 | the table recurrence of both matchers decides the declarative splitting language |
| `ScopeGlob.SegmentMatches` | src/contractcapsule/resolve/scope.py:21-32 | the rolling rows decide whether the segment is a concatenation with each star standing for any run |
| `ScopeGlob.Matches` | src/contractcapsule/resolve/scope.py:35-46 | the rolling rows decide whether the path splits so that each globstar takes any run of segments and every other segment exactly one |
| `ScopeGlob.JoinSplit` | src/contractcapsule/resolve/scope.py:8-18 | splitting a path loses nothing |
| `ScopeGlob.ParseAll` | src/contractcapsule/resolve/scope.py:53-59 | parsing fails exactly when some value is invalid |
| `ScopeGlob.PathsMatch` | src/contractcapsule/resolve/scope.py:53-59 | fails exactly on an invalid pattern or path, else answers whether some pattern matches some path |
| `GlobMeaning.SegmentLaws` | src/contractcapsule/resolve/scope.py:21-32 | from the front: an empty pattern matches the empty segment only, a star takes any run of characters, any other character takes itself |
| `GlobMeaning.PathLaws` | src/contractcapsule/resolve/scope.py:35-46 | from the front: an empty pattern matches the empty path only, a globstar takes any run of segments, any other part takes one segment of its language |
| `GlobMeaning.SegmentsMean` | src/contractcapsule/resolve/scope.py:8-18 | a value is accepted exactly when it starts with no drive and no segment is empty, a dot name, or has a backslash, a NUL, a wildcard it may not have or a globstar inside; the segments are the parts between separators |
| `TwinEvaluation.CheckCapture` | src/contractcapsule/validate/behavior.py:315-360 | a capture passes exactly when its probes and process are the expected ones, in limits, in order and in distinct containers |
| `TwinEvaluation.EvaluateRun` | src/contractcapsule/validate/behavior.py:269-420 | a run is valid exactly when its repetition exists, its trees are sound, its record is readable and every role check was captured at the right time with the expected observation |
| `TwinEvaluation.CompareRuns` | src/contractcapsule/validate/behavior.py:83-234 | a pair is accepted exactly when both runs, the scope of both final trees, their order, their containers and every pair check are right; `TwinMeaning.AcceptedRuns` and `TwinMeaning.AcceptedPairChecks` say what that means for the processes |
| `TwinEvaluation.AcceptedMeansOrdered` | src/contractcapsule/validate/behavior.py:146-234 | in an accepted pair all pre-checks end before either executor starts, post-checks and probes start after the snapshot, pair checks after every role check, and all containers differ |
| `TwinMeaning.ProcessMeans` | src/contractcapsule/validate/behavior.py:294-313 | a process is good exactly when it ran for its subject, ended by itself in time and within the output limits, and exited with zero, or as a probe with any code |
| `TwinMeaning.RunMeans` | src/contractcapsule/validate/behavior.py:269-420 | a valid run has sound trees, a clean executor on the initial tree and exactly one capture for each role check, carried out on the inputs its phase demands with the expected answer |
| `TwinMeaning.AcceptedRuns` | src/contractcapsule/validate/behavior.py:83-123 | in an accepted pair both final trees are sound and in scope, and every process of both runs ran its stage on the inputs and probes it demands, within all limits, with the expected answers |
| `TwinMeaning.OutOfScopeRefused` | src/contractcapsule/validate/behavior.py:98-105 | a pair one of whose final trees is unsound or out of scope is never accepted |
| `TwinMeaning.AcceptedPairChecks` | src/contractcapsule/validate/behavior.py:177-234 | the pair checks of an accepted pair are those of the profile in order, at least one, each carried out within the limits on all three trees and both run records, and held |
| `TwinMeaning.TraceReports` | src/contractcapsule/validate/behavior.py:362-420 | a report says something about a role check only if the check was run properly in its phase and its output said so |
| `TwinMeaning.RepetitionsMean` | src/contractcapsule/validate/behavior.py:125-144 | a complete group has exactly as many reports as repetitions, none twice and none out of range |
| `TwinMeaning.GroupMeans` | src/contractcapsule/validate/behavior.py:125-144 | a group is valid and stable exactly when all its fingerprints are one and the same valid one |
| `TwinRunner.PairRunner.Stage` | src/contractcapsule/swap/twin_stages.py:71-120 | exactly one record of the invocation, its subject and its outcome is added, with blockers and uncertainty accumulated |
| `TwinRunner.PairRunner.RunCheck` | src/contractcapsule/swap/twin_stages.py:135-171 | a completed check is the capture of its probes followed by the check over their observations |
| `TwinRunner.PairRunner.RunChecks` | src/contractcapsule/swap/twin_stages.py:122-133 | a completed phase captures exactly its checks in profile order, one stage after another |
| `TwinRunner.PairRunner.RunRole` | src/contractcapsule/swap/twin_stages.py:173-218 | without permission no stage runs and nothing changes; if its stages go well the role records executor, tree and all post checks |
| `TwinRunner.PairRunner.Pair` | src/contractcapsule/swap/twin_stages.py:220-292 | whatever the runtime does, every executor stage of the log comes after all pre-checks of both roles were observed true on a runner without blockers, every pair-check stage implies complete roles, the runner is uncertain exactly if a stage left something behind, and it then starts no further executor of the new role, post-check or pair check; if the stages of this very pair go well it is complete and accepted iff the profile has a pair check |
| `TwinRunner.PairRunner.RunPre` | src/contractcapsule/swap/twin_stages.py:220-240 | the pre-checks of the old role and then those of the new one are run, in profile order |
| `TwinRunner.PairRunner.RunRoles` | src/contractcapsule/swap/twin_stages.py:220-245 | no executor is started before every pre-check of both roles held, nor with blockers, the new one also not after a stage that left something behind; if the stages go well both roles are recorded whole |
| `TwinRunner.PairRunner.RunPaired` | src/contractcapsule/swap/twin_stages.py:246-292 | no stage runs and nothing changes unless both roles left a tree, all their checks said something and the runner is certain |
| `TwinMeaning.StageMeans` | src/contractcapsule/swap/twin_stages.py:71-120 | a stage went well exactly when it ran for its subject within the limits, left nothing behind and raised nothing, an executor left a sound tree in scope and a check said what is expected of the role |
| `TwinMeaning.ClearedMeans` | src/contractcapsule/swap/twin_stages.py:220-240 | where an executor may start, every pre-check of the profile has run to a clean end for both roles since the pair began, and was seen to hold |
| `TwinMeaning.ComparableMeans` | src/contractcapsule/swap/twin_stages.py:246-292 | where a pair check may start, both roles left a tree and exactly the role checks of the profile were captured for each, every one by a clean process that said something |
| `TwinDoubt.RolesCareful` | src/contractcapsule/swap/twin_stages.py:173-245 | after an executor a stage is started only if nothing up to it left anything behind, and the new executor only if nothing before it did |
| `TwinDoubt.PairCareful` | src/contractcapsule/swap/twin_stages.py:246-292 | a pair check is started only if no stage of either role left anything behind |
| `TwinProof.PairContainers` | src/contractcapsule/swap/twin_stages.py:220-284 | all containers of a pair whose stages went well are distinct |
| `TwinProof.PairTimes` | src/contractcapsule/swap/twin_stages.py:220-284 | the runner's stage order puts both executors after every pre-check and every pair check after every role check |
| `TwinProof.PairAccepted` | src/contractcapsule/swap/twin_stages.py:122-284 | if the stages of a pair went well, probes with any exit code included, its evidence satisfies the evaluator exactly when the profile has a pair check, whatever other stages do |
| `TwinAttempt.RunRepetitions` | src/contractcapsule/swap/twin_run.py:175-179 | repetitions run in order on one runner and stop only when it is uncertain; every executor of every pair was started without blockers after that pair's pre-checks held |
| `TwinAttempt.BlockedStaysBlocked` | src/contractcapsule/swap/twin_run.py:175-179 | once a pair leaves a blocker, no later pair starts an executor |
| `TwinAttempt.HeardStopsExecutors` | src/contractcapsule/swap/twin_run.py:175-179 | once a stage raised a blocker, no later pair starts an executor |
| `TwinAttempt.DoubtEndsAttempt` | src/contractcapsule/swap/twin_run.py:175-179 | a pair that left anything behind is the last one of its attempt |
| `TwinAttempt.ExecutorsNeverInDoubt` | src/contractcapsule/swap/twin_stages.py:220-245 | with a runtime that reports whatever it leaves behind as a blocker too, no executor of any pair is started once any stage of the attempt left anything behind |
| `TwinAttempt.EveryPairAccepted` | src/contractcapsule/swap/twin_run.py:175-179 | if the stages of every pair went well, each pair is complete and accepted iff the profile has a pair check |
| `TwinAttempt.EvaluateRepetitions` | src/contractcapsule/validate/behavior.py:125-144 | the reports have no blocker exactly when there is one for each repetition, all are valid and all agree |
| `TwinAttempt.AcceptedFingerprint` | src/contractcapsule/validate/behavior.py:564-578 | all accepted pairs of a profile leave the same fingerprint, whatever the repetition |
| `TwinAttempt.AcceptedNeverUnstable` | src/contractcapsule/validate/behavior.py:125-144 | if every repetition is accepted the group is complete, valid and never found unstable |
| `TwinAttempt.HealthyAttemptValid` | src/contractcapsule/swap/twin_run.py:175-180 | an attempt whose stages all go well runs every repetition and is valid as a whole, given a pair check |
| `TwinExamples.NumberingIsHealthy` | src/contractcapsule/swap/twin_stages.py:71-120 | every log of a runtime with a counting clock, numbered containers and expected answers is a healthy one |
| `TwinExamples.RunProfile` | src/contractcapsule/validate/behavior.py:199-201 | concrete profiles with and without a pair check both run to the end, and only the one with it is accepted |
| `TreeObjects.ParseEntries` | src/contractcapsule/swap/source.py:53-71 | the offset loop parses exactly the entries of the tree object, or fails where the grammar does |
| `TreeObjects.ParsePrint` | src/contractcapsule/swap/source.py:53-71 | parsing a printed list of safe entries returns that list with modes mapped as the code maps them |
| `TreeObjects.ParsedPrintable` | src/contractcapsule/swap/source.py:53-71 | everything the parser yields is safe and can be printed again |
| `TreeMeaning.OctalMeans` | src/contractcapsule/swap/source.py:53-62 | the mode texts accepted, and the numbers they mean, are exactly those of an integer literal in base eight with spaces, sign, prefix and single underscores |
| `TreeMeaning.EntryMeans` | src/contractcapsule/swap/source.py:53-71 | an entry is parsed exactly when its name is safe and decodable and its mode means 40000, 100644 or 100755; kind and mode are then 755 folder, 644 file or 755 file |
| `TreeObjects.Expand` | src/contractcapsule/swap/source.py:84-95 | one tree is recorded exactly when its entries and blobs fit, and then completely |
| `TreeWalk.WalkStep` | src/contractcapsule/swap/source.py:80-95 | what is recorded plus what is pending weighs as much as the whole tree at every turn |
| `TreeWalk.Walk` | src/contractcapsule/swap/source.py:74-95 | ends on every object graph and succeeds exactly when the root leads to a finite well-formed tree within the limits; bytes stored plus bytes remaining is the byte limit, as many entries and bytes are recorded as the tree has, and exactly the reachable entries are recorded |
| `TreeNames.TidyStep` | src/contractcapsule/swap/source.py:80-95 | at every turn the recorded paths are distinct exactly when no visited tree uses a name twice |
| `TreeWalk.ReadTree` | src/contractcapsule/swap/source.py:74-98 | with the final validation, reading succeeds exactly when also no folder uses a name twice and no name has a wildcard |
| `TreeMeaning.ReadPathsClean` | src/contractcapsule/swap/source.py:53-98 | no path a read records has an empty, dot or double-dot segment, a separator, a NUL, a drive prefix or a wildcard, and each has a known mode |
| `TreeMeaning.ListingMeans` | src/contractcapsule/swap/source.py:74-95 | the root is recorded as a folder with mode 755, and besides exactly the entries the paths from the root name, with their modes and contents |
| `TreeMeaning.WalkableMeans` | src/contractcapsule/swap/source.py:74-95 | the limits of a walk: fewer entries under the root than the file limit, at most the byte limit, and 8192 bytes of tree objects for each file allowed |

## Left out

- SQLite, schema migrations, file locks, audit rows and signed row encodings: a transaction is one atomic step, and rows are written by the store alone.
- SHA-256, HMAC and canonical JSON: free constructors; a forged or colliding value is not modelled.
- Format validation of identifiers, timestamps and lifetimes beyond the guards above.
- `SwapController.prepare`'s record checks and the verification of approvals: their answers are inputs to every step.
- The error code of a refused transaction is modelled, its message is not.
- Registry, quarantine and eligibility gates: the graph starts from the admitted items, each reference listed once as admission leaves it (src/contractcapsule/resolve/eligibility.py:302-325).
- SemVer comparison, FTS ranking, token counting and rendering: functions given as parameters, rendering as one that may fail.
- Interfaces a capsule provides always parse, as admission has made sure (src/contractcapsule/resolve/eligibility.py:70-86).
- Provider witnesses, service stamps, evidence digests and the redacted manifest: they accompany the selection without changing it.
- Manifest tuples are sets: their sort order is not modelled.
- Evidence re-reads, service and policy snapshot comparisons of the final checks; only their selection test is modelled.
- ReferenceSemantics.CheckCapsules: blockers are a set, their order and repetition are not modelled.
- Replacement decision, activation and rollback of the reference semantics: single-step guards that the runtime store model states in full.
- Snapshot validation and scope violations in the twin evaluator are predicates on trees given as parameters; the counts per check role, the persistence of reports and their re-verification are not modelled.
- Atom scope selectors (src/contractcapsule/resolve/scope.py:62-82): one pass that sorts selectors by dimension before the modelled path match.
- Stage freshness callbacks, retained volumes and run-record persistence: a record has an identity and nothing else.
- Unicode decoding of tree names and Git object hashing: a predicate on bytes and a map of objects; the sort after the walk.
- Docker, subprocess, MCP, YAML and package loading, attempt and run stores, budgets and pilots.
