# Verified model of the memory engine

This project states and proves what the memory engine does with the facts it stores:

- **Consolidation** (`GraphStore`, `Distill*`): the DISTILL pass decides for each candidate fact
  whether to add it, ignore it, let it coexist, supersede older facts or store it already expired,
  and writes the decision to a bi-temporal graph and to the mid-term points.
- **Lifecycle** (`TopoOrder`, `Lifecycle`): the order in which components start, the rollback of a
  failed start, and closing.
- **Recency list** (`RecencyList`, `CasProtocol`, `RecencyClient`): a bounded list under one
  compare-and-swap key, updated by interleaved clients while the key may expire.
- **Recall** (`Fusion*`, `Recall*`): weighted reciprocal rank fusion, the three-channel ranking and
  the federation of a private and a shared arm, with the recency floor.
- **Short-term tier** (`Namespaces`, `ShortTerm*`): the in-process adapter with lazy expiry and a
  capacity, keyed by a namespace prefix.
- **Ingest** (`Ingest*`): three stages under a ledger, with a crash possible before any effect.

`Common*` hold shared vocabulary. Theorems about histories, chains, counts and tiers speak of facts of the
namespace distilled. A store is a class whose methods change its fields, each proved
against a function on values; the laws are lemmas about those functions and about every run of them.
A store call is one atomic step. Times are integers and scores are reals. The list that
`find_conflicts` returns is any list of the visible facts of the slot, each once, in any order, because
the query has no `ORDER BY`; so every theorem about runs holds for every order the store may choose.
`dafny verify dfyconfig.toml` checks the project.

## Where the code and its own description differ

All but the last are exact conditions over all inputs, each with a lemma at an input that fails.

- Consolidation of facts of one namespace keeps at most one visible fact per single-valued predicate over
  every run exactly when `candidate_k` is at least one; the setting has no lower bound
  (`DistillSafety.OneVisibleExactly`). A structured item keeps its own namespace, and nothing checks that it
  is the one distilled: it is compared in the one and written to the other. With `candidate_k` at least one,
  single visibility lasts over a run of any items exactly when no such item is stored beside a visible fact
  of its own slot (`DistillSafety.RunOneVisible`, `DistillSafety.StrayRun`).
- For a many-valued predicate one visible fact per object lasts over a run exactly when no step misses a
  rival, one beyond the first `candidate_k` candidates or in another namespace
  (`DistillPlural.RunApartExactly`, `DistillPlural.RivalOverlooked`).
- A fact that arrives late, older than the live one and different from it, overlaps the stored history
  exactly when the slot already has a past; a run's history holds one fact at a time exactly when it had
  no such arrival (`DistillOverlap.RunOverlapsExactly`, `DistillOverlap.OverlappingRun`).
- A supersession rewrites the end of a loser that had already ended before the winner starts, and a
  reused id overwrites what it named; otherwise the past stays as it was
  (`DistillPast.SupersedeKeepsPastExactly`, `DistillPast.EndIsStretched`, `DistillPast.ReusedRun`). A run of fresh facts without
  ends of their own never changes the past (`DistillPast.RunKeepsPast`).
- Invalidation leaves the stored record alone, so an as-of read answers for a superseded fact with a
  record that says active and has its old end. Over a run of new ids the stale records are exactly the
  losers of the SUPERSEDE actions it reports (`DistillStale.StaleExactly`, `DistillStale.StaleAnswer`).
- A stored fact distilled again under its own id leaves its slot's history as it was exactly when it is the
  live fact, or the live fact has its value, or it already ended at the live fact's start; otherwise its end
  moves (`DistillRepeat.RepeatKeepsHistoryExactly`, `DistillRepeat.RepeatedRun`).
- A fact that expires on arrival is reported as a loser, but its mid-term point is not touched: of the facts
  a run supersedes exactly those whose point no supersession names keep an active point
  (`DistillTiers.ActivePointExactly`, `DistillTiers.ExpiredKeepsPoint`).
- A dependency listed twice is counted twice and released once: it is reported as a cycle in a graph
  that has none (`TopoOrder.Order`, `TopoOrder.RepeatIsNoCycle`).
- A component that started but reported itself unhealthy is never closed
  (`Lifecycle.RollbackIsComplete`, `Lifecycle.UnhealthyStaysOpen`).
- A floor view is documented as never evicted. It is returned exactly when it is the first view listed
  under its id and leads every other such view with its content. So an ordinary view of the same id in
  the private arm replaces it, and a copy the shared arm ranks higher drops it; the limit can then drop
  the copy too (`RecallArms.FloorReturnedExactly`, `RecallArms.FloorReplacedById`,
  `RecallArms.ContentReturnedExactly`, `RecallFloor.FloorCanBeEvicted`).
- A retry after a crash between the capture mark and the promotion mark is documented as recovering the
  item from the short-term tier. A skipped stage hands nothing on, so that branch is not reached: every
  retry fails until an attempt of another activity with the same content marks its promotion
  (`IngestReplay.CompletesExactly`, `IngestRetry.StuckExactly`, `IngestRetry.RetryCompletesExactly`).
- When an attempt finds its capture already recorded, the completion event it records names no memory
  (`IngestReplay.CompletionNamesMemoryExactly`, `IngestRetry.CompletionOfNothing`).
- After crash-free attempts a receipt says `promoted` exactly when its activity promotes. Its memory is then
  in the mid-term tier exactly when the ledger before the call has no promotion of the content or has it as
  that of this memory (`IngestRetry.PromotedReceiptExactly`, `IngestRetry.SecondIsNotPromoted`).
- The two confidence thresholds of the consolidation settings are never read.

## Model

| member | source | states |
|---|---|---|
| GraphStore.FalkorLtm.UpsertFact | packages/mu-engine/src/mu_engine/storage/adapters/falkor_ltm.py:121-135 | merge on (namespace, id): the node takes the properties of the record and the record as its blob; edges stay; an active node keeps agreeing with its blob |
| GraphStore.FalkorLtm.InvalidateFact | packages/mu-engine/src/mu_engine/storage/adapters/falkor_ltm.py:260-281 | an absent loser is a no-op; otherwise only state and end of the loser change, the blob stays, and the edge is merged if the winner is stored |
| GraphStore.FalkorLtm.FindConflicts | packages/mu-engine/src/mu_engine/storage/adapters/falkor_ltm.py:233-251 | the records of exactly the active, unended facts of (namespace, subject, predicate), each once |
| GraphStore.FalkorLtm.FactsAt | packages/mu-engine/src/mu_engine/storage/adapters/falkor_ltm.py:211-228 | the stored records of exactly the nodes held at the instant, of one subject or of all, whatever their state |
| DistillCollect.ListedExactly | packages/mu-engine/src/mu_engine/storage/adapters/falkor_ltm.py:233-251 | a stored fact is among the conflicts listed if and only if it has the subject and predicate asked for, is active, and has no end or one still to come |
| DistillSafety.DecisionSound | packages/mu-engine/src/mu_engine/pipelines/distill.py:363-407 | whatever list the store returned, a decision names only visible facts of that list other than the incoming one |
| DistillSafety.DecisionKind | packages/mu-engine/src/mu_engine/pipelines/distill.py:363-435 | an equal candidate is reinforced before anything else; without one, a contradicting candidate that starts later makes the fact expire, contradicting ones that do not are replaced, and it is added if and only if there is neither |
| DistillSafety.DecisionNames | packages/mu-engine/src/mu_engine/pipelines/distill.py:363-407 | what is named: an equal candidate; a contradicting candidate that no contradicting one outlasts; exactly all contradicting candidates; an insertion is alone if and only if there was no candidate |
| DistillSafety.SupersedeAllEffect | packages/mu-engine/src/mu_engine/pipelines/distill.py:406-426 | the supersede loop retires exactly the losers, all at the winner's start, and adds exactly one edge from each to the winner |
| DistillSafety.ReconcileCoherent | packages/mu-engine/src/mu_engine/pipelines/distill.py:358-435 | no reconcile breaks the agreement of an active node's properties with its blob, though invalidation rewrites only properties |
| DistillSafety.RunCoherent | packages/mu-engine/src/mu_engine/pipelines/distill.py:275-301 | nor does any run |
| DistillSafety.PropsAfter | packages/mu-engine/src/mu_engine/pipelines/distill.py:366-435 | for every key, the properties a reconcile leaves there, by the kind of decision, also for an item of another namespace; a reinforcement changes none |
| DistillSafety.StepTook | packages/mu-engine/src/mu_engine/pipelines/distill.py:358-435 | the same for the whole graph and items of any namespace, and the facts a decision names were visible facts of the slot |
| DistillSafety.WinnerAlone | packages/mu-engine/src/mu_engine/pipelines/distill.py:378-410 | in the functional slot distilled, the incoming fact and another visible fact are never both visible afterwards |
| DistillSafety.StepOneVisible | packages/mu-engine/src/mu_engine/pipelines/distill.py:358-435 | a completed reconcile keeps at most one visible fact per functional slot if and only if it does not store an item of another namespace beside a visible fact of its slot |
| DistillSafety.RunOneVisible | packages/mu-engine/src/mu_engine/pipelines/distill.py:275-301 | over any run with at least one candidate and a store clock that does not go back (any order, reused ids, ends set in advance, any namespaces), single visibility holds after every reconcile if and only if no step was such a clash |
| DistillSafety.NamespaceOneVisible | packages/mu-engine/src/mu_engine/pipelines/distill.py:275-301 | so it holds over every run of facts of the namespace distilled |
| DistillSafety.StrayRun | packages/mu-engine/src/mu_engine/pipelines/distill.py:316-327 | for all settings, a run of two items of another namespace that leaves both visible |
| DistillSafety.OneVisibleExactly | packages/mu-engine/src/mu_engine/pipelines/distill.py:363-364 | over all runs of one namespace from the empty store single visibility holds if and only if `candidate_k >= 1` |
| DistillHistory.DecisionOnHead | packages/mu-engine/src/mu_engine/pipelines/distill.py:363-404 | with one live fact in a functional slot: equal value reinforces, a strictly older arrival expires, anything else replaces it |
| DistillHistory.StepMoves | packages/mu-engine/src/mu_engine/pipelines/distill.py:358-435 | what a reconcile of a fresh fact does to every node, in terms of the live fact alone |
| DistillHistory.StepCases | packages/mu-engine/src/mu_engine/pipelines/distill.py:358-435 | a fresh fact opens its slot or moves it against the live fact, and leaves every other slot untouched |
| DistillHistory.RunSettled | packages/mu-engine/src/mu_engine/pipelines/distill.py:378-410 | in any arrival order a functional slot is empty or has one active fact of greatest start, with every other fact closed no later than that start |
| DistillAsOf.RunNoGaps | packages/mu-engine/src/mu_engine/pipelines/distill.py:390-410 | no run opens a gap or falls back: at every instant some held fact starts no earlier than any fact begun by then |
| DistillAsOf.HistoryCovers | packages/mu-engine/src/mu_engine/storage/adapters/falkor_ltm.py:211-228 | in any arrival order the intervals of a functional slot cover everything from the least stored start on, at each instant with a fact as recent as any begun by then, and none ends before it starts |
| DistillAsOf.AsOfRefinesLog | packages/mu-engine/src/mu_engine/pipelines/distill.py:358-435 | for facts arriving in order of start, the as-of read holds exactly one fact at each instant from the first start on, with object and polarity of the last assertion begun by then, ties and repetitions included; before that, none |
| DistillOverlap.OverlapExactly | packages/mu-engine/src/mu_engine/pipelines/distill.py:388-401 | on a single-valued history an arrival makes two facts hold at once if and only if it is older than the live fact, differs from it, and the slot already has an older past |
| DistillOverlap.RunOverlapsExactly | packages/mu-engine/src/mu_engine/pipelines/distill.py:358-435 | the history of any run from an empty slot holds one fact at a time if and only if the run had no such arrival; an overlap never goes away |
| DistillOverlap.OverlappingRun | packages/mu-engine/src/mu_engine/pipelines/distill.py:390-401 | a run, starting at 1, 5 and 3, whose history holds two facts at once |
| DistillPast.SupersedeKeepsPastExactly | packages/mu-engine/src/mu_engine/pipelines/distill.py:403-411 | a supersession at T leaves every as-of read before T unchanged if and only if no loser had held and ended before T, and the incoming id is new or what it named answered no read before T |
| DistillPast.RunKeepsPast | packages/mu-engine/src/mu_engine/pipelines/distill.py:403-411 | in any arrival order of fresh facts, for every predicate, each supersession of a run leaves every as-of read before its start unchanged |
| DistillPast.EndIsStretched | packages/mu-engine/src/mu_engine/pipelines/distill.py:403-411 | a run in which a loser that ended at 10 is read back after that because its successor starts at 20 |
| DistillPast.ReusedRun | packages/mu-engine/src/mu_engine/pipelines/distill.py:403-411 | a run in which a reused id erases what its first fact answered |
| DistillRepeat.RepeatKeepsHistoryExactly | packages/mu-engine/src/mu_engine/pipelines/distill.py:358-435 | a fact of a functional slot distilled again under its own id leaves every node and edge as it was if and only if it is the live fact, or the live fact has its value, or it ended at the live fact's start with an edge to it |
| DistillRepeat.RepeatedRun | packages/mu-engine/src/mu_engine/pipelines/distill.py:316-327 | a run in which the first of three facts, distilled again, is rewritten |
| DistillStale.StepStale | packages/mu-engine/src/mu_engine/storage/adapters/falkor_ltm.py:260-281 | a reconcile makes stale exactly the records of the losers its action reports as superseded |
| DistillStale.StaleExactly | packages/mu-engine/src/mu_engine/storage/mappers/graph_mapper.py:28-46 | over a run of new ids from a graph without stale records, a node's record disagrees with its properties if and only if a reported SUPERSEDE lists it as a loser; it is then superseded and its record says active |
| DistillStale.StaleAnswer | packages/mu-engine/src/mu_engine/storage/adapters/falkor_ltm.py:211-228 | a run after which the as-of read answers with a record that is active and has no end, for a node that ended at 10 |
| DistillChains.EdgesAfter | packages/mu-engine/src/mu_engine/pipelines/distill.py:392-411 | the edges after a reconcile are those before and exactly the ones its decision names |
| DistillChains.ChainedMoved | packages/mu-engine/src/mu_engine/pipelines/distill.py:388-411 | a move keeps every closed fact on a chain of successors to the live fact, also when the live fact changes |
| DistillChains.RunChained | packages/mu-engine/src/mu_engine/pipelines/distill.py:388-435 | so does every run of fresh facts |
| DistillChains.ChainsEndAtHead | packages/mu-engine/src/mu_engine/storage/adapters/falkor_ltm.py:260-281 | in any arrival order every superseded fact of a functional slot has exactly one successor, which starts when it ends, and following the edges arrives at the slot's only active fact, which has none |
| DistillOrder.RunStoresLog | packages/mu-engine/src/mu_engine/pipelines/distill.py:378-410 | for facts that differ in value and start, the slot stores exactly the asserted facts with their value and start |
| DistillOrder.ArrivalOrderIrrelevant | packages/mu-engine/src/mu_engine/pipelines/distill.py:378-410 | any two arrival orders of such facts store the same ids and leave the same fact live |
| DistillCounts.StepReported | packages/mu-engine/src/mu_engine/pipelines/distill.py:366-435 | one reconcile adds a node unless it is a NOOP and retires as many facts as its action lists losers |
| DistillCounts.RunConserves | packages/mu-engine/src/mu_engine/pipelines/distill.py:189-207 | over a window of new ids nodes grow by facts less NOOPs, superseded facts grow by the report's count, no node is removed, no triple or start changes and no superseded fact revives |
| DistillMidTerm.ApplyPoints | packages/mu-engine/src/mu_engine/pipelines/distill.py:412-425 | a supersession retires exactly the present points of its losers, by source id, ending them at the winner's start and naming the winner's point |
| DistillMidTerm.RunAgrees | packages/mu-engine/src/mu_engine/pipelines/distill.py:407-426 | over any run the points whose state changes are exactly those present, named by a supersession and not yet superseded; all named ones end superseded and none revives; unwired, nothing changes |
| DistillTiers.RunSupersedes | packages/mu-engine/src/mu_engine/pipelines/distill.py:390-410 | the facts a run of new ids supersedes are exactly those a supersession replaced and those that expired on arrival |
| DistillTiers.ActivePointExactly | packages/mu-engine/src/mu_engine/pipelines/distill.py:392-425 | of the facts a run supersedes, one whose mid-term point was active keeps it active if and only if it expired on arrival and no supersession of the run names that point |
| DistillTiers.ExpiredKeepsPoint | packages/mu-engine/src/mu_engine/pipelines/distill.py:391-401 | a run that stores a fact superseded and leaves its point active |
| DistillPlural.ObjectsApartExactly | packages/mu-engine/src/mu_engine/pipelines/distill.py:363-386 | for a many-valued predicate, one visible fact per object survives one reconcile of its namespace if and only if no rival is beyond the candidate limit or the incoming fact is not visible |
| DistillPlural.RunApartExactly | packages/mu-engine/src/mu_engine/pipelines/distill.py:275-301 | over any run, items of other namespaces included, one visible fact per object holds after every reconcile if and only if no step stores its fact beside a rival it did not compare |
| DistillPlural.RivalOverlooked | packages/mu-engine/src/mu_engine/pipelines/distill.py:363-386 | a run that leaves two visible facts about one object with one candidate |
| DistillReinforce.NoopReinforces | packages/mu-engine/src/mu_engine/pipelines/distill.py:366-376 | a NOOP names a visible fact with the incoming value and leaves its record with one access more and the pipeline's time of update; no other field, node, property or edge changes |
| DistillReinforce.RunCountsNoops | packages/mu-engine/src/mu_engine/pipelines/distill.py:366-376 | over a run of new ids the access count of every stored record is what it came with plus the number of NOOPs that name it |
| DistillEdges.RunTells | packages/mu-engine/src/mu_engine/storage/adapters/falkor_ltm.py:264-281 | over a run of new ids every edge carries the instant at which its loser ended, with the reason of an expiry exactly when the loser was stored already superseded |
| DistillCollect.CollectedFromOne | packages/mu-engine/src/mu_engine/pipelines/distill.py:304-355 | an item with a complete triple contributes itself, promoted and dated; any other contributes each fact extracted from its text, in order, with text, triple, polarity, date, origin and minted id, field by field |
| DistillCollect.CollectedInOrder | packages/mu-engine/src/mu_engine/pipelines/distill.py:304-314 | a window and its continuation are collected one after the other, ids minted on |
| DistillCollect.CollectedFacts | packages/mu-engine/src/mu_engine/pipelines/distill.py:304-355 | so every collected fact is an item of the window promoted, or a fact extracted from one |
| DistillCollect.CandidatesExactly | packages/mu-engine/src/mu_engine/pipelines/distill.py:363-364 | the incoming fact takes no place among the candidates: each other hit stands behind exactly the other hits listed before it, as many as `candidate_k` allows, also when it is negative |
| DistillCollect.ReportedKind | packages/mu-engine/src/mu_engine/pipelines/distill.py:366-435 | the kind reported, by the candidates: `noop` for an equal one, `add` for none, `coexist` for others only, `self_expire` and `supersede` for contradicting ones that do or do not start later |
| DistillCollect.ReportedNames | packages/mu-engine/src/mu_engine/pipelines/distill.py:366-435 | whom the report describes and which losers it lists: the first equal candidate, the incoming fact, or the first of the latest contradicting ones; with the reason |
| DistillCollect.FunctionalExactly | packages/mu-engine/src/mu_engine/pipelines/distill.py:443-446 | a predicate is single-valued if and only if the settings list it, whatever the case it is written in; an entry with a capital is never matched |
| DistillPipeline.MidTermIndex.InvalidatePointOf | packages/mu-engine/src/mu_engine/storage/adapters/faiss_mtm.py:207-228 | the payload write of one point; an absent point stays absent |
| DistillPipeline.Pipeline.SupersedeLosers | packages/mu-engine/src/mu_engine/pipelines/distill.py:406-426 | the loop over the losers leaves both stores as the recursive specification says |
| DistillPipeline.Pipeline.ReconcileAndApply | packages/mu-engine/src/mu_engine/pipelines/distill.py:358-435 | on the list the store returned, both stores take the specified step and the action reports it; the graph stays coherent |
| DistillPipeline.Pipeline.CollectWindow | packages/mu-engine/src/mu_engine/pipelines/distill.py:304-314 | the candidate facts of the window in order, minting one id per extracted fact |
| DistillPipeline.Pipeline.DistillWindow | packages/mu-engine/src/mu_engine/pipelines/distill.py:275-301 | a window is a valid run over exactly its collected facts, in order, and the report lists the action of each |
| TopoOrder.TopologicalIsAcyclic | packages/mu-engine/src/mu_engine/platform/lifecycle.py:69-90 | a topological order excludes every dependency cycle |
| TopoOrder.StuckHasCycle | packages/mu-engine/src/mu_engine/platform/lifecycle.py:79-89 | nothing ready with something unplaced means there is a cycle |
| TopoOrder.NextIsReady | packages/mu-engine/src/mu_engine/platform/lifecycle.py:77-87 | any topological order continues each of its prefixes with a ready component |
| TopoOrder.GreedyIsLeastTopological | packages/mu-engine/src/mu_engine/platform/lifecycle.py:77-87 | always taking the smallest ready name yields the lexicographically least topological order |
| TopoOrder.CountDependencies | packages/mu-engine/src/mu_engine/platform/lifecycle.py:71-76 | succeeds exactly when every dependency is registered, with the open in-degree of each name; otherwise names an unregistered dependency |
| TopoOrder.Release | packages/mu-engine/src/mu_engine/platform/lifecycle.py:82-87 | placing a name leaves the right open degrees, and the ready list is exactly the unplaced names whose dependencies are all placed |
| TopoOrder.Order | packages/mu-engine/src/mu_engine/platform/lifecycle.py:69-90 | an order is returned if and only if dependencies are registered, none is listed twice and there is no cycle; it is the least topological order; otherwise the error tells which |
| TopoOrder.RepeatIsNoCycle | packages/mu-engine/src/mu_engine/platform/lifecycle.py:73-89 | registered dependencies without a cycle, one listed twice |
| Lifecycle.Build | packages/mu-engine/src/mu_engine/platform/lifecycle.py:96-104 | a manager exists exactly for distinct names with an orderable graph, with nothing recorded; the duplicate error exactly for repeated names |
| Lifecycle.Manager.Start | packages/mu-engine/src/mu_engine/platform/lifecycle.py:106-132 | the calls made, what is recorded and degraded, and on a failure the reverse-order rollback before the error, for every behaviour of the components |
| Lifecycle.Manager.CloseStarted | packages/mu-engine/src/mu_engine/platform/lifecycle.py:138-141 | pops and closes from the end; a close that raises stops it with the rest still recorded |
| Lifecycle.AttemptIsFaithful | packages/mu-engine/src/mu_engine/platform/lifecycle.py:110-127 | a start calls a prefix of the order up to the first component that aborts it; of those called before, it records exactly the healthy ones and lists as degraded exactly those that raised, were unhealthy or were healthy but degraded, in order, on success and on failure |
| Lifecycle.StartFailsExactly | packages/mu-engine/src/mu_engine/platform/lifecycle.py:110-131 | a start fails if and only if some component is cancelled, or is required and raises or is unhealthy |
| Lifecycle.ReadinessExactly | packages/mu-engine/src/mu_engine/platform/lifecycle.py:106-132 | on success everything was called, and started and degraded list, each once and in start order, exactly the healthy components, and those that raised, were unhealthy, or were healthy but degraded |
| Lifecycle.StartedAfterDependencies | packages/mu-engine/src/mu_engine/platform/lifecycle.py:106-127 | a component is started only after everything it depends on was called, and after its required dependencies came up healthy |
| Lifecycle.ClosesBackwards | packages/mu-engine/src/mu_engine/platform/lifecycle.py:138-141 | what was closed and what is left make up the started list reversed, and closing stops early only after a close that raised |
| Lifecycle.RollbackIsComplete | packages/mu-engine/src/mu_engine/platform/lifecycle.py:128-141 | when no close raises, a rollback closes once, in reverse order, exactly the components called that reported healthy, and leaves none |
| Lifecycle.UnhealthyStaysOpen | packages/mu-engine/src/mu_engine/platform/lifecycle.py:120-131 | a failed start whose called component is not closed |
| Lifecycle.ClosedAfterDependents | packages/mu-engine/src/mu_engine/platform/lifecycle.py:134-141 | none is closed before a recorded component that depends on it, directly or through others |
| RecencyList.SortPermutes | packages/mu-engine/src/mu_engine/storage/adapters/memcached_stm.py:88 | the sort of the specification keeps every entry with its multiplicity |
| RecencyList.UpdateShape | packages/mu-engine/src/mu_engine/storage/adapters/memcached_stm.py:85-89 | an update keeps the list newest first with unique ids, within a non-negative cap; a removal leaves no entry of the id |
| RecencyList.UpdateIsInsert | packages/mu-engine/src/mu_engine/storage/adapters/memcached_stm.py:85-89 | on a well-formed list an update is: drop the id, insert behind equally new entries, cut |
| RecencyList.KeepsNewest | packages/mu-engine/src/mu_engine/storage/adapters/memcached_stm.py:85-89 | puts of distinct ids leave the `cap` newest of everything ever put, earlier puts first among equals: cutting at every step is cutting once |
| CasProtocol.StepKeepsInv | packages/mu-engine/src/mu_engine/storage/adapters/memcached_stm.py:80-101 | every step of every client, and expiry, keeps the protocol invariant |
| CasProtocol.NoLostUpdate | packages/mu-engine/src/mu_engine/storage/adapters/memcached_stm.py:70-101 | in every interleaving the list is the fold of the updates committed since the last expiry, well-formed and within the cap, and each refused write had another commit or an expiry between its read and itself |
| CasProtocol.AcceptedExactly | packages/mu-engine/src/mu_engine/storage/adapters/memcached_stm.py:91-97 | a `cas` is accepted if and only if nothing was committed or expired since its read, an `add` if and only if the key is absent |
| CasProtocol.GivesUpExactly | packages/mu-engine/src/mu_engine/storage/adapters/memcached_stm.py:80-101 | in every interleaving a client at work can give up if and only if its update was refused as often as attempts are allowed, and until then it can go on |
| RecencyClient.RecencyKey.TryWrite | packages/mu-engine/src/mu_engine/storage/adapters/memcached_stm.py:91-95 | the conditional write: accepted it stores the list under a new token, refused it changes nothing |
| RecencyClient.RecencyKey.UpdateRecency | packages/mu-engine/src/mu_engine/storage/adapters/memcached_stm.py:80-101 | the bounded retry loop: success is exactly one commit by this client, applied to the latest list, after fewer refusals than attempts are allowed; failure commits nothing, needs interference in every attempt and is refused exactly that often |
| FusionLoop.TotalIsScore | packages/mu-engine/src/mu_engine/services/recall/fusion.py:57-62 | adding up the occurrences one by one gives the declared sum of normalised weight over (k + rank + 1) |
| FusionLoop.FusedRanking | packages/mu-engine/src/mu_engine/services/recall/fusion.py:65-66 | the fused ids are the union, each once, by descending score with ties in first-seen order |
| FusionLoop.AccumulatedElements | packages/mu-engine/src/mu_engine/services/recall/fusion.py:57-63 | the element kept under each id is the first one seen in channel order |
| FusionLoop.ReciprocalRankFusion | packages/mu-engine/src/mu_engine/services/recall/fusion.py:32-66 | the nested loops over two dictionaries return exactly the declared fusion, and the only error is a length mismatch |
| FusionLaws.ScoreBound | packages/mu-engine/src/mu_engine/services/recall/fusion.py:54-62 | over duplicate-free channels with non-negative weights every score lies between 0 and 1/(k + 1) |
| FusionLaws.ScoreByRanks | packages/mu-engine/src/mu_engine/services/recall/fusion.py:54-62 | the score of an id is the sum, over the places that list it, of the channel's part of the total weight divided by (k + place + 1); a total that is not positive gives nothing |
| FusionLaws.FusedScores | packages/mu-engine/src/mu_engine/services/recall/fusion.py:65-66 | every fused element comes with the score of its own id, and scores never increase along the list |
| FusionLaws.Dominance | packages/mu-engine/src/mu_engine/services/recall/fusion.py:54-66 | an element ahead of another in every channel that holds the other precedes it in the fused list, score ties and all-zero weights included |
| Recall.DedupByContentHash | packages/mu-engine/src/mu_engine/services/recall/fusion.py:69-82 | the loop with its set of seen hashes computes the specified deduplication |
| Recall.DedupKeepsFirsts | packages/mu-engine/src/mu_engine/services/recall/fusion.py:69-82 | a view survives deduplication if and only if it occurs as the first with its hash |
| Recall.DedupHashesDiffer | packages/mu-engine/src/mu_engine/services/recall/fusion.py:69-82 | no hash is left twice |
| Recall.FusionCollapses | packages/mu-local/src/mu_local/shared_null.py:28-39 | with the empty shared arm of local mode, fusing the arms returns the private ranking unchanged, whatever the weights |
| RecallFloor.RankShape | packages/mu-engine/src/mu_engine/services/recall/ranker.py:154-165 | the private ranking is the floor followed by fused views without floor ids, ids distinct throughout, and with a tail only up to the limit |
| RecallSize.RankCount | packages/mu-engine/src/mu_engine/services/recall/ranker.py:204-213 | it holds the larger of the window and the smaller of the limit and all distinct ids there are |
| RecallSize.RankInOrder | packages/mu-engine/src/mu_engine/services/recall/ranker.py:154-165 | behind the window each view is ahead, by the places and weights of the two channels and then by first listing, of those that follow and of every id not shown |
| RecallSize.RankShowsHits | packages/mu-engine/src/mu_engine/services/recall/ranker.py:71-83 | each view shows a hit with its id, content hash, score and floor flag, labelled by the channel it came from |
| RecallFloor.ProtectKeepsAll | packages/mu-engine/src/mu_engine/services/recall/service.py:180-186 | protecting the floor of a floor-first list that fits changes nothing |
| RecallFloor.LocalRecallKeepsFloor | packages/mu-engine/src/mu_engine/services/recall/service.py:120-131 | in local mode the result is the deduplicated private ranking, keeps every hash of the recent window as a floor view, repeats no id and no hash, and exceeds the limit only for the floor; the degraded path agrees |
| RecallArms.FusedArms | packages/mu-engine/src/mu_engine/services/recall/fusion.py:57-66 | the fused list of two arms holds exactly the first view listed under each id, ordered by score and then by first listing |
| RecallArms.FloorReturnedExactly | packages/mu-engine/src/mu_engine/services/recall/service.py:120-131 | a floor view of either arm is returned if and only if it is the first view listed under its id and outranks, by ranks and weights of the arms, every other such view with its content |
| RecallArms.FloorReplacedById | packages/mu-engine/src/mu_engine/services/recall/service.py:120-131 | for every limit and all weights, arms whose floor view is replaced under its id by an ordinary view |
| RecallArms.ReturnedExactly | packages/mu-engine/src/mu_engine/services/recall/service.py:120-131 | any view is returned if and only if it leads its content and is a floor view or the floor leaders and the ordinary leaders ahead of it are fewer than the limit |
| RecallArms.ContentReturnedExactly | packages/mu-engine/src/mu_engine/services/recall/service.py:128-131 | a content is returned if and only if its leader is a floor view or finds that room |
| RecallSize.RecallCount | packages/mu-engine/src/mu_engine/services/recall/service.py:180-186 | a read returns the larger of the number of floor leaders and the smaller of the limit and the number of leaders |
| RecallArms.OneLeader | packages/mu-engine/src/mu_engine/services/recall/fusion.py:69-82 | every content of the first views listed under their ids has exactly one leader |
| RecallFloor.FloorCanBeEvicted | packages/mu-engine/src/mu_engine/services/recall/service.py:128-131 | an input for which the content of a floor view is not returned at all |
| Namespaces.PrefixInjective | packages/mu-contracts/src/mu_contracts/domain/model/memory.py:125-149 | valid namespaces with the same partition prefix are equal |
| ShortTerm.MostRecentUnique | packages/mu-engine/src/mu_engine/storage/adapters/memory_stm.py:126-142 | the specification of `recent` allows one answer only |
| ShortTerm.DropOldest | packages/mu-engine/src/mu_engine/storage/adapters/memory_stm.py:109-112 | evicting the least recent of too many rows does not change which rows are kept |
| ShortTerm.StepMatches | packages/mu-engine/src/mu_engine/storage/adapters/memory_stm.py:87-146 | one operation keeps the eager reference equal to the live part of the lazy store and answers alike |
| ShortTerm.RunMatches | packages/mu-engine/src/mu_engine/storage/adapters/memory_stm.py:67-146 | so does every sequence of operations over all namespaces |
| ShortTerm.LazyExpiryUnobservable | packages/mu-engine/src/mu_engine/storage/adapters/memory_stm.py:67-146 | after any operations with a clock that does not go back, the next is answered exactly as the eagerly expiring reference answers it |
| ShortTermLaws.RecentByFields | packages/mu-engine/src/mu_engine/storage/adapters/memory_stm.py:126-142 | `recent` answers live rows, as many as limit and tier allow, later creation first and equal times in id order, and none left out is more recent than one answered |
| ShortTermLaws.GetByFields | packages/mu-engine/src/mu_engine/storage/adapters/memory_stm.py:114-124 | a read by id answers if and only if the row is there and its expiry is still to come |
| ShortTermLaws.PutByFields | packages/mu-engine/src/mu_engine/storage/adapters/memory_stm.py:92-112 | a put leaves live rows unchanged and the new one dated from now, exactly as many as the capacity allows |
| ShortTermLaws.PutDropsOldest | packages/mu-engine/src/mu_engine/storage/adapters/memory_stm.py:109-112 | every row a put drops for capacity was created earlier than every row kept, or at the same time with a later id |
| ShortTermAdapter.EvictAgrees | packages/mu-engine/src/mu_engine/storage/adapters/memory_stm.py:79-85 | evicting a row keeps dictionary and sorted index in agreement |
| ShortTermAdapter.IndexPlaces | packages/mu-engine/src/mu_engine/storage/adapters/memory_stm.py:126-132 | the place of a row in the index is the number of more recent rows |
| ShortTermAdapter.InMemoryStm.Prune | packages/mu-engine/src/mu_engine/storage/adapters/memory_stm.py:87-90 | leaves exactly the live rows, index in agreement |
| ShortTermAdapter.InMemoryStm.Trim | packages/mu-engine/src/mu_engine/storage/adapters/memory_stm.py:109-112 | the eviction loop leaves exactly the `max_items` most recent rows |
| ShortTermAdapter.InMemoryStm.PutItem | packages/mu-engine/src/mu_engine/storage/adapters/memory_stm.py:92-112 | prune, replace, trim in the item's partition; the other partitions are untouched |
| ShortTermAdapter.InMemoryStm.GetItem | packages/mu-engine/src/mu_engine/storage/adapters/memory_stm.py:114-124 | answers a live row and evicts an expired one |
| ShortTermAdapter.InMemoryStm.RecentItems | packages/mu-engine/src/mu_engine/storage/adapters/memory_stm.py:126-142 | answers the most recent live rows in order, at most `limit` |
| ShortTermAdapter.InMemoryStm.EvictItem | packages/mu-engine/src/mu_engine/storage/adapters/memory_stm.py:144-146 | removes the row from its partition |
| IngestLaws.WriteMarkPublish | packages/mu-engine/src/mu_engine/pipelines/base.py:132-146 | in every state reached by attempts with a crash at any point, every published event is recorded, every recorded capture or promotion was written to its tier, and no record ever changes |
| IngestLaws.ApplyKeeps | packages/mu-engine/src/mu_engine/pipelines/ledger.py:103-114 | a permitted effect keeps that discipline; a second completion of a key keeps the first record |
| IngestLaws.AttemptDisciplined | packages/mu-engine/src/mu_engine/services/ingest.py:145-191 | every effect of an attempt is permitted where it happens: writes before their mark, the mark before its publications |
| IngestIdentity.RecordedExactly | packages/mu-engine/src/mu_engine/pipelines/concrete/ingest.py:86-96 | a capture is recorded if and only if some earlier try agreed on host, session, source offset and kind and lived past its capture mark |
| IngestIdentity.PromotionRecordedExactly | packages/mu-engine/src/mu_engine/pipelines/concrete/ingest.py:202-212 | a promotion is recorded if and only if some earlier try of the same text, triple and polarity wanted it as a new occurrence and lived past its promotion mark |
| IngestIdentity.AttemptExactly | packages/mu-engine/src/mu_engine/services/ingest.py:145-175 | after any tries an uncut attempt captures its activity if and only if it is a new occurrence, promotes it if and only if it also wants promotion and its content was not promoted, and returns a receipt if and only if it is new, wants none or its content was promoted |
| IngestIdentity.ReceiptExactly | packages/mu-engine/src/mu_engine/services/ingest.py:157-175 | a receipt names the memory of the first try that captured the occurrence, or the attempt's own, says promoted exactly when promotion is wanted, and lists the events by name |
| IngestIdentity.FirstPromotionAnnounced | packages/mu-engine/src/mu_engine/pipelines/concrete/ingest.py:195-200 | the first promotion of a content is announced with its capture, as explicit when asked for and else as important |
| IngestReplay.RememberClosed | packages/mu-engine/src/mu_engine/services/ingest.py:145-175 | the receipt and the stores after an uninterrupted attempt, by what the ledger held before |
| IngestReplay.ReplayStable | packages/mu-engine/src/mu_engine/services/ingest.py:157-191 | an activity remembered to completion and replayed after any other attempts, crashed or not, changes no tier and no record, republishes the same events and returns an equal receipt |
| IngestReplay.CompletesExactly | packages/mu-engine/src/mu_engine/pipelines/concrete/ingest.py:214-225 | in every reachable state an attempt returns a receipt if and only if its capture is not recorded, it does not promote, or the promotion of its content is recorded |
| IngestReplay.CompletionNamesMemoryExactly | packages/mu-engine/src/mu_engine/pipelines/concrete/ingest.py:271-278 | a newly recorded completion event names the captured memory if and only if the same attempt captured it |
| IngestReplay.OnePointPerContent | packages/mu-engine/src/mu_engine/pipelines/concrete/ingest.py:202-245 | in crash-free runs the mid-term tier receives at most one point per content hash |
| IngestRetry.StuckExactly | packages/mu-engine/src/mu_engine/pipelines/concrete/ingest.py:214-225 | from any state without its capture and the promotion of its content, an attempt of a promoting activity leaves retries stuck if and only if the crash falls after its second and before its fifth effect |
| IngestRetry.RetryCompletesExactly | packages/mu-engine/src/mu_engine/pipelines/concrete/ingest.py:202-225 | from a stuck state an attempt can complete after more tries if and only if one of them captured another activity of the same content and marked its promotion |
| IngestRetry.RetriesFail | packages/mu-engine/src/mu_engine/pipelines/concrete/ingest.py:214-225 | retries of the activity itself and attempts of other contents never help: no receipt |
| IngestRetry.CompletionOfNothing | packages/mu-engine/src/mu_engine/pipelines/concrete/ingest.py:271-278 | a retry that succeeds and announces the completion of no memory |
| IngestRetry.PromotedReceiptExactly | packages/mu-engine/src/mu_engine/services/ingest.py:157-175 | after crash-free attempts, for an attempt that can complete: its receipt says promoted if and only if it promotes, and its memory is then in the mid-term tier if and only if the ledger before the call has no promotion of the content or has it as that of this memory |
| IngestRetry.PublishedPromotionIsWritten | packages/mu-engine/src/mu_engine/services/ingest.py:186-191 | crashes anywhere, a memory whose promotion was published is in the mid-term tier |
| IngestRetry.SecondIsNotPromoted | packages/mu-engine/src/mu_engine/services/ingest.py:163-174 | of two activities with one content the second is told it was promoted while its memory is not in the mid-term tier |
| IngestService.Service.PerformAll | packages/mu-engine/src/mu_engine/services/ingest.py:186-191 | store calls in order leave what their effects specify, cut where the attempt stops |
| IngestService.Service.RunOne | packages/mu-engine/src/mu_engine/pipelines/base.py:132-146 | a stage under its ledger gate has exactly the specified effects, cut where the attempt stops |
| IngestService.Service.RememberActivity | packages/mu-engine/src/mu_engine/services/ingest.py:145-175 | an attempt cut after any number of effects leaves the corresponding prefix of them; uncut it returns the specified receipt or error |

## Left out

- Text of the stores: Cypher, SQL, key formats, retry wrappers, locks and leases; each store call is one atomic step, and the consolidation lease is what makes a reconcile run undisturbed.
- A store failure in the middle of a reconcile, and the publications of the consolidation pipeline (`FactsExtracted`, `MemoryPromoted`, `MemorySuperseded`, `ConsolidationCompleted`).
- DistillPipeline.MidTermIndex.InvalidatePointOf: an absent point is a no-op, as in the in-process and relational indexes; the remote vector store, which a comment in the pipeline says answers an absent point with an error, is not modelled.
- The extractor, its patterns and any language model: an arbitrary function; so are minted ids and clocks.
- The `added` count of the report, content-free logs, metrics, spans and audit rows.
- `CONFLICTS_WITH` edges, artifact nodes and `REFERENCES` edges, authorised ids, `object_kind`, embeddings and other fields no decision reads; absent subject, predicate, object and source id are the empty string.
- ISO text of timestamps and its comparison as strings: timestamps are integers on one time line.
- Lower-casing of predicates outside ASCII.
- The ordering and limit of `graph_recall`, and entity resolution.
- Rounding of floating-point scores and weights: scores are reals; `k` is a natural number.
- Digests: `activity_id`, `content_hash` and the completion key are injective constructors that never coincide; the separator character inside hashed fields is not modelled. As in the source, neither digest carries the tenant.
- Lifecycle.Manager.Start: which exception propagates when a rollback's own close raises is not modelled, only what is closed and what stays recorded.
- Memcached row blobs, their expiry, and the self-healing of `recent`; tokens of the recency key are taken as never reused.
- The outer I/O retry around the recency update, which may apply an update twice after a timeout.
- ShortTermAdapter.InMemoryStm.PutItem: the item is a value; a caller that changes the stored object afterwards is not modelled, nor is a negative capacity.
- Recall authorisation, channel switches, the query embedding, the LTM degrade label and message texts; the ranked hits of each channel are arbitrary lists.
- IngestService.Service.RememberActivity: the tiers are the sets of records ever written; eviction from the short-term tier, the vector and tier fields of a promoted copy and metadata are not modelled.
- The Redis ledger and its encoding of events, other pipelines, devices, grants, notifications and personas.
