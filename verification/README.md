# Recovery, verified

Cartograph recovers a graph of facts from source repositories and keeps it
current while preflights, recoveries, readers and agents work at the same time.
This project models the host's five most intricate parts and proves what they
promise.

**The findings register** (`Findings`, `Register`, `RegisterInvariant`,
`RegisterTheorems`, `RegisterReplies`, `RegisterRefusals`, `PreflightRuns`,
`StoredRegister`). Preflight runs and recoveries race to write one register per
repository. The protocol is a transition system whose events are single lock
holds, single compare-and-swaps and single commits; every theorem is about every
interleaving. In every run a later commit to a repository carries a greater
epoch, unless the earlier one lost its read-back before it was recorded and a
recovery wrote one of the two (`CommitsInOrder`). Who is refused is read off the
history alone: exactly those a newer recorded commit overtook (`RefusedIff`). Both exceptions are real (`LostPreflightIsOvertaken`,
`LostRecoveryIsOvertaken`), and `CommitKeepsOrderIff` says exactly when a commit
of either kind keeps the order. `RegisterHost` is the object itself:
`PersistIfCurrent` and `Reconcile` are specified end to end, with any legal
action of other writers between their sections. `StoredRegister` joins the
protocol to the findings table: the rows the table holds after any run are the
register (`RowsAreRegisterIff`), and writing them is a legal course of the
protocol whichever statement fails (`WriteRows`).

**Graph publication** (`Facts`, `EdgeMerge`, `GraphStore`, `Publication`,
`PublicationTheorems`, `OperationFacts`, `WholeGraphStages`, `SourceBindings`).
A re-extraction is reconciled with a graph many repositories share: duplicate
edges are merged, stale facts retracted, orphan placeholders collected, the patch
applied if the snapshot still holds, and whole-graph stages run. Reloading is not
a fixed point after one load (`OneLoadMayNotSettle`); `FirstLoadSettlesIff` says
when it is, and `ReloadsSettle` that two loads always suffice. Source bindings
follow the same facts through the store's triggers.

**Source operations** (`SourceOperations`, `SourceAcquire`, `SourceRuns`). Many
try-only lock plans over shared checkouts with a durable readiness flag: safety
over every interleaving, what one acquisition changes when it fails at each
phase, and a refinement joining the two: whatever acquiring or finishing does to
the lock table and the registry is a legal run of the transition system.

**Task evidence and receipts** (`Neighborhood`, `TaskPlanning`, `TaskSelection`,
`TaskValidation`, `TaskAcceptance`, `TaskSamples`, `ReceiptRetention`). A budgeted
walk with counters that must agree. It succeeds exactly when the plan is
selectable, and what it selects always passes the validation of its source basis;
but the consumer's constructor also bounds texts, their total, and the relation,
which the walk does not. `PrepareTask` succeeds exactly when the plan is
selectable and `Fits` those bounds, a condition on plan and sources alone (the
encoded size of the basis being a parameter); `PrepareFromSnapshot` says the same
of a graph snapshot and a gap. `LongSpanIsRefused`, `ManySpansAreRefused` and
`UnlistedRelationIsRefused` are graphs whose planned tasks select and are
refused. Receipts go to an append-only bounded store.

**Aggregation** (`Metrics`, `MetricsMeaning`, `SourceWindow`, `FlowGraph`). Order-independent
recorded hashes, window arithmetic, and one stable sort that replaces a sequence
of queries.

`Wrappers`, `Collections` and `Sorting` hold what several parts use.

Modelling choices. A content hash or fact digest is the content it was taken of,
so equal hashes mean equal content. A string's characters stand for its bytes.
Properties are a record of the keys the code reads plus a remainder. Where another
writer may act between a read and a write of the same method, the state it left is
a parameter (`meanwhile` in `LoadIntoGraph`); in the transition systems it is
another event. Faults of storage are parameters too.

Where code and comments differ the model follows the code. The comment on
`compute` says an empty repository scope covers nothing; the code counts every
fact towards its extractor (`Metrics.UnscopedCoverage`). The comment on register
epochs promises an order that a lost read-back breaks (above). The comment on
`matching_bindings` promises that bindings name published facts; an extraction
that emits its own `repo:` node is the exception (`BindingsNamePublishedIff`).

Check everything with `dafny verify dfyconfig.toml`.

## Model

| member | source | states |
|---|---|---|
| `Findings.FindingStore.ReplaceForIf` | src-tauri/src/findings.rs:87-118 | rows change, all together, exactly when every statement succeeds, the claim is won and the commit succeeds; a lost claim or any failure before the commit leaves rows and ids as they were; success returns the repo's rows |
| `Findings.ReplacementIsExactIff` | src-tauri/src/findings.rs:87-118 | the register then shows exactly the new report iff every finding names the replaced detector; other repos, and then other detectors, are untouched |
| `Findings.RerunIsIdenticalIff` | src-tauri/src/findings.rs:73-118 | running a detector again leaves an identical register, rather than duplicates, iff its report names only itself |
| `Findings.ListedIff` | src-tauri/src/findings.rs:120-130 | the rows read back are exactly the rows of the repo |
| `Findings.ListedInOrder` | src-tauri/src/findings.rs:120-130 | in the order of their ids |
| `Findings.ReplacedIsNumbered` | src-tauri/src/findings.rs:94-112 | every replacement keeps the table in the order of ids, all handed out once |
| `Findings.ReadBackIsExact` | src-tauri/src/findings.rs:94-118 | after a committed report that names only its detector, the rows read back show exactly that report for the detector, in order, and for any other detector what the repo had before |
| `RegisterInvariant.StepInv` | src-tauri/src/main.rs:1872-2091 | every event of any writer keeps the protocol's invariant: unique growing epochs, one running run, a register that is the replay of its commits, maps that reflect commits, truthful replies |
| `RegisterTheorems.RunInv` | src-tauri/src/main.rs:1836-2091 | the invariant holds after every legal run |
| `RegisterTheorems.CommitsInOrder` | src-tauri/src/main.rs:1973-2091 | in every run a later commit to a repo carries a strictly greater epoch, unless the earlier one lost its read-back and a recovery wrote one of the two; a recorded commit is never overtaken |
| `RegisterTheorems.RegisterHoldsNewest` | src-tauri/src/main.rs:2220-2254 | in every run the register shows, for each repo, its last commit, and no recorded commit is newer |
| `RegisterTheorems.OrderedWithoutLostReadBack` | src-tauri/src/main.rs:2005-2091 | with no lost read-back anywhere in the run the order holds for every repo |
| `RegisterTheorems.CommitKeepsOrderIff` | src-tauri/src/main.rs:2005-2091 | from any reachable state a commit of either kind of writer keeps the order of an ordered repo iff no newer commit of that repo lost its read-back (with a recovery on either side) |
| `RegisterTheorems.LostPreflightIsOvertaken` | src-tauri/src/findings.rs:116-117 | a reachable run in which a preflight's commit whose read-back failed is overwritten by an older fence |
| `RegisterTheorems.LostRecoveryIsOvertaken` | src-tauri/src/findings.rs:116-117 | a reachable run in which a recovery's commit whose read-back failed is overwritten by an older preflight, which nothing refuses |
| `RegisterReplies.OwnReplyIsRegister` | src-tauri/src/main.rs:2026-2032 | at the moment a writer answers with its own report that report is the register, whatever was lost before |
| `RegisterReplies.RefusalQuotesRegisterIff` | src-tauri/src/main.rs:2015-2025 | what refuses a preflight is the register's content iff the repo's last commit did not lose its read-back |
| `RegisterReplies.StampedReplyIsRegisterIff` | src-tauri/src/main.rs:2005-2032 | every stamped reply, in every run, is the register's content and epoch at that moment iff the repo's last commit did not lose its read-back; an own report always is |
| `RegisterReplies.RefusalMayQuoteOlder` | src-tauri/src/main.rs:2015-2025 | a reachable refusal that answers with epoch 2 while the register holds epoch 3 |
| `RegisterReplies.ClientShowsRegisterIff` | ui/src/store.ts:906-916 | however replies are delayed, reordered, lost or repeated, the client shows the register iff the stamp of the register's own write is among those that arrived |
| `RegisterReplies.SettledForever` | src-tauri/src/main.rs:1872-1899 | a run leaves RUNNING once; what it left to never changes again |
| `RegisterReplies.OnlyNewestRuns` | src-tauri/src/main.rs:1973-1984 | every preflight but the latest begun is not running |
| `RegisterReplies.CancelAndCommitExclude` | src-tauri/src/main.rs:1886-1899 | a run cancelled or superseded while running commits nothing ever after; a run that claimed its commit is never reported cancelled |
| `RegisterReplies.SupersededReports` | src-tauri/src/main.rs:1886-1899 | a superseded run that never reached the lock can report that it was cancelled |
| `RegisterReplies.RowsChangeOnlyByCommit` | src-tauri/src/main.rs:2026-2031 | rows change only when the lock owner commits; a preflight owner has won its claim, and the row it replaces is older unless that write was lost and a recovery is involved |
| `RegisterRefusals.RefusedIff` | src-tauri/src/main.rs:2015-2076 | in every reachable state a recovery is refused iff some recorded commit of the repo is newer than its fence, a preflight iff some recorded recovery is |
| `RegisterRefusals.BackedStep` | src-tauri/src/main.rs:2026-2031 | every event keeps: the epoch remembered for a repo is that of a recorded preflight commit |
| `StoredRegister.RowsAreRegisterIff` | src-tauri/src/main.rs:2220-2254 | after every run, on top of any earlier rows, the table's rows of a repo and the preflight detector are the register's report iff that report names only the detector; a repo without a commit keeps its rows |
| `StoredRegister.OthersKept` | src-tauri/src/findings.rs:94-112 | rows of other detectors are the same after any sequence of such commits |
| `StoredRegister.WriteRows` | src-tauri/src/main.rs:2231-2254 | writing the owner's report, with others acting before the claim and the commit: each ending (unstaged, withdrawn, uncommitted, unread, kept) is a legal course of the protocol, and the table then holds exactly the protocol's commits |
| `StoredRegister.CourseExists` | src-tauri/src/main.rs:2231-2254 | from every reachable state before the transaction such a course exists |
| `PreflightRuns.RegisterHost.BeginRun` | src-tauri/src/main.rs:1973-1984 | registers the next epoch and cancels the superseded run if it was running |
| `PreflightRuns.RegisterHost.CancelRun` | src-tauri/src/main.rs:1986-1991 | stops the current run iff it was running; otherwise changes nothing |
| `PreflightRuns.RegisterHost.ReserveReconcile` | src-tauri/src/main.rs:2033-2043 | reserves the next place in the order for a recovery |
| `PreflightRuns.RegisterHost.PersistIfCurrent` | src-tauri/src/main.rs:2005-2032 | end to end, with any legal interference between sections: it is answered with another's report iff a newer recovery of the repo was recorded, and then nothing is written and the answer is the register iff the last commit was recorded; any other stamped reply is its own report, now committed, recorded and the register's content; every other reply without a lost read-back leaves rows and commits as they were |
| `PreflightRuns.RegisterHost.Reconcile` | src-tauri/src/main.rs:2045-2091 | end to end under the same interference: nothing is written iff some recorded commit of the repo is newer than the fence; otherwise, without a fault, the report is committed, recorded and the register's content; a fence newer than every logged commit of its repo is always written |
| `Facts.SharedScopeIff` | src-tauri/src/main.rs:1303-1315 | two repositories can claim one id-scoped node iff one key with its separator is a prefix of the other |
| `Facts.PlainKeysShareNothing` | src-tauri/src/main.rs:1303-1315 | keys without `@` never share an id-scoped node |
| `Facts.IdOwnedIff` | src-tauri/src/main.rs:1303-1315 | which ids carry their repository, kind by kind |
| `Facts.FactOwnedIff` | src-tauri/src/main.rs:1291-1301 | a fact is a repository's own iff its provenance parses and it cites something and nothing of another repository |
| `Facts.CeilingIff` | crates/core-prov/src/lib.rs:132-142 | which confidence each tier may assert |
| `EdgeMerge.MergeEdgeGroup` | src-tauri/src/main.rs:1344-1398 | the loop computes the merged edge of a group |
| `EdgeMerge.MergeEdgeOccurrences` | src-tauri/src/main.rs:1333-1342 | one merged edge per distinct key, of that key's occurrences in order |
| `EdgeMerge.MergedEdgeCites` | src-tauri/src/main.rs:1325-1398 | the merged edge keeps the last occurrence's identity and properties and cites the first 32 of the sorted distinct spans of every joining occurrence; kept plus omitted is the distinct count |
| `EdgeMerge.MergedEdgeIs` | src-tauri/src/main.rs:1344-1398 | a single or unparsed last occurrence is itself; otherwise the evidence is the first 32, in order, of the spans that occurrences read like the last cite, and the hash is the last's own unless another was read like it |
| `EdgeMerge.MergeForgetsOrder` | src-tauri/src/main.rs:1344-1398 | any permutation that keeps the last occurrence merges to the same edge |
| `EdgeMerge.MergedHashIff` | src-tauri/src/main.rs:1382-1390 | two collapsed relations share a hash iff they cite the same spans, omitted ones included, and union the same fact hashes |
| `EdgeMerge.CollapsedIsNoOccurrence` | src-tauri/src/main.rs:1382-1390 | a collapsed relation is not the fact any single site stated |
| `GraphStore.SqliteGraphStore.ApplyPatchIfSnapshotMatches` | crates/core-graph/src/lib.rs:177-220 | a stale snapshot is refused, an edge without endpoints rolls everything back, otherwise deletions then upserts |
| `GraphStore.AppliedKeepsIntegrity` | crates/core-graph/src/lib.rs:194-220 | no admitted patch leaves a dangling edge |
| `GraphStore.NodePatched` | crates/core-graph/src/lib.rs:194-220 | a node is there afterwards iff upserted, as last upserted, or kept and not deleted |
| `GraphStore.EdgePatched` | crates/core-graph/src/lib.rs:194-220 | an edge is there afterwards iff upserted, as last upserted, or kept and neither it nor an endpoint is deleted |
| `Publication.CollectNodes` | src-tauri/src/main.rs:1435-1444 | the last node per id, and exactly the ids emitted with differing facts |
| `Publication.Retractions` | src-tauri/src/main.rs:1474-1502 | exactly the stale edges and vanished nodes, each once |
| `Publication.LoadIntoGraph` | src-tauri/src/main.rs:1411-1526 | on success the graph is the reconciled one and every statistic is exact; a closed extraction fails iff the graph changed meanwhile, and then changes nothing |
| `PublicationTheorems.LoadPublishesExactly` | src-tauri/src/main.rs:1435-1526 | a load of a closed extraction leaves no dangling edge, every extracted fact exactly, and no stale edge or id-scoped node of the repo |
| `PublicationTheorems.ForeignFactsLostIff` | src-tauri/src/main.rs:1474-1502 | another repo's edge is lost iff it touches a vanished id-scoped node of this repo, its node iff it is a placeholder no remaining edge touches; kept facts are unchanged |
| `PublicationTheorems.LoadedEdgeIff` | src-tauri/src/main.rs:1474-1502 | a stored edge survives a load iff it is extracted again, or is not the repository's own and ends at no id-scoped node that left |
| `PublicationTheorems.LoadedNodeIff` | src-tauri/src/main.rs:1474-1502 | a stored node survives iff it is extracted again, or does not carry the repository and is foreign and no placeholder, or is still the end of an edge; extracted nodes are as last extracted |
| `PublicationTheorems.WrittenIff` | src-tauri/src/main.rs:1452-1472 | written are exactly the extracted facts the graph does not hold as extracted |
| `PublicationTheorems.RegisteredNode` | src-tauri/src/main.rs:1418-1434 | the registration's node: confirmed, citing nothing, naming and hashing its commit |
| `PublicationTheorems.ReloadsSettle` | src-tauri/src/main.rs:1474-1518 | the second load writes nothing, deletes no edge and drops only nodes without edges; the third changes nothing |
| `PublicationTheorems.FirstLoadSettlesIff` | src-tauri/src/main.rs:1474-1502 | one load is a fixed point iff it strands no collectable node whose counted edges all go with vanished neighbours |
| `PublicationTheorems.OneLoadMayNotSettle` | src-tauri/src/main.rs:1483-1502 | a placeholder imported only by a vanished symbol survives the first load and not the second |
| `OperationFacts.Recorder.Load` | src-tauri/src/main.rs:168-183 | a key two repositories publish is one fact, and the repeat is counted merged |
| `OperationFacts.Recorder.Patch` | src-tauri/src/main.rs:185-196 | the key sets follow a patch in the store's own order |
| `OperationFacts.OccurrencesConserved` | src-tauri/src/main.rs:124-205 | for every sequence of loads, raw occurrences plus one Repo node per load equal published plus merged, but for loads that emitted their own Repo node |
| `OperationFacts.ExactAccountingIff` | src-tauri/src/main.rs:1435-1450 | the account is exact iff no extraction emitted its own Repo node |
| `OperationFacts.CollisionsAdd` | src-tauri/src/main.rs:168-183 | each load adds the number of ids it emitted with differing facts |
| `OperationFacts.SummaryQuotesStore` | src-tauri/src/main.rs:157-205 | ingesting pairwise different, closed, self-cited repositories into an empty graph, the operation's key sets are the store's |
| `OperationFacts.FirstIngestExists` | src-tauri/src/main.rs:157-205 | two repositories that share a placeholder meet the conditions above |
| `WholeGraphStages.StitchBackings` | src-tauri/src/main.rs:1554-1592 | store and key sets take the stitched edges; the count is the candidates |
| `WholeGraphStages.CandidatesIff` | src-tauri/src/main.rs:1561-1570 | a key is a candidate iff some proposal names it and a channel of the graph |
| `WholeGraphStages.CandidateIsLast` | src-tauri/src/main.rs:1561-1570 | with the last such proposal as its edge |
| `WholeGraphStages.StitchedIff` | src-tauri/src/main.rs:1554-1592 | an edge is there afterwards iff proposed for a channel of the graph, as last proposed, or there before and not observed |
| `WholeGraphStages.ObservedIff` | src-tauri/src/main.rs:1571-1581 | observed are the BACKS edges of either state reader, whether or not the rest of their provenance parses |
| `WholeGraphStages.StitchingIsExact` | src-tauri/src/main.rs:1554-1592 | observed BACKS edges are then exactly those proposed for a channel of the graph, and the graph stays keyed and closed |
| `WholeGraphStages.StitchingIsIdempotent` | src-tauri/src/main.rs:1554-1592 | stitching again with the same observations changes nothing |
| `WholeGraphStages.OperationQuotesStore` | src-tauri/src/main.rs:157-205 | after such a first ingest and any sequence of stitching and relinking stages, the operation's key sets are still the store's |
| `WholeGraphStages.StagesKeepMatch` | src-tauri/src/main.rs:182-196 | key sets equal to the store's stay equal through any sequence of whole-graph stages |
| `WholeGraphStages.FoundAdrPatch` | src-tauri/src/main.rs:1658-1695 | deletes exactly the links the updates take over and the records that disappeared, and writes all updates |
| `WholeGraphStages.RelinkedNodeIff` | src-tauri/src/main.rs:1658-1695 | a node is there afterwards iff stated, or there before and no found record of an updated repository; curated records stay |
| `WholeGraphStages.RelinkedEdgeIff` | src-tauri/src/main.rs:1658-1695 | an edge is there afterwards iff written, or there before, no decision of a record found or stated, and at no withdrawn record |
| `WholeGraphStages.RelinkIsUnion` | src-tauri/src/main.rs:1658-1695 | for any updates, overlapping keys included, the records they state and the DECIDES edges of those records are afterwards exactly the stated ones, the last statement winning |
| `WholeGraphStages.RelinkNodesExactIff` | src-tauri/src/main.rs:1666-1691 | every updated repo is left with exactly its newly found records iff no stated record falls under the prefix of an updated repo that does not state it |
| `WholeGraphStages.PlainKeysNeverOverlap` | src-tauri/src/main.rs:1665-1674 | records of updates of different repos whose keys hold no `@` never overlap |
| `WholeGraphStages.RelinkKeepsNodes` | src-tauri/src/main.rs:1658-1695 | no other node changes |
| `WholeGraphStages.RelinkKeepsEdges` | src-tauri/src/main.rs:1658-1695 | for any updates no other edge changes, but for those incident to removed records |
| `WholeGraphStages.RelinkIsIdempotentIff` | src-tauri/src/main.rs:1658-1695 | for any updates, applying them again is a no-op iff no untouched edge touches a record two updated repos claim |
| `WholeGraphStages.OverlapBreaksExactness` | src-tauri/src/main.rs:1665-1674 | in a graph holding the Repo nodes of `a` and `a@b`, their two updates leave `a` with a record it does not state |
| `WholeGraphStages.RelinkIsAdmissible` | src-tauri/src/main.rs:1632-1695 | for any updates links to stored facts that are no decision records are always admitted |
| `SourceBindings.BoundToLastAttesting` | src-tauri/src/primary_source.rs:599-639 | a bound fact is bound to the last receipt that attests it, and once |
| `SourceBindings.BoundIffAttested` | src-tauri/src/primary_source.rs:599-639 | a fact is bound iff some receipt attests it |
| `SourceBindings.AttestsIff` | src-tauri/src/primary_source.rs:599-639 | a receipt attests a fact iff the graph holds it whole, as digested, soundly citing exactly the inventoried spans |
| `SourceBindings.BindingsNamePublishedIff` | src-tauri/src/primary_source.rs:599-639 | every binding names a fact publication writes, with its digest, iff no receipt attests an own Repo node that the registration's replaces |
| `SourceBindings.OwnRepoBindingIsUnpublished` | src-tauri/src/main.rs:1450-1450 | such a receipt, of a one-span node, exists and its binding digests a replaced node |
| `SourceBindings.CollapsedPublishesUnbound` | src-tauri/src/primary_source.rs:603-606 | a relation collapsed from several sites publishes unbound |
| `SourceBindings.BindingStore.ApplyWithBindings` | crates/core-graph/src/source.rs:571-640 | bindings are accepted iff owned, distinct, unclaimed and matching the published facts; anything else changes nothing |
| `SourceBindings.PublicationAcceptedIff` | crates/core-graph/src/source.rs:571-628 | accepted are at most 100,000 associations, each the repository's and of its own fact, none another repository holds, all describing the graph the patch makes, which has no dangling edge |
| `SourceBindings.ReboundIff` | crates/core-graph/src/source.rs:600-628 | a fact is afterwards associated as just bound, or as another repository had bound it and the patch left it alone |
| `SourceBindings.SurvivesIff` | crates/core-graph/src/source.rs:219-250 | an association outlives a patch iff the patch neither deletes nor writes its fact, nor deletes or newly inserts an endpoint of its edge |
| `SourceBindings.AssociationsStayInStep` | crates/core-graph/src/source.rs:219-250 | after any sequence of publications and patches every association describes the complete fact the graph holds |
| `SourceBindings.LoadBindsIff` | crates/core-graph/src/source.rs:592-628 | the store accepts a closed extraction's matching bindings iff they are few enough, their receipts are the repo's, no receipt attests an own Repo node and no bound fact is another repo's |
| `SourceBindings.LoadRebinds` | crates/core-graph/src/source.rs:600-628 | afterwards the repo's associations are exactly the matching ones, and another's are gone only where the patch touched their fact |
| `SourceOperations.StepInv` | src-tauri/src/source_access.rs:73-188 | every step of any operation keeps lock exclusion, stage discipline and the readiness history |
| `SourceOperations.GrantsIff` | src-tauri/src/source_access.rs:86-98 | a lock is granted iff nobody else's use excludes this one: readers share |
| `SourceOperations.GuardedReadsAreSafe` | src-tauri/src/source_access.rs:15-53 | while a guarded managed read is in progress its source is ready and nobody holds its write lock |
| `SourceOperations.ReadyIffPublished` | src-tauri/src/main.rs:3055-3082 | an invalidated source is ready iff the last operation to invalidate it published it, which it did only after its job completed |
| `SourceOperations.ReplacedSourceIsUnready` | src-tauri/src/source_access.rs:99-109 | a source being replaced is unready and unread, and stays unready if the operation is dropped |
| `SourceAcquire.PlanCollapses` | src-tauri/src/source_access.rs:77-85 | duplicate requests collapse to one entry and write wins |
| `SourceAcquire.PlanKeepsFirst` | src-tauri/src/source_access.rs:77-85 | the entry keeps the first record asked for |
| `SourceAcquire.BuildPlan` | src-tauri/src/source_access.rs:77-85 | a plan is built iff no direct local source is to be replaced |
| `SourceAcquire.LocalWriteIff` | src-tauri/src/source_access.rs:77-85 | only replacing a direct local source is refused outright; reading one is not |
| `SourceAcquire.ReserveAll` | src-tauri/src/source_access.rs:86-98 | all planned locks are taken iff all are free to take; otherwise none is kept |
| `SourceAcquire.SetReadyBatch` | src-tauri/src/sources.rs:267-305 | all flags of the group change together, or none |
| `SourceAcquire.SourceHost.Acquire` | src-tauri/src/source_access.rs:73-132 | which failure happens exactly when; a failure before or in the batch changes no flag, a later one leaves exactly the planned writes unready, and every failure keeps no lock |
| `SourceAcquire.BusyIff` | src-tauri/src/source_access.rs:86-98 | busy iff a requested checkout is locked exclusively, or at all while some request would replace it |
| `SourceAcquire.UnavailableIff` | src-tauri/src/source_access.rs:110-132 | unavailable iff a requested checkout does not validate, or one only to be read is not registered as requested and ready |
| `SourceAcquire.FlaggedIff` | src-tauri/src/source_access.rs:99-109 | made unready are exactly the sources some request would replace |
| `SourceAcquire.SettableIff` | src-tauri/src/sources.rs:267-305 | that can be stored iff each is registered and managed |
| `SourceAcquire.SourceHost.Finish` | src-tauri/src/main.rs:3055-3082 | readiness is published as a whole iff the job completed uncancelled and the transaction commits; guards are released once it completed |
| `SourceAcquire.AcquiredPlanIsSafe` | src-tauri/src/source_access.rs:110-132 | after acquisition every source to read is ready, every source to write is unready and exclusively locked |
| `SourceRuns.AcquireIsRun` | src-tauri/src/source_access.rs:73-132 | whatever acquiring ends in (success, busy, storage failure, unavailable), a legal run of the transition system ends in the same lock table and registry, with the operation active or ended |
| `SourceRuns.FinishIsRun` | src-tauri/src/main.rs:3055-3082 | finishing is a legal run too: complete, publish unless the transaction fails, drop |
| `SourceRuns.AcquiredReadsStaySafe` | src-tauri/src/source_access.rs:15-132 | after a successful acquisition from any reachable state, through every later interleaving, each managed checkout the operation still reads is ready and nobody holds its write lock |
| `TaskSelection.ReadRequest` | src-tauri/src/task_evidence.rs:379-475 | a bound fact is read from its receipt's retained bytes or stops the walk; an unbound one from the working tree or is omitted; the budget is charged first; each stop has its exact reason |
| `TaskSelection.Prepare` | src-tauri/src/task_evidence.rs:306-511 | the walk succeeds iff both reads saw the planned graph and the plan is selectable, and hands on exactly what plan and sources determine; then counters, identities, origins, candidates, charges, admitted facts and stop reason all agree; a failure names the changed graph or refused slot, the obstructing request or the missing side, with exact counters |
| `TaskSelection.ShownDistinct` | src-tauri/src/task_evidence.rs:476-476 | evidence identities E1, E2, ... are written differently |
| `TaskPlanning.PlanTask` | src-tauri/src/task_evidence/planning.rs:48-121 | fails, for its true reason, iff the gap, its source or the source's fact is missing; otherwise source and gap first, then the first eligible nodes within two hops of the gap; every eligible node is planned or counted as left out, and some are left out only when 64 requests are planned |
| `TaskPlanning.EligiblesExact` | src-tauri/src/task_evidence/planning.rs:87-105 | exactly the eligible nodes are nominated, in snapshot order, each once |
| `TaskPlanning.EligibleIff` | src-tauri/src/task_evidence/planning.rs:87-101 | eligible are the nodes near the gap, other than it and its source, that are no gap, soundly attributed and cite something |
| `TaskPlanning.RequestIs` | src-tauri/src/task_evidence/planning.rs:29-46 | a request asks for the whole node by its first sound citation, or none; an offer carries the node's id and kind, and its kind with its name, else path, else id |
| `TaskPlanning.PlanRequests` | src-tauri/src/task_evidence/planning.rs:48-121 | every plan asks for the source, then the gap, then offers each node it asks for |
| `TaskPlanning.PlanRelates` | src-tauri/src/task_evidence/planning.rs:58-83 | the slot is the first edge into the gap, or, when none is, the first out of it, and gives relation and source; without one the gap's own properties do |
| `TaskPlanning.PlanFailsIff` | src-tauri/src/task_evidence/planning.rs:54-79 | planning fails for a missing gap, a gap without edge or named source, or a source that is no node |
| `TaskPlanning.InventoriedIsServed` | src-tauri/src/task_evidence.rs:379-475 | a node bound to a retained, readable receipt that inventories its citations never blocks the walk: it supplies its first citation |
| `TaskPlanning.UnboundIsServed` | src-tauri/src/task_evidence.rs:464-475 | nor does an unbound node: it supplies its first citation's text iff the working tree has it |
| `TaskPlanning.ChangedBlocks` | src-tauri/src/task_evidence.rs:354-365 | a node the two reads disagree on, or that is not the planned one, always blocks |
| `TaskPlanning.NoSlotNoCandidate` | src-tauri/src/task_evidence/planning.rs:58-92 | a gap no edge touches is planned without a candidate and leaves none out |
| `TaskPlanning.SelectableHasSlot` | src-tauri/src/task_evidence/planning.rs:58-105 | so a planned task is selectable, whatever the sources, only if it has a slot and a candidate |
| `Neighborhood.Distances` | crates/semantic/src/context.rs:50-74 | the breadth-first search finds exactly the nodes within k edges, each with its least distance |
| `Neighborhood.WithinIffPath` | crates/semantic/src/context.rs:50-74 | within k are exactly the ends of undirected paths of at most k edges |
| `TaskValidation.PreparedIsValid` | crates/agents/src/source_basis.rs:239-404 | every prepared selection passes the consumer's validation of its basis: counters, stop reason, facts, origins, omissions and charges |
| `TaskValidation.NothingIsSmuggled` | crates/agents/src/source_basis.rs:395-404 | no fact is selected without being read or reported omitted, but for the task's own edge |
| `TaskValidation.BoundNeverWorkingTree` | src-tauri/src/task_evidence.rs:354-365 | both snapshots agree on every supplied fact, and it is captured evidence iff the fact has a binding |
| `TaskAcceptance.AcceptedIff` | crates/agents/src/prepared.rs:17-46 | a prepared selection is accepted by the constructor and the broker iff its relation is allowed, every text is at most 8192 bytes, all texts together at most 49152, all summaries at most 131072, every identity and citation is legible, and its basis serializes to at most 65536 bytes |
| `TaskAcceptance.TaskFitsIff` | crates/agents/src/lib.rs:140-165 | the limits spelled out: relation, 8192 bytes a text and 49152 in all, 131072 of summaries, and the sizes of identities and citations |
| `TaskAcceptance.LegibleIff` | crates/agents/src/source_basis.rs:196-198 | legible is short enough, without NUL, and not only white space |
| `TaskAcceptance.PrepareTask` | src-tauri/src/task_evidence.rs:306-541 | preparation succeeds iff the graph is the planned one at both reads, the plan is selectable and what it selects fits the consumer; a failure is either the walk's own, with its true reason, or an invalid selection whose counters are those of the complete walk |
| `TaskAcceptance.PrepareFromSnapshot` | src-tauri/src/task_evidence.rs:306-541 | from a graph snapshot and a gap: preparation succeeds iff the gap can be planned for and its plan is preparable; then both reads saw that snapshot and an edge touches the gap; each failure is the planner's, the walk's or the consumer's, with its true reason |
| `TaskAcceptance.UnfitIsRefused` | src-tauri/src/task_evidence.rs:529-541 | a selectable plan that does not fit is prepared at no length and for no encoding |
| `TaskAcceptance.CandidatesDiffer` | crates/agents/src/lib.rs:409-415 | no node is offered as a candidate twice |
| `TaskSamples.SampleFitsIff` | crates/agents/src/lib.rs:399-409 | a family of graphs whose planned tasks all select, each fitting iff its relation is allowed, its text short and its texts together short |
| `TaskSamples.LongSpanIsRefused` | src-tauri/src/evidence.rs:34-35 | a graph whose planned task selects 9000-byte working-tree spans and is never prepared |
| `TaskSamples.ManySpansAreRefused` | crates/agents/src/lib.rs:399-404 | a graph whose planned task selects seven spans, each within the span limit, and is never prepared |
| `TaskSamples.UnlistedRelationIsRefused` | crates/agents/src/lib.rs:374-379 | a graph whose planned task names a relation outside the allowlist is selected and never prepared, whatever the text; with an allowed one the same short texts fit |
| `ReceiptRetention.CheckBatch` | src-tauri/src/primary_source.rs:398-434 | a batch is accepted iff every receipt validates, is owned, captured and readable, ids agree and the bytes fit |
| `ReceiptRetention.ReceiptStorage` | src-tauri/src/primary_source.rs:300-331 | the inventory is accepted iff every row and both totals are in bounds, and the totals are the true ones |
| `ReceiptRetention.ReceiptStore.Persist` | src-tauri/src/primary_source.rs:392-473 | succeeds iff the batch is accepted, contradicts nothing and fits both caps; then adds it all, otherwise nothing |
| `ReceiptRetention.BatchAcceptedIff` | src-tauri/src/primary_source.rs:398-434 | what an accepted batch is, with its bounds |
| `ReceiptRetention.PersistableIff` | src-tauri/src/primary_source.rs:439-472 | an accepted batch persists on sound rows iff no stored id holds something else and both caps keep |
| `ReceiptRetention.PersistAppends` | src-tauri/src/primary_source.rs:439-472 | no stored receipt changes, both caps hold, and the store stays sound |
| `ReceiptRetention.PersistAgain` | src-tauri/src/primary_source.rs:439-472 | persisting an accepted batch again always succeeds and changes nothing |
| `ReceiptRetention.RetainedForever` | src-tauri/src/primary_source.rs:392-473 | over any sequence of attempts what was retained stays as it was and the store stays sound: every row in bounds, both caps kept |
| `Metrics.Compute` | src-tauri/src/metrics.rs:84-207 | tallies, coverage rows and hashed lines are computed in one walk over the facts |
| `MetricsMeaning.MeasuresReport` | src-tauri/src/metrics.rs:84-207 | what the record says of the facts: three tallies count the facts whose provenance parses, is within its ceiling and has that confidence, and gap the rest; each row counts its extractor's facts in scope and the distinct files they soundly cite; the hashed text is one line per recorded fact, sorted |
| `MetricsMeaning.TallyIs` | crates/spec/src/workbench.rs:80-98 | unparsed and over-claiming facts count as gaps and as nothing else |
| `MetricsMeaning.LineIs` | src-tauri/src/metrics.rs:149-165 | the line of a node is its id, kind and hash; of an edge its source, label, destination and hash; unsound provenance hashes the identity |
| `Metrics.TalliesSum` | src-tauri/src/metrics.rs:100-108 | the four confidence tallies sum to the fact count |
| `Metrics.OrderDoesNotMatter` | src-tauri/src/metrics.rs:96-165 | the whole record is the same for every order of nodes and edges |
| `Metrics.OnlyScopeMatters` | src-tauri/src/metrics.rs:109-164 | hash and coverage depend only on the facts in scope |
| `Metrics.SameHashIff` | src-tauri/src/metrics.rs:149-204 | two projections record the same hash iff their sorted fact lines, cut at newlines, agree; without newlines in identities, iff they record the same fact lines as often |
| `Metrics.NewlinesCollide` | src-tauri/src/metrics.rs:149-204 | identities with newlines do collide: two graphs with different fact lines record one hash |
| `Metrics.UnscopedCoverage` | src-tauri/src/metrics.rs:113-143 | with no registration every fact counts towards its extractor and no file does |
| `SourceWindow.LinesBefore` | src-tauri/src/evidence.rs:95-111 | the chunked scan counts exactly the newlines before the window |
| `SourceWindow.NewlinesAre` | src-tauri/src/evidence.rs:95-111 | newlines are the bytes 10 |
| `SourceWindow.ReadSource` | src-tauri/src/evidence.rs:80-122 | the window lies in the file within the bound, as long as it can be, with half the slack before the span; truncated iff it is not the whole file; true line number; a span in the file is shown whole iff it is no longer than the bound |
| `FlowGraph.ReadIsQueries` | src-tauri/src/main.rs:3963-3982 | the stably sorted read equals the concatenation of the separate label queries |
| `FlowGraph.ReadIff` | src-tauri/src/main.rs:3963-3982 | the read holds exactly the nodes of the listed labels |
| `FlowGraph.ReadReplacesQueriesIff` | src-tauri/src/main.rs:3963-3982 | it does so for every snapshot iff no label is listed twice |

## Left out

- Tauri commands, events, progress and the web interface, apart from the rule by which a client keeps the newest stamped report.
- SQLite, JSON encoding, filesystem canonicalization, permissions, fsync and OS lock handles: a store is a map with atomic transactions, a lock a reader/writer state.
- Mutex poisoning, which turns any locked step into an error.
- Job attempts (claim, finish, recover): whether a job completed is an input.
- Language adapters, semantic proposals, flow tracing, escalation, settings, egress and proposals: they would add only small guards and formatting.
- Byte-length limits of binding identities (crates/core-graph/src/source.rs:14-18), and the formats of receipt, digest, capture and path identities in the task validator, which receipt validation already guarantees.
- JSON encoding of a source basis: the size it serializes to is a parameter of `TaskAcceptance.PrepareTask`, bounded as the code bounds it; a failing construction of the context snapshot is not modelled.
- Floating-point coverage percentages: the model keeps the two counts they are computed from.
- Publication.LoadIntoGraph: publishes facts only; the associations written in the same transaction are modelled by `SourceBindings.BindingStore.ApplyWithBindings` and joined to the load by `SourceBindings.LoadBindsIff`.
- SourceBindings.CollapsedPublishesUnbound: spans of a rule inventory are not part of a receipt's ranges here; only provenance spans are.
- SourceOperations.GuardedReadsAreSafe: locks are requested in any order, which includes the sorted one; registered sources are never removed, as in the code.
