# Verified model of the SBOM graph services

A Dafny model of the parts of the system where its guarantees are made: the trust-score
propagation, the crash-and-retry ingest, the enrichment dispatch, the login limiter, the internal
prefix rules, scan-id propagation, stored timestamps, streamed reports and capped graphs. The
proofs hold for all inputs, all runs of the protocols and all reachable states.

| Part | Files |
|---|---|
| Directed graphs, cycles, reachability | Graphs.dfy |
| Trust scores | TopologicalSort.dfy, Rounding.dfy, TrustRun.dfy, TrustRecurrence.dfy, DependencyPaths.dfy, TrustPropagation.dfy, DependencyCounts.dfy, TrustLimits.dfy, WeakestLink.dfy |
| Ingest | MergeStore.dfy, Convergence.dfy, ReplayLimits.dfy, SbomPlan.dfy, SbomItems.dfy, SbomReplay.dfy, SbomConvergence.dfy, CleanedGraphs.dfy, IngestTask.dfy, IngestLimits.dfy |
| Dispatch | Dispatch.dfy, DispatchBounds.dfy, DispatchSpacing.dfy, EnrichAllPackages.dfy, Timestamps.dfy |
| Login limiter | LoginLimiter.dfy, LoginRuns.dfy |
| Prefix rules | Text.dfy, PrefixRules.dfy, PrefixOverlay.dfy, InternalLabels.dfy |
| Demo graph | ScanIds.dfy |
| Streamed reports | Json.dfy, JsonRoundTrip.dfy, JsonScan.dfy, StreamingJson.dfy |
| Capped graphs | CappedGraphs.dfy, BipartiteNetwork.dfy |
| Optional values, lists | Options.dfy, Lists.dfy |

**Trust scores.** `TopologicalSort` follows Kahn's worklist with its dictionaries; `TrustRun` is the
bottom-up pass as a fold over an arbitrary order, so that range, monotonicity and soundness of the
weakest link hold on cyclic graphs too. On packages that reach no cycle `TrustRecurrence` shows that
the pass solves one recursive definition, and proves its numerical laws. `WeakestLink` says for which
packages the documented weakest link is exact, whatever the scores and the order, and `DependencyCounts`
for which ones the dependency count is that of the distinct dependencies. Scores are reals with
an explicit rounding function.

**Ingest.** `MergeStore` gives MERGE, MATCH and SET their meaning on a graph of labelled nodes;
`SbomPlan` writes out the query sequence of a document; `IngestTask` issues it over a connection that
fails after any number of queries, and retries; each attempt may walk through the dependencies in
another order. The comment on that job promises that every retry converges. That is false in general:
`IngestLimits` has two documents for which it fails. `SbomConvergence` proves that a document converges,
from every graph and for all crashes, if and only if it is `Retryable`, a condition on its versions and
licences in the order in which they are written: where one of them brings a new node, whatever an
earlier one would have done to that node, a value set or a licence linked, is done again by it or a later
one. `CleanedGraphs` has the exact condition for graphs whose licence ids are all cleaned, as ingests
leave them. `ReplayLimits` has the same equivalence for the query sequences themselves.

**Dispatch.** `Dispatch` is a step system of beat ticks (select, check the depth, stamp a batch, send
one message, crash), the broker queue, workers (take, complete, retry, redeliver, lose) and ingests.
`EnrichAllPackages` is the beat job as a method with its batch loop, whose effect is proved to be a run
of that system. Times are microseconds; `Timestamps` proves that the stored strings compare alike.

**Login limiter.** `Limiter` has the four functions as methods over the shared dictionary; `LoginRuns`
interleaves their calls from concurrent requests with arbitrary clock readings.

**Reports.** `Json` holds a parser for the grammar of RFC 8259 (sections 2 to 7) and `json.dumps`;
the streamed text is judged by what the parser makes of it.

## Model

| member | source | states |
|---|---|---|
| TopologicalSort.ReverseTopologicalSort | sbom-graph-enrichment/src/sbom_graph_enrichment/tasks.py:690-755 | the result lists every node exactly once; a node that reaches no cycle comes after all its dependencies and before every node that does reach one; any graph, with self-loops, duplicate and dangling edges |
| TopologicalSort.DrainQueue | sbom-graph-enrichment/src/sbom_graph_enrichment/tasks.py:733-749 | the worklist emits exactly the nodes that reach no cycle, each after its dependencies |
| TopologicalSort.WorklistIsExact | sbom-graph-enrichment/src/sbom_graph_enrichment/tasks.py:737-749 | when the queue runs dry, a node was visited if and only if it reaches no cycle |
| TopologicalSort.LeftoverReachesCycle | sbom-graph-enrichment/src/sbom_graph_enrichment/tasks.py:751-753 | a node left with unvisited dependencies reaches a cycle (following unvisited dependencies must repeat) |
| TopologicalSort.OrderedIsAcyclic | sbom-graph-enrichment/src/sbom_graph_enrichment/tasks.py:737-749 | a node in a dependencies-first order cannot reach a cycle |
| TopologicalSort.ReverseChildren | sbom-graph-enrichment/src/sbom_graph_enrichment/tasks.py:708-712 | reverse_children holds each in-set edge as often as it is listed |
| TopologicalSort.OutDegrees | sbom-graph-enrichment/src/sbom_graph_enrichment/tasks.py:721-725 | out_degree is the number of listed in-set dependencies |
| Rounding.Round2Error | sbom-graph-enrichment/src/sbom_graph_enrichment/tasks.py:683-687 | rounding to two decimals, half to even, moves a score by at most 0.005 |
| Rounding.Round2Monotone | sbom-graph-enrichment/src/sbom_graph_enrichment/tasks.py:683-687 | rounding keeps the order of scores |
| Rounding.Round2Idempotent | sbom-graph-enrichment/src/sbom_graph_enrichment/tasks.py:683-687 | rounding twice is rounding once |
| TrustRun.RunSane | sbom-graph-enrichment/src/sbom_graph_enrichment/tasks.py:651-687 | for every processing order and every graph all scores stay within 0..10 and min_path never exceeds the effective score |
| TrustRun.RunMonotone | sbom-graph-enrichment/src/sbom_graph_enrichment/tasks.py:651-685 | raising direct scores lowers no rounded effective score, for any fixed order, cycles included |
| TrustRun.RunWeakestLink | sbom-graph-enrichment/src/sbom_graph_enrichment/tasks.py:656-685 | min_path is always the direct score, up to rounding, of some package that can be reached |
| TrustRecurrence.RunSettles | sbom-graph-enrichment/src/sbom_graph_enrichment/tasks.py:651-687 | in a leaves-first order every package that reaches no cycle gets its scores from its dependencies' final scores |
| TrustRecurrence.SettledUnique | sbom-graph-enrichment/src/sbom_graph_enrichment/tasks.py:651-687 | there is only one solution of the score equations below a package that reaches no cycle |
| TrustRecurrence.OrderIrrelevant | sbom-graph-enrichment/src/sbom_graph_enrichment/tasks.py:651-687 | the four scores of such a package are the same for every leaves-first order |
| TrustRecurrence.RunIsRecurrence | sbom-graph-enrichment/src/sbom_graph_enrichment/tasks.py:651-685 | the loop computes the recursive definition: a leaf keeps its own score, any other package blends it with the plain mean of its dependencies and rounds |
| TrustRecurrence.DecayIrrelevant | sbom-graph-enrichment/src/sbom_graph_enrichment/tasks.py:668-680 | the decay factor cancels: every positive value gives the same effective scores |
| TrustRecurrence.RoundingDoesNotAccumulate | sbom-graph-enrichment/src/sbom_graph_enrichment/tasks.py:663-685 | at any depth the stored effective score is within 0.005/alpha of the unrounded recurrence |
| TrustRecurrence.UnreachableHasNoInfluence | sbom-graph-enrichment/src/sbom_graph_enrichment/tasks.py:651-685 | the direct score of a package that cannot be reached has no influence |
| TrustRecurrence.InfluenceAttenuates | sbom-graph-enrichment/src/sbom_graph_enrichment/tasks.py:651-685 | a change by D at distance at least n moves the unrounded effective score by at most (1-alpha)^n * D |
| TrustRecurrence.StoredInfluence | sbom-graph-enrichment/src/sbom_graph_enrichment/tasks.py:651-685 | the same for the stored scores, plus twice the rounding error |
| TrustRecurrence.SettledWeakestLink | sbom-graph-model/src/sbom_graph_model/model.py:303-308 | below a package that reaches no cycle, min_path is the minimum of the direct scores of everything reachable, rounded unless the package is a leaf |
| TrustLimits.WeakestLinkMissesBehindCycle | sbom-graph-model/src/sbom_graph_model/model.py:303-308 | for instance, with two packages that depend on each other and a third below one of them, there are scores and an order in which the other one misses the third, although it is the weakest |
| WeakestLink.WeakestLinkExactly | sbom-graph-model/src/sbom_graph_model/model.py:303-308 | min_path is the least direct score of everything reachable, for all scores and all leaves-first orders, if and only if each package that can be reached is the package itself, a direct dependency, or reached through a dependency that reaches no cycle |
| WeakestLink.HeardIsExact | sbom-graph-enrichment/src/sbom_graph_enrichment/tasks.py:651-685 | under that condition on the graph min_path is that minimum in every run, rounded unless the package is a leaf |
| WeakestLink.GroundedHearsAll | sbom-graph-enrichment/src/sbom_graph_enrichment/tasks.py:737-749 | the condition holds for every package that reaches no cycle |
| WeakestLink.UnheardIsMissed | sbom-graph-enrichment/src/sbom_graph_enrichment/tasks.py:651-685 | for every reachable package that breaks the condition there are scores and a leaves-first order in which it is the weakest, with 0, and min_path is 10 |
| DependencyPaths.PathsComplete | sbom-graph-enrichment/src/sbom_graph_enrichment/tasks.py:653-685 | for a package that reaches no cycle but possibly itself the set counted against holds exactly the simple paths from it; if it reaches no cycle at all, these are all its paths |
| DependencyPaths.CountIsPaths | sbom-graph-enrichment/src/sbom_graph_enrichment/tasks.py:653-685 | with distinct edges dep_counts is the number of directed paths |
| DependencyPaths.PathsAgainstPackages | sbom-graph-model/src/sbom_graph_model/model.py:303-310 | such a package has at least as many simple paths as distinct dependencies, and as many exactly when no dependency is reached along two |
| DependencyCounts.CountAgainstPackages | sbom-graph-model/src/sbom_graph_model/model.py:303-310 | in every leaves-first order its dep_count is at least the number of distinct dependencies, and equal exactly when each is reached by a single simple path |
| DependencyCounts.CountVaries | sbom-graph-enrichment/src/sbom_graph_enrichment/tasks.py:653-685 | if any further dependency reaches a cycle, two leaves-first orders give different counts |
| DependencyCounts.CountsExactly | sbom-graph-model/src/sbom_graph_model/model.py:303-310 | for every scored package: dep_count is the number of distinct dependencies in all leaves-first orders if and only if the package reaches no cycle but possibly itself, and no dependency along two simple paths |
| TrustPropagation.Propagate | sbom-graph-enrichment/src/sbom_graph_enrichment/tasks.py:628-687 | the method with its dictionaries equals the run over some leaves-first order and satisfies all the laws above; max_depth is ignored |
| TrustPropagation.Gather | sbom-graph-enrichment/src/sbom_graph_enrichment/tasks.py:663-677 | the inner loop accumulates the weighted sum, the weights, the minimum and the count |
| TrustPropagation.WeightsCancel | sbom-graph-enrichment/src/sbom_graph_enrichment/tasks.py:668-680 | equal weights make the weighted average a plain mean |
| TrustPropagation.RunPropagates | sbom-graph-enrichment/src/sbom_graph_enrichment/tasks.py:628-687 | every leaves-first run satisfies the laws that the method promises |
| TrustPropagation.ReadChildren | sbom-graph-enrichment/src/sbom_graph_enrichment/tasks.py:573-579 | the adjacency lists are the rows of the edge query, by parent |
| TrustPropagation.DistinctRowsDistinctChildren | sbom-graph-model/src/sbom_graph_model/persistence.py:1874-1898 | the DISTINCT query yields no duplicate edges |
| TrustPropagation.PropagateEffectiveScores | sbom-graph-enrichment/src/sbom_graph_enrichment/tasks.py:541-625 | every scored package, and no other, gets a record; the four figures of all records are those of one leaves-first run over the rows as read, and meet the laws; alerts are exactly the packages below the threshold; nothing is written when switched off |
| TrustPropagation.WriteBack | sbom-graph-enrichment/src/sbom_graph_enrichment/tasks.py:591-612 | each record holds its package's four figures |
| MergeStore.RunFinds | sbom-graph-model/src/sbom_graph_model/persistence.py:594-720 | after a run every node some MERGE asked for is there |
| MergeStore.RunGrows | sbom-graph-model/src/sbom_graph_model/persistence.py:594-720 | nodes keep their identity, and neither nodes nor edges are ever removed |
| MergeStore.LinksSettle | sbom-graph-model/src/sbom_graph_model/persistence.py:1256-1417 | in a sequence that does everything again for late nodes an edge query leaves no link unmade by the end |
| MergeStore.RunValues | sbom-graph-model/src/sbom_graph_model/persistence.py:594-720 | the values a run leaves on each node: on an old node those before, overlaid with what all matching queries set; on a new one what the matching queries set from its creation on |
| MergeStore.RunScans | sbom-graph-model/src/sbom_graph_model/persistence.py:722-757 | a run appends its scan id to exactly the nodes its append queries match, once |
| MergeStore.ReplayKeepsNodes | sbom-graph-enrichment/src/sbom_graph_enrichment/ingest_tasks.py:388-396 | replaying queries whose nodes are there changes no node's labels or key and adds none, and adds no edge beyond the links those queries make among them |
| Convergence.ReplayConverges | sbom-graph-enrichment/src/sbom_graph_enrichment/ingest_tasks.py:388-396 | a crashed prefix followed by a full run gives the graph of one full run, from any graph, if whatever a query would do to a node that only a later one creates is done again by the later ones |
| Convergence.RetriesConverge | sbom-graph-enrichment/src/sbom_graph_enrichment/ingest_tasks.py:388-396 | so do any number of crashed attempts, each cut off anywhere |
| Convergence.CreatedOnce | sbom-graph-model/src/sbom_graph_model/persistence.py:594-720 | a run never creates two nodes with the same labels and identity |
| ReplayLimits.ReplayCharacterised | sbom-graph-enrichment/src/sbom_graph_enrichment/ingest_tasks.py:388-396 | a sequence of MERGE, edge and scan-id queries converges from every crash point, graph and choice of values if and only if everything is done again for late nodes; shown for the sequences documents produce, whose scan ids repeat and whose link ends are free |
| ReplayLimits.LinkFromMissed | sbom-graph-enrichment/src/sbom_graph_enrichment/ingest_tasks.py:388-396 | otherwise there is a graph from which a crash right after the late node leaves a link that a clean run does not make |
| ReplayLimits.MergeReplayCharacterised | sbom-graph-enrichment/src/sbom_graph_enrichment/ingest_tasks.py:388-396 | a sequence of MERGE queries converges under crash and replay, for all values and all graphs, if and only if no query creates a node that an earlier one would have matched |
| SbomItems.ProjectsAgain | sbom-graph-enrichment/src/sbom_graph_enrichment/ingest_tasks.py:176-316 | the version and licence queries do everything again for late nodes if and only if the document is retryable, a condition on its components in order |
| SbomItems.MergeStands | sbom-graph-model/src/sbom_graph_model/persistence.py:594-720 | every MERGE of a version or licence in the sequence is that of one item, with the queries of the earlier items before it and the rest from it on |
| SbomReplay.PlanAgain | sbom-graph-enrichment/src/sbom_graph_enrichment/ingest_tasks.py:176-316 | the whole write sequence does so if and only if those queries do: sources, dependencies, defects and the record never stand in the way |
| SbomConvergence.PlanReplayable | sbom-graph-enrichment/src/sbom_graph_enrichment/ingest_tasks.py:176-316 | the write sequence of a document may be replayed, whatever values the earlier attempt wrote, if and only if the document is retryable |
| SbomConvergence.DependenciesCommute | sbom-graph-model/src/sbom_graph_model/cyclonedx/processor.py:543-578 | the dependency queries give the same graph in any order, as the code walks through sets of references |
| SbomConvergence.ReorderedRuns | sbom-graph-model/src/sbom_graph_model/cyclonedx/processor.py:543-578 | so do the whole plans of two attempts that walk through the dependencies in different orders |
| SbomConvergence.PlanShapes | sbom-graph-enrichment/src/sbom_graph_enrichment/ingest_tasks.py:165-173 | two plans with the same order of dependencies differ only in the time they write |
| SbomConvergence.IngestConverges | sbom-graph-enrichment/src/sbom_graph_enrichment/ingest_tasks.py:388-396 | any number of crashed attempts at a retryable document, each at its own time and with its own order of dependencies, then a complete one, give the graph of the complete one alone, from any graph |
| SbomConvergence.IngestConvergesExactly | sbom-graph-enrichment/src/sbom_graph_enrichment/ingest_tasks.py:388-396 | they do so always if and only if the document is retryable |
| CleanedGraphs.CleanedExactly | sbom-graph-model/src/sbom_graph_model/persistence.py:1422-1456 | an id is one that the licence clean-up can store if and only if it passes a test that two clean-ups decide |
| CleanedGraphs.CleanIngestConvergesExactly | sbom-graph-enrichment/src/sbom_graph_enrichment/ingest_tasks.py:388-396 | from graphs whose licence ids are all cleaned, a document always converges if and only if it is retryable when the links to ids that the clean-up changes are left out, since those find no licence |
| CleanedGraphs.RetryableIsCleanRetryable | sbom-graph-enrichment/src/sbom_graph_enrichment/ingest_tasks.py:388-396 | that is the weaker condition |
| CleanedGraphs.DeadDoesNothing | sbom-graph-model/src/sbom_graph_model/persistence.py:1506-1560 | the link query for a licence whose text the clean-up changes does nothing on such a graph: it looks for the text as it came |
| CleanedGraphs.LiveRuns | sbom-graph-model/src/sbom_graph_model/persistence.py:1432-1560 | on such graphs a run is the run of its other queries, and the graph stays one of cleaned ids |
| IngestTask.Persistence.CreateProjectVersion | sbom-graph-model/src/sbom_graph_model/persistence.py:594-757 | issues the version query and the scan-id query, stopping at a failure |
| IngestTask.Persistence.LinkVersions | sbom-graph-enrichment/src/sbom_graph_enrichment/ingest_tasks.py:142-157 | issues the link of every component to the SBOM record |
| IngestTask.Persistence.Process | sbom-graph-enrichment/src/sbom_graph_enrichment/ingest_tasks.py:176-316 | issues exactly the document's plan, cut off where the connection fails |
| IngestTask.Persistence.TryFrom | sbom-graph-enrichment/src/sbom_graph_enrichment/ingest_tasks.py:345-420 | retries up to three times, or not at all if the job was called directly, and reports the first attempt that completed |
| IngestTask.Persistence.Ingest | sbom-graph-enrichment/src/sbom_graph_enrichment/ingest_tasks.py:345-420 | the job ends with its first complete attempt or with the failure of its last; if an attempt completes and the document is retryable, over all graphs or from this one of cleaned licence ids, the graph is that of this attempt alone, whatever the failed ones left behind |
| IngestLimits.LicenceSpreadsOnRetry | sbom-graph-enrichment/src/sbom_graph_enrichment/ingest_tasks.py:388-396 | a document that does not converge: on retry one component's licence ends up on its twin as well |
| IngestLimits.ValuesSpreadOnRetry | sbom-graph-enrichment/src/sbom_graph_enrichment/ingest_tasks.py:388-396 | another: on retry the values of a component without a purl overwrite those of one with a purl |
| IngestLimits.LateNodeGetsLinked | sbom-graph-enrichment/src/sbom_graph_enrichment/ingest_tasks.py:388-396 | an edge query that would match a node created after it adds an edge on replay |
| IngestLimits.LateNodeGetsOverwritten | sbom-graph-enrichment/src/sbom_graph_enrichment/ingest_tasks.py:388-396 | a MERGE that would match a node created after it sets its values on replay |
| IngestLimits.TwinNotRetryable | sbom-graph-enrichment/src/sbom_graph_enrichment/ingest_tasks.py:388-396 | the first document is not retryable, whatever the licence; over cleaned graphs it is so exactly if the clean-up changes the id |
| IngestLimits.PurlAddedNotRetryable | sbom-graph-enrichment/src/sbom_graph_enrichment/ingest_tasks.py:388-396 | nor is the second |
| IngestLimits.SharedTwinRetryable | sbom-graph-model/src/sbom_graph_model/persistence.py:622-627 | twins that differ in their purl alone and share the licence are retryable: the later link is the same |
| IngestLimits.PurlDroppedRetryable | sbom-graph-model/src/sbom_graph_model/persistence.py:622-627 | a component with a purl followed by its names without one is retryable: the second MERGE finds the first node |
| DispatchBounds.LoadStep | sbom-graph-enrichment/src/sbom_graph_enrichment/tasks.py:74-79 | a consumed message has at most one successor: only sending and direct dispatch add to the queued and running messages |
| DispatchBounds.QueueBounded | sbom-graph-enrichment/src/sbom_graph_enrichment/tasks.py:153-163 | over every run in which ticks know the queue depth, queued plus running messages never exceed the larger of the initial load and threshold + workers + distinct purls, plus direct dispatches |
| DispatchBounds.QueueReached | sbom-graph-enrichment/src/sbom_graph_enrichment/tasks.py:153-163 | the bound is reached for every threshold, number of workers, set of purls and number of direct dispatches: by a tick that finds the queue at the threshold, all workers busy and every purl eligible |
| DispatchBounds.DeliveriesBounded | sbom-graph-enrichment/src/sbom_graph_enrichment/tasks.py:49-79 | each dispatch costs at most five deliveries (four attempts and one trust score task), however the run goes; only broker redelivery adds to that |
| DispatchBounds.DeliveriesReached | sbom-graph-enrichment/src/sbom_graph_enrichment/tasks.py:49-79 | the five are reached: three retries, a success and its trust score |
| DispatchSpacing.RunStamps | sbom-graph-enrichment/src/sbom_graph_enrichment/tasks.py:131-151 | over every run each stamped record of a dispatched purl keeps a stamp no older than the dispatch |
| DispatchSpacing.EarlyRedispatchExactly | sbom-graph-enrichment/src/sbom_graph_enrichment/tasks.py:236-249 | within the window a dispatched purl is selected again if and only if some record of it was never queued and is not fresh |
| DispatchSpacing.DispatchesSpaced | sbom-graph-enrichment/src/sbom_graph_enrichment/tasks.py:131-151 | two dispatches of a purl are stamped more than the window apart even if no worker ever finishes, unless a further record of it is ingested |
| DispatchSpacing.SecondRecordRedispatches | sbom-graph-enrichment/src/sbom_graph_enrichment/tasks.py:131-151 | with a further record the next tick sends the purl again at once |
| DispatchSpacing.SpacingReached | sbom-graph-enrichment/src/sbom_graph_enrichment/tasks.py:277-292 | for every time a first message may wait between stamp and sending, a run in which the second is sent that much early, down to the same moment: one stamp is taken for a whole fan-out |
| DispatchSpacing.SendingsSpacedExactly | sbom-graph-enrichment/src/sbom_graph_enrichment/tasks.py:277-292 | over all runs the messages of a purl are sent more than the window apart if and only if the first did not wait between stamp and sending |
| DispatchSpacing.LostDispatchRecovers | sbom-graph-enrichment/src/sbom_graph_enrichment/tasks.py:148-151 | a purl whose message is lost is selected by every tick after the window until one stamps it or it is enriched |
| DispatchSpacing.FreshNotSelected | sbom-graph-enrichment/src/sbom_graph_enrichment/tasks.py:100-116 | a purl that a worker has enriched is not selected for the length of the freshness cutoff, unless a new record of it is ingested |
| DispatchSpacing.TickSendsEachOnce | sbom-graph-enrichment/src/sbom_graph_enrichment/tasks.py:251-293 | a tick that runs to its end sends every eligible purl once and no other, whatever happens meanwhile |
| EnrichAllPackages.Deployment.BeatTick | sbom-graph-enrichment/src/sbom_graph_enrichment/tasks.py:188-293 | the beat job: skipped exactly when a readable depth exceeds the threshold and something is eligible; otherwise all eligible purls are stamped and sent; its effect is a run of the protocol |
| EnrichAllPackages.Deployment.DispatchBatches | sbom-graph-enrichment/src/sbom_graph_enrichment/tasks.py:278-291 | the batch loop stamps and sends all purls in order |
| EnrichAllPackages.Deployment.SendBatch | sbom-graph-enrichment/src/sbom_graph_enrichment/tasks.py:289-290 | sending a batch is a run of Send steps |
| EnrichAllPackages.Deployment.ForcedRun | sbom-graph-enrichment/src/sbom_graph_enrichment/tasks.py:229-234 | a forced run sends every purl, without stamps |
| EnrichAllPackages.StampedJoins | sbom-graph-enrichment/src/sbom_graph_enrichment/tasks.py:278-288 | stamping batch after batch is stamping all at once |
| Timestamps.IsoOrder | sbom-graph-enrichment/src/sbom_graph_enrichment/tasks.py:236-249 | isoformat strings, with or without a fraction, order as their instants |
| Timestamps.ZuluCutoff | sbom-graph-model/src/sbom_graph_model/persistence.py:859-873 | against a cutoff in whole seconds a stamp is less exactly up to the end of the cutoff's second |
| Timestamps.MisclassifiedExactly | sbom-graph-model/src/sbom_graph_model/persistence.py:2109-2139 | the stamps compared wrongly are those of the cutoff's own second not before the cutoff |
| Timestamps.NeedsEnrichmentExactly | sbom-graph-model/src/sbom_graph_model/persistence.py:846-873 | a package needs enrichment if and only if no finding is newer than the cutoff's second |
| Timestamps.StemTracks | sbom-graph-model/src/sbom_graph_model/persistence.py:859-873 | the first nineteen characters order as whole seconds, by the Gregorian calendar |
| Timestamps.DaysBeforeYear | sbom-graph-model/src/sbom_graph_model/persistence.py:859-873 | the calendar by months agrees with the closed form with its leap years |
| LoginLimiter.Limiter.CheckLoginRateLimit | sbom-graph-api/src/sbom_graph_api/routes/auth.py:85-121 | verdict, re-armed entry and Retry-After: waiting that long admits the request, a second less does not |
| LoginLimiter.Limiter.CleanupStaleEntries | sbom-graph-api/src/sbom_graph_api/routes/auth.py:71-82 | removes exactly the entries older than the window |
| LoginLimiter.TenAttemptsBlock | sbom-graph-api/src/sbom_graph_api/routes/auth.py:124-134 | attempts recorded from a fresh address within one window block it exactly from the tenth on and until 900 seconds after the first; no other address is affected |
| LoginLimiter.ResetStartsOver | sbom-graph-api/src/sbom_graph_api/routes/auth.py:137-141 | after a successful login, whatever the address had on record, exactly ten more attempts block it; no other address is affected |
| LoginLimiter.CleanupUnblocksExactly | sbom-graph-api/src/sbom_graph_api/routes/auth.py:71-100 | a cleanup changes a verdict exactly when the entry still blocks at the request's earlier clock reading and is over at the cleanup's |
| LoginLimiter.CleanupKeepsVerdicts | sbom-graph-api/src/sbom_graph_api/routes/auth.py:71-82 | it changes none for clock readings not before it |
| LoginRuns.OvershootBounded | sbom-graph-api/src/sbom_graph_api/routes/auth.py:85-141 | over all interleavings and clock readings, counted attempts plus admitted requests never exceed 9 plus the concurrent requests |
| LoginRuns.OvershootReached | sbom-graph-api/src/sbom_graph_api/routes/auth.py:85-141 | the bound is reached, for every number of concurrent requests |
| LoginRuns.RunWindowed | sbom-graph-api/src/sbom_graph_api/routes/auth.py:85-134 | windows of an address lie apart by their length less the lag, and each counts no more than the bound |
| LoginRuns.AttemptsBounded | sbom-graph-api/src/sbom_graph_api/routes/auth.py:60-141 | if requests read their clocks at most some lag before they get the lock, and no login succeeds, no half-open interval of 900 seconds holds more attempts than n windows count, for every n with n(900 - lag) >= 1800 + lag: two windows if there is no lag, so 20 attempts for sequential requests, and three for a lag of up to 225 seconds |
| LoginRuns.AttemptsReached | sbom-graph-api/src/sbom_graph_api/routes/auth.py:60-141 | two windows' attempts are reached without a lag, for every number of concurrent requests, and three with any lag at all |
| PrefixRules.FormatRoundTrip | sbom-graph-model/src/sbom_graph_model/persistence.py:238-296 | printed rules parse back if and only if all are canonical |
| PrefixRules.ParseFormatParse | sbom-graph-model/src/sbom_graph_model/persistence.py:238-296 | what was parsed once survives printing and parsing |
| PrefixRules.ParseInternalPrefixes | sbom-graph-model/src/sbom_graph_model/persistence.py:238-277 | the token loop computes the grammar's result, stopping at the first error |
| PrefixRules.ParseCanonical | sbom-graph-model/src/sbom_graph_model/persistence.py:238-277 | parsing yields canonical rules only |
| PrefixRules.MergeRuleLists | sbom-graph-model/src/sbom_graph_model/persistence.py:278-292 | the loop with its set of seen rules is merging without repetitions |
| PrefixRules.DedupOrder | sbom-graph-model/src/sbom_graph_model/persistence.py:278-292 | merged rules keep the order of their first occurrences |
| PrefixRules.MergeAssociative | sbom-graph-model/src/sbom_graph_model/persistence.py:278-292 | merging is associative |
| PrefixRules.MergeIdempotent | sbom-graph-model/src/sbom_graph_model/persistence.py:278-292 | merging the same rules again changes nothing |
| PrefixRules.CheckInternal | sbom-graph-model/src/sbom_graph_model/persistence.py:223-236 | a package is internal exactly if some rule matches |
| PrefixOverlay.ExtendIsMerge | sbom-graph-api/src/sbom_graph_api/routes/api_v1.py:969-1020 | extending the overlay extends the rules in force by exactly the added rules, even over stored text that does not parse |
| PrefixOverlay.ExtendIsIdempotent | sbom-graph-api/src/sbom_graph_api/routes/api_v1.py:982-1009 | extending twice stores what extending once does |
| PrefixOverlay.Persistence.SetOverlay | sbom-graph-model/src/sbom_graph_model/persistence.py:318-348 | stores the text if it is short enough and parses, and changes nothing otherwise |
| PrefixOverlay.Persistence.Reload | sbom-graph-model/src/sbom_graph_model/persistence.py:350-367 | the rules in force become the environment's merged with the overlay's; on a parse error nothing changes |
| PrefixOverlay.CreateIngestionPersistence | sbom-graph-api/src/sbom_graph_api/services/ingestion_persistence.py:22-72 | an unreadable overlay falls back to the environment's rules; an unreadable environment is an error |
| PrefixOverlay.ExtendOverlay | sbom-graph-api/src/sbom_graph_api/routes/api_v1.py:969-1020 | status, stored text and reported rules, for valid and refused requests |
| InternalLabels.VersionStore.ApplyInternalLabel | sbom-graph-model/src/sbom_graph_model/persistence.py:385-439 | the back-fill labels exactly the selected versions and changes nothing else |
| InternalLabels.SelectedIsInternal | sbom-graph-model/src/sbom_graph_model/persistence.py:223-236 | without empty prefixes the back-fill selects exactly the internal versions |
| InternalLabels.BackfillAgreesExactly | sbom-graph-model/src/sbom_graph_model/persistence.py:385-439 | back-fill and ingest agree on all versions if and only if no prefix is empty |
| ScanIds.PropagateScanIds | sbom-graph-api/scripts/populate_acme_corp.py:1819-1855 | each version ends with the scan ids collected by the searches from all applications; versions shadowed by a later one of the same key are untouched |
| ScanIds.Spread | sbom-graph-api/scripts/populate_acme_corp.py:1837-1855 | one search reaches exactly the known versions reachable from the application, through unknown keys and around cycles |
| ScanIds.CollectedExactly | sbom-graph-api/scripts/populate_acme_corp.py:1823-1855 | an id is listed if and only if it was before or an application with it reaches the version; no duplicates appear |
| ScanIds.ExploredIsReachable | sbom-graph-api/scripts/populate_acme_corp.py:1840-1855 | a finished search has visited exactly what is reachable |
| ScanIds.CalculateDegrees | sbom-graph-api/scripts/populate_acme_corp.py:1858-1884 | degrees count the dependencies from and to each version |
| ScanIds.DegreesAddUp | sbom-graph-api/scripts/populate_acme_corp.py:1858-1884 | the degrees add up to the dependencies whose endpoint is known |
| JsonRoundTrip.RoundTrip | sbom-graph-api/src/sbom_graph_api/exports/streaming.py:209-216 | what json.dumps writes parses back to the same value, by the grammar of RFC 8259 |
| JsonRoundTrip.CharRead | sbom-graph-api/src/sbom_graph_api/exports/streaming.py:209-216 | every character survives escaping, including surrogate pairs |
| StreamingJson.CompleteDocument | sbom-graph-api/src/sbom_graph_api/exports/streaming.py:208-224 | with a data key that needs no escaping the text is one document: the members of meta, the rows under the data key, and the statistics |
| StreamingJson.DocumentExactly | sbom-graph-api/src/sbom_graph_api/exports/streaming.py:208-224 | the whole text loads as the report if and only if the data key, which is written raw, needs no escaping |
| StreamingJson.TruncatedIsNoDocument | sbom-graph-api/src/sbom_graph_api/exports/streaming.py:188-219 | stopped before the closing bracket, after any number of rows, the text is no document, whatever the data key |
| JsonScan.UnclosedIsNoDocument | sbom-graph-api/src/sbom_graph_api/exports/streaming.py:188-219 | an object that breaks off in the rows of a list is no document, whatever text stands before the list |
| StreamingJson.Generate | sbom-graph-api/src/sbom_graph_api/exports/streaming.py:208-224 | if a row fails, the generator's chunks are no document; otherwise they read as the whole report if and only if the data key needs no escaping |
| StreamingJson.ClientSees | sbom-graph-api/src/sbom_graph_api/exports/streaming.py:188-224 | the client finds the rows if and only if the data key is not "stats" or no statistics are given; it finds the statistics, and every entry of meta that uses neither added name |
| StreamingJson.KeyReadsExactly | sbom-graph-api/src/sbom_graph_api/exports/streaming.py:208-213 | the unescaped data key reads back as itself, whatever follows it, if and only if it needs no escaping |
| CappedGraphs.BoundNodesEdges | sbom-graph-api/src/sbom_graph_api/visualizations/_bounded.py:23-71 | a KeyError exactly if a node without an id is met while there is room; otherwise kept edges join kept nodes, both caps hold, the root is kept, truncated exactly if something was dropped, and kept, dropped and repeated entries add up to the input |
| CappedGraphs.NothingRepeats | sbom-graph-api/src/sbom_graph_api/visualizations/_bounded.py:41-57 | with distinct ids kept plus dropped is the whole input |
| CappedGraphs.KeepEdges | sbom-graph-api/src/sbom_graph_api/visualizations/_bounded.py:59-71 | the kept edges are the first ones between kept nodes |
| BipartiteNetwork.BuildBoundedNetwork | sbom-graph-api/src/sbom_graph_api/visualizations/bipartite.py:53-117 | every drawn edge joins drawn nodes, the caps hold, and drawn edges and drops add up to the dependants and the versions for which there was no room, which happens only at the cap |
| BipartiteNetwork.Builder.AddDependant | sbom-graph-api/src/sbom_graph_api/visualizations/bipartite.py:100-115 | the check beforehand makes both node additions succeed; a dropped edge leaves no trace |
| BipartiteNetwork.IdsDiffer | sbom-graph-api/src/sbom_graph_api/visualizations/bipartite.py:101-102 | target and dependant ids never meet, and two targets share an id only if their joined names agree |

## Left out

Not modelled:

- FalkorDB, Redis, Celery and Flask: queries are atomic steps with the meaning of MERGE, MATCH and SET; the broker is a list of messages that may be taken in any order, lost or redelivered.
- IEEE floating point: scores and the limiter's clock are reals; `int(interval * 0.9)` is taken exactly.
- The dictionaries `in_degree`, `in_degree_fwd` and `in_deg` of the sort, which nothing reads.
- Depth attenuation by `decay` as README.md:135 describes it: the code gives all dependencies the same weight, so that it cancels; `max_depth` is a parameter that is not used.
- The scores of packages that reach a cycle, beyond range, monotonicity and the weakest link: they depend on set order.
- The order in which alerts are sorted and the top twenty logged.
- Components with an empty-string purl, whose MERGE key and SET list disagree (persistence.py:646-662).
- Documents that fail structural validation: their ingest ends at once, with no query and no retry; nor which of the two error results a failed job gives.
- Unknown sources and formats of SBOM records, which the code refuses with a ValueError.
- VEX ingest: each statement gets a fresh identifier, so its retry does not converge in this sense.
- The certifiers, the trust-score calculator and the SBOM parsers: direct scores are an arbitrary map, a document is a list of components, dependencies and defects.
- Overlapping beat ticks and the beat's own messages; forced and direct dispatches are explicit extra steps.
- Which messages of other tasks share the broker list: the depth a tick reads is any number no less than the modelled queue.
- Wall-clock drift: ticks, workers and ingests read one clock that does not go back.
- `%Y` of years before 1000, which some platforms do not pad.
- Lone surrogates in JSON strings, and NaN and Infinity, which json.dumps writes and RFC 8259 does not allow.
- UTF-8 encoding of the chunks, response headers, Excel output, HTML banners, PyVis layout options and labels.
- Failures of the database while the overlay is read or stored (status 500, or environment rules only), and the JSON shape of the request body.
- LDAP, sessions, tokens and everything of the login flow but its limiter calls; the address "unknown" is an address like any other.
- The demo data of the populate script, beside its two algorithms.
- Token storage, configuration, log redaction, URL building, schemas and command-line clients: plumbing or easy members.

Stated weaker:

- ReplayLimits.ReplayCharacterised: an equivalence for sequences whose scan ids repeat and whose link ends are free; every document's plan is one, so that nothing is lost for documents.
- TrustRecurrence.SettledWeakestLink: only below packages that reach no cycle; the exact class is that of WeakestLink.WeakestLinkExactly.
- ReplayLimits.MergeReplayCharacterised: MERGE queries only, but for all sequences of them; the equivalence with edge queries and scan ids is ReplayLimits.ReplayCharacterised.
- DispatchBounds.QueueBounded: a tick that cannot read the queue depth proceeds, and is outside the bound.
- DispatchSpacing.DispatchesSpaced: spacing holds between stamps; between sendings only less the wait of the first, which SendingsSpacedExactly shows to be all there is, and not at all after a second record.
- LoginRuns.AttemptsBounded: needs a lag of less than a window; after a longer one a cleanup may remove an entry that a late reading opens again.
- StreamingJson.CompleteDocument: needs a data key without quotes, backslashes and control characters, since the code does not escape it; DocumentExactly shows that no other key works.
