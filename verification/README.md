# Sentinel-KE: a verified model of its core algorithms

This project models the self-contained algorithms and state machines of Sentinel-KE, a fraud and
infrastructure-correlation platform with partner-side edge agents, and proves what they are for:
which IP addresses end up in one cluster, which hashed entities an edge node can still resolve, how
old the weights of a scoring run can be, which campaign pairs get an overlap claim, what poisoned
baselines can do to a DDoS score, and what the aggregation and delivery loops conserve.

`dafny verify dfyconfig.toml` checks the whole project.

## How it is organised

| file | models |
|---|---|
| `DisjointSets`, `InfraSimilarity`, `Clustering`, `ClusterProperties`, `EvidenceProperties` | `infra_similarity.py`: union-find, Jaccard similarity, the all-pairs linker, component extraction |
| `CoOccurrence` | the capped edge builder of `gnn_runner.py` |
| `HashIndex`, `Publisher`, `PublisherProperties`, `EdgeAgent`, `AgentProperties`, `ModelStaleness`, `RunProperties` | the edge agent: `warning_resolver.py`, `publisher.py`, `main.py` and the train/load decision of `gnn_runner.py` |
| `RobustStats`, `ScoreLaws` | `ddos_indicators.py` |
| `OverlapClaims`, `OverlapProperties`, `DraftContents`, `ClaimTable` | `claims_overlap.py` and `claims_worker.py` |
| `Connector`, `ConnectorProperties` | the two folds of `connector.py` |
| `LegacyBridge` | the poll loop of `legacy_connector_bridge.py` |
| `Procurement` | the aggregation part of `ingest_ocds_file` |
| `GoldLabels` | `seed_gold_labels.py` |
| `WindowEvidence`, `EvidenceMeaning` | run selection and evidence counting of `ai.py` |
| `Connectivity`, `Ordering`, `Sums`, `FiniteSets`, `Arithmetic`, `Options` | shared theory: undirected reachability, Python's stable sort and string order, sums over keys, set sizes, rounding |

Code that updates things step by step is a class or a method with loops, proved against a function of
its inputs or its old state; the theorems are lemmas about those functions. Beside the theorems over
whole runs, each main computation is also characterised from its inputs alone, field by field, without
naming the function that computes it. One theory of undirected reachability (`Connectivity`) serves both
the IP clusters and the co-occurrence graph.

Inputs from outside are parameters. Query results are arbitrary sequences of rows. Clocks, the hub's
replies, training outcomes and disk failures are fields of an input record, so "for all runs" ranges
over all of them. The keyed hash is an arbitrary function; injectivity on the keys actually observed is
assumed in `RoundTrip` and nowhere else. Scores are reals and timestamps are integers.

## Where the code differs from its documentation or from what one would expect

- A prefix match never joins clusters. `infra_similarity.py` lines 150-161 set `linked`, record a
  `PREFIX_HEURISTIC` edge and then `continue` past the union. The clusters are those of overlap links
  alone; `PrefixEdgeMaySpanClusters` exhibits an edge between two addresses no cluster holds together.
  All addresses without exactly four dotted parts also share the one prefix `unknown`.
- The staleness bound fails when a scheduled run has nothing to score. `run_gnn` returns before the
  retrain decision when there are no records (`gnn_runner.py` lines 273-274), but the run still succeeds
  and advances `run_count`, so the scheduled retrain is lost for a whole interval. `StalenessBound`
  proves the bound when scheduled runs have records, `EmptyScheduledRunBreaksBound` and
  `BoundIsViolated` show the failure, and `StalenessByRecords` says exactly when the bound holds in terms
  of which attempts had records: the last scheduled index did, or none at all did an interval or more ago.
- A failed publish is not visible in `last_publish_status` once an earlier one succeeded
  (`main.py` lines 288-289; `FailureHidesPublishError`).
- A bridge dry run saves the cursor (`legacy_connector_bridge.py` line 217) although it posts nothing, so
  a later real run on the same cursor file skips those rows (`DryThenReal`). Over any sequence of
  processes sharing the file, `CoveredExactly` says exactly when no row is lost: every row that a
  completed dry poll moved the cursor over had been delivered before. A file that shrinks is skipped
  over as well, which is why delivery is stated for append-only files.
- The comment in `_build_edges` asks for equal entity types; the code connects on risk flags only.
- When `max_claims` is reached the overlap builder returns early and unsorted, so only the size cap and
  the soundness of each draft are claimed there, not that the best drafts are the ones kept. Below the
  cap the result is complete and sorted. A cluster confidence of exactly 0 counts as 0.5.
- The risk score does not order the stages. `RiskOrdersStagesExactly` gives the exact condition: a
  reading is never ranked above a more severe one if and only if its risk is at most the floor of the
  next stage (18, 36 or 46), while normal readings come arbitrarily close to 94. A normal reading of
  (2.5, 5.5, 1.0) with both alarms scores 88, an active one of (6, 0, 0) with one alarm scores 46.
- Poisoning half of the baseline is enough to hide any spike from any honest values, and less is not:
  `BreakdownPoint` is an if and only if.
- The OCDS ingest raises IndexError exactly when some release has an empty `contracts` list
  (`pipeline_bootstrap.py` line 538); the `[{}]` default only covers an absent field.

## Model

| member | source | states |
|---|---|---|
| `InfraSimilarity.JaccardDistance` | backend/app/analytics/infra_similarity.py:22-29 | For sets not both empty, 1 minus the coded Jaccard is the share of the union that the two sets do not have in common |
| `InfraSimilarity.JaccardTriangle` | backend/app/analytics/infra_similarity.py:22-29 | The Jaccard distance as coded, with similarity 0 for two empty sets, satisfies the triangle inequality on all sets |
| `InfraSimilarity.ChainSimilarity` | backend/app/analytics/infra_similarity.py:22-29 | A chain of k links of similarity at least t leaves its two ends at least 1 - k(1 - t) similar, for every chain and every t |
| `DisjointSets.UnionFind.constructor` | backend/app/analytics/infra_similarity.py:99-101 | Every item starts as its own parent with rank 0, and the forest invariant, the size bound and the connectivity invariant hold |
| `DisjointSets.UnionFind.Find` | backend/app/analytics/infra_similarity.py:103-107 | Terminates, returns the representative, makes everything on the path point at it and nothing else, moves no item to another class; an unknown item is returned unchanged |
| `DisjointSets.UnionFind.Union` | backend/app/analytics/infra_similarity.py:109-119 | Records the pair as a link and keeps: ranks increase along parents, a root of rank r owns at least 2^r items, equal representatives if and only if connected by the links so far; raises KeyError exactly for two different items of which one is unknown |
| `DisjointSets.UnionFind.Attach` | backend/app/analytics/infra_similarity.py:113-119 | Either root may hang below the other as the rank comparison decides; all three invariants survive the merge |
| `DisjointSets.CompressedKeepsRoot` | backend/app/analytics/infra_similarity.py:103-107 | Path compression changes no item's representative |
| `DisjointSets.Compression` | backend/app/analytics/infra_similarity.py:103-107 | One find keeps the forest order, the 2^rank size bound and the tracked partition, and leaves the item pointing at its root |
| `DisjointSets.FindIsLogarithmic` | backend/app/analytics/infra_similarity.py:103-107 | The recursion depth d of find satisfies 2^d <= number of items |
| `DisjointSets.HungWeights` | backend/app/analytics/infra_similarity.py:113-119 | Union by rank keeps every root of rank r owning at least 2^r items, including the case that raises a rank |
| `DisjointSets.UnionMergesExactly` | backend/app/analytics/infra_similarity.py:109-119 | After a union two items share a representative if and only if they did before or one was with a and the other with b |
| `Clustering.LinkPair` | backend/app/analytics/infra_similarity.py:146-176 | A pair is united exactly when endpoint or service overlap meets its threshold; a prefix match adds evidence but no link |
| `Clustering.LinkPairs` | backend/app/analytics/infra_similarity.py:141-176 | After both loops the union-find holds exactly the overlap links of all pairs i < j, and the evidence is that of all pairs in loop order |
| `Clustering.LinksAreTheGraph` | backend/app/analytics/infra_similarity.py:141-164 | Visiting each unordered pair once yields the same connectivity as the symmetric overlap graph over all pairs |
| `Clustering.Group` | backend/app/analytics/infra_similarity.py:178-181 | The groups are exactly the classes of the union-find, members in profile order and groups in order of first member, although every find compresses paths meanwhile |
| `Clustering.BuildClusters` | backend/app/analytics/infra_similarity.py:122-185 | Two distinct addresses share a returned cluster if and only if a chain of overlap links connects them; clusters are disjoint, strictly sorted, of size >= 2, in descending size, equal sizes in order of first appearance |
| `ClusterProperties.TogetherExactly` | backend/app/analytics/infra_similarity.py:141-185 | In terms of the two similarities and thresholds alone: two addresses share a returned cluster if and only if a path joins them on which every step has endpoint Jaccard >= the endpoint threshold or service Jaccard >= the service threshold |
| `ClusterProperties.CoversTheNonIsolated` | backend/app/analytics/infra_similarity.py:178-185 | An address is in some cluster if and only if it is connected to another address |
| `ClusterProperties.OrderDoesNotMatter` | backend/app/analytics/infra_similarity.py:136-185 | Any two clusterings of the same profiles contain the same clusters, whatever the order in which addresses are visited |
| `ClusterProperties.EndpointPath` | backend/app/analytics/infra_similarity.py:146-149 | Any path of k endpoint links at threshold t keeps its two ends at least 1 - k(1 - t) similar in their endpoints, whatever the services are |
| `ClusterProperties.ClusterCohesion` | backend/app/analytics/infra_similarity.py:146-164 | When no two different addresses are linked by services, any two members of a cluster of n addresses are at least 1 - (n-1)(1-t) similar in their endpoints |
| `ClusterProperties.EvidenceReason` | backend/app/analytics/infra_similarity.py:146-176 | An edge is an overlap edge if and only if its two profiles meet an endpoint or service threshold, and then one cluster holds both |
| `ClusterProperties.EvidenceScore` | backend/app/analytics/infra_similarity.py:155-176 | An overlap edge is scored and named by the larger similarity, which meets a threshold; a prefix edge scores 0.2 and both similarities are below their thresholds |
| `ClusterProperties.EveryLinkIsEvidenced` | backend/app/analytics/infra_similarity.py:163-176 | Every pair that meets the endpoint or the service threshold leaves an overlap edge naming it |
| `EvidenceProperties.EvidenceIsDistinct` | backend/app/analytics/infra_similarity.py:140-176 | No pair of addresses leaves two edges |
| `EvidenceProperties.EvidenceDetails` | backend/app/analytics/infra_similarity.py:165-176 | An overlap edge shows both similarities and the ten smallest shared endpoints and services in order, and is named after the endpoints exactly when they are at least as similar |
| `EvidenceProperties.PrefixComparesNetworks` | backend/app/analytics/infra_similarity.py:32-37 | Two prefixes are equal if and only if the addresses have four dotted parts and agree in the first three, or neither has four |
| `EvidenceProperties.PrefixEdgeExactly` | backend/app/analytics/infra_similarity.py:150-161 | A pair leaves a prefix edge if and only if overlap is demanded and missing, neither has a provider, both have an endpoint or service, and their networks agree |
| `ClusterProperties.PrefixEdgeMaySpanClusters` | backend/app/analytics/infra_similarity.py:150-161 | Two concrete profiles whose prefix edge is recorded and which no cluster holds together |
| `CoOccurrence.IndexFlags` | edge-agent/app/gnn_runner.py:218-221 | The flag index lists, per flag in order of first appearance, exactly the nodes carrying it in record order |
| `CoOccurrence.NodeLists` | edge-agent/app/gnn_runner.py:218-221 | A flag's node list holds every record as often as the record carries the flag, in record order |
| `CoOccurrence.BuildEdges` | edge-agent/app/gnn_runner.py:210-229 | The nested loops produce the edge list that the lemmas below characterise |
| `CoOccurrence.EdgeExact` | edge-agent/app/gnn_runner.py:223-229 | (u, v) is an edge if and only if u and v stand at most nine places apart in some flag's node list |
| `CoOccurrence.EdgesAreSymmetric` | edge-agent/app/gnn_runner.py:227-228 | (u, v) is an edge if and only if (v, u) is |
| `CoOccurrence.CapKeepsComponents` | edge-agent/app/gnn_runner.py:224-228 | Two records are connected in the capped graph if and only if they are in the full "shares a risk flag" graph |
| `CoOccurrence.EdgesAreLinear` | edge-agent/app/gnn_runner.py:224-229 | At most 18 edges per flag membership, however many records share a flag |
| `HashIndex.Span` | edge-agent/app/warning_resolver.py:95 | The retention span is the configured number of days, and one day for anything below |
| `HashIndex.IndexFile.Prune` | edge-agent/app/warning_resolver.py:94-111 | Keeps exactly the entries whose last sighting is unreadable or within the retention span, unchanged |
| `HashIndex.IndexFile.Update` | edge-agent/app/warning_resolver.py:114-156 | The file afterwards holds the pruned entries with each result absorbed in order, scores rounded to four places, and the reported counts are right |
| `HashIndex.StreakIsFinal` | edge-agent/app/warning_resolver.py:94-131 | The streak an entry summarises is the longest final run of observations without a gap above the retention span |
| `HashIndex.IndexRefinesLog` | edge-agent/app/warning_resolver.py:94-156 | For every log in time order: a hash is present if and only if its last observation is within the retention span of the latest update, and its entry is the summary of its final streak |
| `HashIndex.EntryMeaning` | edge-agent/app/warning_resolver.py:127-144 | Every field of a stored entry in terms of the log alone: times, count and flags of the final streak, key, type, family and four-place scores of the last observation |
| `Arithmetic.Round4IsNearest` | edge-agent/app/warning_resolver.py:139-141 | Rounding to four places gives the nearest multiple of 0.0001, the even one of two equally near, and is idempotent |
| `Publisher.CountFamilies` | edge-agent/app/publisher.py:58-62 | The counting loop and max over the dictionary give the top family of the next row |
| `Publisher.TopFamilyIsMostFrequent` | edge-agent/app/publisher.py:58-62 | The reported family is most frequent among the high-risk results and the earliest seen of those |
| `Publisher.HighRiskExact` | edge-agent/app/publisher.py:54 | A result is published if and only if its score reaches the threshold |
| `Publisher.BuildPayload` | edge-agent/app/publisher.py:49-92 | Patterns for exactly the results at or above the threshold in order, and their count, mean rounded to four places, and top family |
| `PublisherProperties.PatternMeaning` | edge-agent/app/publisher.py:73-84 | Pattern i describes, field by field and with the key hashed, the result at or above the threshold that has exactly i such results before it |
| `PublisherProperties.SummaryMeaning` | edge-agent/app/publisher.py:54-57 | The counts are of all results and of those at or above the threshold, and the mean is the latter's average score to four places |
| `PublisherProperties.TopFamilyMeaning` | edge-agent/app/publisher.py:58-65 | No family if no high-risk result names one, else the one named most often among them, the earliest of equals |
| `Publisher.PayloadHidesKeys` | edge-agent/app/publisher.py:9-14 | Results that differ only in raw keys with equal hashes give the same payload: nothing that leaves the node depends on a raw key except through its hash |
| `EdgeAgent.Agent.Score` | edge-agent/app/gnn_runner.py:273-395 | Which branch trains, what is on disk afterwards and which weights scored, for every mix of forced, scheduled, missing-artifact and failed-load cases and every point of failure |
| `ModelStaleness.TrainsExactly` | edge-agent/app/gnn_runner.py:158-172 | A run with records trains if and only if it is forced, finds no artifact that loads, or is due by interval and index; weights used and artifact left in every case of success and failure |
| `ModelStaleness.ForcedRunRetrains` | edge-agent/app/gnn_runner.py:160-161 | A forced run whose training and inference succeed scores with weights of its own index and stores them |
| `ModelStaleness.UnscheduledRunKeepsWeights` | edge-agent/app/gnn_runner.py:165-172 | An unforced run off the schedule with a sound artifact scores with the stored weights and leaves them as they were |
| `EdgeAgent.Agent.Publish` | edge-agent/app/publisher.py:116-142 | Nothing above the threshold sends nothing; otherwise the payload is sent once, the reply may itself say skipped, and a raised error may or may not mean delivery |
| `EdgeAgent.Agent.SyncInbox` | edge-agent/app/warning_resolver.py:180-198 | The cache is overwritten by the inbox, each warning resolved against the stored index, and the warning count is its length |
| `EdgeAgent.Agent.PublishAndRecord` | edge-agent/app/main.py:257-274 | The counters after a publish, and none of them touched when it raises |
| `EdgeAgent.Agent.TryPipeline` | edge-agent/app/main.py:238-284 | The steps happen in order and each failure leaves exactly the effects of the steps before it |
| `EdgeAgent.Agent.RunPipeline` | edge-agent/app/main.py:235-295 | The whole state after one run, successful or not, with the counters saved or not |
| `RunProperties.SucceedsExactly` | edge-agent/app/main.py:238-284 | The run counter advances if and only if fetch, scoring and index update work and the hub accepts the batch when there is one |
| `RunProperties.SuccessBooks` | edge-agent/app/main.py:254-274 | Every counter, status and file after a successful run, from its inputs |
| `RunProperties.FailureBooks` | edge-agent/app/main.py:285-295 | What a failed run leaves: statuses and possibly the index size change, nothing else is booked, and at most the batch in flight was delivered |
| `EdgeAgent.Agent.Restart` | edge-agent/app/main.py:114-127 | A new process takes its counters from the state file, or starts afresh when the file cannot be read, and keeps every other file |
| `AgentProperties.AlwaysConsistent` | edge-agent/app/main.py:246-257 | Over every history of runs, failures and restarts, the index file is the index of the observation log and every published pattern carries the hash of an observed key |
| `AgentProperties.IndexedBeforeSent` | edge-agent/app/main.py:254-257 | Every hash in a batch that is sent already has an entry stamped with that run |
| `AgentProperties.RoundTrip` | edge-agent/app/warning_resolver.py:159-177 | A published hash resolves to the raw key it was made from if and only if no index update is later than its last observation plus retention, over every history, given injectivity on observed keys |
| `ModelStaleness.StalenessBound` | edge-agent/app/gnn_runner.py:158-172 | If scheduled runs have records, every run with index i that scores uses weights trained at an index greater than i - k, through failures, forced runs, lost or corrupt artifacts, unsaved or damaged counters and restarts |
| `ModelStaleness.FailureKeepsSchedule` | edge-agent/app/main.py:246-271 | A failed run leaves the next run's index unchanged, so it skips no scheduled retrain |
| `ModelStaleness.EmptyScheduledRunBreaksBound` | edge-agent/app/gnn_runner.py:273-274 | From any state whose weights are an interval old, a scheduled run without records leaves the next run with weights at least k indices old |
| `ModelStaleness.BoundIsViolated` | edge-agent/app/gnn_runner.py:273-274 | A reachable history with interval 2 in which run 4 uses the weights of run 1 |
| `ModelStaleness.StalenessByRecords` | edge-agent/app/gnn_runner.py:273-389 | With interval k >= 2, counters saved and no forced run, damaged file or failed training: a run i that scores meets the bound if and only if some attempt at the last scheduled index, this run included, had records, or no attempt with records has an index of at most i - k |
| `ModelStaleness.StalenessExactly` | edge-agent/app/gnn_runner.py:331-389 | Also with forced runs, damaged artifacts and failed training: the weights used are newer than i - k if and only if some attempt in that span wrote weights, so no older artifact is ever picked over a newer one |
| `RobustStats.MedianResists` | backend/app/analytics/ddos_indicators.py:13 | If strictly more than half of the values lie in [lo, hi], so does the median, whatever the others are |
| `RobustStats.MadResists` | backend/app/analytics/ddos_indicators.py:9-15 | Under the same majority, 0 <= MAD <= hi - lo |
| `ScoreLaws.MedianIsAffine` | backend/app/analytics/ddos_indicators.py:13 | Shifting, scaling or mirroring all values does the same to their median |
| `ScoreLaws.MedianSplits` | backend/app/analytics/ddos_indicators.py:13 | At least half of the values are at most the median and at least half at least it |
| `ScoreLaws.MadIsScale` | backend/app/analytics/ddos_indicators.py:9-15 | The MAD ignores shifts and scales with the absolute factor |
| `ScoreLaws.BaselineScores` | backend/app/analytics/ddos_indicators.py:18-28 | When the MAD is at least 1, at least half of the baseline's own values score within [-1, 1] and at least half score outside (-1, 1) |
| `ScoreLaws.ScoreHasNoUnit` | backend/app/analytics/ddos_indicators.py:18-28 | While the MAD stays at 1 or more, scaling and shifting a value with its baseline leaves its score unchanged, and mirroring negates it |
| `ScoreLaws.SmallSpreadKeepsDistance` | backend/app/analytics/ddos_indicators.py:26-28 | With a MAD of at most 1, moving the value by d moves the score by d, and the median scores 0 |
| `RobustStats.SpikeIsSeen` | backend/app/analytics/ddos_indicators.py:18-28 | A value at least hi + 6 max(1, hi - lo) scores at least 6 against any baseline with such a majority |
| `RobustStats.OrdinaryValueScoresLow` | backend/app/analytics/ddos_indicators.py:18-28 | A value of at most hi scores at most hi - lo: a minority cannot invent a spike |
| `RobustStats.SpikeReachesTheStage` | backend/app/analytics/ddos_indicators.py:69-96 | End to end, such a spike is staged active or emerging, which of the two is determined, and its risk is at least 46 or 36 |
| `RobustStats.OrdinaryTrafficIsNormal` | backend/app/analytics/ddos_indicators.py:69-83 | End to end, ordinary values on both signals are staged normal when each majority interval is shorter than 3 |
| `RobustStats.HalfIsNotEnough` | backend/app/analytics/ddos_indicators.py:18-28 | For every honest baseline and every value, at least as many copies of one high enough poisoned value drive the score to at most 0 |
| `RobustStats.BreakdownPoint` | backend/app/analytics/ddos_indicators.py:9-28 | h honest values protect every spike from every p poisoned ones if and only if h > p |
| `RobustStats.StageFloorsRisk` | backend/app/analytics/ddos_indicators.py:69-96 | Risk is at most 100 and at least 46 for active, 36 for emerging, 18 for rehearsal and 0 for normal readings |
| `RobustStats.FloorsAreTight` | backend/app/analytics/ddos_indicators.py:69-96 | Each of these floors is attained by a reading of its stage |
| `RobustStats.StageCapsRisk` | backend/app/analytics/ddos_indicators.py:69-96 | Normal and rehearsal readings stay below 94 |
| `RobustStats.NormalApproachesCeiling` | backend/app/analytics/ddos_indicators.py:69-96 | Every risk below 94 is exceeded by a normal reading, so 94 cannot be lowered |
| `RobustStats.StageIsMonotone` | backend/app/analytics/ddos_indicators.py:69-83 | Worse readings in any of the five inputs never lower the stage |
| `RobustStats.RiskIsMonotone` | backend/app/analytics/ddos_indicators.py:86-96 | Worse readings in any of the five inputs never lower the risk score |
| `ScoreLaws.RiskSteps` | backend/app/analytics/ddos_indicators.py:88-91 | Six points of risk per point of either score up to 40, twenty per unit of convergence up to 20, nothing for negative readings |
| `ScoreLaws.AlarmsAdd` | backend/app/analytics/ddos_indicators.py:92-96 | Each alarm adds ten points, and the sum is cut at 100 |
| `RobustStats.RiskOrdersStagesExactly` | backend/app/analytics/ddos_indicators.py:69-96 | For every reading: no reading of a more severe stage scores below it if and only if its risk is at most the floor of the next stage up |
| `OverlapClaims.BucketEndFloors` | backend/app/analytics/claims_overlap.py:34-39 | The bucket end is at most now, less than one step behind it, and its own bucket end |
| `OverlapClaims.CapList` | backend/app/analytics/claims_overlap.py:42-52 | The first n distinct values in order, and at least one even for n below 1 |
| `DraftContents.DedupedAt` | backend/app/analytics/claims_overlap.py:42-52 | The i-th kept value is the first of its equals and comes after exactly the values kept before it |
| `OverlapClaims.EntityIndexExact` | backend/app/analytics/claims_overlap.py:94-103 | The inverted map sends an entity to exactly the recent campaigns that list it |
| `OverlapClaims.OverlapsExact` | backend/app/analytics/claims_overlap.py:124-133 | Per cluster exactly the campaigns reached through its members, and per cluster and campaign exactly the entities tying them |
| `OverlapClaims.IndexMembers` | backend/app/analytics/claims_overlap.py:124-133 | The loop over member rows builds those two maps |
| `OverlapClaims.DraftAll` | backend/app/analytics/claims_overlap.py:160-231 | The loops draft the first triple of every pair in order, or exactly the first max(1, cap) of them when the early return is taken |
| `OverlapClaims.Build` | backend/app/analytics/claims_overlap.py:55-235 | The whole builder, with its invalid-window, empty-result, early-return and sorted outcomes |
| `DraftContents.OutcomeExactly` | backend/app/analytics/claims_overlap.py:71-81 | Division by zero exactly for a zero step, and an invalid window exactly for any other name than the three |
| `OverlapProperties.CampaignsAreRows` | backend/app/analytics/claims_overlap.py:84-133 | A campaign is in a cluster's set if and only if rows tie it there: both seen in the window and a member entity belongs to the campaign |
| `OverlapProperties.DraftsAreSound` | backend/app/analytics/claims_overlap.py:160-235 | Whether or not the cap is reached: at most max(1, cap) drafts, one per pair, subject < object, confidence in [0.05, 0.95], the requested window, and the two campaigns share a cluster |
| `DraftContents.WindowIsSpan` | backend/app/analytics/claims_overlap.py:72-81 | Every draft's window ends at the bucket end and spans 10 minutes, 24 hours or 30 days by its name |
| `OverlapProperties.DraftsAreComplete` | backend/app/analytics/claims_overlap.py:160-235 | Below the cap: a pair has a draft if and only if subject < object and the two share an infrastructure cluster, exactly one draft each, in descending confidence |
| `DraftContents.DraftsInOrder` | backend/app/analytics/claims_overlap.py:233-235 | Below the cap drafts come strictly by descending confidence, then subject, then object |
| `DraftContents.LexMeaning` | backend/app/analytics/claims_overlap.py:183-184 | The string order used: a proper prefix comes first, else the first differing code point decides |
| `OverlapProperties.FirstClusterWins` | backend/app/analytics/claims_overlap.py:186-189 | A pair's draft comes from the first visited cluster that holds both campaigns, and from no other |
| `DraftContents.EarliestClusterWins` | backend/app/analytics/claims_overlap.py:124-133 | Of several clusters that both campaigns reuse, a pair's draft speaks of the one whose first tying member row comes first |
| `OverlapProperties.DraftMeaning` | backend/app/analytics/claims_overlap.py:165-227 | Every returned draft in terms of rows: both campaigns reuse its cluster, its popularity counts all campaigns reusing that cluster, its confidence weighs exactly the entities tying the two, and its sample is the first 25 of them in order |
| `DraftContents.ClusterShown` | backend/app/analytics/claims_overlap.py:175 | A draft shows the kind and confidence of the cluster's last row in the window, 0.5 standing in for none and for zero |
| `DraftContents.ReasonsExactly` | backend/app/analytics/claims_overlap.py:199-201 | A draft's reasons are the overlap itself and those of the cluster's first three evidence rows, and no others |
| `DraftContents.EvidenceExactly` | backend/app/analytics/claims_overlap.py:203-207 | A draft shows only hashes of the cluster's evidence rows and of the first 20 events of either campaign in the window, and all of them unless its cap is reached |
| `OverlapProperties.DraftShape` | backend/app/analytics/claims_overlap.py:199-207 | In every returned draft, reasons start with INFRA_CLUSTER_REUSE and number at most 4; evidence hashes are non-empty, distinct, capped, and each belongs to a row about the cluster or to an event of one of the two campaigns in the window |
| `OverlapProperties.ConfidenceMonotone` | backend/app/analytics/claims_overlap.py:172-197 | More shared entities never lower the confidence while the cluster's own confidence is not negative, and more campaigns on the cluster never raise it |
| `OverlapProperties.ConfidenceSteps` | backend/app/analytics/claims_overlap.py:172-197 | For every cluster confidence: an entity adds 0.045 of it up to the tenth, a campaign beyond the first costs 0.05 up to the eighth, ten entities and one campaign give it back unchanged, and the clamp acts exactly outside [0.05, 0.95] |
| `ClaimTable.DedupeClaims` | backend/app/analytics/claims_worker.py:27-37 | The loop keeps the drafts that the next row describes |
| `ClaimTable.DedupeKeepsFirst` | backend/app/analytics/claims_worker.py:27-37 | A draft is kept, in order, if and only if no earlier one has the same subject, object, window and window end |
| `ClaimTable.DedupeIsIdentityOnBuilds` | backend/app/analytics/claims_worker.py:27-37 | On the builder's own output the pass changes nothing |
| `ClaimTable.Claims.Upsert` | backend/app/analytics/claims_worker.py:59-93 | The first row with the draft's identity is refreshed in place, else one row is appended |
| `ClaimTable.Claims.Work` | backend/app/analytics/claims_worker.py:40-110 | The table after one worker run and the number of claims processed; a failing build leaves the table alone |
| `ClaimTable.DraftsAreStored` | backend/app/analytics/claims_worker.py:59-93 | After a run every returned draft has a row with its identity, confidence, reasons, evidence and cluster details and the time of the run; creation time and window start are the old row's if there was one, else the run's and the draft's |
| `ClaimTable.NothingElseIsStored` | backend/app/analytics/claims_worker.py:59-93 | A row no draft is about stays as it was, every new row is about some draft, and a failing build changes nothing |
| `ClaimTable.AlwaysOneRow` | backend/app/analytics/claims_worker.py:60-69 | Over any sequence of runs the table holds at most one row per claim type, subject, object, window and window end |
| `ClaimTable.OthersAreUntouched` | backend/app/analytics/claims_worker.py:59-93 | A row no draft matches keeps its place and every field |
| `ClaimTable.SameStepSameBucket` | backend/app/analytics/claims_overlap.py:34-39 | Times in the same step have the same bucket end |
| `ClaimTable.ReplayIsIdempotent` | backend/app/analytics/claims_worker.py:40-110 | Running the worker again on the same database inside one bucket changes nothing in the table but updated_at |
| `Connector.FetchCsv` | edge-agent/app/connector.py:215-266 | The CSV loop raises if and only if some row inside the window has a number that does not parse, and otherwise returns, in order of first appearance, the fold of the rows inside the window |
| `Connector.FetchDb` | edge-agent/app/connector.py:604-695 | The database loop likewise; rows without a timestamp stay, rows without a key go, degree is the number of event types |
| `Connector.FoldSummarises` | edge-agent/app/connector.py:236-259 | There is one record per key, and it holds exactly the totals, the flag union, and the minimum and maximum time of the rows with that key |
| `ConnectorProperties.CsvRecordMeaning` | edge-agent/app/connector.py:220-259 | Every CSV record from its rows: sums of the event_count column per key and per type, union of flags, earliest and latest time in the window |
| `ConnectorProperties.CsvFirstRow` | edge-agent/app/connector.py:236-249 | Type, source count and degree of a CSV record are those of the first row of its key in the window |
| `ConnectorProperties.DbRecordMeaning` | edge-agent/app/connector.py:607-685 | Every database record from its rows: one event per row, weights of at least 1, types, flags and times, under the key or the type-prefixed key |
| `ConnectorProperties.DbFirstRow` | edge-agent/app/connector.py:654-657 | A database record's type is that of the first row of its key |
| `ConnectorProperties.DbDegree` | edge-agent/app/connector.py:691 | The reported degree is the number of the record's event types, at least 1 |
| `ConnectorProperties.ListedInOrder` | edge-agent/app/connector.py:266 | Records are listed by the first appearance of their keys |
| `Connector.TypesAddUp` | edge-agent/app/connector.py:252-254 | Per entity, event_count is the sum of its event-type counts |
| `Connector.CountsAddUp` | edge-agent/app/connector.py:251-254 | Over all entities, event counts total the counts of the accepted rows |
| `Connector.DbCountsOnes` | edge-agent/app/connector.py:674-677 | In the database connector that total is the number of accepted rows |
| `Connector.CsvOrderDoesNotMatter` | edge-agent/app/connector.py:215-266 | Permuting the file changes at most entity_type, source_count and degree of a record, and never whether the fetch raises |
| `Connector.DbOrderDoesNotMatter` | edge-agent/app/connector.py:604-695 | Permuting the result set changes at most entity_type |
| `LegacyBridge.ChunkRows` | backend/scripts/legacy_connector_bridge.py:82-84 | Batches are consecutive slices of the rows, each with its file position |
| `LegacyBridge.Bridge.PostAll` | backend/scripts/legacy_connector_bridge.py:156-214 | Posts the batches in order up to a crash, of which the batch in flight may have arrived; a dry run posts none |
| `LegacyBridge.Bridge.constructor` | backend/scripts/legacy_connector_bridge.py:147-148 | A new process starts from the shared cursor file when it uses one, else from the first row |
| `LegacyBridge.Bridge.Poll` | backend/scripts/legacy_connector_bridge.py:150-217 | The cursor moves to the end of the file only after every batch went out or was shown; a crash falls back to the saved cursor |
| `LegacyBridge.BatchesAreFull` | backend/scripts/legacy_connector_bridge.py:82-84 | In a completed poll every batch starts where the one before it ended and has batch-size rows, but for the last, which ends with the file |
| `LegacyBridge.AtLeastOnce` | backend/scripts/legacy_connector_bridge.py:150-217 | Through any crashes and any sequence of processes with their own options, every row of an append-only file from the initial cursor up to the saved one has been posted, provided no completed dry poll moved the shared cursor over an undelivered row |
| `LegacyBridge.CoveredExactly` | backend/scripts/legacy_connector_bridge.py:156-217 | When all processes share the cursor file: no row below the saved cursor is skipped if and only if every row that a completed dry poll moved the cursor over had been delivered before that poll |
| `LegacyBridge.DryThenReal` | backend/scripts/legacy_connector_bridge.py:156-217 | A dry run over one row followed by a real run ends with the cursor behind the row and nothing posted |
| `LegacyBridge.ExactlyOnceInOrder` | backend/scripts/legacy_connector_bridge.py:150-217 | Without failures or dry runs, also across restarts with the cursor file, the concatenation of all posts is exactly the rows from the initial cursor to the end of the last poll, in order, in batches of 1 to batch-size rows |
| `Procurement.CreditBoth` | notebooks/pipeline_bootstrap.py:557-577 | One supplier entry credits its buyer and its supplier, twice when they are one party, and no absent buyer |
| `Procurement.Aggregate` | notebooks/pipeline_bootstrap.py:534-577 | The nested loops compute the ledger of all supplier entries of the file, or raise |
| `Procurement.FailsExactly` | notebooks/pipeline_bootstrap.py:538 | The ingest raises if and only if some release has an empty contracts list |
| `Procurement.EntriesExact` | notebooks/pipeline_bootstrap.py:534-555 | The ledger's entries are exactly the named suppliers of the awards of the file's releases, each with its release's buyer, amendments, date flag and metadata |
| `Procurement.PartyMeaning` | notebooks/pipeline_bootstrap.py:560-577 | A party's total value and counters total the entries naming it, its counterparties are exactly the parties opposite it, its flags the disjunction of its entries' flags |
| `Procurement.EntryMultiplicity` | notebooks/pipeline_bootstrap.py:534-555 | The ledger holds an entry exactly once for every place, that is release, award and supplier, of the file that yields it |
| `Procurement.FileTotal` | notebooks/pipeline_bootstrap.py:534-577 | Any total over the ledger's entries is the sum over the releases, awards and named suppliers of the file |
| `Procurement.PartyTotals` | notebooks/pipeline_bootstrap.py:534-565 | A party's total value, contracts, amendments and year-end contracts as sums over the releases, awards and named suppliers that involve it |
| `Procurement.PartyFlags` | notebooks/pipeline_bootstrap.py:570-577 | A party carries a flag if and only if some release involving it does |
| `Procurement.PartyCounterparties` | notebooks/pipeline_bootstrap.py:566-569 | Two parties are counterparties if and only if one buys and the other supplies in some release |
| `Procurement.CounterpartiesAreMutual` | notebooks/pipeline_bootstrap.py:566-569 | The counterparty relation is symmetric |
| `Procurement.CountsAreBounded` | notebooks/pipeline_bootstrap.py:560-569 | fy_end_count and the number of counterparties never exceed total_contracts |
| `Procurement.ContractsAddUp` | notebooks/pipeline_bootstrap.py:557-562 | Total contracts over all parties are two per entry with a buyer and one per entry without |
| `Procurement.ValueBalances` | notebooks/pipeline_bootstrap.py:557-561 | With buyers throughout and no id on both sides, buyers' total value equals suppliers' total value and both equal the entries' value |
| `GoldLabels.BuildRows` | backend/scripts/seed_gold_labels.py:213-282 | Both passes: rows, key set and skip count after the greedy loop with its early stop |
| `GoldLabels.ConfirmableExactly` | backend/scripts/seed_gold_labels.py:95-164 | Confirmably positive is to have one of eight reason codes, confirmably negative to have none of them and no risk flag |
| `GoldLabels.SelectedAt` | backend/scripts/seed_gold_labels.py:213-282 | The i-th row is made from the first candidate whose key is unlabelled, not taken before and confirmable |
| `GoldLabels.SelectionIsExact` | backend/scripts/seed_gold_labels.py:213-282 | A pass writes exactly min(cap, number of distinct unlabelled keys with a confirmable candidate) rows and none for a cap below 0, one per key, none for a labelled key |
| `GoldLabels.SeedGoldLabels` | backend/scripts/seed_gold_labels.py:285-348 | Both passes over the shared key set, inserted unless it is a dry run, with the reported counts |
| `GoldLabels.SeedsAreExclusive` | backend/scripts/seed_gold_labels.py:306-318 | Positive and negative keys of a run never overlap, nor touch a labelled key |
| `GoldLabels.SeedCounts` | backend/scripts/seed_gold_labels.py:306-318 | A run adds min(positive cap, eligible keys) positives first, then min(negative cap, keys still eligible) negatives |
| `GoldLabels.OneLabelPerKey` | backend/scripts/seed_gold_labels.py:199-210 | Over any number of re-runs the seeder adds at most one label per key and never one for a key labelled 0 or 1 |
| `WindowEvidence.RecentDistinctWindowRuns` | backend/app/api/ai.py:472-482 | The first run of each window in scan order, cut at the limit |
| `EvidenceMeaning.SelectedAt` | backend/app/api/ai.py:472-482 | The i-th selected run is the first scanned of its window key and end, after exactly the runs selected before it |
| `WindowEvidence.SelectedRuns` | backend/app/api/ai.py:465-482 | Selected runs have distinct windows, each the newest scanned of its window, newest first, at most the limit, and below it no window is missing |
| `WindowEvidence.BuildScientificEvidence` | backend/app/api/ai.py:491-621 | The counting loop and the status ladder over the runs selected from the scanned rows |
| `WindowEvidence.WindowsAreDistinct` | backend/app/api/ai.py:548-558 | Reported windows have distinct signatures and no signature is left out |
| `EvidenceMeaning.ReportedAt` | backend/app/api/ai.py:548-558 | Window i is the first selected run with its figures, after exactly the windows before it |
| `EvidenceMeaning.FiguresAreDistinct` | backend/app/api/ai.py:548-558 | No two reported windows agree in nodes, edges, positives, both holdout counts and score, and every selected run agrees with one |
| `WindowEvidence.CountersAreExact` | backend/app/api/ai.py:560-563 | Each counter counts the reported windows with its property |
| `EvidenceMeaning.CounterMeaning` | backend/app/api/ai.py:530-563 | The four counters count the reported windows that are eligible, benchmarkable, have both holdout counts above zero, or have one below three |
| `WindowEvidence.CountersAreOrdered` | backend/app/api/ai.py:530-563 | eligible <= benchmarkable <= reported, and every reported window is dual-class or class-thin |
| `EvidenceMeaning.StatusExactly` | backend/app/api/ai.py:605-621 | The status from the reported windows: strong if and only if three eligible, three dual-class and AUCs averaging 0.75, else moderate on two, two and F1 averaging 0.8, else weak without dual-class windows or with only class-thin ones, else limited |
| `WindowEvidence.NoDualClassIsWeak` | backend/app/api/ai.py:491-621 | If any run was scanned and no reported window is dual-class, some window is reported, all are class-thin, and the reported status is weak |
| `WindowEvidence.MissingExactly` | backend/app/api/ai.py:491-505 | The status is missing if and only if no window is reported |
| `WindowEvidence.StrongNeedsThree` | backend/app/api/ai.py:611-615 | Strong evidence rests on at least three eligible and three dual-class windows with distinct signatures, each the newest run of its window |

## Left out

- HashIndex.IndexFile.Update: the partner id and retention days copied into the file header are left out.
- Publisher.BuildPayload: partner id, schema and model versions and window start are not fields of the model.
- EdgeAgent.Agent.Publish: the request signature is not modelled.
- EdgeAgent.Agent.RunPipeline: heartbeat, hub-reachability, sync-status, timestamp and error-text fields of the state are left out, as is `is_running`; runs are sequential, and nothing is claimed about overlapping ones.
- EdgeAgent.Agent.SyncInbox: the sync time and local acknowledgements are not modelled; a sync overwrites the whole cache.
- ModelStaleness.StalenessBound: the path without torch, which never trains, is not modelled.
- ClusterProperties.ClusterCohesion: stated for profiles where services link nothing, because two similarities of different kinds do not chain; EndpointPath needs no such condition.
- OverlapClaims.Build: each query is a filter over an arbitrary row sequence, and the dictionaries of evidence reasons and hashes are filters over the evidence and event rows.
- ClaimTable.ReplayIsIdempotent: assumes the queries return the rows in the same order, as a pair's draft comes from the first cluster visited.
- ClaimTable.Claims.Work: claim ids, the GraphDeltaLog rows and the projection to Neo4j are not part of this model.
- Connector.FetchDb: total_amount_ksh (a floating-point sum) and last_seen_age_sec are left out, and the logarithmic amount weight is any integer, clamped to at least 1; a failing query, which returns no records, is the empty result set.
- Connector.FetchCsv: last_seen_age_sec, the age of the last sighting at fetch time, is left out.
- LegacyBridge.Bridge.Poll: a cursor file written in part is not modelled; the receiver's accepted counts are left out.
- Procurement.Aggregate: a contracts field of a type other than a list, and the feature vectors and snapshot upsert after line 579, are left out.
- GoldLabels.BuildRows: the two passes are one method with the label as a parameter; row ids and notes are left out, and the candidate queries are arbitrary sequences.
- WindowEvidence.BuildScientificEvidence: precision, recall, PR-AUC and score aggregates are left out, as is `_fairness_blocked`, whose result is a field of the run.
- Floating-point rounding: scores, similarities and values are real numbers, and `round(x, 4)` is the half-even rounding of a real.
- HMAC-SHA256 (RFC 2104), torch training and inference, the heuristic scorer, `_weak_label`, and the entropy behind the convergence index: their results are parameters.
- Parsing of timestamps, JSON and CSV, file encodings, and files damaged in mid-write other than the model artifact.
- HTTP routes, authentication, database sessions, OpenSearch, Neo4j, migrations, the frontend, demo data and simulators: plumbing or easy members.
