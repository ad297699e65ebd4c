# Verified model of the hotel directory and nearby-intelligence services

The project models the algorithms and protocols that two services of the repository rest on, and proves that they keep
their promises on all inputs and over all runs.

- **Relation graph** (`KCore`, `PageRank`, `Percentiles`): core numbers by peeling with a work queue, PageRank with
  dangling mass, and tie-averaged percentile ranks. Core numbers have an extremal specification with one solution;
  PageRank iterates are distributions, contract in L1 and converge; percentiles agree with their counting form.
- **Person features** (`Features`): evidence deduplication, totals, winsorising and lane shrinkage.
- **Hotel delivery** (`Collapse`, `HotelSave`, `HotelWriters`, `OverlappingSaves`, `ZipLease`, `Outbox`,
  `Delivery`, `Fleet`, `Recovery`): a scraped batch is collapsed by identity, stored in a local outbox, saved to the shared hotel table under a ZIP lease, and acknowledged.
  Whole runs are state machines whose steps are the transactions of the source, with a crash possible between any two.
  `ZipLease` has the leases of many workers beside operators and virtual machines, `Delivery` the outbox of one worker,
  and `Fleet` joins them: many workers, one lease table, one hotel table. `HotelWriters` has everybody who writes hotels,
  and `OverlappingSaves` the saves that run at the same moment.
- **Website backfill** (`Backfill`): a keyset scan that enqueues first and moves its cursor second.
- **Business intake and lookup** (`Upsert`, `Lookup`): segmented upserts that refine record-by-record ones, and bounded
  reads that refine unbounded ones.
- **Scanners and codecs** (`Geohash`, `SqlScanner`, `SchemaSplit`, `Base64Url`, `Consent`).

`Options`, `Sorting`, `Sums` and `RelationGraph` hold what several modules share. Objects that the source updates in place are
classes (`Database`, `ZipTable` and `ZipWorker`, `LocalOutbox`, `WebsiteQueue`, `Intake`, `ReceiptStore`); its loops are
methods. Each such method is proved against a function or predicate, about which the lemmas are.

Some things came out differently from what a reader of the code might expect:

- One pass of the record collapse may leave two records with one CID (`Collapse.OnePassMayShareCid`). The flush path
  collapses a batch more than once, and two passes are enough to make CIDs distinct.
- The comment on the flush says that replay after a crash is safe because records resolve through their existing
  identities (`services/hotel-scraper-windows/app/worker.py:1483-1489`). For a commit later than the
  observations this holds exactly when no record is *displaced*: found by CID alone in a row
  whose CID another record of the same batch replaces
  (`HotelSave.FlushReplayIff`, with the counterexample `HotelSave.ReplayMayInsert`). Records that resolve to distinct
  rows are never displaced.
- The lease does not guard the hotel table by itself. Website evidence and the virtual machines' upsert write hotels
  without it (`services/hotel-scraper-windows/app/worker.py:1676-1748`,
  `services/hotel-scraper-windows/app/vm_sources/hotel-scraper/scripts/lib/db.mjs:181-290`). Evidence only fills blanks, and
  no writer changes an identity once set (`Fleet.HotelWritesAreFenced`, `Fleet.IdentitiesLast`). A replay therefore adds
  no hotel whatever others write in between (`Fleet.RecommitAddsNothing`), except for a record that its row knows by CID
  alone: a machine's upsert erases CIDs (`HotelWriters.MachineErasesCid`).
- Operators end fresh leases: queueing a ZIP, or all of them, clears the token of a row in progress
  (`ZipLease.LeaseEndsIff`). The evicted worker can then write nothing for that ZIP (`ZipLease.EvictedCannotWrite`).
- Virtual machines claim and recover rows of the same table without touching the mark that carries a worker's token. A
  machine that recovers an expired browser lease and claims the row makes the old token match again, and the worker
  writes on a lease that had lapsed (`ZipLease.MachineRearmsLapsedLease`). Exactly that recovery is what opens the door
  (`ZipLease.StaleTokenIff`); without it fencing holds (`ZipLease.FencedBesideMachines`).
- The outbox compares a repeated payload with its decoded image, so a payload that JSON does not reproduce conflicts with
  itself (`Outbox.EnqueueAgain`, `Outbox.AcknowledgeAgain`).
- A consent receipt whose two times fall into one whole second is issued but never verifies, and so is one with
  bindings outside ASCII (`Consent.NeverVerifies`, with the witnesses `Consent.SameSecondIsIssuedInVain` and
  `Consent.NonAsciiIsIssuedInVain`).
- The admission lane of the backfill is not a hard bound: a result saved for a job that was already settled makes it
  active again, and the lane is exceeded by as many jobs as that happens to (`Backfill.AdmissionBounded`).
- The two percentile implementations differ for a list of one value and another value asked for
  (`Percentiles.CountingAgrees`); the asset scorer never asks for one (`Percentiles.BoundedAgrees`).

Times, clocks, tokens, lock outcomes, directory failures and store failures are parameters. Effective edge weights and
effective evidence values are arbitrary reals (non-negative for edges). JSON, hashing, signing, case folding and
character classes are function parameters with only the laws a proof needs. `dafny verify dfyconfig.toml` checks the
whole project.

## Model

| member | source | states |
|---|---|---|
| KCore.CoreNumbers | services/nws-nearby-intelligence/app/graph_scoring.py:103-134 | the peeling returns the core numbering: for every k the nodes with core >= k are the greatest node set in which each node keeps k neighbours inside the set; both loops end although the queue may hold duplicates |
| KCore.BuildGraph | services/nws-nearby-intelligence/app/graph_scoring.py:104-109 | two nodes are adjacent exactly when some edge of positive weight joins them in either direction, and no node is isolated |
| KCore.InitialDegrees | services/nws-nearby-intelligence/app/graph_scoring.py:114 | the starting degrees are the neighbour counts inside the whole graph |
| KCore.LowDegree | services/nws-nearby-intelligence/app/graph_scoring.py:119-122 | the queue is filled with exactly the remaining nodes of degree at most the level |
| KCore.MinimumDegree | services/nws-nearby-intelligence/app/graph_scoring.py:121 | the raised level is attained by, and a lower bound of, the remaining degrees |
| KCore.NextQueue | services/nws-nearby-intelligence/app/graph_scoring.py:119-122 | the next queue is not empty and holds exactly the remaining nodes at or below the level, which rises only when nothing else is removable |
| KCore.Drain | services/nws-nearby-intelligence/app/graph_scoring.py:123-133 | emptying the queue keeps degrees exact and the extremal invariant at the level, and always removes a node |
| KCore.RelaxNeighbours | services/nws-nearby-intelligence/app/graph_scoring.py:129-133 | after a removal every remaining node's degree again counts its remaining neighbours, and every queued remaining node is at or below the level |
| KCore.RemovalKeepsInvariant | services/nws-nearby-intelligence/app/graph_scoring.py:127-128 | removing a node of low remaining degree at the current level keeps every level dense and every denser set intact |
| KCore.RaisingKeepsInvariant | services/nws-nearby-intelligence/app/graph_scoring.py:120-122 | raising the level to the least remaining degree keeps the invariant |
| KCore.LowNodeInNoDenserSet | services/nws-nearby-intelligence/app/graph_scoring.py:119-128 | a node whose remaining degree is at most k belongs to no set denser than k |
| KCore.CoreNumbersAreUnique | services/nws-nearby-intelligence/app/graph_scoring.py:103-134 | the specification has one solution, so neither queue order nor set order can matter |
| KCore.CoreNumbersDependOnLinksOnly | services/nws-nearby-intelligence/app/graph_scoring.py:104-109 | core numbers depend only on which pairs are linked: not on edge order, repetition, direction or weight |
| KCore.CoreNumberIsLargestDenseMembership | services/nws-nearby-intelligence/app/graph_scoring.py:103-134 | core(n) >= k if and only if some set of minimum inside-degree k contains n |
| KCore.WeightlessEdgesDoNotCount | services/nws-nearby-intelligence/app/graph_scoring.py:104-109 | two edge lists with the same edges of positive weight have the same core numbers |
| KCore.CoreBounds | services/nws-nearby-intelligence/app/graph_scoring.py:103-134 | exactly the nodes with a neighbour have a core number; it is at least one and at most the number of neighbours |
| PageRank.WeightedPageRank | services/nws-nearby-intelligence/app/graph_scoring.py:56-100 | no edges give no ranks; a damping outside (0, 1) is an error; otherwise the result is the iterate at which the stopping rule stops, positive on every end point and summing to 1, so the normalisation changes nothing |
| PageRank.Iterations | services/nws-nearby-intelligence/app/graph_scoring.py:82-98 | the loop returns the first iterate whose change is within the tolerance, or the last one of the limit |
| PageRank.StopsIff | services/nws-nearby-intelligence/app/graph_scoring.py:82-98 | the iterations end after the first change within the tolerance, and at the limit at the latest |
| PageRank.StepIsSurfing | services/nws-nearby-intelligence/app/graph_scoring.py:82-94 | on a probability distribution one pass is one move of a random surfer who follows an edge in proportion to its weight with the damping factor, or goes anywhere, and from a node without weight goes anywhere |
| PageRank.MovesAddUp | services/nws-nearby-intelligence/app/graph_scoring.py:82-94 | the chances of the surfer's next place add up to one, at every node |
| PageRank.Advance | services/nws-nearby-intelligence/app/graph_scoring.py:83-94 | one pass of the loop is one application of the PageRank equation |
| PageRank.Spread | services/nws-nearby-intelligence/app/graph_scoring.py:83-94 | every node ends with the even part plus what all sources deliver to it |
| PageRank.SpreadFrom | services/nws-nearby-intelligence/app/graph_scoring.py:88-94 | one source adds to each target exactly its damped, weight-proportional share |
| PageRank.GroupEdges | services/nws-nearby-intelligence/app/graph_scoring.py:70-77 | grouping keeps, per source, the positive edges in order and their exact total weight |
| PageRank.EndPoints | services/nws-nearby-intelligence/app/graph_scoring.py:64 | the nodes are the end points of the edges, once each, in text order |
| PageRank.FlowConservesMass | services/nws-nearby-intelligence/app/graph_scoring.py:84-94 | the linear part of a step turns total rank into damping times total rank: outgoing plus dangling mass is everything |
| PageRank.StepKeepsDistribution | services/nws-nearby-intelligence/app/graph_scoring.py:81-94 | a step maps positive ranks summing to 1 to positive ranks summing to 1 |
| PageRank.IteratesAreDistributions | services/nws-nearby-intelligence/app/graph_scoring.py:80-96 | every iterate is positive and sums to 1 |
| PageRank.StepContracts | services/nws-nearby-intelligence/app/graph_scoring.py:81-95 | two rank vectors are brought closer in L1 by at least the damping factor |
| PageRank.DeltaContracts | services/nws-nearby-intelligence/app/graph_scoring.py:95-98 | each change is at most damping times the one before |
| PageRank.IteratesConverge | services/nws-nearby-intelligence/app/graph_scoring.py:82-98 | the k-th iterate is within 2 * damping^k of any stationary distribution |
| PageRank.IteratesAreCauchy | services/nws-nearby-intelligence/app/graph_scoring.py:82-98 | without assuming anything to converge to: (1 - damping) times the distance between the k-th iterate and any later one is at most damping^k times the first change |
| PageRank.StationaryIsUnique | services/nws-nearby-intelligence/app/graph_scoring.py:82-94 | two stationary vectors agree on every node |
| PageRank.StoppingError | services/nws-nearby-intelligence/app/graph_scoring.py:95-98 | when the loop stops on a small change, the distance to a stationary vector is at most damping / (1 - damping) times that change |
| PageRank.FromSourcesIsInflow | services/nws-nearby-intelligence/app/graph_scoring.py:88-94 | summing source by source over grouped edges equals summing edge by edge |
| PageRank.RankingIsUnique | services/nws-nearby-intelligence/app/graph_scoring.py:56-100 | two runs on the same edges, damping, limit and tolerance return the same table whatever order the nodes are listed in |
| PageRank.SameIterates | services/nws-nearby-intelligence/app/graph_scoring.py:64-96 | the iterates do not depend on the order of the node list |
| Percentiles.TieGroupScan | services/nws-nearby-intelligence/app/graph_scoring.py:38-53 | sorting and scanning tie groups gives every key the share of values below its value, ties counting half, and zero to values that are not positive if zero is zero |
| Percentiles.AssignGroup | services/nws-nearby-intelligence/app/graph_scoring.py:50-51 | every member of a tie group, and nobody else, gets the group's percentile |
| Percentiles.TieGroupRank | services/nws-nearby-intelligence/app/graph_scoring.py:49 | the middle position of a maximal tie group is the counting form of the mid-rank |
| Percentiles.CountingAgrees | services/nws-nearby-intelligence/app/affluence.py:39-44 | the counting percentile equals the mid-rank if and only if the list is not a single other value |
| Percentiles.BoundedAgrees | services/nws-nearby-intelligence/app/affluence.py:106-107 | the scorer brings the value into the list's range first, and then the two forms always agree |
| Percentiles.BoundedMonotone | services/nws-nearby-intelligence/app/affluence.py:106-107 | the scorer's percentile grows with the value, lies in [0, 1], and is the mid-rank of a listed value |
| Percentiles.ClipKeepsOrder | services/nws-nearby-intelligence/app/affluence.py:47-54 | clipping a cohort keeps its size and the order of its values, and every clipped value is a value of the list |
| Percentiles.ClippedIs | services/nws-nearby-intelligence/app/affluence.py:47-54 | from twenty values on each is moved between the two order statistics at the fraction and its complement, counted in whole steps of the sorted list; a shorter list stays |
| Percentiles.MidRankMonotone | services/nws-nearby-intelligence/app/graph_scoring.py:38-53 | a larger value never ranks lower, and strictly higher when either value occurs |
| Percentiles.MidRankRange | services/nws-nearby-intelligence/app/graph_scoring.py:49 | percentiles lie in [0, 1], strictly inside for a value that occurs |
| Percentiles.PercentileMonotone | services/nws-nearby-intelligence/app/feature_engineering.py:137-152 | mapping non-positive values to zero keeps the order and the range |
| Percentiles.PercentilesSumToHalf | services/nws-nearby-intelligence/app/graph_scoring.py:38-53 | the percentiles of n entries sum to n / 2 |
| Percentiles.TotalHalfIsHalfSquare | services/nws-nearby-intelligence/app/graph_scoring.py:49 | over all pairs the below-or-half counts add up to n * n / 2 |
| Features.Deduplicate | services/nws-nearby-intelligence/app/feature_engineering.py:82-112 | per person, kind and evidence key the first of the best-ranked signals survives, in the order in which the keys first appear; kept plus duplicates is all |
| Features.SurvivorIsBest | services/nws-nearby-intelligence/app/feature_engineering.py:87-112 | what survives of a person, kind and evidence key is as good as any of its signals, by value, then time, then quality, then family, and the first such |
| Features.SelectedIsMaximum | services/nws-nearby-intelligence/app/feature_engineering.py:87-112 | a key contributes the largest effective value seen for it, and nothing else |
| Features.BuildTotals | services/nws-nearby-intelligence/app/feature_engineering.py:209-233 | without people the result is empty; otherwise signals about unknown people are an error, or each total is the sum of the selected values of that person and kind |
| Features.TotalsDependOnSignalSet | services/nws-nearby-intelligence/app/feature_engineering.py:221-233 | totals are a function of the set of signals: repeating or permuting signals changes none of them |
| Features.QuantileRange | services/nws-nearby-intelligence/app/feature_engineering.py:115-125 | an interpolated quantile lies between the smallest and the largest value |
| Features.QuantileMonotone | services/nws-nearby-intelligence/app/feature_engineering.py:115-125 | quantiles grow with the probability |
| Features.InterpolateBracket | services/nws-nearby-intelligence/app/feature_engineering.py:120-125 | the interpolated value lies between the two sorted neighbours of its position |
| Features.QuantileIs | services/nws-nearby-intelligence/app/feature_engineering.py:115-125 | the quantile is the piecewise linear curve through the sorted values at equal steps |
| Features.WinsorizeKeepsOrder | services/nws-nearby-intelligence/app/feature_engineering.py:128-134 | clipping keeps keys and the order of values and moves nothing outside the observed range |
| Features.WinsorizedIs | services/nws-nearby-intelligence/app/feature_engineering.py:128-134 | what lies beyond the 0.01 and 0.99 quantiles is moved onto them, and nothing else |
| Features.GroupByLane | services/nws-nearby-intelligence/app/feature_engineering.py:165-167 | each lane holds its people in the order they were given, lanes in order of first appearance |
| Features.ScoreLane | services/nws-nearby-intelligence/app/feature_engineering.py:168-177 | every member of a lane gets the shrunk percentile; a member without a total is a missing key |
| Features.LaneShrunkPercentiles | services/nws-nearby-intelligence/app/feature_engineering.py:155-178 | the call fails on a missing person; otherwise each score weighs the mid-rank among the winsorised totals of the lane's people by their number, and the one among everybody's by the shrinkage |
| Features.ShrunkBalance | services/nws-nearby-intelligence/app/feature_engineering.py:172-177 | the distance of a score to the lane's own percentile is to its distance to the global one as the shrinkage is to the size of the lane |
| Features.ShrunkWithin | services/nws-nearby-intelligence/app/feature_engineering.py:168-177 | scores stay in [0, 1] |
| Features.ShrunkMonotone | services/nws-nearby-intelligence/app/feature_engineering.py:155-178 | within a lane a larger total never gets a smaller score, through winsorising, ranking and shrinking |
| Collapse.CollapseRecords | services/hotel-scraper-windows/app/worker.py:1178-1207 | the list and the three in-memory indexes compute the fold that absorbs each record by place id, then CID, then key |
| Collapse.CollapsedIsGrouping | services/hotel-scraper-windows/app/worker.py:1160-1207 | nothing is lost: there is one output for each group, a record joining the group of the latest earlier record with its place id, else its CID, else its key; the output has the key and location of the first member, every other field and the place id as first known, the CID and raw values as last known, and all sources |
| Collapse.CollapsedIsDistinct | services/hotel-scraper-windows/app/worker.py:1178-1207 | the output has pairwise distinct dedup keys and place ids |
| Collapse.OnePassMayShareCid | services/hotel-scraper-windows/app/worker.py:1178-1207 | CIDs need not be distinct: three concrete records that validation accepts leave two outputs with one CID |
| Collapse.CollapsedCidsDistinct | services/hotel-scraper-windows/app/worker.py:1178-1207 | over records with distinct keys and place ids a pass also makes CIDs distinct |
| Collapse.TwiceCollapsedIsDistinct | services/hotel-scraper-windows/app/worker.py:1209-1260 | two passes, as on the flush path, leave all three identities distinct |
| Collapse.CollapseIsIdempotentAfterTwo | services/hotel-scraper-windows/app/worker.py:1178-1207 | a third pass changes nothing; neither does a pass over distinct identities |
| HotelSave.ExistingRows | services/hotel-scraper-windows/app/worker.py:1284-1311 | one query and three group-bys find, for every record of the batch, exactly the rows that share its key, place id or CID |
| HotelSave.ResolveExisting | services/hotel-scraper-windows/app/worker.py:1313-1347 | one candidate row is returned, none if there is none, and several stop the batch |
| HotelSave.ResolvesIff | services/hotel-scraper-windows/app/worker.py:1313-1347 | a record resolves to the only row that shares its key, place id or CID, and to none if none does |
| HotelSave.AcceptedIff | services/hotel-scraper-windows/app/worker.py:2003-2025 | a batch is refused exactly when some record shares identities with two rows, or more records than the limit share them with none |
| HotelSave.Database.ResolveAll | services/hotel-scraper-windows/app/worker.py:2003-2011 | all records are resolved against the rows as they are before any change, and the unseen ones counted |
| HotelSave.Database.TouchResolved | services/hotel-scraper-windows/app/worker.py:2027-2038 | the resolved rows are touched in record order |
| HotelSave.Database.InsertUnresolved | services/hotel-scraper-windows/app/worker.py:2040-2066 | the rest are inserted, skipping conflicts, and the inserts counted |
| HotelSave.Database.SaveResults | services/hotel-scraper-windows/app/worker.py:1965-2111 | an ambiguous record or too many new hotels leaves the table as it was; otherwise every collapsed record is either touched or inserted, and the unique indexes hold |
| HotelSave.SavedRowTakes | services/hotel-scraper-windows/app/worker.py:1384-1420 | what a save leaves in a row: the first fresh record fills seven named columns where they are blank, replaces four named live figures if it comes from Maps, and brings its CID, raw data and sources; a blank place id is filled |
| HotelSave.TouchStepTakes | services/hotel-scraper-windows/app/worker.py:1384-1420 | the same record by record, for commits at any time: a row takes what a fresh record resolved to it brings, and no other record changes it |
| HotelSave.StaleRowStays | services/hotel-scraper-windows/app/worker.py:1384-1402 | a row to which only stale records resolve stays as it is |
| HotelSave.SavedNewRow | services/hotel-scraper-windows/app/worker.py:1349-1381 | a record without a row gets one with what it knows, a hotel by type unless it says otherwise, found in the searched ZIP |
| HotelSave.SaveKeepsUnique | services/hotel-scraper-windows/app/worker.py:1965-2111 | for any accepted batch the saved table keeps dedup keys and non-null place ids unique, and every unresolved record gets its own new row |
| HotelSave.TransactionsKeepUnique | services/hotel-scraper-windows/app/worker.py:1965-2111 | whatever batches any number of workers save, in whatever order their transactions commit, keys and place ids stay unique |
| HotelSave.NeverConflicts | services/hotel-scraper-windows/app/worker.py:2040-2066 | no insert ever meets a conflicting row, so skip-on-conflict never skips |
| HotelSave.TouchedTableUnique | services/hotel-scraper-windows/app/worker.py:1384-1420 | touching alone keeps both columns unique |
| HotelSave.MatchesAfter | services/hotel-scraper-windows/app/worker.py:1284-1347 | exactly which rows each record matches after the commit |
| HotelSave.TouchKeepsKnown | services/hotel-scraper-windows/app/worker.py:1384-1420 | a touch loses no known value, replaces one only by a live figure from a newer Maps record, and takes every new value from the record |
| HotelSave.TouchTwice | services/hotel-scraper-windows/app/worker.py:1384-1420 | touching a row twice with one record is touching it once |
| HotelSave.TouchedRow | services/hotel-scraper-windows/app/worker.py:1384-1420 | a row is changed by the first newer record resolved to it and by no later one of the batch |
| HotelSave.ReplayHarmlessIff | services/hotel-scraper-windows/app/worker.py:1483-1537 | with distinct identities and a commit later than the observations, saving the batch again inserts nothing and changes no row if and only if no record was displaced, that is known to its row by CID alone while another record replaced that CID |
| HotelSave.DistinctTargetsSuffice | services/hotel-scraper-windows/app/worker.py:1483-1537 | records that resolve to pairwise distinct rows are never displaced |
| HotelSave.ReplayMayInsert | services/hotel-scraper-windows/app/worker.py:1483-1537 | a concrete displaced batch that validation and both collapses leave as it is, and whose replay inserts a second row |
| HotelSave.FlushedAreDistinct | services/hotel-scraper-windows/app/worker.py:1502-1510 | a flushed batch has distinct keys, place ids and CIDs |
| HotelSave.FlushReplayIff | services/hotel-scraper-windows/app/worker.py:1483-1537 | on the flush path the equivalence needs no assumption on CIDs |
| HotelWriters.EvidenceOnlyFills | services/hotel-scraper-windows/app/worker.py:1676-1748 | website evidence changes no identity, no time and no known value, and adds or removes no row |
| HotelWriters.EvidenceInRow | services/hotel-scraper-windows/app/worker.py:1676-1748 | evidence fills phone, address, ZIP, state and website where blank, writes its two notes into the raw data, and changes nothing else |
| HotelWriters.EvidenceWithoutRow | services/hotel-scraper-windows/app/worker.py:1682-1690 | evidence about an unknown hotel, or one that several rows claim, is not written |
| HotelWriters.SightingMerges | services/hotel-scraper-windows/app/vm_sources/hotel-scraper/scripts/lib/db.mjs:181-246 | a machine's sighting of a known key merges into its row: new values win, except for the place id, the OSM id and the ZIP it was found by |
| HotelWriters.SightingByPlace | services/hotel-scraper-windows/app/vm_sources/hotel-scraper/scripts/lib/db.mjs:247-290 | a sighting whose place id belongs to another row updates that row, in seven columns, its source, raw data and time |
| HotelWriters.SightingIsNew | services/hotel-scraper-windows/app/vm_sources/hotel-scraper/scripts/lib/db.mjs:181-246 | a sighting of a new key and place id becomes a row; one without a key changes nothing |
| HotelWriters.UpsertKeeps | services/hotel-scraper-windows/app/vm_sources/hotel-scraper/scripts/lib/db.mjs:181-290 | a machine's upsert keeps dedup keys and place ids unique on each of its paths, removes no row and changes no set identity |
| HotelWriters.WritesKeep | services/hotel-scraper-windows/app/worker.py:1965-2111 | so does any sequence of result transactions, website evidence and machine upserts |
| HotelWriters.ReplayAmongOthers | services/hotel-scraper-windows/app/worker.py:1483-1489 | after any such sequence a replay of the batch adds no hotel, unless some record was known by CID alone |
| HotelWriters.MachineErasesCid | services/hotel-scraper-windows/app/vm_sources/hotel-scraper/scripts/lib/db.mjs:214 | a concrete record known by CID alone: a machine's sighting replaces the raw data and with it the CID, and the replay inserts a second hotel |
| OverlappingSaves.LateSaveKeepsUnique | services/hotel-scraper-windows/app/worker.py:2003-2078 | a save keeps the unique columns whatever commits between its look-up and its inserts |
| OverlappingSaves.SkippedIff | services/hotel-scraper-windows/app/worker.py:2050-2064 | the conflict clause skips exactly the unseen records whose key or place id is in the table by the time the inserts begin |
| OverlappingSaves.TakenSince | services/hotel-scraper-windows/app/worker.py:2050-2064 | what such a record conflicts with is a new row or a row that got its place id after the look-up |
| OverlappingSaves.LateSaveIsCommit | services/hotel-scraper-windows/app/worker.py:2003-2078 | with nobody else in between it is the save in one step |
| OverlappingSaves.SaveAlone | services/hotel-scraper-windows/app/worker.py:2003-2078 | a save with nobody beside it goes through in two steps and is the save in one, or changes nothing when it is refused |
| OverlappingSaves.StepKeepsSound | services/hotel-scraper-windows/app/worker.py:2003-2078 | look-ups, finishing saves, roll-backs and other writers, in any order, break neither the table nor a save in flight, and keep every identity |
| OverlappingSaves.OverlappingSavesKeepUnique | services/hotel-scraper-windows/app/worker.py:2003-2078 | in every run of overlapping saves dedup keys and place ids stay unique |
| OverlappingSaves.FinishSkipsIff | services/hotel-scraper-windows/app/worker.py:2050-2064 | in every reachable state a finishing save skips exactly the unseen records whose key or place id was taken since its look-up |
| OverlappingSaves.FinishLosesNothing | services/hotel-scraper-windows/app/worker.py:2003-2078 | skipping loses no hotel: after a save that was not rolled back each record has a row with its key or place id, unless it was known by CID alone |
| ZipLease.ZipWorker.ClaimNextZip | services/hotel-scraper-windows/app/worker.py:846-887 | expired leases are recovered, then one eligible ZIP is taken under a new token, or none is eligible |
| ZipLease.ZipWorker.LockOwnedZip | services/hotel-scraper-windows/app/worker.py:889-896 | the lock succeeds exactly when the row is in progress under this worker's token |
| ZipLease.ZipWorker.SetZipState | services/hotel-scraper-windows/app/worker.py:2114-2128 | an outcome is written, and the claim given up, exactly when the row is still held; otherwise nothing changes |
| ZipLease.ZipWorker.ClaimOutboxZip | services/hotel-scraper-windows/app/worker.py:940-954 | a stored batch re-claims its ZIP unless somebody else holds it |
| ZipLease.ZipWorker.HeartbeatClaims | services/hotel-scraper-windows/app/worker.py:898-912 | rows still held get the present time, and nothing else changes |
| ZipLease.ZipWorker.ReleaseZipClaims | services/hotel-scraper-windows/app/worker.py:914-930 | only rows still held go back to pending, and all claims are forgotten |
| ZipLease.FreshLeaseLasts | services/hotel-scraper-windows/app/worker.py:898-938 | in every run no worker and no machine recovers a lease within thirty minutes of a heartbeat of its holder or a claim |
| ZipLease.RecoveryEndsIff | services/hotel-scraper-windows/app/worker.py:849-853 | in every run a recovery ends a lease if and only if thirty minutes have passed since the last heartbeat or claim |
| ZipLease.RecoveryIs | services/hotel-scraper-windows/app/worker.py:849-853 | recovery resets exactly the rows in progress under a browser lease that is older than thirty minutes |
| ZipLease.MachineRecoveryIs | services/hotel-scraper-windows/app/vm_sources/hotel-scraper/scripts/lib/db.mjs:158-167 | a machine's recovery takes any row in progress that is as old, and leaves the mark |
| ZipLease.ReleaseFrees | services/hotel-scraper-windows/app/worker.py:914-930 | a released ZIP carries no token and anybody may claim it; other rows stay |
| ZipLease.RetryFrees | services/hotel-scraper-windows/app/worker.py:816-838 | a retry puts exactly the failed and quarantined ZIPs back, and anybody may claim them |
| ZipLease.DoneIsClosed | services/hotel-scraper-windows/app/worker.py:846-887 | nobody claims a finished ZIP again before a refresh asks for scrapes as old as its own |
| ZipLease.ParkedIsClosed | services/hotel-scraper-windows/app/worker.py:2130-2165 | a parked ZIP keeps the time of its last scrape, and nobody claims it before it is put back |
| ZipLease.StoredClaimSurvives | services/hotel-scraper-windows/app/worker.py:940-954 | after a crash the worker takes the ZIP of a stored batch again under the same token and can write |
| ZipLease.StepKeepsTokensOwned | services/hotel-scraper-windows/app/worker.py:846-954 | no step of any worker makes a token known to two workers or for two ZIPs |
| ZipLease.OneHolder | services/hotel-scraper-windows/app/worker.py:889-896 | a ZIP never has two holders |
| ZipLease.ClaimEvicts | services/hotel-scraper-windows/app/worker.py:846-887 | a claim by one worker ends every other worker's lease at once |
| ZipLease.GainsIff | services/hotel-scraper-windows/app/worker.py:846-954 | a step makes a worker the holder of a ZIP if and only if it is the worker's own claim of that ZIP, or a virtual machine's claim of a row that still carries the worker's token |
| ZipLease.LeaseEndsIff | services/hotel-scraper-windows/app/worker.py:846-954 | a step of somebody else ends a lease if and only if it recovers a lease older than thirty minutes, or is an operator's re-queue of the ZIP, or a virtual machine's report on it |
| ZipLease.ZipTable.Requeue | services/hotel-scraper-windows/app/main.py:1138-1154 | the named ZIPs become pending and lose their token, whatever their state and whoever holds them; a known ZIP without a row gets one |
| ZipLease.ZipTable.RequeueAll | services/hotel-scraper-windows/app/main.py:1203-1222 | every row that is not pending becomes pending and loses its token, and the number of them is returned |
| ZipLease.EvictedCannotWrite | services/hotel-scraper-windows/app/worker.py:889-896 | in every run a holder that lost its ZIP can write nothing for it until it claims the ZIP again, or a virtual machine makes its token match again |
| ZipLease.TokenFromClaimBetween | services/hotel-scraper-windows/app/worker.py:846-954 | a row without a token carries one again only after some worker claimed the ZIP |
| ZipLease.StaleTokenIff | services/hotel-scraper-windows/app/vm_sources/hotel-scraper/scripts/lib/db.mjs:158-167 | a row out of progress comes to carry a token in exactly one way: a virtual machine recovers an expired browser lease, because it leaves the mark in place |
| ZipLease.FencedBesideMachines | services/hotel-scraper-windows/app/vm_sources/hotel-scraper/scripts/lib/db.mjs:83-127 | while no virtual machine recovers an expired browser lease, a lapsed holder writes only after its own new claim, whatever else the machines do |
| ZipLease.MachineRearmsLapsedLease | services/hotel-scraper-windows/app/vm_sources/hotel-scraper/scripts/lib/db.mjs:83-167 | a concrete run in which a machine does so, and a worker whose lease lapsed writes without a new claim |
| ZipLease.RunKeepsTokensOwned | services/hotel-scraper-windows/app/worker.py:846-954 | tokens stay unshared in every state of every run, with heartbeats, expiry, releases, re-queues, virtual machines and crashes anywhere |
| ZipLease.WritesAreFenced | services/hotel-scraper-windows/app/worker.py:2114-2128 | in every run an accepted write is made by the only holder of the row, and a worker that was not the holder at some point has claimed the ZIP again since, or a virtual machine claimed a row that still carried its token |
| Outbox.LocalOutbox.Enqueue | services/hotel-scraper-windows/app/outbox.py:313-390 | a valid new batch is stored as its JSON image; an existing id returns the stored batch when the payload as given equals it and is a conflict otherwise |
| Outbox.LocalOutbox.Get | services/hotel-scraper-windows/app/outbox.py:392-404 | lookup, with the invalid and the missing id as errors |
| Outbox.LocalOutbox.OldestPending | services/hotel-scraper-windows/app/outbox.py:406-422 | the head of the queue is the pending batch first by creation time and id, or there is none |
| Outbox.LocalOutbox.MarkDelivered | services/hotel-scraper-windows/app/outbox.py:424-446 | delivery is the one allowed transition to delivered |
| Outbox.LocalOutbox.MarkQuarantined | services/hotel-scraper-windows/app/outbox.py:448-469 | quarantine needs a valid reason and is the one allowed transition to quarantined |
| Outbox.LocalOutbox.Transition | services/hotel-scraper-windows/app/outbox.py:517-582 | only a pending batch becomes terminal; a repeated acknowledgement returns the batch unchanged, a different one is an error |
| Outbox.LocalOutbox.PruneTerminal | services/hotel-scraper-windows/app/outbox.py:487-513 | exactly the terminal batches older than the cutoff disappear, and their number is returned |
| Outbox.EnqueueOutcome | services/hotel-scraper-windows/app/outbox.py:313-390 | what becomes of a batch that is enqueued: invalid, stored as its image, the stored one again, or a conflict |
| Outbox.DeliveryOutcome | services/hotel-scraper-windows/app/outbox.py:517-582 | what becomes of a reported delivery in each state of the batch; different evidence conflicts |
| Outbox.QuarantineOutcome | services/hotel-scraper-windows/app/outbox.py:517-582 | what becomes of a reported quarantine in each state of the batch; a different reason or different evidence conflicts |
| Outbox.OperationsEvolve | services/hotel-scraper-windows/app/outbox.py:313-582 | every operation keeps payloads, changes a status only from pending to terminal, and removes only old terminal batches |
| Outbox.EnqueueAgain | services/hotel-scraper-windows/app/outbox.py:313-390 | a second enqueue of a batch is idempotent if and only if the payload is its own JSON image, and otherwise a conflict of the batch with itself; nothing ever changes |
| Outbox.AcknowledgeAgain | services/hotel-scraper-windows/app/outbox.py:517-601 | a second acknowledgement is idempotent if and only if its evidence is its own JSON image; it succeeds exactly when it agrees with the stored image, and never changes anything |
| Delivery.DeliveredWasCommitted | services/hotel-scraper-windows/app/worker.py:1483-1537 | in every run a delivered batch was first committed remotely, and that commit wrote the hotel table from the very payload that was enqueued |
| Delivery.PendingSurvives | services/hotel-scraper-windows/app/worker.py:2404-2514 | a pending batch stays, unchanged, until it is terminal with its own payload |
| Delivery.ClaimsWaitForOutbox | services/hotel-scraper-windows/app/worker.py:2436-2490 | from the look into the outbox to the enqueueing of the scrape no batch is pending, although the claim itself does not look |
| Delivery.TableStaysUnique | services/hotel-scraper-windows/app/worker.py:1965-2111 | in every run the hotel table's keys and place ids stay unique |
| Delivery.RepeatedCommitsChangeNothing | services/hotel-scraper-windows/app/worker.py:1483-1537 | when first commits are later than the observations and displace no record, only the first commit of a batch changes the hotel table, however often crashes and retries repeat it |
| Delivery.RunInvariant | services/hotel-scraper-windows/app/worker.py:2404-2514 | at most one batch is pending and it is the one in flight; payloads are the enqueued ones; delivered implies committed; the table is valid |
| Delivery.StepEvolves | services/hotel-scraper-windows/app/outbox.py:313-582 | every step of a run moves the outbox only as its operations allow |
| Delivery.FlushRound | services/hotel-scraper-windows/app/worker.py:1491-1537 | without interruption a pending batch that the save accepts is delivered in three steps, with its records in the hotel table, and then nothing is pending |
| Delivery.RefusalRound | services/hotel-scraper-windows/app/worker.py:1551-1574 | one that it refuses is quarantined in two, and the hotel table stays as it was |
| Delivery.ScrapeRound | services/hotel-scraper-windows/app/worker.py:2436-2514 | when nothing is pending a scrape becomes the one pending batch in three steps |
| Delivery.CrashForgets | services/hotel-scraper-windows/app/worker.py:1483-1489 | a crash forgets what the worker held and nothing that is stored, and a pending batch is picked again |
| Fleet.StepKeepsSound | services/hotel-scraper-windows/app/worker.py:2404-2514 | no step of any worker, operator or machine, website evidence and machine sightings of hotels included, breaks token ownership, the hotel table's uniqueness or any worker's outbox |
| Fleet.RunOfLeases | services/hotel-scraper-windows/app/worker.py:846-954 | a run of the whole system is a run of the lease table, so all lease theorems hold for it |
| Fleet.ThreeWriters | services/hotel-scraper-windows/app/worker.py:1676-1748 | only a result commit, a machine's sighting and website evidence change the hotel table, and evidence only fills blank columns |
| Fleet.HotelWritesAreFenced | services/hotel-scraper-windows/app/worker.py:2003-2078 | in any run, a change of the hotel table that is more than the filling of blanks is a machine's sighting or a result commit; a result commit is made by the only holder of the lease on the batch's ZIP, under a claim made since it last was not the holder or a machine's re-arming, and the same transaction settles the row, so nobody holds the ZIP afterwards |
| Fleet.IdentitiesLast | services/hotel-scraper-windows/app/worker.py:1384-1420 | over any stretch of any run hotels stay, their keys never change, and a place id once set never changes, whoever writes |
| Fleet.RecommitAddsNothing | services/hotel-scraper-windows/app/worker.py:1483-1489 | in every run a second commit of a payload, by any worker, adds no hotel, whatever workers and machines wrote in between, if no record was known by CID alone at the first |
| Fleet.CommitEffect | services/hotel-scraper-windows/app/worker.py:2003-2078 | whoever holds the ZIP of an acceptable batch may commit it; then the records are in the hotel table, the ZIP is done, the batch waits for its acknowledgement, and other desks keep their outboxes |
| Fleet.EnqueueEffect | services/hotel-scraper-windows/app/worker.py:2467-2514 | a scrape becomes a pending batch at its worker's desk, and the claim of its ZIP is stored with it |
| Fleet.ReclaimEffect | services/hotel-scraper-windows/app/worker.py:940-954 | the ZIP of a batch in flight is taken again unless somebody else holds it |
| Fleet.EvidenceEffect | services/hotel-scraper-windows/app/worker.py:1891-1956 | evidence is written by a worker whose outbox has nothing pending, and changes the hotel table and nothing else |
| Fleet.CrashEffect | services/hotel-scraper-windows/app/worker.py:846-954 | a crash costs a worker its claims and what it held, and nobody anything that is stored |
| Fleet.OneCommitPerClaim | services/hotel-scraper-windows/app/worker.py:2003-2078 | between two result commits for one ZIP, by whichever workers, some worker claims the ZIP |
| Fleet.DeliveredUnderLease | services/hotel-scraper-windows/app/worker.py:1483-1537 | in every run a batch that a worker's outbox calls delivered was committed by that worker, with the enqueued payload, while it alone held the batch's ZIP |
| Fleet.FlushOneOutboxBatch | services/hotel-scraper-windows/app/worker.py:1539-1590 | the ZIP of the oldest pending batch is taken, the batch saved, the row settled and the batch acknowledged as delivered; a refused batch parks the ZIP and is quarantined; while somebody else holds the ZIP, or it has no row, nothing changes |
| Recovery.InspectOutbox | services/hotel-scraper-windows/app/recovery.py:326-438 | whatever the list limit, an existing readable outbox is reported ready exactly when every pending row would decode in the outbox and match the current target; all pending rows are counted and the first listed, and the problems are the unknown states and then the failing rows, cut off at the limit |
| Recovery.PayloadPasses | services/hotel-scraper-windows/app/recovery.py:412-438 | a payload passes exactly when it is a non-empty array of objects, as many as counted, bound to the current database |
| Recovery.ReadyMeansReplayable | services/hotel-scraper-windows/app/recovery.py:412-438 | the inspector's own payload checks reject exactly the rows that the outbox decoding or the target check would reject |
| Backfill.StepKeepsSound | services/hotel-scraper-windows/app/worker.py:1607-1674 | every step of scanner, operator and job workers, and a crash anywhere, keeps coverage, job ownership and row counts |
| Backfill.StepKeepsAdmitted | services/hotel-scraper-windows/app/worker.py:1625-1631 | only a result saved for an inactive job of the run takes the run further beyond its admission lane, and by one job |
| Backfill.BackfillComplete | services/hotel-scraper-windows/app/worker.py:1607-1674 | in every trace each eligible hotel up to the cursor has exactly one job of the run, and up to the ceiling once the run is draining, paused or not |
| Backfill.OnlyEligibleHaveJobs | services/hotel-scraper-windows/app/worker.py:1635-1667 | a job of a run belongs to a hotel of the snapshot that lacks a value and has a website or can be looked for |
| Backfill.PauseStops | services/hotel-scraper-windows/app/website_queue.py:295-299 | in every trace, from a pause to the next start the run stays paused, no scan begins, and nothing of it moves but by a scan already in flight |
| Backfill.CheckpointWhilePaused | services/hotel-scraper-windows/app/website_queue.py:301-304 | the scan in flight may end once: its checkpoint moves the cursor and the run stays paused, draining if nothing was left |
| Backfill.StartResumes | services/hotel-scraper-windows/app/website_queue.py:280-289 | a start after a pause resumes the run where it is; unless a scan ended meanwhile it is the very run that was paused |
| Backfill.StartOutcome | services/hotel-scraper-windows/app/website_queue.py:280-293 | a start opens a run at cursor zero when there is none or the last is drained, and leaves a running or draining one alone |
| Backfill.AdmissionBounded | services/hotel-scraper-windows/app/worker.py:1625-1631 | the pending, retried and fetched jobs of a run are at most the configured lane, between 0 and 1000, and the number of results saved so far for its inactive jobs; its cursor never passes the ceiling |
| Backfill.CursorMonotone | services/hotel-scraper-windows/app/website_queue.py:301-304 | the cursor of a run never moves back and its ceiling never moves |
| Backfill.CheckpointProgress | services/hotel-scraper-windows/app/worker.py:1668-1672 | each checkpoint advances the cursor or ends the scanning, and otherwise leaves fewer rows |
| Backfill.RemainingTail | services/hotel-scraper-windows/app/worker.py:1641-1643 | after the first remaining row the keyset query returns exactly the rest |
| Backfill.WebsiteQueue.Enqueue | services/hotel-scraper-windows/app/website_queue.py:163-183 | insert or ignore by the deterministic job identity |
| Backfill.WebsiteQueue.BackfillStatus | services/hotel-scraper-windows/app/website_queue.py:268-278 | the latest run and its number of active jobs; a draining run without active jobs is completed |
| Backfill.WebsiteQueue.StartBackfill | services/hotel-scraper-windows/app/website_queue.py:280-293 | start resumes a paused run, leaves an active one alone, and otherwise opens a new run at cursor zero |
| Backfill.WebsiteQueue.PauseBackfill | services/hotel-scraper-windows/app/website_queue.py:295-299 | running becomes paused and draining becomes paused while draining |
| Backfill.WebsiteQueue.CheckpointBackfill | services/hotel-scraper-windows/app/website_queue.py:301-304 | only the scanned run moves, and a pause that came in between is kept |
| Backfill.WebsiteQueue.SaveResult | services/hotel-scraper-windows/app/website_queue.py:207-234 | a result is retried while attempts are left and otherwise kept as fetched, whatever state the job is in; a missing job stays missing |
| Backfill.ChangeKeepsAdmissionIff | services/hotel-scraper-windows/app/website_queue.py:207-234 | a change of one job keeps the number of active jobs of its run from growing if and only if it activates no inactive job |
| Backfill.WebsiteQueue.Finish | services/hotel-scraper-windows/app/website_queue.py:242-247 | a job reaches one of the two final states and keeps its attempts; any other state is an error |
| Backfill.WebsiteQueue.ScanRun | services/hotel-scraper-windows/app/worker.py:1623-1674 | without a running run or a free slot nothing changes; otherwise as many of the next rows are visited as the batch and the free slots allow, each eligible one has its job, the cursor stands at the last row and the counters count them, and a run without rows drains |
| Backfill.WebsiteQueue.ScanWebsiteBackfill | services/hotel-scraper-windows/app/worker.py:1607-1674 | an autonomous worker first opens a run when there is none or a refresh is due, up to the highest hotel id; then the scan of the run follows, with every invariant intact |
| Geohash.Encode | services/hotel-scraper-windows/app/geohash.py:4-29 | the loop over interval bounds returns the text of the bisection bits, five a character; no characters for a non-positive precision |
| Geohash.PointInCell | services/hotel-scraper-windows/app/geohash.py:8-25 | an in-range point lies in its cell |
| Geohash.CellUnique | services/hotel-scraper-windows/app/geohash.py:8-25 | no other cell of the same size contains it |
| Geohash.CellSize | services/hotel-scraper-windows/app/geohash.py:8-25 | after n bits the cell is 360 / 2^ceil(n/2) by 180 / 2^floor(n/2) degrees |
| Geohash.HashPrefix | services/hotel-scraper-windows/app/geohash.py:4-29 | a shorter hash of a point is a prefix of a longer one |
| Geohash.EqualHashesAreClose | services/hotel-scraper-windows/app/geohash.py:4-29 | points with equal hashes differ by at most one cell width and height |
| Geohash.TextInjective | services/hotel-scraper-windows/app/geohash.py:26-28 | bit strings of one length with equal texts are equal |
| Geohash.AlphabetIs | services/hotel-scraper-windows/app/geohash.py:1-3 | the alphabet is the digits and the small letters without a, i, l and o |
| Geohash.CornerBits | services/hotel-scraper-windows/app/geohash.py:8-25 | the low corner of a bit string's cell is bisected into that bit string |
| Geohash.EncodeOfCorner | services/hotel-scraper-windows/app/geohash.py:4-29 | encoding the low corner of any base-32 string's cell gives the string back |
| Geohash.HashIffInCell | services/hotel-scraper-windows/app/geohash.py:4-29 | a base-32 string is the hash of exactly the in-range points of its cell |
| Upsert.BuildSegments | services/hotel-scraper-windows/app/general_business.py:117-139 | the segments concatenate to the batch, none is empty or repeats an identity, and a new one starts only at a repeated identity |
| Upsert.SegmentationIsUnique | services/hotel-scraper-windows/app/general_business.py:117-139 | there is only one way to cut a batch into segments like this |
| Upsert.StatementIsFold | services/hotel-scraper-windows/app/general_business.py:80-93 | one statement over distinct identities, reading all rows before writing any, equals the record-by-record fold and returns one id per record |
| Upsert.StatementFailsIff | services/hotel-scraper-windows/app/general_business.py:118-119 | a statement fails exactly when two of its items share an identity |
| Upsert.WriteSegments | services/hotel-scraper-windows/app/general_business.py:140-148 | the segments in order write what the fold over the whole batch writes, and no statement fails or falls short of its acknowledgement |
| Upsert.RowOfFold | services/hotel-scraper-windows/app/general_business.py:80-93 | every row depends only on the records of its own identity, in order |
| Upsert.SavedRow | services/hotel-scraper-windows/app/general_business.py:80-93 | a saved row keeps the name, category, address on the web and first-seen time it was first stored with; each column shows the first value it was told that counts, and each raw key what was said last |
| Upsert.ItemIs | services/hotel-scraper-windows/app/general_business.py:117-139 | what is sent for a record: its values, and raw data with its source, run, time, address, ZIP and evidence |
| Upsert.KeptStays | services/hotel-scraper-windows/app/general_business.py:86-92 | a stored value is never overwritten; only NULL, or an empty string in the three columns with NULLIF, is filled |
| Upsert.ColumnsTwice | services/hotel-scraper-windows/app/general_business.py:86-92 | filling the columns from the same records again changes nothing |
| Upsert.FoldTwice | services/hotel-scraper-windows/app/general_business.py:80-93 | writing the same records again at the same time changes nothing at all |
| Upsert.ReplaySame | services/hotel-scraper-windows/app/general_business.py:149-153 | a later replay agrees with the first save in everything but the times |
| Upsert.SaveStamps | services/hotel-scraper-windows/app/general_business.py:93 | a save touches exactly its own identities, stamps the last-seen and collection times, and keeps a stored row's first-seen time |
| Upsert.Intake.Enqueue | services/hotel-scraper-windows/app/general_business.py:65-69 | a batch joins the end of the local queue as pending |
| Upsert.Intake.FlushOne | services/hotel-scraper-windows/app/general_business.py:96-153 | the oldest pending batch is written in one transaction and then marked; with a wrong schema, without the lock or after a rollback nothing happens, and a crash after the commit leaves the batch pending |
| Upsert.FlushIs | services/hotel-scraper-windows/app/general_business.py:96-153 | a flush writes and marks the oldest pending batch unless the schema differs, the lock is taken or the transaction fails; a crash after the commit leaves it pending |
| Upsert.FirstPendingIsFirst | services/hotel-scraper-windows/app/general_business.py:97-98 | the batch to flush is the first one not yet written |
| Upsert.RunSavesOnce | services/hotel-scraper-windows/app/general_business.py:96-153 | over any run of one flusher, with crashes and failures anywhere, the table holds, up to times, what saving each batch exactly once gives: all acknowledged ones and at most the oldest pending one |
| Upsert.QueueHoldsAll | services/hotel-scraper-windows/app/general_business.py:65-69 | in every run the queue holds every batch ever added, in order |
| Lookup.Search | services/hotel-scraper-windows/app/business_lookup.py:94-126 | the search over bounded fetches returns the page, the more-flag, the read and the omitted directories of the unbounded search; it fails only when nothing can be read |
| Lookup.ReadVertical | services/hotel-scraper-windows/app/business_lookup.py:67-91 | the items of a vertical are the fetched rows of its tables with consecutive ranks |
| Lookup.BoundedFetchSuffices | services/hotel-scraper-windows/app/business_lookup.py:36-50 | fetching offset + limit + 1 rows per table, sorting and slicing gives the page and the more-flag of slicing the whole concatenation |
| Lookup.AnswerIs | services/hotel-scraper-windows/app/business_lookup.py:94-126 | nothing can be read, or the page holds at most the limit of everything from the offset on, says whether more follows, and names the requested directories read and omitted |
| Lookup.PagesTile | services/hotel-scraper-windows/app/business_lookup.py:94-126 | turning pages neither repeats nor leaves anything out, and a page says that nothing more follows exactly when everything has been shown |
| Lookup.EverythingIs | services/hotel-scraper-windows/app/business_lookup.py:67-119 | everything is the matching rows of the six tables, by vertical and table name, of the requested directories that can be read |
| Lookup.SelectedIff | services/hotel-scraper-windows/app/business_lookup.py:36-50 | a row is selected, once and in its place, exactly when it matches |
| Lookup.SortedGathered | services/hotel-scraper-windows/app/business_lookup.py:119 | the sort by vertical, table and rank lays the tables out one after the other |
| Lookup.KeyIsPlace | services/hotel-scraper-windows/app/business_lookup.py:119 | the text key orders the six tables by vertical name, then table name |
| Sorting.SortedUnique | services/hotel-scraper-windows/app/business_lookup.py:119 | a sort with a key that tells the items apart has one possible result |
| SqlScanner.ContainsProhibited | services/hotel-scraper-windows/app/database.py:63-106 | the scanner answers true exactly when some maximal word outside literals, lower-cased, is prohibited, as a recursive tokenizer finds them |
| SqlScanner.ProhibitedIsFound | services/hotel-scraper-windows/app/database.py:63-106 | each of the eight words, in any case, between separators is found, whatever stands around it |
| SqlScanner.OneWord | services/hotel-scraper-windows/app/database.py:95-104 | letters, digits, underscores and dollar signs make up one word |
| SqlScanner.SeparatorSplits | services/hotel-scraper-windows/app/database.py:95-104 | what stands before and behind any other character outside literals is scanned on its own |
| SqlScanner.OpenLiteralHides | services/hotel-scraper-windows/app/database.py:82-94 | a literal that is never closed hides all that follows |
| SqlScanner.LiteralIgnored | services/hotel-scraper-windows/app/database.py:82-94 | a closed literal contributes no words, whatever it contains |
| SqlScanner.ContentsReplaceable | services/hotel-scraper-windows/app/database.py:63-106 | replacing the contents of a closed literal never changes the answer |
| SqlScanner.QuoteFreeIsEscaped | services/hotel-scraper-windows/app/database.py:84-90 | text without the quote character is valid literal contents |
| SchemaSplit.MatchingParen | services/hotel-scraper-windows/app/schema_guard.py:1035-1054 | the first unquoted closing parenthesis at which the depth is zero, or none |
| SchemaSplit.StateIs | services/hotel-scraper-windows/app/schema_guard.py:1035-1054 | a place is inside a literal after an odd number of quotes, and its depth is the number of opening less that of closing parentheses outside literals |
| SchemaSplit.InsideIsDeep | services/hotel-scraper-windows/app/schema_guard.py:1035-1054 | from an opening parenthesis the depth stays positive up to the match |
| SchemaSplit.SplitTopLevel | services/hotel-scraper-windows/app/schema_guard.py:1057-1080 | the loop cuts exactly at the commas outside literals and parentheses |
| SchemaSplit.JoinOfSplit | services/hotel-scraper-windows/app/schema_guard.py:1057-1080 | joining the pieces with commas restores the text |
| SchemaSplit.ResplitPiece | services/hotel-scraper-windows/app/schema_guard.py:1057-1080 | splitting a piece again yields just that piece |
| SchemaSplit.SplitIsPieces | services/hotel-scraper-windows/app/schema_guard.py:1057-1080 | all pieces are whole and all but the last end outside literals and parentheses |
| SchemaSplit.SplitOfJoin | services/hotel-scraper-windows/app/schema_guard.py:1057-1080 | splitting inverts joining on every such list of pieces |
| SchemaSplit.UnwrapParentheses | services/hotel-scraper-windows/app/schema_guard.py:1170-1177 | the loop ends and returns the text without its enclosing pairs |
| SchemaSplit.PeelDone | services/hotel-scraper-windows/app/schema_guard.py:1170-1177 | the result is stripped and enclosed by no pair |
| SchemaSplit.UnwrapTwice | services/hotel-scraper-windows/app/schema_guard.py:1170-1177 | unwrapping is idempotent |
| SchemaSplit.WrapIsUndone | services/hotel-scraper-windows/app/schema_guard.py:1170-1177 | enclosing well-nested text in one more pair makes no difference |
| Base64Url.DecodeOfEncode | services/nws-nearby-intelligence/app/coordinate_consent.py:34-48 | decoding inverts encoding on all bytes but none, whose encoding is rejected |
| Base64Url.EncodeOfDecode | services/nws-nearby-intelligence/app/coordinate_consent.py:38-48 | an accepted text is the encoding of its bytes |
| Base64Url.DecodeAccepts | services/nws-nearby-intelligence/app/coordinate_consent.py:38-48 | accepted are exactly the non-empty texts of the alphabet whose length is not 1 modulo 4 and whose unused trailing bits are zero |
| Base64Url.SymbolIs | services/nws-nearby-intelligence/app/coordinate_consent.py:38-48 | the symbols stand in the order of the URL-safe alphabet |
| Base64Url.EncodedIsNumber | services/nws-nearby-intelligence/app/coordinate_consent.py:34-35 | three bytes and their symbols are the same number, and the bits that fill the last symbol are zero |
| Base64Url.EncodedSize | services/nws-nearby-intelligence/app/coordinate_consent.py:34-35 | four symbols for every three bytes, and two or three for the rest |
| Consent.IssuedVerifiesIff | services/nws-nearby-intelligence/app/coordinate_consent.py:51-94 | for its own bindings an issued receipt passes the checks exactly when they are ASCII, its expiry in whole seconds is later than its issue by at most the maximum age, and the present is before it |
| Consent.NeverVerifies | services/nws-nearby-intelligence/app/coordinate_consent.py:51-94 | a receipt whose times fall into one second, or whose bindings are not ASCII, verifies at no time and for no age |
| Consent.SameSecondIsIssuedInVain | services/nws-nearby-intelligence/app/coordinate_consent.py:70-94 | such a receipt is really issued: a witness for any bindings and two times within one second |
| Consent.NonAsciiIsIssuedInVain | services/nws-nearby-intelligence/app/coordinate_consent.py:70-94 | such a receipt is really issued: a witness for any bindings that are not ASCII and any times |
| Consent.AccentedIsIssuedInVain | services/nws-nearby-intelligence/app/coordinate_consent.py:70-94 | one accented letter in the project name is enough, for any times |
| Consent.PayloadOfReceipt | services/nws-nearby-intelligence/app/coordinate_consent.py:85-94 | what is signed and encoded is decoded again |
| Consent.SignedIsCanonical | services/nws-nearby-intelligence/app/coordinate_consent.py:121-137 | a correctly signed receipt is letter for letter the one that issuing its payload gives |
| Consent.OneSpelling | services/nws-nearby-intelligence/app/coordinate_consent.py:38-48 | two receipts with one payload under one key are the same text |
| Consent.AcceptedWasSigned | services/nws-nearby-intelligence/app/coordinate_consent.py:107-197 | an accepted request was signed under the verifier's key, names the verifier's own times and actor and the bindings asked for, is not over, and lasts no longer than allowed |
| Consent.AcceptedIff | services/nws-nearby-intelligence/app/coordinate_consent.py:138-181 | once the signature holds, a request is accepted exactly when the claims are those it stands for, in ASCII, and their times hold |
| Consent.ForeignReceiptRejected | services/nws-nearby-intelligence/app/coordinate_consent.py:150-181 | a receipt issued for another consumer, project, route or purpose, other times or another actor is not accepted |
| Consent.SecondsIff | services/nws-nearby-intelligence/app/coordinate_consent.py:76-84 | times are compared in whole seconds, truncated toward zero |
| Consent.IssuedIff | services/nws-nearby-intelligence/app/coordinate_consent.py:51-94 | a receipt is issued exactly for two times with a timezone, the second one later, a key of at least 32 bytes and a text of at most 512 characters |
| Consent.ReceiptStore.Consume | services/nws-nearby-intelligence/app/coordinate_consent.py:210-234 | one conditional create: fresh, already used, or unavailable |
| Consent.ReceiptStore.VerifyAndConsume | services/nws-nearby-intelligence/app/coordinate_consent.py:107-197 | a failed check is rejected and consumes nothing; an accepted receipt was unused, is used afterwards, is not over and lasts no longer than allowed |
| Consent.VerificationIs | services/nws-nearby-intelligence/app/coordinate_consent.py:107-197 | what becomes of an attempt: accepted when the checks pass and the store creates a new object, rejected when they fail or the receipt was used, unavailable otherwise; and which receipts are used afterwards |
| Consent.AtMostOneSucceeds | services/nws-nearby-intelligence/app/coordinate_consent.py:182-184 | of any attempts with one receipt, by any verifiers, in any order and with any store failures, at most one is accepted |
| Consent.FailedCheckConsumesNothing | services/nws-nearby-intelligence/app/coordinate_consent.py:120-181 | an attempt whose checks fail changes no receipt |

## Left out

- Floating-point rounding: all arithmetic is over reals, including the exponential decay behind effective weights and values.
- Betweenness, cross-sector and diversity scores, and the asset scorer around its percentile and clipping: easier members of the same families.
- Collapse.CollapseRecords: blank strings and missing values of merged fields are one case (absent), and a CID is the normalised CID inside the raw evidence; the unused top-level CID field is not modelled.
- HotelSave.Database.SaveResults: the ZIP's address fallback, the default state, the photo columns and the inventory-loss check before the save are not part of this model; the ZIP's own outcome row is in `ZipLease`.
- HotelSave.ReplayHarmlessIff: says that no row changes, and so is about one flusher; with other writers in between `HotelWriters.ReplayAmongOthers` says that no hotel is added.
- Delivery.RepeatedCommitsChangeNothing: assumes that the first commit of a batch is later than its observations and displaces no record; without that replay may insert, as `HotelSave.ReplayMayInsert` shows.
- Delivery.RunInvariant: batch ids are fresh for each scrape, as the claim token in them makes them.
- HotelSave.NeverConflicts: is about transactions one after the other; those that overlap are in `OverlappingSaves`.
- OverlappingSaves.StepKeepsSound: a look-up is one step, taken when the rows it finds are free; waiting for a lock and deadlocks are not modelled.
- HotelWriters.EvidenceOnlyFills: when evidence is refused (other website, older evidence, no corroboration) is not modelled: any evidence may be written, or none.
- HotelWriters.UpsertKeeps: the photo columns, the name and the coordinates are not modelled, and a sighting has a name.
- Fleet.DeliveredUnderLease: the exactly-once effect of `Delivery.RepeatedCommitsChangeNothing` is a statement about one worker's commits and evidence, as the source promises it; for several workers and machines `Fleet.RecommitAddsNothing` says that no hotel is added.
- Fleet.StepKeepsSound: a result commit is one step here; commits that overlap are in `OverlappingSaves`.
- Fleet.FlushOneOutboxBatch: the second validation of the stored records and the check of the database target before the flush are not modelled.
- ZipLease.ZipWorker.ClaimNextZip: does not model which of several eligible ZIPs is chosen (distance and age order), nor that rows locked by another transaction are skipped, so that a refresh, or nothing, may be chosen while a pending row is locked.
- ZipLease.ZipWorker.LockOwnedZip: models the shared database; on a local SQLite file a write without any claim is accepted.
- ZipLease.ZipWorker.SetZipState: the hotel counters written together with the state, and the SQLite case, are not modelled.
- Outbox.LocalOutbox.Enqueue: JSON size limits, trimming of identifiers and Unicode digits in ZIP codes are not modelled.
- Recovery.InspectOutbox: the run journal half of the startup report, and the ages and sizes in it.
- Backfill.WebsiteQueue.SaveResult: the payload of a fetch result, the access cache and host back-off are not modelled; `next_job` ordering, reviews and the one-time upgrade of old queues are left out.
- Backfill.BackfillComplete: the hotel snapshot and the settings are fixed over the run.
- Features.BuildTotals: graph signals, source diversity, coverage and the feature vectors built from the totals are left out.
- Upsert.Intake.FlushOne: which columns and types the schema inspection compares, row ids and error texts are not modelled.
- Lookup.Search: the text of names, identities and public columns of a result item is not modelled; the filter conditions are one predicate.
- Consent.IssuedVerifiesIff: integers beyond the range of calendar dates are not modelled.
- Consent.ReceiptStore.Consume: the stored object's body and name.
- Browser, proxy, HTTP routes, dashboards, desktop and web clients, deployment, real SQL engines: plumbing around the modelled code.
