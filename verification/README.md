# Planning Jeju trips: models and proofs

This project models the decision logic of a trip planner for Jeju Island and proves what it keeps. Nothing
here was executed against the original program; the Dafny verifier checks every statement.
`dafny verify dfyconfig.toml` checks the whole project.

## What is modelled

* **Bus itineraries** (`BusBoarding`, `BusSearch`, `BusItinerary`, `BusKeys`, `BusOrderFree`, `BusDominance`, `BusBound`, `BusLoss`,
  `BusMeaning`, `BusRanking`, `RelaxedOrder`). A layered search over (last place, set of used places) keeps one state per key. The methods run as the code does; the
  specification is a replay of one order, leg by leg. Soundness holds for every request. Pruning loses nothing exactly as
  far as an earlier start is never worse, which the bus-wait limit can break: `EarlierIsNoWorseIff` gives the exact
  condition on the timetable and `BusLoss` a day on which the search finds nothing although an itinerary exists. `BusBound`
  counts the states of a layer on the request, so that the lossless result needs no look at the search itself, and
  `BusOrderFree` shows that the listing order of places and legs never matters.
* **One-transfer rides** (`TransferJoin`, `TransferScan`, `TransferMeaning`). The sorted index, the bisected scan and the streaming buckets with
  eviction give the offline selection of the brute-force join.
* **Raw archives** (`RawNames`, `RawArchive`, `RawMeaning`, `RawResume`, `RawCollection`, `RawPaging`, `RawBatch`). Collection with retries, an archive
  that only grows, and a loader that rebuilds finished queries, over whole chains of interrupted runs.
* **Publication lifecycle** (`Lifecycle`, `LifecycleInvariant`, `LifecycleSafety`, `LifecycleResults`, `LifecycleMeaning`,
  `LifecycleSteps`, `LifecycleLocks`, `LifecycleLimits`). Transactions with row and advisory locks as interleaved steps; an invariant over every run; and, for
  each thing that is not guaranteed, a reachable state that shows it and the exact condition under which it holds.
* **Official timetables** (`ManifestMerge`, `ManifestErrors`, `ManifestResults`, `TimetableClock`, `TripChoice`, `TripMapping`,
  `TripMappingResults`, `TripAccounting`, `TripMeaning`, `TripRunMeaning`, `TimetableBundle`, `TimetableValidation`, `TimetableMeaning`,
  `TimetableBundleMeaning`, `TimetablePublication`, `TimetableSections`,
  `TimetableEndToEnd`, `TimetableTheorem`, `TimetableMidnight`). Workbook rows to trips, trips to a manifest, the manifest to a validated bundle,
  and merging manifests.
* **Opening hours** (`OpeningHours`, `OpeningResults`, `OpeningAgreement`, `OpeningMeaning`). Breaks cut out of open windows in two loop
  nestings, from rows in two orders.
* **Evidence lineage** (`Lineage`), **candidate store** (`CandidateStore`), **taxi recovery** (`TaxiRecovery`).
* `Common.dfy` holds options and results, sorting, and decimal text; `Counting.dfy` counts subsets and unions.

## Reading the model

* Each algorithm is proved against functions that say what it computes, and the properties are proved about those functions.
  The `...Meaning` modules, `BusRanking`, `RawPaging`, `LifecycleSteps` and `ManifestErrors` say the same once more without
  them, on the inputs and results alone and with the constants written out, so that a function that computed something else
  would not fit.
* Times are whole seconds or minutes; walking distances, speeds and ceilings are real numbers, without rounding.
* Identifiers are ordered numbers where only their order matters, and texts where the text itself matters (member
  names, trip ids, service clocks).
* `SHA-256` (stable trip ids), decoding of provider answers, text patterns (`Texts`), the provider (`Server`), table of
  capabilities and distances are parameters, so every theorem holds for all of them.
* The wait-limit hypothesis of the search is stated on the timetable (`WaitLimitHarmless`): it is the condition under which
  `_next_bus_arrival` is monotone from the start of the window, on every edge.
* `collect_paginated` does not check that page one reports number one, although the loader does. The code is kept, and
  reloading is proved to hold exactly when page one does.
* `_service_time` reads at most three service days, while the mapping prints any number; the end-to-end theorem therefore
  has the exact condition that no row goes back past midnight more than twice.
* `rollback` only checks that its target belongs to the source; the active publication is PUBLISHED exactly when
  `publish_coverage` once activated it. `_publish` and `publish_coverage` take their two locks in opposite orders; there is
  a deadlock exactly when the two calls on one acquisition each have their first lock.
* Publishing an acquisition again is not always answered: a NO_CHANGE acquisition raises an error on the second call.
* The generation orders breaks by opening minute and fact id, the evaluator by opening minute only. The minutes offered
  never depend on it; the cited facts can, for breaks that start in one minute.
* The source joins the two trip ids of a ride to one text and compares texts; the model compares the pair of ids.
* `byRollback` in the log and the list of results are bookkeeping of the model, not columns of the database.
* Every lemma carries `{:induction false}`, so each proof is the one written in its body.

## Model

| member | source | states |
|---|---|---|
| BusBoarding.NextBusArrival | src/jeju_trip/infrastructure/runtime_generation_gateway.py:801-847 | The loop that collects feasible boardings and takes the least returns the earliest door arrival over all legs of the edge that can still be walked to, boarded and waited for. |
| BusBoarding.BoardableIsAWindow | src/jeju_trip/infrastructure/runtime_generation_gateway.py:815-837 | A leg can be boarded exactly from its opening moment (departure minus the wait limit and the walk) to its closing moment. |
| BusBoarding.EarlierIsNoWorseIff | src/jeju_trip/infrastructure/runtime_generation_gateway.py:801-847 | Starting earlier is never worse if and only if every leg is handed over: boardable from the start on, or covered at the second before it opens by a leg that arrives no later. The bus-wait limit is thus the only obstacle. |
| BusBoarding.SlackWaitLimitHandsOver | src/jeju_trip/infrastructure/runtime_generation_gateway.py:828-837 | A wait limit that no leg can exceed makes every leg handed over. |
| BusBoarding.RideGoesForward | src/jeju_trip/infrastructure/runtime_generation_gateway.py:801-847 | With legs that run forward and non-negative distances a ride never arrives before it starts. |
| BusSearch.OfferLayer | src/jeju_trip/infrastructure/runtime_generation_gateway.py:671-759 | One layer of the search, with its skips in the order of the code, gives the layer of the specification: every unused place of the role offered to every state, the better state kept per (place, set of places), sorted, cut at 12,000. |
| BusSearch.SearchPattern | src/jeju_trip/infrastructure/runtime_generation_gateway.py:667-781 | All layers of one role arrangement and the rides home give exactly the solutions of that arrangement, also when a layer is empty and the loop stops early. |
| BusSearch.RecordSolutions | src/jeju_trip/infrastructure/runtime_generation_gateway.py:781-785 | The dictionary from order to earliest return, entry by entry. |
| BusRanking.BusOnlySolutions | src/jeju_trip/infrastructure/runtime_generation_gateway.py:604-799 | The whole search, from grouping the legs to the final cut: it returns exactly the found orders with fewer than eighty ahead of them, where one is ahead with fewer places of unverified hours, then by the earlier return, then by the smaller order; in that order; and each is a day that can be travelled as timed. Nothing is returned when an end of the day names no place. |
| BusItinerary.StopMeetsLimits | src/jeju_trip/infrastructure/runtime_generation_gateway.py:694-741 | On every replayed order each stop starts after the ride and the slack, not before opening, ends by closing, starts by last admission and last order, and meals lie in the lunch window. |
| BusItinerary.ReplayShape | src/jeju_trip/infrastructure/runtime_generation_gateway.py:676-781 | A replayed order visits distinct places and ends at its last place. |
| BusItinerary.PatternsAreArrangements | src/jeju_trip/infrastructure/runtime_generation_gateway.py:639-650 | The role patterns are exactly the sequences with the wanted number of meals, rests and visits. |
| BusItinerary.SearchIsSound | src/jeju_trip/infrastructure/runtime_generation_gateway.py:604-799 | Every solution is the leg-by-leg replay of its own order with exact roles, all required places and a return within the window; orders are pairwise distinct, ranked, and at most eighty. No hypothesis is needed. |
| BusMeaning.NextArrivalMeans | src/jeju_trip/infrastructure/runtime_generation_gateway.py:801-847 | Said on the legs alone: the door reached first by a leg of the edge with both walks (the least whole minutes that cover the distance at the walking speed, plus the uncertainty) within their limit, reached with the boarding buffer to spare and waited for no longer than the limit, or none when there is no such leg. |
| BusMeaning.VisitedMeans | src/jeju_trip/infrastructure/runtime_generation_gateway.py:694-741 | Said on the place alone: when a stop starts and ends, which opening, closing, admission, order and lunch limits it meets, which stay it has, and what becomes of the minutes since a rest: set back by a meal or a rest, else grown by the ride and the stay. |
| BusMeaning.FoundAreDays | src/jeju_trip/infrastructure/runtime_generation_gateway.py:604-785 | Every order found is a day written out on the timetable, the places and the clock: each ride, each stop, the roles wanted, the required places, the ride home and the rest limit. |
| BusMeaning.NoDayIsLost | src/jeju_trip/infrastructure/runtime_generation_gateway.py:666-781 | When every leg is handed over, the places are few enough and the hard rest limit is off, every such day of the phase used has a found order that is as good, and minimum stays are used exactly when no day with full stays exists. |
| BusRanking.AheadOfReturnedIsReturned | src/jeju_trip/infrastructure/runtime_generation_gateway.py:781-799 | A found order that is ahead of a returned one (fewer places of unverified hours, then the earlier return, then the smaller order) is returned itself. |
| BusItinerary.CutKeepsBest | src/jeju_trip/infrastructure/runtime_generation_gateway.py:781-799 | The same for the ranking of the specification. |
| BusItinerary.OneReturnPerOrder | src/jeju_trip/infrastructure/runtime_generation_gateway.py:781-785 | Two solutions found with one order are the same solution: they return at the same time. |
| BusItinerary.DictionaryNeverReplaces | src/jeju_trip/infrastructure/runtime_generation_gateway.py:781-785 | The dictionary from order to return only ever adds an order it does not have; its comparison of returns never finds an earlier one. |
| BusKeys.KeptIffUnbeaten | src/jeju_trip/infrastructure/runtime_generation_gateway.py:671-759 | Before the cut a layer holds exactly the candidates that no candidate with the same last place and the same set of places beats, one of each key. |
| BusRanking.LayerMeans | src/jeju_trip/infrastructure/runtime_generation_gateway.py:671-764 | A layer holds exactly the offered states that are best of their key and have fewer than 12,000 such states ahead of them, by time, then minutes since a rest, then the order of the places. |
| BusRanking.FoundMeans | src/jeju_trip/infrastructure/runtime_generation_gateway.py:765-785 | An order is found exactly when a state of the last layer of a role arrangement holds all required places and gets home within the window and the rest limit; full stays are tried first. |
| BusRanking.ReturnedIffAmongBest | src/jeju_trip/infrastructure/runtime_generation_gateway.py:781-799 | A found order is returned exactly when fewer than eighty found orders are ahead of it. |
| BusOrderFree.ListingOrderDoesNotMatter | src/jeju_trip/infrastructure/runtime_generation_gateway.py:604-799 | The returned solutions, and their order, are the same for every order in which places and legs are listed, even when the cuts fire. |
| BusDominance.LayersCover | src/jeju_trip/infrastructure/runtime_generation_gateway.py:676-764 | When the wait limit is harmless and the cut idle, every order that can be travelled has in its layer a kept state at the same place, with the same places used, no later. |
| BusDominance.DominanceIsLossless | src/jeju_trip/infrastructure/runtime_generation_gateway.py:666-781 | With the wait limit harmless, the 12,000-state cut idle and the hard rest limit off, every itinerary of the phase used is matched by a found order with the same roles, the same places, the same last place and a return no later; minimum stays are used exactly when no full-stay itinerary exists. |
| BusBound.OfferedCount | src/jeju_trip/infrastructure/runtime_generation_gateway.py:676-764 | Before the cut a layer holds at most as many states as its roles can be filled with places (a product of binomials) times the choices of the last one. |
| BusBound.SearchIsLossless | src/jeju_trip/infrastructure/runtime_generation_gateway.py:666-781 | The same lossless result on conditions of the request alone: every leg is handed over, no beginning of a role pattern can be filled in more than 12,000 ways, and the hard rest limit is off. |
| BusLoss.BindingWaitLimitLosesItinerary | src/jeju_trip/infrastructure/runtime_generation_gateway.py:742-755 | A concrete day, with no state cut and no hard rest limit, has an itinerary and the search returns nothing: the binding wait limit alone makes pruning lossy. |
| RelaxedOrder.RelaxedPrefixOrder | src/jeju_trip/infrastructure/runtime_generation_gateway.py:564-590 | The loop that stops at the target keeps the places of the specification. |
| RelaxedOrder.RelaxedKeeps | src/jeju_trip/infrastructure/runtime_generation_gateway.py:564-590 | The relaxed order keeps every meal, rest and required visit and exactly min(max(2, required visits), visits) visits, given that the order contains the required visits. |
| RelaxedOrder.RelaxedMeans | src/jeju_trip/infrastructure/runtime_generation_gateway.py:564-590 | Place by place: a meal, a rest and a required visit stay; another visit stays exactly while the required visits and those other visits before it are fewer than two; the order is kept. |
| RelaxedOrder.TrimmedIsSubsequence | src/jeju_trip/infrastructure/runtime_generation_gateway.py:586-590 | The relaxed order is the given order with entries left out. |
| RelaxedOrder.FirstVisitsAreKept | src/jeju_trip/infrastructure/runtime_generation_gateway.py:577-585 | Among visits that are not required the first ones are kept. |
| RelaxedOrder.RelaxedSolution | src/jeju_trip/infrastructure/runtime_generation_gateway.py:564-590 | Every order the search returns contains the required visits, so the counts above hold for it without a hypothesis. |
| TransferJoin.GroupTrips | src/jeju_trip/infrastructure/runtime_generation_gateway.py:1118-1131 | Grouping and sorting the calls per trip makes "earlier in the trip" the same as "smaller sequence". |
| TransferJoin.EvictKeepsTopThree | src/jeju_trip/infrastructure/runtime_generation_gateway.py:1234-1247 | Adding a fourth trip pair to a full bucket and evicting the worst leaves exactly the three best pairs of everything seen, also when an evicted pair comes back. |
| TransferJoin.OfferToBucket | src/jeju_trip/infrastructure/runtime_generation_gateway.py:1234-1247 | Offering one candidate keeps the bucket the offline top three of everything seen so far. |
| TransferScan.BisectLeft | src/jeju_trip/infrastructure/runtime_generation_gateway.py:1205 | The first position not below the sought departure. |
| TransferScan.ScanSeconds | src/jeju_trip/infrastructure/runtime_generation_gateway.py:1203-1247 | Scanning from the bisected position to the first departure too late offers exactly the second rides inside the departure interval that change trip and route and arrive in time. |
| TransferMeaning.OneTransferRows | src/jeju_trip/infrastructure/runtime_generation_gateway.py:1155-1257 | The streaming join returns exactly the rows that some four calls make, said field by field: who boards and alights where and when, the walk and ten minutes of slack in least whole minutes, the wait limit, different trips and routes; of one trip pair in one hour the soonest, of all pairs between two stops in one calendar hour the three soonest; in row order, without repeats. |
| TransferMeaning.KeptMeans | src/jeju_trip/infrastructure/runtime_generation_gateway.py:1220-1257 | A candidate is selected exactly when such four calls make it, no sooner row of its pair and hour is made, and fewer than three pairs of its hour are sooner. |
| TransferScan.ThreePerBucket | src/jeju_trip/infrastructure/runtime_generation_gateway.py:1240-1247 | Of every finite set of candidates, each bucket selects exactly three trip pairs, or all when it has fewer. |
| RawNames.NameRoundTripsIff | src/jeju_trip/infrastructure/raw_page_spool.py:57-60 | A member name is read back to its numbers exactly when each has at most six digits; otherwise the loader does not recognise the name. |
| RawNames.ReadNameMeans | src/jeju_trip/application/refresh_service.py:48-52 | The loader accepts exactly the names made of `query-` and six digits, `-page-` and six digits, nothing or `-attempt-` and six digits, and `.json`, with the numbers the digits say. |
| RawCollection.RawPageSpool.AddScopedRawPage | src/jeju_trip/infrastructure/raw_page_spool.py:44-63 | A page is appended exactly when its (query, page, attempt) is new; a repeat changes nothing. |
| RawCollection.FetchPage | src/jeju_trip/application/refresh_service.py:264-307 | Up to three attempts: every answered body is archived before it is decoded, under an attempt number that is free; the page is obtained exactly when one of the first three answers decodes after retried ones; a first status 429 ends the retries. |
| RawCollection.CollectPaginated | src/jeju_trip/infrastructure/public_data_http.py:239-295 | Only pages of this query are archived; a complete result has exactly the pages its first page announces, and the archive reloads to it if and only if that first page reports number one. |
| RawPaging.CollectingMeans | src/jeju_trip/infrastructure/public_data_http.py:239-295 | What collecting comes to, said on the answers: each page comes from at most three answers, all but the last asked again; a run ends complete with all announced pages, or at a first page that announces more than ten thousand, at a page with another number or total, or at a request that got no page, each with its own reason. |
| RawPaging.FiledIsNumbered | src/jeju_trip/application/refresh_service.py:273-299 | The answered bodies of a page are filed one after the other under the attempt numbers that follow the highest one there was. |
| RawCollection.ReloadsIffFirstIsOne | src/jeju_trip/infrastructure/public_data_http.py:239-295 | The collector does not check that page one reports number one, the loader does: a complete query reloads to the pages used exactly when it does. |
| RawCollection.MisnumberedFirstPage | src/jeju_trip/infrastructure/public_data_http.py:239-295 | A run on a query whose only page reports number seven: it ends complete and the archive does not reload to it. |
| RawArchive.FreshAttemptIsLatest | src/jeju_trip/application/refresh_service.py:104-143 | A new attempt that decodes to its own page becomes the newest usable copy. |
| RawArchive.OtherQueriesDoNotMatter | src/jeju_trip/application/refresh_service.py:145-163 | Whether a query is finished, and with which pages, does not depend on members of other queries. |
| RawMeaning.FinishedMeans | src/jeju_trip/application/refresh_service.py:145-163 | A query is finished with these pages exactly when there is at least one, they are as many as the first announces, page number i stands in place i, all have the total of the first, and each is what the newest usable copy of its page decodes to. |
| RawResume.LoadResumed | src/jeju_trip/application/refresh_service.py:73-164 | The loader succeeds exactly for a matching manifest and entries none of which is unnamed, out of range or repeated, and names the error otherwise. It returns the members entry by entry, the highest attempt of every page, and as completed exactly the queries whose pages are complete in the archive: as many as the first announces, numbered from one, with one total, each what the newest usable copy decodes to. |
| RawBatch.CollectBatch | src/jeju_trip/application/refresh_service.py:249-321 | Query by query: what the resumed archive holds completely is reported as it is and nothing is asked; any other query is collected from the next answers on. Earlier members stay a prefix, every answer is archived byte for byte, a run stops early only on an incomplete query when told to, and is ACQUIRED exactly when every query is complete and nothing supplemental is pending. |
| RawBatch.ChainKeepsEverything | src/jeju_trip/application/refresh_service.py:196-335 | Over any chain of runs every earlier member survives in place, attempt numbers never collide, and finished queries stay finished with the same pages and are never fetched again. |
| RawBatch.EntriesReadBackIff | src/jeju_trip/application/refresh_service.py:104-125 | The written archive reads back to its members exactly when no number has outgrown six digits. |
| RawBatch.RunStaysLoadable | src/jeju_trip/application/refresh_service.py:73-164 | The archive of a run that started from a loadable one can be loaded by the next run exactly under the same condition. |
| LifecycleSafety.StepKeeps | src/jeju_trip/infrastructure/projection_publisher.py:921-1184 | Every lock, read, write, commit and abort of every transaction keeps the lifecycle invariant, whatever other transactions run. |
| LifecycleSafety.RunKeeps | src/jeju_trip/infrastructure/projection_publisher.py:921-1184 | The invariant holds after every run of every interleaving. |
| LifecycleResults.LogIsAuditTrail | src/jeju_trip/infrastructure/projection_publisher.py:977-1003 | Replaying the activation log of a source gives its active publication, every event links to the publication active before it, and that publication belongs to the source, with rollbacks included. |
| LifecycleResults.ActiveIsPublishedIff | src/jeju_trip/infrastructure/projection_publisher.py:921-1010 | The active publication's acquisition is PUBLISHED exactly when that publication was once activated by `publish_coverage`; hence always in runs without rollback. |
| LifecycleResults.PublishIsIdempotent | src/jeju_trip/infrastructure/projection_publisher.py:1067-1184 | Any two results ever returned for one acquisition name one publication, and at most the first created it. |
| LifecycleResults.PublishRepeatsIff | src/jeju_trip/infrastructure/projection_publisher.py:1104-1145 | Publishing an acquisition that has a result already, with both locks taken, succeeds exactly when it is not NO_CHANGE; it then returns the publication of that result and writes nothing. A NO_CHANGE acquisition raises ACQUISITION_NOT_VALIDATED, and PUBLISHED_ACQUISITION_WITHOUT_PUBLICATION is never raised. |
| LifecycleLimits.NoChangeCannotRepeat | src/jeju_trip/infrastructure/projection_publisher.py:1104-1145 | A reachable state in which an acquisition has returned its twin as NO_CHANGE and publishing it again fails. |
| LifecycleMeaning.StoredRowsAreConsistent | src/jeju_trip/infrastructure/projection_publisher.py:1067-1184 | After any run: an acquisition has a publication exactly when STAGED or PUBLISHED, and then one; the publication is dated by the source date, else the observed day, else the collected day, with the first twelve characters of the checksum; no two acquisitions of one source that agree on both have publications; a NO_CHANGE acquisition agrees with one that has; coverage is vouched for by its source and outside the place introductions complete and unblocked. |
| LifecycleMeaning.PublishOfValidated | src/jeju_trip/infrastructure/projection_publisher.py:1104-1184 | Committing the publish of a VALIDATED acquisition creates a publication exactly when no published or staged acquisition of the source agrees with it on day and checksum; otherwise the twin is returned and the acquisition becomes NO_CHANGE. |
| LifecycleMeaning.VersionsAreOfTheData | src/jeju_trip/infrastructure/projection_publisher.py:1117-1119 | Two acquisitions of one source with one date and one checksum prefix never both have a publication, whatever their collection days, and every publication carries date and prefix of its own acquisition. |
| LifecycleMeaning.DataIsFinal | src/jeju_trip/infrastructure/source_admin_repository.py:150-190 | Once an acquisition is no longer ACQUIRED nothing but its status ever changes, over any run. |
| LifecycleMeaning.RawIsRegisteredOnce | src/jeju_trip/infrastructure/source_admin_repository.py:107-148 | No two acquisitions have one source, raw checksum and schema, after any run. |
| LifecycleMeaning.ActivationMeans | src/jeju_trip/infrastructure/projection_publisher.py:113-138 | An activation is accepted exactly when the source may vouch for every record and, for the place introductions, exactly one record is the snapshot, complete, unblocked and of the whole island without dates; for other sources every record is complete and unblocked. |
| LifecycleMeaning.AppendMeans | src/jeju_trip/infrastructure/projection_publisher.py:141-149 | Records are appended exactly when the source may vouch for them and all are complete and unblocked, or the source is the place introductions and all speak of opening hours. |
| LifecycleSteps.ActivateMeans | src/jeju_trip/infrastructure/projection_publisher.py:921-1010 | An activation commits exactly while its acquisition is STAGED; then the acquisition is PUBLISHED, the publication active, one event names the one before, the coverage is stored, and nothing else changes. |
| LifecycleSteps.ReadingMeans | src/jeju_trip/infrastructure/projection_publisher.py:921-1065 | What each reading step of a transaction needs and what it remembers. |
| LifecycleResults.StatusesMoveForward | src/jeju_trip/infrastructure/source_admin_repository.py:107-190 | Over any run statuses only move forward, so an acquisition goes from STAGED to PUBLISHED at most once and terminal statuses never change. |
| LifecycleLimits.RollbackCanActivateStaged | src/jeju_trip/infrastructure/activation_repository.py:16-54 | A reachable state in which a rollback has activated a publication that is not PUBLISHED, because only the source of the target is checked. |
| LifecycleLimits.LockOrdersCanDeadlock | src/jeju_trip/infrastructure/projection_publisher.py:946-1103 | A reachable deadlock: `_publish` holds the row of an acquisition and waits for its source, `publish_coverage` holds that source and waits for that row. |
| LifecycleLocks.DeadlockIff | src/jeju_trip/infrastructure/projection_publisher.py:946-1103 | After any run some set of transactions is deadlocked, each waiting for a lock held inside the set, if and only if one acquisition is being published and activated at once and each of the two has its first lock. |
| LifecycleLocks.GetsWhatItWants | src/jeju_trip/infrastructure/projection_publisher.py:946-1103 | A transaction gets on with the lock it asks for exactly when nobody holds it, and then holds that lock besides those it had. |
| LifecycleLocks.DeadlockStays | src/jeju_trip/infrastructure/projection_publisher.py:946-1103 | Whatever else happens, a deadlock lasts until a member is aborted. |
| LifecycleLocks.CarefulCallersNeverDeadlock | src/jeju_trip/infrastructure/projection_publisher.py:921-1103 | When no call to publish an acquisition is started while one to activate it runs, nor the other way round, no run ever reaches a deadlock. |
| LifecycleLimits.AppendCanMissTheActive | src/jeju_trip/infrastructure/projection_publisher.py:1025-1065 | A reachable run in which `append_active_coverage` appends to a publication that was replaced after it checked. |
| LifecycleLimits.AppendHitsTheActiveIff | src/jeju_trip/infrastructure/projection_publisher.py:1025-1065 | Over any run from the step that finds the publication active to the commit, the publication is still active at the commit if and only if the events logged in between for its source, replayed on their own, leave none or that publication. |
| ManifestErrors.MergeIncremental | src/jeju_trip/infrastructure/official_timetable_mapping.py:310-402 | The first failing check, in the order of the code and at the first row it fails on, names the error; without one the merge succeeds and keeps the expansion's other fields. |
| ManifestErrors.NewRowsByLineage | src/jeju_trip/infrastructure/official_timetable_mapping.py:400-402 | The base rows come first as they were; the new ones follow by workbook, sheet, row and route. |
| ManifestMerge.FullExactlyWhenOk | src/jeju_trip/infrastructure/official_timetable_mapping.py:329-334 | The dictionary of stop rows is as large as the list exactly when all rows are objects with distinct keys. |
| ManifestResults.MergeAcceptsIff | src/jeju_trip/infrastructure/official_timetable_mapping.py:310-402 | The merge succeeds exactly for a well-formed expansion that contains every stop and trip row of an identifiable base and whose new rows get ids nobody has. |
| ManifestResults.RowIsMergedIff | src/jeju_trip/infrastructure/official_timetable_mapping.py:359-402 | A merged row is a base row, or a row of the expansion with a new lineage under its stable id. |
| ManifestResults.MergeKeepsBase | src/jeju_trip/infrastructure/official_timetable_mapping.py:310-402 | Base rows stay an unchanged prefix, trip ids and lineages are distinct, the lineages are exactly the expansion's, and all other fields are the expansion's. |
| ManifestResults.MergeIsIdempotent | src/jeju_trip/infrastructure/official_timetable_mapping.py:310-402 | Merging the result with the same expansion gives the same manifest. |
| ManifestResults.StepsAcceptIff | src/jeju_trip/infrastructure/official_timetable_mapping.py:310-402 | Going through a middle manifest succeeds exactly when the direct merge does and the middle is contained in the expansion. |
| ManifestResults.MergeIsPathIndependent | src/jeju_trip/infrastructure/official_timetable_mapping.py:310-402 | Step by step or directly, the merged manifests have the same trip rows, each once, and the same other fields. |
| TimetableClock.CandidateCheckpointMatches | src/jeju_trip/infrastructure/official_timetable_mapping.py:493-520 | The loop selects the checkpoints of the specification: a clock whose header names exactly one later stop. |
| TimetableClock.CheckpointsRise | src/jeju_trip/infrastructure/official_timetable_mapping.py:493-520 | Checkpoints are stops of the route in strictly rising, positive sequence. |
| TimetableClock.CandidateStopTimes | src/jeju_trip/infrastructure/official_timetable_mapping.py:523-552 | The loop with its day counter prints the unrolled minutes, or nothing when a clock goes back other than from 18:00 or later to before 7:00. |
| TimetableClock.TimesAreLeast | src/jeju_trip/infrastructure/official_timetable_mapping.py:534-551 | The unrolled minutes never go back, show the sheet's clocks modulo a day, and are the least such minutes. |
| TimetableClock.RolloverIsShort | src/jeju_trip/infrastructure/official_timetable_mapping.py:537-540 | An accepted roll past midnight goes to the next day and takes less than thirteen hours. |
| TimetableClock.PrintedReadsBackIff | src/jeju_trip/infrastructure/public_data_normalizers.py:606-614 | A printed clock is read back as the same day, hour and minute exactly up to the third day, else rejected. |
| TripChoice.ChosenIsLongest | src/jeju_trip/infrastructure/official_timetable_mapping.py:732-812 | Whatever the cascade chooses is a candidate with the most stop times, at least two. |
| TripMeaning.CheckpointsMean | src/jeju_trip/infrastructure/official_timetable_mapping.py:493-520 | The cells are read from left to right: the chosen ones are those that hold a clock under a header naming exactly one stop past the one chosen before; the others do not. |
| TripMeaning.ChooseMeans | src/jeju_trip/infrastructure/official_timetable_mapping.py:732-812 | The cascade chooses exactly the winner: the only candidate with most stop times, at least two; or of those the only one from end to end of its route; or, when not exactly one does, the one with strictly most exactly named checkpoints, at least one; or, failing that, the one with strictly most title waypoints, at least two. It gives up exactly when nobody has two times or nobody wins. |
| TripMeaning.NumberMeans | src/jeju_trip/infrastructure/official_timetable_mapping.py:711-825 | What becomes of a row with its route number, said on how the row reads on every pattern there is: nobody competes, too few stop times, a winner with its direction and times, or no winner. |
| TripChoice.ChoicePermutes | src/jeju_trip/infrastructure/official_timetable_mapping.py:732-812 | The cascade does not depend on the order of the candidates: every stage accepts only a unique winner. |
| TripMapping.MapRow | src/jeju_trip/infrastructure/official_timetable_mapping.py:650-826 | One row, with its checks in the order of the code, adds a trip, a report, or nothing. |
| TripRunMeaning.MapExactWeekdayTrips | src/jeju_trip/infrastructure/official_timetable_mapping.py:609-826 | The nested loops answer just the rows of the workbooks, each once, by workbook, sheet and row number, under row 7 of their sheet and with its date: each row by its checks in order (data row with two clocks, weekday, date, on demand, clocks per cell, route number, repeat of an earlier row) and then by how it reads on the patterns; trips and reports are listed in the order of the rows. A weekend date is rejected. |
| TripMappingResults.RouteOfPermutes | src/jeju_trip/infrastructure/official_timetable_mapping.py:620-626 | With unique sequences per pattern the ordered route does not depend on the order of the stops. |
| TripMappingResults.MappingIgnoresStopOrder | src/jeju_trip/infrastructure/official_timetable_mapping.py:609-826 | Trips and reports are the same for every permutation of the route stops. |
| TripAccounting.EveryTimetableRowIsAnswered | src/jeju_trip/infrastructure/official_timetable_mapping.py:638-826 | In a sheet with a header, every data row with two clocks or more has exactly one trip or report in all, unless it repeats an earlier row. |
| TripAccounting.FirstOfItsKind | src/jeju_trip/infrastructure/official_timetable_mapping.py:707-710 | A dropped row repeats one that is itself no repeat. |
| TimetableBundleMeaning.BuildWeekdayBundle | src/jeju_trip/infrastructure/official_timetable_bundle.py:58-177 | The checks in their order name the error, at the first trip in force that is at fault; otherwise the bundle holds a record for every route stop, every trip in force and each of its stop times, in order, with trimmed texts, fact ids, the service of the day and the clocks the texts read as. |
| TimetableBundleMeaning.ManifestMeans | src/jeju_trip/infrastructure/official_timetable_mapping.py:159-234 | The manifest holds the stops of the mapped patterns by pattern and sequence and one entry for each trip under an id made of its date, route number and position, or names why there is none. |
| TimetableMeaning.ValidateTimetableBundle | src/jeju_trip/application/manual_import.py:63-126 | The validation accepts exactly the bundles in which route stops, services and trips have distinct keys, every trip has its direction and service, every stop time a trip whose route serves the stop, and every trip two stop times or more of distinct sequence that never go back; else the first failing check, at the first trip or stop time it fails on, names the error. |
| TimetablePublication.ReadableIff | src/jeju_trip/infrastructure/official_timetable_mapping.py:534-551 | All printed clocks of a row are readable exactly when its clocks go back at most twice. |
| TimetablePublication.TripIdsDiffer | src/jeju_trip/infrastructure/official_timetable_mapping.py:189-194 | Trip ids of different positions differ, whatever the route numbers look like. |
| TimetableEndToEnd.BundleIsBuiltIff | src/jeju_trip/infrastructure/official_timetable_bundle.py:58-177 | From well-formed entries the bundle is built exactly when no trip goes back more than twice. |
| TimetableEndToEnd.BundleIsValid | src/jeju_trip/application/manual_import.py:63-126 | The bundle built from well-formed entries is valid, and the records of each trip show its unrolled minutes. |
| TimetableTheorem.MappedTripsReachPublication | src/jeju_trip/infrastructure/official_timetable_mapping.py:159-234 | For well-formed route stops every non-empty mapping becomes a manifest; the bundle is built exactly when no trip was read from a workbook row that goes back more than twice; it is then valid and no trip is lost. |
| TimetableMidnight.RowsPassAnyNumberOfTimes | src/jeju_trip/infrastructure/official_timetable_mapping.py:523-552 | For every number there is a row that the mapping reads in full and that goes back that often; its printed clocks are all readable exactly when the number is at most two. |
| OpeningHours.SubtractVerifiedBreaks | src/jeju_trip/infrastructure/runtime_generation_gateway.py:52-94 | Cutting all windows by one break after the other, then sorting. |
| OpeningMeaning.GenerationMeans | src/jeju_trip/infrastructure/runtime_generation_gateway.py:97-123 | The windows are just what the breaks, taken one after the other, leave of the open rules: each keeps the last admission and last order of its rule and cites every break that cut it once; sorted by opening, closing and evidence. |
| OpeningMeaning.EvaluatorOpeningWindows | src/jeju_trip/infrastructure/runtime_evaluation.py:312-402 | A closing exception alone, or just what the breaks leave of the exception or of the open rules; when they leave nothing, one empty segment at midnight that cites, once each, all that closed the day. |
| OpeningResults.GenerationCovers | src/jeju_trip/infrastructure/runtime_generation_gateway.py:52-123 | The generation offers exactly the minutes inside some open rule and outside every break, inverted breaks included. |
| OpeningResults.EvaluationCovers | src/jeju_trip/infrastructure/runtime_evaluation.py:312-402 | So does the evaluator, from the exception when there is one; its closed-day segment adds no minute. |
| OpeningResults.NestingsAgree | src/jeju_trip/infrastructure/runtime_evaluation.py:361-391 | Windows outside or breaks outside, the same segments come out in the same order. |
| OpeningResults.FormsMatch | src/jeju_trip/infrastructure/runtime_generation_gateway.py:52-123 | Before sorting, the generation's windows are the evaluator's segments up to repeated evidence, without any hypothesis. |
| OpeningResults.FormsAgree | src/jeju_trip/infrastructure/runtime_generation_gateway.py:52-123 | With distinct fact ids both forms, given one list of rows, give the same sorted intervals and evidence. |
| OpeningAgreement.MinutesAgree | src/jeju_trip/infrastructure/runtime_evaluation.py:312-402 | Generation and evaluation offer the same minutes whatever the order of their rows, with tied or inverted breaks, with an exception or without. |
| OpeningAgreement.QueriesAgree | src/jeju_trip/infrastructure/runtime_evaluation.py:312-402 | With the rows in the order of each query, the intervals and the evidence agree when no two breaks start in one minute and no fact id is used twice. |
| OpeningAgreement.TiedBreaksCiteTheFirst | src/jeju_trip/infrastructure/runtime_generation_gateway.py:62-89 | Two breaks from noon, cut in both orders: the morning cites the one that was cut first, so the evidence depends on an order that the query of the evaluator leaves open. |
| OpeningAgreement.SpecialHoursAgree | src/jeju_trip/infrastructure/runtime_generation_gateway.py:1795-1810 | On a day with special hours the intervals and evidence agree with the evaluator up to sorting, and in its unsorted order too when no break ends before it starts. |
| OpeningResults.CutIsApartIff | src/jeju_trip/infrastructure/runtime_generation_gateway.py:67-88 | One cut leaves disjoint pieces unless the break lies inside the window and ends before it starts. |
| OpeningResults.SegmentsStayApart | src/jeju_trip/infrastructure/runtime_generation_gateway.py:62-89 | Disjoint windows stay disjoint when no break ends before it starts. |
| OpeningResults.SegmentsArePieces | src/jeju_trip/infrastructure/runtime_generation_gateway.py:70-88 | Every interval left is a piece of one open window that keeps its facts, and every edge it does not share with the window is the edge of a break whose fact it carries. |
| Lineage.PeelLineage | src/jeju_trip/domain/durable_projection.py:126-133 | The peeling loop ends, accepts exactly the graphs without a cycle, and on acceptance ranks every fact above its inputs. |
| Lineage.StuckHasCycle | src/jeju_trip/domain/durable_projection.py:127-130 | When nothing is ready the remaining facts contain a real cycle. |
| Lineage.RankedHasNoCycle | src/jeju_trip/domain/durable_projection.py:126-133 | A ranking rules out every cycle. |
| Lineage.ValidateLineage | src/jeju_trip/domain/durable_projection.py:114-133 | Said on the list of facts: repeated ids, then a reference that is no id, then a circle of facts each naming the next among its inputs; accepted exactly when there is none of the three. |
| CandidateStore.Store.Put | src/jeju_trip/application/ephemeral_candidates.py:104-123 | The new contents: a deadline no later than time to live, evidence or a previous deadline; refused and removed when already due. |
| CandidateStore.PutMeans | src/jeju_trip/application/ephemeral_candidates.py:104-123 | A put is stored exactly when time to live, evidence and the earlier entry all reach past the present; the deadline is the earliest of the three and the new timer has it; a refused put removes the earlier entry; other ids stay. |
| CandidateStore.Store.Get | src/jeju_trip/application/ephemeral_candidates.py:137-147 | A lookup returns the payload exactly when present with a deadline after the reading, and removes what is due. |
| CandidateStore.Store.Expire | src/jeju_trip/application/ephemeral_candidates.py:131-135 | A timer removes its entry only when the deadline is still the timer's own. |
| CandidateStore.NewStore | src/jeju_trip/application/ephemeral_candidates.py:85-96 | A store is made exactly for a time to live between one second and 23 hours 50 minutes. |
| CandidateStore.Store.Delete | src/jeju_trip/application/ephemeral_candidates.py:155-157 | The entry and its timer are gone, the rest is unchanged. |
| CandidateStore.Store.Clear | src/jeju_trip/application/ephemeral_candidates.py:159-164 | No entry and no timer is left. |
| CandidateStore.StoredWithinLimits | src/jeju_trip/application/ephemeral_candidates.py:104-123 | A stored entry is not yet due, outlives neither its time to live nor its evidence, and no other entry changes. |
| CandidateStore.RunsStayConsistent | src/jeju_trip/application/ephemeral_candidates.py:104-164 | In every interleaving items and timers have the same ids and each timer carries its entry's deadline. |
| CandidateStore.DeadlinesNeverMoveLater | src/jeju_trip/application/ephemeral_candidates.py:104-123 | While an entry stays present its deadline never moves later. |
| CandidateStore.LeavesOnlyInTime | src/jeju_trip/application/ephemeral_candidates.py:125-135 | An entry leaves only on request, on a put that finds its evidence used up, or at or after its own deadline, whatever stale timers fire. |
| CandidateStore.NeverFoundPastDeadline | src/jeju_trip/application/ephemeral_candidates.py:137-147 | Until an id is newly put again, no lookup with a reading at or past the deadline finds it. |
| CandidateStore.LookupInRun | src/jeju_trip/application/ephemeral_candidates.py:137-147 | In every run a lookup that finds something returns the payload of the last put of its id, not deleted or cleared since, and read the clock before the time to live and the evidence of that put ran out; what it returns is already due exactly when the deadline lies after the reading and not after the lock. |
| CandidateStore.LookupCanBeOverdue | src/jeju_trip/application/ephemeral_candidates.py:137-147 | A run in which a lookup waits for the lock while a deadline passes and returns an entry that is due. |
| TaxiRecovery.TaxiAfterBusTimeout | src/jeju_trip/application/service.py:438-528 | The first ride by bus with the current id, overdue by more than the wait limit, gives way to its first taxi that can be taken: the pickup is the taxi's own when above zero, else the default; the drive its own when above zero, else what the pickup leaves of the ride; the three new items and the shift of the later ones are written out. Nothing is repaired exactly when there is no such ride and taxi, or the drive takes no time. |
| TaxiRecovery.RepairIsSound | src/jeju_trip/application/service.py:462-528 | From an ordered timeline the repair is ordered: earlier items untouched, wait, pickup and drive without a hole, later items moved by one shift, forward or back. |

## Left out

- BusDominance.DominanceIsLossless: supposes that the state cut stays idle, which is a fact about the search's own layers; `BusBound.SearchIsLossless` replaces it by a count on the request.
- BusBound.SearchIsLossless: one direction for the search as a whole; the exact condition is proved for the single ride (`BusBoarding.EarlierIsNoWorseIff`), because a loss on one edge, or a state that is cut, need not change any complete day.
- LifecycleLocks.CarefulCallersNeverDeadlock: one direction, because overlapping calls usually get through; the exact condition on a state is `LifecycleLocks.DeadlockIff`.
- OpeningAgreement.QueriesAgree: one direction, because tied breaks that overlap nothing leave the same evidence in either order.
- OpeningAgreement.SpecialHoursAgree: rows and exception are the ones that passed the freshness checks, which are not part of this model.
- CandidateStore.Store.constructor: the range check of the time to live stands in `NewStore`, which returns the error.
- TimetableBundleMeaning.BuildWeekdayBundle: service-day exceptions, notices, route exceptions and coordinates are not part of the records, so their normalisation and validation are not modelled; whether the notices were reviewed is one flag.
- TimetableClock.CandidateStopTimes: the clock and name patterns are parameters, so Korean name normalisation is not modelled.
- OpeningMeaning.EvaluatorOpeningWindows: the caches and the last-admission lookup it fills are not part of this model.
- TripRunMeaning.MapExactWeekdayTrips: workbooks have distinct names, being the keys of a dictionary; the effective date is read from the rows above the header as a table by row number, without the order in which the cells were joined.
- ManifestErrors.MergeIncremental: a trip row's other fields are one text and the order of lineages is that of numbers; JSON values of mixed types are not modelled.
- RawCollection.FetchPage: responses are bodies, timeouts or statuses; size limits, redirects and preflight checks are not modelled.
- TaxiRecovery.TaxiAfterBusTimeout: the re-evaluation of the repaired timeline, which may still reject it, is not part of this model.
- SQL, PostGIS, HTTP, ZIP bytes, temporary files, CSV and XLSX parsing: the state they read and write is modelled, not the libraries.
- The choice of three strategies out of the searched orders and the material-difference ratios: simple comparisons of finished orders.
- `merge_mapping_manifest_overlay`: a second, simpler merge with the same ingredients as the incremental one.
- The durable projection's copying and its sums per event type: they repeat the checks of the response they copy.
- `PostgresBusStopPublisher` and the manual CSV import: they do not keep the twin check the lifecycle invariant rests on.
- Coverage measurement, readiness gates, staging previews, route caches and schedulers: sums and single-branch facts.
- Cluster selection of candidate places and fares: the logic lies in the database or in rounding.
