# Lead enrichment and CRM sync, modelled in Dafny

This project models the backend that takes raw person names and guesses each
one's nationality. A name is Verified when the top country's probability
reaches 0.6. A sync cycle later marks the Verified, unsynced leads as synced
to a CRM. Only a successful save marks a lead, and a marked lead is never
selected again, so across sequential cycles a lead is marked at most once; a
lead whose save keeps failing stays unmarked. The modelled code is the enrichment batch
(`processBatch`), the Lead schema, the store operations the controller and
the sync cycle use, the three request handlers (`processLeads`, `getLeads`,
`getLead`), and the sync cycle in both of its forms: the `executeSyncTask`
service and the five-minute cron callback.

Modules, one per source file plus three shared ones:

- `Wrappers`: `Option` and `Result`.
- `Text`: JavaScript's `trim` (the ECMAScript whitespace set) and the
  decimal rendering of a count.
- `Sorting`: a stable descending insertion sort. It is proved to sort, to
  permute, and to put the first maximum first. This is how
  `countries.sort((a, b) => b.probability - a.probability)[0]` and
  `sort({ createdAt: -1 })` are read.
- `LeadModel` (models/Lead.js): the `Lead` record, its schema constraints
  (`LeadValid`) and the defaults of `new Lead(data)`.
- `LeadStore`: the collection as a class `Store` holding `leads: seq<Lead>`.
  - `Create` is `new Lead(data).save()`; `Update` is `doc.save()` on a
    stored lead. Both validate against the schema first.
  - The store invariant is that every stored lead is schema-valid and that
    its identifier is its insertion position.
  - `FirstFailure` is the index of the first failing write in a run of
    writes. It is shared by the save loop and the sync loop.
- `EnrichmentService` (services/enrichmentService.js): `ProcessBatch` is a
  pure function of the names and an oracle.
- `SyncService` (services/syncService.js): two parts.
  - `SyncCycle` specifies one cycle over a snapshot of the store.
  - `ExecuteSyncTask` runs the cycle on a `Store` and is proved equal to
    that specification.
- `SyncAutomation` (automation/syncAutomation.js): `CronTick`, the cron
  callback's body. Its effect on the store is proved to be the one
  `SyncCycle` specifies.
- `LeadController` (controllers/leadController.js): `ProcessLeads` (a
  method on the store) and the queries `GetLeads` and `GetLead` (functions
  of a store snapshot).

Outside effects become parameters:
- The nationality lookup is a function `Oracle = string -> Result<NationalityData, OracleError>`.
- The current time is a `now: Timestamp`.
- A save's failure is `saveError(j)` for the `j`-th save of a loop.
- A failing `find` is `findError` or `dbError`.

Behaviour of the code worth knowing:
- Duplicates are removed on the raw, untrimmed strings, in first-occurrence
  order (`new Set` at services/enrichmentService.js:25).
  - `"Bob"` and `"Bob "` give two records, both named `"Bob"`
    (`WhitespaceVariantsNotMerged`).
  - The comparison is case-sensitive and happens before trimming, so
    `["Ahmed", "ahmed ", "Maria"]` gives three records.
- Neither sync loop isolates failures per record. The loop
  (services/syncService.js:45-47) sits inside the one `try` of lines 22-65,
  so the first failed save ends the cycle. Leads marked before it stay
  marked, and no later lead is touched (`CycleEffect`).
- A non-empty array of blank names is not rejected. It passes the 400 check
  (controllers/leadController.js:13-18) and enriches to no records
  (`BlankNamesEnrichToNothing`), so the request succeeds with count 0.
- A failed save in `processLeads` (controllers/leadController.js:25-29)
  ends the request with 500. The leads saved before it stay in the store
  (`ProcessLeads`).

## Model

| member | source | states |
|---|---|---|
| Text.TrimStartSpec | services/enrichmentService.js:30 | leading trim removes exactly a whitespace prefix, leaving a suffix that is empty or starts with non-whitespace |
| Text.TrimEndSpec | services/enrichmentService.js:30 | trailing trim removes exactly a whitespace suffix, leaving a prefix that is empty or ends with non-whitespace |
| Text.TrimSpec | services/enrichmentService.js:36 | a trimmed string neither starts nor ends with whitespace |
| Text.TrimEmptyIff | services/enrichmentService.js:25 | `name.trim()` is empty exactly when every character is whitespace (the filter's test) |
| Text.TrimOffset | services/enrichmentService.js:30 | the trimmed string is a contiguous part of the input between a whitespace prefix and a whitespace suffix |
| Text.TrimIdempotent | models/Lead.js:7 | trimming an already trimmed name changes nothing, so the schema's trim setter keeps the batch's names |
| Text.NatToString | services/syncService.js:54 | the count in the success message is written in decimal digits that denote the count, with no leading zero |
| Sorting.FirstMaxIndex | services/enrichmentService.js:45 | the index holds a maximal key, and every earlier key is strictly smaller |
| Sorting.InsertDescSorted | services/enrichmentService.js:45 | inserting into a descending sequence keeps it descending |
| Sorting.InsertDescPerm | services/enrichmentService.js:45 | inserting adds exactly the new element |
| Sorting.SortDescSorted | controllers/leadController.js:61 | the sort's output is in descending key order |
| Sorting.SortDescPerm | controllers/leadController.js:61 | the sort's output is a permutation of its input |
| Sorting.SortDescHead | services/enrichmentService.js:45 | the head of the stable descending sort is the first maximum of the input |
| LeadModel.LeadValid | models/Lead.js:3-29 | definition of the schema's constraints: required non-empty strings, probability in [0, 1], score in [0, 100], status in the enum |
| LeadModel.InputValid | models/Lead.js:3-29 | definition of the same constraints stated on the supplied fields; related to `LeadValid` by `NewLeadValidIff` |
| LeadModel.NewLead | models/Lead.js:3-41 | definition of `new Lead(data)`; its contract is `NewLeadDefaults` and `NewLeadValidIff` |
| LeadModel.NewLeadDefaults | models/Lead.js:3-41 | a new lead is unsynced, has no sync time, is created now, stores the trimmed name and keeps the other supplied fields |
| LeadModel.NewLeadValidIff | models/Lead.js:4-29 | a new lead passes the schema exactly when its input fields satisfy it, whatever its id and creation time |
| LeadStore.FirstFailure | controllers/leadController.js:25-29 | the first write a run stops at: every earlier write succeeded, and this one failed unless the run finished |
| LeadStore.FirstFailureAt | services/syncService.js:45-47 | a loop that got through `j` writes and then failed, or finished, stopped at the first failure |
| LeadStore.SharedNamesAllowed | models/Lead.js:45 | the store invariant does not constrain names: a valid lead can be added beside a lead with the same name |
| LeadStore.Store.Create | controllers/leadController.js:26-27 | `new Lead(data).save()`: a schema violation or a store failure leaves the store unchanged; otherwise exactly the new lead is appended and returned |
| LeadStore.Store.Update | services/syncService.js:14 | `lead.save()`: a schema violation or a store failure changes nothing; otherwise only that position is replaced |
| EnrichmentService.FirstIndex | services/enrichmentService.js:25 | the position of the first occurrence of a string |
| EnrichmentService.FirstIndexOfPrefix | services/enrichmentService.js:25 | appending does not move a first occurrence |
| EnrichmentService.FirstIndexOfNew | services/enrichmentService.js:25 | a newly appended string first occurs at the end |
| EnrichmentService.NonBlank | services/enrichmentService.js:25 | the filter keeps exactly the input strings that are not all whitespace |
| EnrichmentService.Dedup | services/enrichmentService.js:25 | `[...new Set(s)]` holds each string of `s` exactly once |
| EnrichmentService.DedupKeepsFirstOccurrenceOrder | services/enrichmentService.js:25 | the Set keeps strings in order of first occurrence |
| EnrichmentService.NonBlankKeepsFirstOccurrenceOrder | services/enrichmentService.js:25 | filtering preserves the relative order of first occurrences |
| EnrichmentService.UniqueNamesSpec | services/enrichmentService.js:25 | a name is looked up iff it occurs in the input and trims to something non-empty, each such raw string exactly once, in first-occurrence order |
| EnrichmentService.UniqueNames | services/enrichmentService.js:25 | definition: the filter followed by the Set; its contract is `UniqueNamesSpec` |
| EnrichmentService.Classify | services/enrichmentService.js:33-68 | definition of the per-name record; its contract is `ClassificationRules` |
| EnrichmentService.EnrichName | services/enrichmentService.js:28-30 | definition: the lookup of `name.trim()` and its classification; covered by `BatchShape` and `FailureIsolation` |
| EnrichmentService.ProcessBatch | services/enrichmentService.js:23-75 | definition of the batch; `BatchShape` proves record `i` is the classification of the oracle's answer for the `i`-th unique name, trimmed, so `ClassificationRules` applies to every record; also `ScoringPolicy`, `RecordsSatisfySchema` and `FailureIsolation` |
| EnrichmentService.RoundHalfUp | services/enrichmentService.js:47 | `Math.round` gives the integer within half a unit, halves rounding up |
| EnrichmentService.ClassificationRules | services/enrichmentService.js:33-68 | a failed lookup gives the Error record; an empty or missing list gives the Unknown record; otherwise the first country of maximal probability is chosen; the score is the rounded percentage; Verified iff probability >= 0.6 |
| EnrichmentService.BatchShape | services/enrichmentService.js:28-73 | one record per unique name, in the same order; record `i` is `Classify` of the oracle's answer for the trimmed `i`-th unique name, and carries that trimmed, non-empty name |
| EnrichmentService.ScoringPolicy | services/enrichmentService.js:47-50 | every record's score is the rounded percentage, and its status is Verified exactly at or above 0.6 |
| EnrichmentService.ScoreBounds | services/enrichmentService.js:47 | a probability in [0, 1] gives a score in [0, 100] |
| EnrichmentService.RecordsSatisfySchema | services/enrichmentService.js:35-67 | when the oracle's probabilities lie in [0, 1] and its country ids are non-empty, every record satisfies the Lead schema |
| EnrichmentService.FailureIsolation | services/enrichmentService.js:59-68 | a failed lookup for one name turns only that name's record into the Error record; every other record is as without the failure |
| EnrichmentService.BobVariantsTrim | services/enrichmentService.js:25 | `"Bob"` and `"Bob "` are non-blank and both trim to `"Bob"` |
| EnrichmentService.BobVariantsAreUnique | services/enrichmentService.js:25 | the Set keeps both `"Bob"` and `"Bob "` |
| EnrichmentService.WhitespaceVariantsNotMerged | services/enrichmentService.js:25 | `["Bob", "Bob "]` yields two records, both named `"Bob"` |
| EnrichmentService.AhmedIsUnique | services/enrichmentService.js:25 | `["Ahmed"]` is looked up as is |
| EnrichmentService.TopCandidateExample | services/enrichmentService.js:45-57 | NG 0.82 against GB 0.15 gives NG, score 82, Verified |
| SyncService.Eligible | services/syncService.js:27-30 | definition of the query `{ status: 'Verified', synced: false }` |
| SyncService.MarkSynced | services/syncService.js:12-13 | definition of the two assignments of `syncToCRM`; covered by `CycleOnlyMarks` |
| SyncService.MarkFirst | services/syncService.js:45-47 | the store after the first `j` loop iterations, with its length unchanged; its contract is `MarkFirstAt` |
| SyncService.SyncCycle | services/syncService.js:21-66 | reference definition of one cycle; its contract is `CycleEffect`, `CycleOnlyMarks`, `CycleCount` and `SecondCycleFindsNothing` |
| SyncService.Selected | services/syncService.js:27-30 | the query returns exactly the positions of Verified, unsynced leads, in store order |
| SyncService.MarkFirstAt | services/syncService.js:45-47 | after `j` iterations, exactly the first `j` selected leads are marked |
| SyncService.CycleEffect | services/syncService.js:22-65 | a failed query gives "Error during sync" with its error and no change; otherwise the cycle fails iff some selected save fails, and when the `k`-th is the first to fail it reports that error, the first `k` selected leads are marked and all others are unchanged; after success every eligible lead is marked with this cycle's time and every other lead is unchanged |
| SyncService.CycleOnlyMarks | services/syncService.js:12-13 | a cycle changes only `synced` and `syncedAt`, never unsets `synced`, and keeps every lead valid |
| SyncService.CycleCount | services/syncService.js:34-56 | on success `syncedCount` is the number selected; with nothing eligible the result is "No leads to sync", count 0, store unchanged |
| SyncService.SecondCycleFindsNothing | services/syncService.js:27-42 | after a successful cycle the next one finds nothing, reports 0 and changes nothing |
| SyncService.SyncToCRM | services/syncService.js:7-15 | the lead is saved with `synced` true and `syncedAt` now, or the store is unchanged if the save fails |
| SyncService.SyncEach | services/syncService.js:45-47 | the loop marks the selected leads in order up to the first failed save and returns that save's error |
| SyncService.ExecuteSyncTask | services/syncService.js:21-66 | the returned summary and the new store contents are those `SyncCycle` specifies for the old contents |
| SyncAutomation.CronTick | automation/syncAutomation.js:24-54 | a tick leaves the store as `SyncCycle` specifies, so it has the same effect as `executeSyncTask`, with every error swallowed |
| LeadController.SaveFailure | controllers/leadController.js:26-27 | definition of what one save reports; related to `Store.Create` by `SaveFails` |
| LeadController.SaveStep | controllers/leadController.js:25-29 | a successful save extends the saved list by the lead created from that record |
| LeadController.SaveFails | controllers/leadController.js:26-27 | a save reports the validation error when the new lead breaks the schema, otherwise the store's failure |
| LeadController.SavedLeads | controllers/leadController.js:24-28 | the leads created from the first `k` records: the `i`-th is `new Lead` of the `i`-th record |
| LeadController.SaveEach | controllers/leadController.js:24-29 | the saved leads are exactly those created from the records before the first failing save, appended to the store in order; the error is that save's |
| LeadController.ProcessLeads | controllers/leadController.js:8-45 | a bad `names` gives 400 and no change; otherwise one lead per enriched record is saved in order; 201 with the count and leads if all saves succeed, else 500 with the first save's error and the earlier leads kept |
| LeadController.BlankNamesEnrichToNothing | controllers/leadController.js:13-21 | a non-empty array of blank names passes the check and enriches to no records |
| LeadController.BlankNamesFilteredOut | services/enrichmentService.js:25 | the filter drops every blank name |
| LeadController.WellFormedBatchIsFullySaved | controllers/leadController.js:24-34 | with well-formed oracle answers and a store that accepts every write, every enriched record is saved |
| LeadController.MatchesQuery | controllers/leadController.js:56-59 | definition of the query built from `status`: no filter when it is absent or empty |
| LeadController.GetLeads | controllers/leadController.js:51-77 | definition of the handler; its contract is `GetLeadsSpec` and `QueryFailures` |
| LeadController.FilterLeads | controllers/leadController.js:56-61 | the query keeps exactly the leads with the requested status (all for none or an empty one), each matching lead exactly as often as stored |
| LeadController.FilterAll | controllers/leadController.js:57 | without a status, or with an empty one, the query keeps every lead |
| LeadController.GetLeadsSpec | controllers/leadController.js:51-67 | 200 with exactly the matching leads, each as often as stored, newest first, and the count |
| LeadController.FindById | controllers/leadController.js:85 | the lookup finds a stored lead with that id, or reports that none has it |
| LeadController.GetLead | controllers/leadController.js:83-107 | definition of the handler; its contract is `GetLeadSpec` and `QueryFailures` |
| LeadController.GetLeadSpec | controllers/leadController.js:83-97 | in a well-formed store, 200 with the lead at that id when it exists, else 404 "Lead not found" |
| LeadController.QueryFailures | controllers/leadController.js:69-105 | a failing store query makes either handler answer 500 with its message and the error |

## Left out

- The HTTP request of `getNationality` (services/enrichmentService.js:8-16) is network I/O. It is the `oracle` parameter; a thrown error is a `Failure` answer.
- `Promise.all` concurrency is modelled as a map in input order. The lookups share no state and `Promise.all` keeps the input order.
- Floating point: probabilities are `real`. `Math.round(p * 100)` is `Floor(p * 100 + 0.5)` with no IEEE rounding of the product.
- `cron.schedule` and its `*/5 * * * *` timing, `console.log` output and `new Date()` are left out. The time is the `now` parameter.
- Concurrency between the cron tick and the cron endpoint is left out; only sequential cycles are modelled.
- Mongo's `_id` is modelled as the lead's insertion position, since nothing is ever deleted. An `id` that is not a valid ObjectId (a cast error, answered 500) is a `dbError` like any other query failure.
- The extra `error` field of an enrichment failure record is carried in `LeadInput` and not stored, as the schema has no such path.
- Non-string elements of `names` are left out: the array is typed `seq<string>`. In the source a falsy element (null, undefined, 0, false) is dropped by the `name &&` test at services/enrichmentService.js:25, and a truthy non-string makes `name.trim()` throw, which `processLeads` answers with 500 (controllers/leadController.js:37-44).
- The `status` query parameter is a string or absent (`Option<string>`). A repeated `?status=` parameter (an array) or an object from an extended query parser is truthy and goes into the query as it is (controllers/leadController.js:57-58), where it does not mean "status equals one string"; such queries are not modelled.
- The order among leads with equal `createdAt` follows the stable sort. The store gives no such guarantee.
- The automation's own copy of `syncToCRM` (automation/syncAutomation.js:8-16) has the same text as the service's, so `SyncService.SyncToCRM` stands for both.
- server.js, routes/leadRoutes.js and routes/cronRoutes.js are not part of this model. They cover the Express wiring, the route table and the bearer-secret check around `executeSyncTask`.
- The CRM is only a log line in the source, so forwarding a lead to it is not modelled beyond the mark and save.
- The store keeps leads in insertion order, and the model's `find` returns them in that order. MongoDB does not promise any order for an unsorted `find` (services/syncService.js:27-30), so which leads count as "the first `k` selected" in `CycleEffect` (and the order of the sync loop) is this model's choice of order.
- FailureIsolation: the oracle is a function of the trimmed name, so two raw strings with the same trimmed form (`"Bob"`, `"Bob "`) always get the same answer and fail together. In the source each raw string makes its own request (services/enrichmentService.js:28-30), and either request can fail alone.
- The validation error is the fixed message `VALIDATION_FAILED` ("Lead validation failed"). Mongoose's message also lists the failing paths, and `processLeads` returns that full message as `error` (controllers/leadController.js:42).
- One `now` is used for a whole batch and a whole cycle. The source reads the clock for each lead: the `Date.now` default at models/Lead.js:38-40 and `new Date()` at services/syncService.js:13. So in the model all leads of one batch share a `createdAt`, and `GetLeads` lists them in store order (oldest first) by the stable sort. In the source their times usually differ, so they come newest first.
