# Centcom satellite: a verified model of its task logic

The satellite is a task server. Most of its tasks wrap one API call; this project models the ones that hold a
protocol or an algorithm, and proves what they promise for every input, every run and every interleaving.

| file | what it models |
|---|---|
| `InsightNames.dfy`, `InsightSlot.dfy`, `InsightSafety.dfy`, `InsightRuns.dfy`, `InsightScenarios.dfy`, `InsightAnswers.dfy` | securityhub_get_insight_statistics: many processes share one mutable Security Hub Insight per region through find, create, rewrite, clean up, read and verify |
| `SecurityHubFilter.dfy` | the finding filter: how it is built, what it selects, when two filters are one query |
| `JsonMerge.dfy`, `HelmSpec.dfy`, `HelmApply.dfy` | helm_application_apply: the recursive merge, the shape validators, and read-merge-write against a store with resource versions |
| `NodeFanOut.dfy`, `NodeFanOutWorstCase.dfy`, `PvcUsage.dfy` | pv_usage: one goroutine per node behind a semaphore, with time, and the merge of their results |
| `WorkerPool.dfy` | forEach: eight workers, an unbuffered channel, stop at the first error |
| `RunningImages.dfy`, `Coverage.dfy`, `CoverageAccount.dfy`, `CoverageRun.dfy`, `FindingAggregation.dfy`, `FindingMeaning.dfy`, `FindingReport.dfy`, `GroupDetails.dfy`, `FindingQueries.dfy`, `WholeScan.dfy` | running_image_vulnerabilities: which images run, how many could be assessed, what was found on them, the sorted, capped report, and the whole scan from pods to report |
| `CloudTrailRun.dfy` | the CloudTrail scan: one call and chains of calls by token |
| `FindingStatistics.dfy`, `BucketStatistics.dfy` | securityhub_get_findings_statistics: exhaustive counts with truncation and resumption, and capped counts per bucket |
| `RateLimiter.dfy` | the per-IP token bucket limiter with eviction of idle entries |
| `LogTruncation.dfy` | get_logs: cutting at 512 KiB without splitting a character, and counting lines |
| `NodeCapacity.dfy` | pod_resize: the node check under per-container rounding |
| `LoginAggregation.dfy`, `LoginScan.dfy` | cloudtrail_logins: principals, their times and addresses, the last login, and both scans as a whole |
| `Options.dfy`, `Sequences.dfy`, `Text.dfy`, `Permutations.dfy`, `Tally.dfy`, `Pages.dfy` | what the others share: optional values, elements of sequences, Go string order, folds that do not mind the order, counting by key, paginated listings |

Protocols between goroutines, processes or API clients (Insight, Helm apply, forEach, the fan-out) are state machines:
a datatype for the shared state, an action per step, and theorems over all sequences of actions. Loops and objects that
update state in place are methods and classes, each proved equal to a function or to the property it must have; the
theorems about whole scans, runs and chains are lemmas about those functions.

What the code cannot see is a parameter that the theorems quantify over: the clock, throttling, budgets and refused
requests are a `turns`, `replies` or `answers` function or an action's reply; the order a Go map yields its keys in is an
arbitrary choice; hashes, timestamp parsing and AWS's own tally are functions in an `Account` record. Where counts are
stated by field, AWS is taken to count the findings' fields (`TalliesFields`). AWS ARNs are never reused, the 12-digit hash
of a filter has no collision (`NoCollisions`), a listing does not change while it is paged through, and nobody but calls of
this task creates, edits or deletes an Insight under this task's name prefix: the foreign writers of the runs touch other
names only.

Two places where the repository's comments and its code disagree are settled for the code and shown by a lemma: remaining
items after an error (`WorkerPool.SkipsRestExactly` says when they are skipped) and the bucket filter "on top of" the caller's
(`BucketStatistics.CountsWhatTheCallerExcluded`).

Each operation is specified by a function or relation, and what that function means is stated apart from it, in the terms
of the inputs: the lemmas ending in `Exactly` and their like.

Run `dafny verify dfyconfig.toml` here to check everything.

## Model

| member | source | states |
|---|---|---|
| `InsightRuns.SuccessAnswersItsOwnQuery` | internal/task/securityhub_get_insight_statistics/task.go:228-274 | In every interleaving of calls, processes and writers of other Insights, a call that succeeds returns the true counts of its own group_by and filter at the step it read them; the one exception is that the slot had another query's name at that step and, between it and the call's own name check, a call of another process asking the same query wrote the slot |
| `InsightAnswers.SuccessCountsFields` | internal/task/securityhub_get_insight_statistics/task.go:99-122 | If AWS tallies the findings' own fields, a success lists under each key the number of findings the caller's filter asks for that carry it: severity label, type, workflow status, product name, resource type or resource ID by group_by; all keys below 100; with the exception just named |
| `InsightAnswers.QueryIsThePayloads` | internal/task/securityhub_get_insight_statistics/task.go:198-220 | Every call works on what its payload asked, group_by in any case and SEVERITY without one, in the resolved region, and is turned away exactly for a group_by other than the six |
| `InsightAnswers.SpoiledCallSucceeds` | internal/task/securityhub_get_insight_statistics/task.go:228-260 | A call whose first or second attempt found its slot rewritten or gone, and that is left alone in the next one, succeeds there with the true counts of that moment |
| `InsightAnswers.SpoiledAttemptStartsOver` | internal/task/securityhub_get_insight_statistics/task.go:228-257 | Such an attempt is followed by the next one, from its listing and under the same lock |
| `InsightAnswers.ThirdAttemptGivesUp` | internal/task/securityhub_get_insight_statistics/task.go:228-259 | A third one ends the call: busy if the name check failed, as not found otherwise, and the lock is free |
| `InsightAnswers.OtherRefusalsEndTheCall` | internal/task/securityhub_get_insight_statistics/task.go:229-252 | Any other refusal ends the call at once; only an exhausted quota while preparing has its own answer |
| `InsightSafety.SlotsMatchTheirNames` | internal/task/securityhub_get_insight_statistics/task.go:281-329 | In every run, an Insight under a query's slot name has that query's attribute and answers with its true counts |
| `InsightAnswers.SlotsCountTheirQueries` | internal/task/securityhub_get_insight_statistics/task.go:281-329 | In every run an Insight under a query's slot name counts, key by key, the findings that query asks for |
| `InsightSafety.ForeignInsightsUntouched` | internal/task/securityhub_get_insight_statistics/task.go:281-353 | No step of a call changes or deletes an Insight whose name does not begin with centcom-satellite-stats- |
| `InsightSafety.CallsTakeTurns` | internal/task/securityhub_get_insight_statistics/task.go:181-260 | Two calls of one process are never both inside the locked section; no call is at more than its third attempt, and only there is one answered busy or not found |
| `InsightSafety.RunKeepsInv` | internal/task/securityhub_get_insight_statistics/task.go:198-353 | The protocol invariant holds after every run: slots are honest, ARNs seen as ours stay ours or vanish, locks are held by one call, readings are what the slot gave |
| `InsightScenarios.TheCheckCanBeFooled` | internal/task/securityhub_get_insight_statistics/task.go:248-259 | The exception is real: a run of three calls in which the name check passes and the counts of another query are returned |
| `InsightScenarios.UndisturbedCallSucceeds` | internal/task/securityhub_get_insight_statistics/task.go:198-353 | From every reachable state, the first call of a process included, a call nothing interferes with succeeds at its first attempt: true counts, the slot its listing shows or else a new one, the lock free, and the other Insights of this task that it listed deleted if its process had not cleaned before, none if it had |
| `InsightScenarios.LeftAloneSucceeds` | internal/task/securityhub_get_insight_statistics/task.go:228-353 | The same for any later attempt, from its listing on |
| `InsightScenarios.FirstCallLeavesOneInsight` | internal/task/securityhub_get_insight_statistics/task.go:331-353 | After the first call of a process with a full listing, exactly one Insight of this task is left, the slot of the call's query |
| `InsightSlot.FindSlot` | internal/task/securityhub_get_insight_statistics/task.go:282-304 | The paging loop returns the first Insight with the region's prefix as the slot and all others of this task as leftovers, across page boundaries |
| `InsightSlot.ScanFindsFirst` | internal/task/securityhub_get_insight_statistics/task.go:290-299 | What first and leftovers mean: the slot is the first matching item, the leftovers are every other owned one in order |
| `InsightNames.SlotNameIdentifiesQuery` | internal/task/securityhub_get_insight_statistics/task.go:72-97 | Barring hash collisions, two queries have one slot name exactly when they have the same group_by and equivalent filters |
| `InsightNames.SameNameSameCounts` | internal/task/securityhub_get_insight_statistics/task.go:79-97 | A slot written for one query gives every query of the same name its true counts |
| `InsightNames.NamesExactly` | internal/task/securityhub_get_insight_statistics/task.go:62-74 | This task's Insights begin with centcom-satellite-stats-, a region's slot with that, the region in lower case and a hash sign |
| `InsightNames.ValidReceived` | internal/task/securityhub_get_insight_statistics/task.go:206-220 | Upper-casing, the SEVERITY default and the resolved region leave a valid query as it is |
| `SecurityHubFilter.BuildFilters` | internal/task/securityhub_common/filter.go:71-125 | The field-by-field construction equals the declarative filter |
| `SecurityHubFilter.SelectsExactly` | internal/task/securityhub_common/filter.go:11-125 | Under AND-of-ORs the built filter keeps exactly the findings asked for: every field that is set admits one of the finding's values, and the record state is ACTIVE unless given |
| `SecurityHubFilter.SelectedExactly` | internal/task/securityhub_common/filter.go:11-125 | Of any list it selects each finding asked for as often as it is there |
| `SecurityHubFilter.CanonicalExactly` | internal/task/securityhub_get_insight_statistics/task.go:81-97 | Two filters canonicalise alike exactly when they differ at most in list order, repetition, a spelled-out ACTIVE, and region |
| `SecurityHubFilter.CanonicalSelectsSame` | internal/task/securityhub_get_insight_statistics/task.go:81-97 | Filters with one canonical form and one region select the same findings from any list |
| `Text.SortCompactCanonical` | internal/task/securityhub_get_insight_statistics/task.go:89-93 | Sorting and compacting gives equal lists exactly for lists with the same values |
| `Text.LessExactly` | internal/task/cloudtrail_logins/task.go:158-169 | Strings are ordered by the first differing character, a proper prefix before what it begins |
| `Text.CaseExactly` | internal/task/securityhub_get_insight_statistics/task.go:73-79 | Lower and upper case move each of the 26 letters to its counterpart and leave everything else |
| `HelmApply.ApiServer.Execute` | internal/task/helm_application/task.go:72-159 | With nobody else writing: refused exactly for a missing name or spec, a version given for an absent object, createOnly on a present one, another version, or an unacceptable spec; else created with the caller's spec and labels and nothing else, or updated to the merge with the caller's labels or the stored ones, and stored unless a dry run; nothing else changes |
| `HelmApply.LeftAloneAnswers` | internal/task/helm_application/task.go:72-159 | In every run, a call whose read and write get through with nothing in between is answered so, and does so to the store |
| `HelmApply.NoLostUpdate` | internal/task/helm_application/task.go:72-159 | In every run, a committed update leaves exactly the merge of the spec stored immediately before the commit with the caller's overlay, the caller's labels or the stored ones, and everything else untouched; a committed create leaves exactly the caller's spec and labels; a supplied resourceVersion is the version replaced |
| `HelmApply.CommitIsAtomic` | internal/task/helm_application/task.go:102-159 | A write that takes effect is the whole call done at that instant, however long ago it read |
| `HelmApply.OnlyCommitsChangeTheCluster` | internal/task/helm_application/task.go:72-159 | Dry runs, refusals and CreateOnly calls on an existing object change nothing |
| `HelmApply.Serializable` | internal/task/helm_application/task.go:72-159 | Every interleaving of calls with other writers and lost messages leaves the store as the committed calls and other writes would one after another |
| `HelmApply.CommittedOnce` | internal/task/helm_application/task.go:72-159 | A call takes effect at most once, under its own payload, and only before it returns |
| `HelmApply.SuccessIsCommitted` | internal/task/helm_application/task.go:72-159 | A caller told of success (not a dry run) has its call among the committed ones |
| `HelmApply.AnswerTellsExactly` | internal/task/helm_application/task.go:72-159 | Any answer but an API error tells the caller exactly whether its call took effect: it did when the answer is a success and the call no dry run |
| `JsonMerge.DeepMergeMap` | internal/task/helm_application/task.go:180-206 | The recursive loop over the overlay computes the declarative merge, in any map order |
| `JsonMerge.ResultExactly` | internal/task/helm_application/task.go:174-233 | What the result holds at every path: the overlay's very value wherever it has one, empty lists and maps included, unless two maps or two equally long lists meet there, which give a map with the keys of both or a list of that length; elsewhere the base's value if the overlay stops short of the path, and none otherwise |
| `JsonMerge.DeepMergeSlice` | internal/task/helm_application/task.go:221-233 | Equally long arrays merge element by element |
| `JsonMerge.SelfMerge` | internal/task/helm_application/task.go:180-233 | Merging a value over itself is the identity |
| `JsonMerge.MergeIdempotent` | internal/task/helm_application/task.go:180-233 | Merging the same overlay twice equals merging it once |
| `JsonMerge.DisjointOverlaysCommute` | internal/task/helm_application/task.go:180-233 | Two recursively disjoint overlays commute over any base |
| `JsonMerge.UnnamedPathsKept` | internal/task/helm_application/task.go:174-233 | At every depth, a path the overlay does not name keeps its base value, absence included |
| `JsonMerge.NamedScalarsLand` | internal/task/helm_application/task.go:174-233 | Every scalar leaf the overlay names is in the result |
| `JsonMerge.ScalarsHaveAnOrigin` | internal/task/helm_application/task.go:174-233 | Every scalar of the result is the overlay's, or the base's where the overlay has none |
| `HelmSpec.FindItemWrappedArray` | internal/task/helm_application/task.go:349-365 | Reports a real {"item": [...]} wrapper if there is one on any map path, and none otherwise |
| `HelmSpec.FindListCollapsedToScalar` | internal/task/helm_application/task.go:310-339 | Reports a real list-turned-non-list if there is one on any map path, and none otherwise |
| `HelmSpec.ValidateHelmApplicationSpec` | internal/task/helm_application/task.go:246-283 | Accepts exactly the specs that pass every check |
| `HelmSpec.AcceptableExactly` | internal/task/helm_application/task.go:246-304 | Accepted are exactly the specs without a source.repoURL, or with one and a chart or path, without an item wrapper anywhere in the Helm values, and with every list of the stored values that is still there still a list |
| `HelmSpec.AcceptedUpdateKeepsLists` | internal/task/helm_application/task.go:180-206 | After an accepted update a list of the stored values is still a list exactly when the overlay has no non-map in the place of a map around it, and no map path is an item wrapper |
| `HelmSpec.ListSurvivesExactly` | internal/task/helm_application/task.go:180-206 | Under any merge, accepted or not, a list stays a list exactly when the overlay has no non-map around it and names nothing but a list for it; uprooted it is gone, replaced in place it is what the validator reports |
| `HelmSpec.UprootedListGoesUnreported` | internal/task/helm_application/task.go:310-339 | For every stored spec the validator accepts, with a list anywhere below a map of the values: replacing that map by any scalar is accepted, and the list is gone |
| `HelmSpec.ChartWithNestedList` | internal/task/helm_application/task.go:246-283 | Such a stored spec exists: a chart that passes every check and has a nested list |
| `NodeFanOut.FinishesInTime` | internal/task/pv_usage/task.go:21-40 | Every greedy schedule has at most k calls in flight and is over after c timeouts for every c with n <= c * k, the least such c being ceil(n/k) |
| `NodeFanOutWorstCase.WorstCaseIsAttained` | internal/task/pv_usage/task.go:31-40 | The bound is exact: for c = ceil(n/k) some schedule is still not over when c timeouts have passed |
| `NodeFanOut.NeverStuck` | internal/task/pv_usage/task.go:164-180 | Until all goroutines are done one of them can move without the clock |
| `NodeFanOut.EveryScheduleEnds` | internal/task/pv_usage/task.go:164-180 | Apart from the clock a run has at most four moves per node, and it is over exactly when all of them are made |
| `NodeFanOut.ResultsNeverBlock` | internal/task/pv_usage/task.go:164-180 | A goroutine with a result can always put it into the channel |
| `NodeFanOut.OneResultPerNode` | internal/task/pv_usage/task.go:164-180 | When all are done the channel holds exactly one result per node |
| `PvcUsage.MergePod` | internal/task/pv_usage/task.go:194-238 | Keeps for each claim of a pod's volumes the highest usage seen |
| `PvcUsage.MergeResults` | internal/task/pv_usage/task.go:182-239 | Over all results: every node counted, the failed ones listed in order, each claim with the first of its highest usages and no other claim |
| `PvcUsage.UsagesExactly` | internal/task/pv_usage/task.go:194-238 | The usage records are exactly those of claims' volumes, in the namespace asked for if any, on reached nodes, with used * 100 / capacity percent, 0 without a capacity |
| `PvcUsage.LostExactly` | internal/task/pv_usage/task.go:185-191 | The errors are those of the failed nodes, each once and in the order of the results |
| `PvcUsage.OrderDoesNotMatter` | internal/task/pv_usage/task.go:182-239 | Whatever order the results arrive in, the same claims are reported with the same usage |
| `PvcUsage.UsagesOfPermutation` | internal/task/pv_usage/task.go:182-239 | Reordering the node results reorders their usage records and nothing more |
| `WorkerPool.EachItemOnce` | internal/task/running_image_vulnerabilities/scan.go:36-66 | Under every schedule an index is handed out and finishes at most once, by exactly min(8, n) workers |
| `WorkerPool.WhatReturnMeans` | internal/task/running_image_vulnerabilities/scan.go:36-66 | On return nothing is running, the items that ran are a prefix of 0..n-1, and the result is nil exactly when all n ran without error |
| `WorkerPool.FirstErrorWins` | internal/task/running_image_vulnerabilities/scan.go:41-52 | The error recorded, and returned in the end, is that of the first item to fail, whatever fails after it |
| `WorkerPool.NeverDeadlocks` | internal/task/running_image_vulnerabilities/scan.go:36-66 | Short of returning some goroutine can always move |
| `WorkerPool.EveryScheduleEnds` | internal/task/running_image_vulnerabilities/scan.go:36-66 | Every schedule has at most 2n + workers + 2 steps, and exactly two per handed-out item plus workers plus two when it has returned |
| `WorkerPool.SkipsRestExactly` | internal/task/running_image_vulnerabilities/scan.go:34-66 | The comment that remaining items are skipped after an error holds in all schedules exactly when no item but the last can fail |
| `WorkerPool.ErrorMayNotSkipNextItem` | internal/task/running_image_vulnerabilities/scan.go:34-66 | For two items: a run in which the first one's error is recorded and the second may still be handed out |
| `FindingAggregation.Scan.AddFinding` | internal/task/running_image_vulnerabilities/findings.go:170-254 | Updates the shared accumulators in place, titles and fixes included, to exactly what the pure description of adding a finding gives; grouped by image, each group's title stays the reference of one of its images |
| `FindingAggregation.Scan.AddPage` | internal/task/running_image_vulnerabilities/findings.go:145-149 | A page is fed one finding after the other |
| `FindingAggregation.Dedupe` | internal/task/running_image_vulnerabilities/findings.go:256-267 | Same values, each once |
| `FindingAggregation.FeedingOrderDoesNotMatter` | internal/task/running_image_vulnerabilities/findings.go:169-254 | Feeding any reordering of the same findings gives the same totals, severity counts, matched images and groups, always but for the exploit value and severity a group shows; with known severities but for the exploit value; and in every respect if counted findings of one vulnerability agree on that |
| `FindingAggregation.ExploitIsTheLast` | internal/task/running_image_vulnerabilities/findings.go:238-242 | A vulnerability's exploit value is that of its last counted finding |
| `FindingAggregation.OrderMattersExactly` | internal/task/running_image_vulnerabilities/findings.go:169-254 | For whole lists with known severities, all reorderings give one result exactly when the counted findings of each vulnerability agree on the exploit value |
| `FindingAggregation.LabelIsTheLast` | internal/task/running_image_vulnerabilities/findings.go:238-242 | A vulnerability's title and fix are those of its last counted finding |
| `FindingAggregation.SwapExactly` | internal/task/running_image_vulnerabilities/findings.go:169-254 | With known severities two findings can be swapped exactly when they agree on the exploit value of a shared vulnerability |
| `FindingAggregation.SeverityOrderMattersExactly` | internal/task/running_image_vulnerabilities/findings.go:18-18 | For arbitrary labels the group severity depends on order exactly when two different labels share a rank |
| `FindingAggregation.TotalsCountExactly` | internal/task/running_image_vulnerabilities/findings.go:169-254 | Every finding on some running image is in the total once and under one severity |
| `FindingAggregation.MatchedExactly` | internal/task/running_image_vulnerabilities/findings.go:170-182 | An image counts as having findings exactly when some finding is on it |
| `FindingAggregation.SeveritiesCountExactly` | internal/task/running_image_vulnerabilities/findings.go:169-180 | Under each severity label exactly the counted findings with that label are counted |
| `FindingAggregation.GroupsCountExactly` | internal/task/running_image_vulnerabilities/findings.go:169-254 | A group exists exactly when a counted finding has its key, and counts each such finding once |
| `FindingMeaning.GroupsSayExactly` | internal/task/running_image_vulnerabilities/findings.go:169-254 | A group's number of findings, counts by severity, vulnerabilities, packages and images are exactly those of its counted findings; its EPSS is the largest given, 0 without one; its severity is the first of their labels that none outranks, from CRITICAL, HIGH, MEDIUM, LOW, INFORMATIONAL to UNTRIAGED |
| `FindingMeaning.InGroupExactly` | internal/task/running_image_vulnerabilities/findings.go:170-215 | A group's findings are those on a running image that have its key: vulnerability ID or title, a package's name or (no package), or repository@digest of an image they are on; each as often as it was fed |
| `FindingMeaning.CountedExactly` | internal/task/running_image_vulnerabilities/findings.go:170-182 | The counted findings are those one of whose resources is a platform image of a running image, each as often as it was fed |
| `FindingReport.Finish` | internal/task/running_image_vulnerabilities/findings.go:284-309 | Builds the sorted list of all groups, capped at the limit |
| `FindingReport.BeforeTotal` | internal/task/running_image_vulnerabilities/findings.go:288-304 | The comparator orders any two rows with different keys one way only |
| `FindingReport.BeforeExactly` | internal/task/running_image_vulnerabilities/findings.go:288-304 | The worse severity comes first; of one severity an exploitable group, then more images, then more findings, then the smaller key |
| `FindingReport.RowsTell` | internal/task/running_image_vulnerabilities/findings.go:311-317 | A row shows the numbers of its group's findings, images and vulnerabilities, their counts by severity, their worst severity and largest EPSS |
| `FindingReport.ReportIsDetermined` | internal/task/running_image_vulnerabilities/findings.go:284-309 | A sorted list of the groups is unique, whatever order the map yields them in |
| `FindingReport.SameFindingsSameReport` | internal/task/running_image_vulnerabilities/findings.go:169-309 | Two scans fed the same findings in different orders report the same capped list |
| `FindingReport.CapKeepsTheWorst` | internal/task/running_image_vulnerabilities/findings.go:284-309 | No group left out by the cap ranks before one that is kept |
| `GroupDetails.ToDetail` | internal/task/running_image_vulnerabilities/findings.go:311-364 | A group's vulnerability IDs, packages and workloads, each sorted and cut at ten, and the number of workloads |
| `GroupDetails.DetailTells` | internal/task/running_image_vulnerabilities/findings.go:311-364 | The lists shown are the first ten, in order, of the vulnerabilities, packages and workloads of the group's counted findings; a single vulnerability that is the group's key is not listed |
| `GroupDetails.OrderExactly` | internal/task/running_image_vulnerabilities/findings.go:329-331 | Packages are in the order of their names, and of their versions under one name |
| `GroupDetails.PackagesDeterminedExactly` | internal/task/running_image_vulnerabilities/findings.go:325-335 | Sorting by name and version fixes the packages shown exactly when no two with the same name and version come among the first ten |
| `GroupDetails.SameFindingsSameDetails` | internal/task/running_image_vulnerabilities/findings.go:169-362 | In whatever order the same findings are fed, each group shows the same vulnerabilities and workloads, and the same packages if they are unambiguous |
| `RunningImages.KeyIdentifiesImage` | internal/task/running_image_vulnerabilities/pods.go:120-137 | The key host/repo@digest tells images apart |
| `RunningImages.KeyRoundTrip` | internal/task/running_image_vulnerabilities/pods.go:29-49 | Parsing a key, bare or behind a runtime's scheme, gives back its host, repository and digest |
| `RunningImages.ParseExactly` | internal/task/running_image_vulnerabilities/pods.go:29-49 | An image ID gives an image exactly if, behind its scheme, a sha256 digest follows the last at-sign; host and repository are split at the first slash, docker.io without one |
| `RunningImages.Collector.CollectPods` | internal/task/running_image_vulnerabilities/pods.go:69-118 | The nested loops register exactly the sightings of live pods, count their running containers, split the images into ECR and others, gather the other registries and list ten of them, or all if there are fewer, in order |
| `RunningImages.RegistriesDeterminedExactly` | internal/task/running_image_vulnerabilities/pods.go:111-116 | Which registries are listed depends on the map's order exactly when there are more than ten |
| `RunningImages.CollectedExactly` | internal/task/running_image_vulnerabilities/pods.go:69-137 | An image is recorded exactly when some live container runs it, with exactly the workloads running it, the reference it was first seen under, and the account's registry exactly for its two ECR hosts of the region |
| `RunningImages.SightingsExactly` | internal/task/running_image_vulnerabilities/pods.go:83-96 | The sightings are those of the containers and init containers of pods that have not finished |
| `RunningImages.RunningContainersExactly` | internal/task/running_image_vulnerabilities/pods.go:86-89 | Running containers are the containers, init containers apart, of pods that have not finished |
| `RunningImages.WorkloadsExactly` | internal/task/running_image_vulnerabilities/pods.go:120-137 | An image's workloads are exactly those of the sightings that show it |
| `RunningImages.OtherHostsExactly` | internal/task/running_image_vulnerabilities/pods.go:120-137 | The other registries are exactly the hosts of images seen that are not the account's own ECR in the region |
| `RunningImages.CountImages` | internal/task/running_image_vulnerabilities/pods.go:103-110 | ECR images and other images add up to the running images |
| `Coverage.PlatformDigests` | internal/task/running_image_vulnerabilities/ecr.go:155-180 | The runnable platforms of an index, or the digest itself, and never an empty list |
| `Coverage.PlatformsExactly` | internal/task/running_image_vulnerabilities/ecr.go:155-180 | The platforms of an index are its entries with an architecture other than unknown, in order; an image without any stands for itself |
| `Coverage.GapExactly` | internal/task/running_image_vulnerabilities/ecr.go:31-50 | Findings are missing exactly for NOT_COVERED and for INACTIVE with one of the twelve gap reasons |
| `Coverage.ResolveBatch` | internal/task/running_image_vulnerabilities/ecr.go:118-153 | Resolved plus unresolved is the batch, every answered digest resolves an image carrying it, and nothing is taken from outside the batch or the answer |
| `CoverageRun.CoverageScan.ResolveRepo` | internal/task/running_image_vulnerabilities/ecr.go:78-116 | A repository is merged as a whole, each of its images getting the platforms its answer names and no other image changing, or, just when the budget runs out, not at all |
| `CoverageRun.CoverageScan.RecordBatch` | internal/task/running_image_vulnerabilities/findings.go:33-61 | A finished batch records the status answered for each of its platform images, marks assessed exactly the images that have one of them without a gap, and changes nothing else |
| `CoverageRun.CoverageOf` | internal/task/running_image_vulnerabilities/findings.go:64-104 | Each platform image of a batch gets the last status answered for it, NOT_COVERED without one |
| `CoverageRun.StatusExactly` | internal/task/running_image_vulnerabilities/findings.go:84-98 | A status is the last answer's code, with its reason behind a slash unless it is SUCCESSFUL or none |
| `CoverageRun.NoStatusExactly` | internal/task/running_image_vulnerabilities/findings.go:64-76 | A platform image nobody answers for is NOT_COVERED |
| `CoverageRun.CoverageScan.Finish` | internal/task/running_image_vulnerabilities/findings.go:269-283 | The status counts sum to the platform images; images with findings are the marked ones and no more than assessed and unscanned ones; assessed, unscanned and unresolved images are at most the ECR images, all of them exactly when every repository was merged |
| `WholeScan.Execute` | internal/task/running_image_vulnerabilities/task.go:207-267 | A whole scan, wherever the budget ends it: images and containers are those of the pods; running images are ECR images plus others; assessed, unscanned and unresolved ones are at most the ECR images, all of them once every repository was resolved; it is complete exactly if every batch was answered, and then the findings counted are all those of all pages; totals, images with findings, groups and their lists are what exactly the findings counted give |
| `FindingQueries.ContextIsExact` | internal/task/running_image_vulnerabilities/ecr.go:103-114 | A platform image stands for exactly the running images it was resolved from |
| `FindingQueries.RunBatch` | internal/task/running_image_vulnerabilities/findings.go:33-62 | A batch's findings are counted as they come, its images marked, and its statuses recorded only if it was finished |
| `WholeScan.ResolveImages` | internal/task/running_image_vulnerabilities/ecr.go:52-76 | Every ECR image's repository is resolved, or the budget ran out in one; only platforms change, and no image is added or lost |
| `FindingQueries.QueryFindings` | internal/task/running_image_vulnerabilities/findings.go:22-62 | Batches of ten cover every platform image once and all their findings are counted, or the budget ended one; totals and marked images are those of the findings counted |
| `WholeScan.GroupByRepo` | internal/task/running_image_vulnerabilities/ecr.go:55-61 | Every ECR image is listed once, under its repository, and no other image is |
| `CoverageAccount.CoverageAddsUp` | internal/task/running_image_vulnerabilities/ecr.go:56-153 | In every state the scan can be stopped in, assessed + unscanned + unresolved is at most the ECR images, with equality exactly when every ECR image's repository was merged |
| `CoverageAccount.AssessedExactly` | internal/task/running_image_vulnerabilities/findings.go:51-59 | An image counts as assessed exactly when one of its platform images has a status that is no gap |
| `CoverageAccount.AttachKeepsOk` | internal/task/running_image_vulnerabilities/ecr.go:103-114 | Merging one image's platforms keeps the coverage invariant |
| `CoverageAccount.RecordKeepsOk` | internal/task/running_image_vulnerabilities/findings.go:52-59 | Recording one status keeps the coverage invariant |
| `CloudTrailRun.Run` | internal/task/cloudtrail_common/common.go:289-385 | Reads pages until the first reason to stop, in the order the code tests them, and reports exactly the pages read: scanned, matched, kept, covered times, completeness and token; on failure OnMatch saw the matches so far |
| `CloudTrailRun.AnswersExactly` | internal/task/cloudtrail_common/common.go:289-385 | In the query's own numbers: at most 10 pages or max_pages up to 60, and none after the page that brings the matches to 50 or max_matches up to 500 unless all is scanned; it stops for a reason that is there; each wanted event of those pages is delivered as often as it is there and no other, in order, and the first of them kept |
| `CloudTrailRun.FailureExactly` | internal/task/cloudtrail_common/common.go:289-385 | A failed call met a broken reply; OnMatch saw exactly the wanted events of the pages before it |
| `CloudTrailRun.HitsExactly` | internal/task/cloudtrail_common/common.go:346-368 | Of any events the matches are the wanted ones, each as often as it is there and in order |
| `CloudTrailRun.AnswersCover` | internal/task/cloudtrail_common/common.go:289-385 | No call reads more than min(max_pages, 60) pages nor past the page that brings its matches to the limit, and it is complete exactly when it read the last page |
| `CloudTrailRun.ChainScansOnce` | internal/task/cloudtrail_common/common.go:289-385 | A chain of calls, cut up by any mix of limits and stops, scans and passes to OnMatch every event of the pages so far once, in order, with no gap |
| `CloudTrailRun.CompleteChainsAgree` | internal/task/cloudtrail_common/common.go:289-385 | Any two finished chains, one uninterrupted call included, scan and match the same |
| `CloudTrailRun.CompleteChainPicks` | internal/task/cloudtrail_common/common.go:289-385 | A finished chain delivers each wanted event of the whole listing as often as it is there, in order, and nothing else |
| `CloudTrailRun.KeptListsExactly` | internal/task/cloudtrail_common/common.go:359-368 | The kept events of a chain are all its matches exactly when no call matched more than it keeps |
| `FindingStatistics.ExhaustiveStats` | internal/task/securityhub_get_findings_statistics/task.go:305-378 | Counts whole pages only, stops for the first reason met, and hands back the token of the first page not counted |
| `FindingStatistics.AnswersExactly` | internal/task/securityhub_get_findings_statistics/task.go:305-378 | An answer counts, under each key, the findings of the pages read whose own field has it; complete exactly at the last page, truncated with the next page's token exactly if the budget ran out there, none otherwise |
| `FindingStatistics.AnswersCover` | internal/task/securityhub_get_findings_statistics/task.go:305-378 | Every answered call, however it stopped, reports exactly the pages from its token on that it counted, and is complete exactly when the last page is among them |
| `FindingStatistics.CountsAddUp` | internal/task/securityhub_get_findings_statistics/task.go:305-378 | In each call the counts sum to the total |
| `FindingStatistics.ChainCountsOnce` | internal/task/securityhub_get_findings_statistics/task.go:293-378 | Merging the counts of a chain of truncated and resumed calls gives the histogram of the pages read, none counted twice |
| `FindingStatistics.CompleteChainIsTheHistogram` | internal/task/securityhub_get_findings_statistics/task.go:293-378 | A finished chain gives the histogram of all findings, and the totals sum to their number |
| `FindingStatistics.EveryGroupCounted` | internal/task/securityhub_get_findings_statistics/task.go:61-94 | For each group_by, a finished chain counts under every key exactly the findings whose first type, product, title, first resource's type or first resource's ID it is |
| `BucketStatistics.CappedBucketStats` | internal/task/securityhub_get_findings_statistics/task.go:264-293 | One count per bucket that matches anything, in bucket order, cut off at 100 and marked, and their sum; no result if any call fails |
| `BucketStatistics.CountsExactly` | internal/task/securityhub_get_findings_statistics/task.go:264-293 | Each bucket with findings has one count, in order: how many findings have its value in the grouped field and are asked for by the rest of the filter, up to 100 and marked as capped beyond |
| `BucketStatistics.BucketsExactly` | internal/task/securityhub_get_findings_statistics/task.go:92-109 | The severities and workflow statuses asked about |
| `BucketStatistics.CountedPassesExactly` | internal/task/securityhub_get_findings_statistics/task.go:250-259 | A finding counted in a bucket passes the caller's own filter exactly when the caller left the grouped field open or asked for this bucket |
| `BucketStatistics.CountsWhatTheCallerExcluded` | internal/task/securityhub_get_findings_statistics/task.go:250-259 | Contrary to the comment, the bucket filter is not on top of the caller's: an account where asking for CRITICAL counts a LOW finding |
| `BucketStatistics.BucketsPartition` | internal/task/securityhub_get_findings_statistics/task.go:77-94 | Over distinct buckets covering the field, each finding the rest of the filter admits is in exactly one bucket |
| `BucketStatistics.TotalIsALowerBound` | internal/task/securityhub_get_findings_statistics/task.go:147-156 | The total is a lower bound of the matches, exact exactly when no bucket is capped |
| `BucketStatistics.OpenFieldCountsAll` | internal/task/securityhub_get_findings_statistics/task.go:264-293 | With the grouped field open, the total is the number of findings the caller's filter selects exactly when no bucket is capped |
| `Tally.HistogramConcat` | internal/task/securityhub_get_findings_statistics/task.go:351-355 | Counting two lists and merging by key is counting their concatenation |
| `RateLimiter.IpRateLimiter.Evict` | internal/server/ratelimit.go:42-56 | One tick removes exactly the entries last seen more than ten minutes ago |
| `RateLimiter.IpRateLimiter.Handle` | internal/server/ratelimit.go:90-134 | Health checks pass untouched; any other request is judged by its address's tokens, and the bucket is charged for admitted requests only |
| `RateLimiter.EvictionUnobservableExactly` | internal/server/ratelimit.go:36-70 | Eviction changes no verdict in any run exactly when Burst <= 600 s * RequestsPerSecond |
| `RateLimiter.WindowBound` | internal/server/ratelimit.go:58-70 | In every window of every run an address is admitted at most Burst + rate * length times, without eviction for every configuration, with eviction when Burst <= 600 s * RequestsPerSecond |
| `RateLimiter.WindowBoundExactly` | internal/server/ratelimit.go:36-70 | With eviction that bound holds in every window of every run exactly when Burst <= 600 s * RequestsPerSecond |
| `RateLimiter.AdmittedExactly` | internal/server/ratelimit.go:57-134 | A request is admitted exactly if no stretch of the run that ends with it would thereby let its address through more than Burst + rate * length times |
| `RateLimiter.AdmissionsAreVerdicts` | internal/server/ratelimit.go:90-134 | The admissions counted in a window are the requests of the address whose verdict was Admitted |
| `RateLimiter.AdmitsExactly` | internal/server/ratelimit.go:109-134 | A request is admitted exactly when its address has a whole token |
| `RateLimiter.RetryAfterWorks` | internal/server/ratelimit.go:109-134 | A rejected client that sends nothing for Retry-After seconds is admitted, whatever others do and whether or not its bucket was evicted meanwhile |
| `RateLimiter.RetryAfterExactly` | internal/server/ratelimit.go:118-121 | The header is enough, and at most one second more than enough |
| `LogTruncation.ReadLogs` | internal/task/get_logs/task.go:119-132 | A log over the limit is cut to the longest valid UTF-8 prefix of its first 512 KiB; any other log is returned as it is |
| `LogTruncation.ValidExactly` | internal/task/get_logs/task.go:125-131 | Valid bytes are exactly the UTF-8 encodings of sequences of Unicode characters |
| `LogTruncation.AtMostThreeBytesDropped` | internal/task/get_logs/task.go:125-131 | From a valid stream at most three bytes within the limit are given up |
| `LogTruncation.CutsAtFirstInvalidByte` | internal/task/get_logs/task.go:125-131 | A log over the limit whose first invalid byte comes before the limit is cut exactly there |
| `LogTruncation.DropsAtMostThreeExactly` | internal/task/get_logs/task.go:125-131 | Of any log over the limit at most three bytes within the limit are given up exactly when its first invalid byte, if any, is at 512 KiB - 3 or later |
| `LogTruncation.ValidUpToExactly` | internal/task/get_logs/task.go:125-131 | Every text has a longest valid beginning that is all of it exactly when it is valid, and otherwise ends at a byte that begins no character |
| `LogTruncation.CountLines` | internal/task/get_logs/task.go:134-139 | The computed line count is the number of lines of the text |
| `LogTruncation.LinesAreTheText` | internal/task/get_logs/task.go:134-139 | The lines joined are the text; each ends with its only newline, save that the last may have none |
| `NodeCapacity.CheckNodeResourceCapacity` | internal/task/pod_resize/task.go:382-431 | Accepts exactly when the pod is scheduled, the API answered, something is allocatable, and the rounded change fits what the rounded requests of live pods leave |
| `NodeCapacity.NodeTotal` | internal/task/pod_resize/task.go:395-406 | The node's sum is that of the requests made by the containers of pods that have not finished |
| `NodeCapacity.WeightsExactly` | internal/task/pod_resize/task.go:403-409 | Each request is rounded by itself to the whole number away from zero |
| `NodeCapacity.AcceptedFitsRounded` | internal/task/pod_resize/task.go:408-429 | After an accepted resize the exact sum of requests is at most the allocatable rounded up |
| `NodeCapacity.AcceptedFitsExactly` | internal/task/pod_resize/task.go:408-429 | It is at most the allocatable itself in every case exactly when the allocatable is a whole number |
| `NodeCapacity.WholeQuantitiesExactly` | internal/task/pod_resize/task.go:408-429 | For whole quantities the check is exact: accepted just when the resulting sum fits |
| `NodeCapacity.RefusesWhatFits` | internal/task/pod_resize/task.go:408-429 | For fractions it is not exact: for every positive allocatable there are requests that fit and a resize changing nothing that is refused |
| `NodeCapacity.AcceptsExactly` | internal/task/pod_resize/task.go:408-429 | For any quantities a resize is accepted exactly when the rounded sum afterwards is at most the rounded allocatable |
| `LoginAggregation.Aggregator.AddEvent` | internal/task/cloudtrail_logins/task.go:131-156 | Updates the principal's entry and addresses in place to exactly what the pure description gives |
| `LoginAggregation.Aggregator.List` | internal/task/cloudtrail_logins/task.go:158-169 | One row per principal with its addresses, latest first |
| `LoginAggregation.EveryKeySummarized` | internal/task/cloudtrail_logins/task.go:131-156 | Each key has the number, failures, role, earliest and latest time of exactly its own events, the name used last, and at most five of their addresses, all of them if fewer |
| `LoginAggregation.SameKeyExactly` | internal/task/cloudtrail_logins/task.go:131-134 | Events go together exactly if they have one name, in whatever case, and one role |
| `LoginAggregation.RoleExactly` | internal/task/cloudtrail_logins/task.go:115-129 | The role is the last part of the assumed role's path, or the principal's own without one |
| `LoginAggregation.OfKeyExactly` | internal/task/cloudtrail_logins/task.go:131-142 | A key's events are those that have it, each as often as it came and in order |
| `LoginAggregation.TimesAreDetermined` | internal/task/cloudtrail_logins/task.go:131-156 | Counts, failures and times do not depend on the order of the events |
| `LoginAggregation.CountsAddUp` | internal/task/cloudtrail_logins/task.go:131-156 | The principals' counts sum to the events matched |
| `LoginAggregation.LastLogin` | internal/task/cloudtrail_logins/task.go:257-273 | Takes the first row of the console scan, or of the session scan if that is later |
| `LoginAggregation.NewestIsLatest` | internal/task/cloudtrail_logins/task.go:158-169 | The first row of a listing carries the latest time of all the events added |
| `LoginAggregation.LastLoginIsLatest` | internal/task/cloudtrail_logins/task.go:257-273 | last_login is the latest time over all matches of both scans |
| `LoginScan.Scan` | internal/task/cloudtrail_logins/task.go:171-211 | A section lists the principals of exactly the matches in the pages read, their counts summing to the matches reported, and keeps the first of them up to the number asked for; it reads on while it may and has to, and stops for a reason that is there; it has none just when the run failed |
| `LoginScan.Execute` | internal/task/cloudtrail_logins/task.go:213-288 | last_login is the latest time over all the matches of both scans' runs |
| `LoginScan.EarlyStopKeepsTheLatest` | internal/task/cloudtrail_logins/task.go:171-211 | With events newest first, a scan that stopped early after any match knows the latest time of all the matches in its whole window |

## Left out

- InsightSlot.FindSlot: the paging loop is a method; the rest of Execute is the actions of a state machine, because what matters is how the steps of different calls interleave. regionLocks and cleaned are the `holder` and `cleaned` fields of that machine's state.
- InsightRuns.SuccessAnswersItsOwnQuery: Total and Truncated of the reply are not part of this model, only the counts; the int32 sum is not bounded.
- InsightNames.SlotNameIdentifiesQuery: JSON encoding and SHA-256 are one hash function on canonical filters, assumed free of collisions.
- Text.SortCompactCanonical: sorting and compacting are insertion into an ordered list without repetition; lower-casing is ASCII only.
- HelmApply.NoLostUpdate: the API server is its contract (create fails on an existing name, update on another version); message texts and the decoding of the payload are not part of this model.
- WorkerPool.WhatReturnMeans: goroutines, the channel, the once and the wait group are steps of a state machine, not Dafny code.
- NodeFanOut.FinishesInTime: the fan-out is a state machine too; time passes only when no goroutine can move without it, which is what makes a schedule greedy.
- PvcUsage.MergeResults: percentages are reals, not float64; thresholds, sorting and text of the report are left out.
- FindingAggregation.FeedingOrderDoesNotMatter: titles and fixes are outside it, since the last writer's stay (`LabelIsTheLast`). It speaks of the findings fed: one digest in two repositories split over two batches is fed twice.
- FindingReport.SameFindingsSameReport: the rows are the fields the order depends on; the lists inside a group are `GroupDetails`.
- RunningImages.Collector.CollectPods: the namespaces' pages are one list of pods. The account ID and region are taken to be well-formed, so the host pattern is two literal hosts. A pod comes with its workload's name.
- CoverageRun.CoverageScan.ResolveRepo: repositories and batches are merged one at a time, as the scan's lock makes them; the update of the shared maps for one image is one assignment.
- WholeScan.Execute: the workers' order is a choice in a sequential loop, batches feed their pages one batch after the other (which `FeedingOrderDoesNotMatter` makes up for), and which repositories and batches still finish after the budget ran out is a parameter; an error other than the budget's returns no report and is not modelled.
- LoginScan.Execute: defaults and limits of the payload are the request's fields; the message text is not part of this model.
- CloudTrailRun.Run: the principal match is an arbitrary predicate, and decoding an event is not part of this model; the limiter and the deadline are the outcome of each round.
- FindingStatistics.ExhaustiveStats: int32 counts are unbounded here.
- BucketStatistics.CappedBucketStats: GetFindings is taken to answer with min(matches, 100) findings and a token exactly when there are more.
- RateLimiter.IpRateLimiter.Handle: a request's look-up, reservation and cancellation are one step, and tokens are reals. The branch for a reservation that is not OK needs Burst < 1, which the configuration check refuses. The headers besides Retry-After are left out.
- NodeCapacity.AcceptedFitsRounded: assumes the target container is among the listed live pods with the request read before; a pod changed between the two reads is not covered, and int64 overflow is not modelled.
- LoginAggregation.Aggregator.AddEvent: the order of rows with equal times is any, as sort.Slice leaves it.
- QoS, absolute caps and limits of pod_resize, and validateLimitReduction: one comparison each.
- The list, health, cost, GuardDuty, CloudWatch, DNS and HTTP tasks, authentication, tracing and configuration parsing: single calls, copying and sorting over API objects.
