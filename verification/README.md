# vintagestory-go, modelled and proved in Dafny

`vintagestory-go` is a set of Go clients for the services of the game Vintage Story. This project
models the four parts of it that carry real logic and proves what they promise:

- **the ModDB client** (`moddb/client.go`): caches with time limits filled through shared flights,
  a worker pool that enriches a result page, filtering, stable sorting and paging, and tag counts;
- **the upgrade planner** (`modpack/modpack.go`): a version order on top of SemVer 2.0.0, release
  channels, the choice of a target, and whole runs of upgrades;
- **the release order** (`versions/versions.go`): a tokenizer and a comparator of version texts;
- **the retry loop** (`vshttp/do.go`, `vshttp/vshttp.go`): a bounded loop over arbitrary outcomes.

`dafny verify dfyconfig.toml` checks the whole project.

## Files

| file | contents |
|---|---|
| `Options.dfy`, `Int64.dfy`, `Order.dfy`, `Text.dfy` | optional values, Go's 64-bit int, comparators and their lexicographic lifts, ASCII text, decimal numerals, splitting and joining |
| `StableSorting.dfy` | what a stable sort is, that there is exactly one, an in-place insertion sort |
| `Versions.dfy`, `VersionPrinting.dfy`, `VersionCatalog.dfy` | the release order, printing and reading back, the collect-and-sort part of `fetch` |
| `Semver.dfy`, `Modpack.dfy`, `Planner.dfy`, `Analysis.dfy` | semantic versions, the planner's order, targets and runs, the report |
| `Comparators.dfy`, `PlannerExamples.dfy`, `GameVersionSupport.dfy` | when the two version orders agree; release types, and catalogs on which an upgrade leaves a target; which game versions a release supports |
| `Retry.dfy` | the retry loop |
| `ModdbModels.dfy`, `SharedCache.dfy`, `Flights.dfy`, `FlightRuns.dfy`, `FlightRequests.dfy`, `FlightOutcomes.dfy`, `FlightExamples.dfy`, `FlightWork.dfy`, `ClientSteps.dfy`, `FlightKeys.dfy` | the client's caches as a class, the shared-flight protocol, the age of its results, the number of its requests, the causes of its outcomes, two example runs, the end of every call, the class as an implementation of the protocol, the keys |
| `EnrichPool.dfy`, `Search.dfy`, `Tags.dfy` | the worker pool, searching and paging, tag counts |

## How it is modelled

Code that updates state step by step is a method with its loop, proved equal to a specification
function or to a declarative predicate; what the program promises is then proved about that
specification. The caches are fields of a class (`SharedCache.Client`) whose methods are the critical
sections of the mutex. Concurrency is a state machine over those atomic steps: a run is any sequence of
enabled steps, so each theorem about runs holds for every schedule, any number of callers, and any
sequence of replies, failures, cancellations and delays. The network, the clock, the random draw, map
iteration order and cancellation are parameters of the steps, chosen freely. History that the program
does not keep (the log of cache writes, the requests started and completed) is part of the protocol
state and of nothing the program decides on.

`golang.org/x/mod/semver` is modelled from SemVer 2.0.0, sections 9, 10 and 11, with the leading `v` and
the shorthands `vX` and `vX.Y`. `singleflight` is modelled as a map from key to one flight: a caller
joins the flight of its key or leads a new one, and the completed flight leaves the map and delivers
to all its waiters in one step.

## Where the code and its documentation differ

The model follows the code in each case. Where a promise fails there is an input on which it fails, and
a theorem that says for all inputs exactly when it holds.

- `README.md:83-85` says that a cache miss under load causes exactly one upstream request. The flight
  does not look at the cache again, so a caller that missed can start a second request after the first
  has completed (`FlightExamples.MissCanRequestTwice`). A caller is about to request what the caches
  could answer exactly when its key was stored after its check and the last store still answers
  (`FlightRequests.AnswerableIffRefreshed`), so the needless requests of a run are exactly those of such
  callers (`FlightRequests.NeedlessIsAfterRefresh`); while nothing fails and nothing expires, a missed
  key is requested exactly once exactly when there is no such caller after the first request
  (`FlightRequests.OneRequestIff`).
- The catalog is documented as cached for ten minutes. A caller that joins a flight after the written
  data expired, but before the flight delivers, gets that data with no error
  (`FlightExamples.SlowDeliveryIsNotFresh`). Whatever the delays, a result is past its limit exactly for
  the callers that join so late (`FlightRuns.ExpiredIffLateJoin`).
- The release order reads every number above the largest int as that int, so it ties versions that the
  planner's order tells apart (`Comparators.ComparatorsDifferOutOfRange`). The two orders agree exactly when
  saturating the numbers keeps the precedence (`Comparators.ComparatorsAgreeIff`).
- `VersionEquals` and `CompareVersions` disagree exactly when one text is spelt with a leading `v` and
  the same text with a leading `V`, and one of them is a semantic version (`Modpack.EqualsAgreesWithOrder`).
- Installing the newest version can leave a target: exactly when that version has a stable release type
  but a prerelease version, and a newer unstable release is listed (`Planner.OneStepFixpoint`). The ModDB
  client types `x.y.z-dev.n` as stable, so this happens (`PlannerExamples.DevHidesCandidate`).
- The retry loop panics in the random draw exactly when it reaches a retry whose capped delay is below
  2 ns (`Retry.PanicIff`); a policy with such a delay within its attempts panics when the server is
  unreachable (`Retry.UnsafeDelaysPanic`), any other never does (`Retry.NeverPanics`). With the default
  base delay the shift overflows at the 36th retry (`Retry.DefaultDelayOverflows`).
- A body limit of the largest int64 reads every body as empty (`Retry.ReadBodyOverflows`); every smaller
  limit is kept exactly (`Retry.ReadBodyIsExact`).
- A status error of 408 is marked retryable but is not retried (`Retry.RetryableFlag`).
- Page numbers whose product with the page size overflows cut the wrong page, or panic, exactly as
  `Search.BoundsAreIdeal` and `Search.SlicePanicsIff` say.

## Model

| member | source | states |
|---|---|---|
| Versions.SplitVersionLoop | versions/versions.go:227-254 | the index scan gives the parts of the trimmed, lower-cased, unprefixed text, for which the round trip and the order below are proved |
| Versions.PartsWellFormed | versions/versions.go:227-254 | every number fits a 64-bit int, saturating like Atoi, and every word is a non-empty run of letters |
| Versions.TrailingVersionOrder | versions/versions.go:216-226 | the ad hoc rule for surplus parts is the comparison with a list padded by the number 0, in both directions |
| Versions.CompareVersions | versions/versions.go:178-215 | the comparator is lexicographic comparison of the part lists, the shorter one padded with 0, numbers above words |
| Versions.VersionOrderIsTotalPreorder | versions/versions.go:178-226 | the release order is antisymmetric, total and transitive |
| Versions.VersionOrderZero | versions/versions.go:178-226 | two versions compare equal exactly when their parts agree after dropping trailing zeros |
| Versions.OlderIff | versions/versions.go:178-226 | a version is older exactly when, at the first part in which the two differ, missing parts counting as 0, it has the smaller number, the smaller word, or a word against a number |
| Versions.SpellingIrrelevant | versions/versions.go:227-228 | case, space around a version and one leading v do not change its parts |
| VersionPrinting.SplitPrint | versions/versions.go:227-254 | splitting a printed list of lower-case words and in-range numbers gives the list back |
| VersionPrinting.CanonicalFormIsEqual | versions/versions.go:178-254 | every version compares equal to its printed canonical form, which is its own canonical form |
| VersionCatalog.Collect | versions/versions.go:104-117 | for every map iteration order the result is the stable newest-first sort of the accepted releases; none on an unsupported platform |
| VersionCatalog.ListingIsNewestFirst | versions/versions.go:68-117 | the listing is a permutation of the accepted releases and newest first |
| VersionCatalog.ListingIsExact | versions/versions.go:107-117 | a release is listed exactly when some file of the payload is accepted as it, one for every accepted file |
| VersionCatalog.ListingOrderIrrelevant | versions/versions.go:108-117 | two iteration orders give the same releases, position by position of equal-comparing IDs, and the same list when no IDs tie |
| StableSorting.SliceStable | moddb/client.go:553-568 | the in-place sort leaves the stable sort of the old contents |
| StableSorting.StableSortIsStable | moddb/client.go:553-568 | the stable sort is a sorted permutation with tied elements in their old order |
| StableSorting.StableSortUnique | moddb/client.go:553-568 | a sequence is a stable sort exactly when it is that one, so the library's algorithm does not matter |
| StableSorting.SortedPermutationsTie | versions/versions.go:116 | two sorted permutations of one multiset tie at every position |
| Semver.ParsePrint | modpack/modpack.go:300-312 | reading a printed semantic version gives it back |
| Semver.CanonicalRoundTrip | modpack/modpack.go:300-312 | canonical text is read as the version it came from, and is its own canonical text |
| Semver.SameCanonicalText | modpack/modpack.go:264-273 | canonical texts are equal exactly when the versions are, build metadata aside |
| Semver.CanonicalSpelling | modpack/modpack.go:300-312 | canonical text is the version's own text up to the build metadata, with ".0" filled in for shorthands |
| Semver.ShorthandsParse | modpack/modpack.go:300-312 | vX and vX.Y are read with zeros |
| Semver.BuildIsIgnored | modpack/modpack.go:300-312 | well-formed build metadata after a full version is read and ignored, any other makes the text invalid |
| Semver.PrecedenceOrder | modpack/modpack.go:276-287 | precedence of section 11 of SemVer 2.0.0 is a total order on versions without build metadata |
| Semver.PrecedenceBySection11 | modpack/modpack.go:276-287 | one version precedes another exactly as section 11 of SemVer 2.0.0 says, without recursion |
| Modpack.NormalizedParses | modpack/modpack.go:300-312 | normalizing succeeds exactly on valid versions, keeps the version, and is idempotent |
| Modpack.CompareByRank | modpack/modpack.go:276-287 | the three-way switch over canonical texts is semantic precedence above string order of the lower-cased texts |
| Modpack.CompareVersionsIsTotalPreorder | modpack/modpack.go:275-287 | the order across its three cases is antisymmetric, total and transitive, and zero only on equal ranks |
| Modpack.NormalizesUpToCase | modpack/modpack.go:300-312 | among texts equal up to case only a capital V decides whether a version normalizes |
| Modpack.EqualsAgreesWithOrder | modpack/modpack.go:263-287 | equality is "compares equal" exactly outside the v/V respelling of a semantic version |
| Modpack.CapitalVDisagrees | modpack/modpack.go:300-312 | every valid version respelt with V equals itself and is older than itself |
| Modpack.ExampleNormalizes | modpack/modpack.go:300-312 | "v1.2.3" is such a version |
| Planner.NewestVersion | modpack/modpack.go:172-196 | the scan finds what the recursive choice over prefixes finds, and reports none exactly when that has none |
| Planner.NewestIsFirstMaximum | modpack/modpack.go:172-196 | the choice is the first maximum of all upgrade targets under (stable type, version), and there is none exactly when there is no target |
| Planner.FindVersion | modpack/modpack.go:128-135 | the first listed version equal to the wanted one, or none |
| Planner.SelectTargetSound | modpack/modpack.go:116-127 | a selected target is an upgrade target, listed or the unlisted latest; none is selected exactly when there is neither |
| Planner.OffersByChannel | modpack/modpack.go:144-170 | a released installation is offered exactly newer releases, stable by a given type and by version; a prerelease every newer version; an unknown version nothing |
| Planner.LatestComesFirst | modpack/modpack.go:116-135 | the latest version, listed or not, is chosen before the newest whenever it is a target |
| Planner.UpgradeShrinks | modpack/modpack.go:116-155 | every upgrade is strictly newer and leaves fewer newer versions in the catalog |
| Planner.UpgradeRunTerminates | modpack/modpack.go:116-170 | a run climbs strictly, ends within the number of versions plus one at "no target", and never returns from a release to a prerelease |
| Planner.ModpackUpgradeRuns | modpack/modpack.go:116-170 | the same of the program's own order, prerelease test and equality |
| Planner.FinalIsNewest | modpack/modpack.go:116-170 | a run ends at or above every available release, and above every available version if it ends at a prerelease |
| Planner.ModpackEndsNewest | modpack/modpack.go:116-170 | the same of the program's own order and prerelease test |
| Planner.OneStepFixpoint | modpack/modpack.go:144-196 | with no latest version, installing the newest version leaves no target exactly when that version is not mistyped |
| PlannerExamples.ReleaseTypeByTag | moddb/client.go:598-607 | a pre or rc version is typed beta; a dev version is typed stable, like one without a tag |
| PlannerExamples.DevHidesCandidate | modpack/modpack.go:144-196 | where a dev release and a newer pre or rc release are listed, an older installed prerelease is sent to the dev release, and after that to the other |
| PlannerExamples.InstallingCanLeaveTarget | modpack/modpack.go:144-196 | with 1.0.0-rc.1 installed, 1.2.0-dev.1 is chosen before 1.3.0-rc.1, which is then still a target |
| PlannerExamples.LatestMayBePrefixed | modpack/modpack.go:116-135 | a latest version spelt with a leading v finds the listed version without one |
| Analysis.AnalyzeMod | modpack/modpack.go:86-115 | each status and reason has exactly its cause; an update carries the target's ID, version, changelog, compatibility, type and dependency changes, any other entry none |
| Analysis.AddedExactly | modpack/modpack.go:222-239 | a dependency is added exactly when the target requires it and it is neither built in, installed nor declared |
| Analysis.RemovedExactly | modpack/modpack.go:239-246 | a declared, installed dependency is removed exactly when it is not built in and the target requires it no more |
| Analysis.AddedInOrder | modpack/modpack.go:222-239 | added dependencies come in the order of the target's, each once per requirement |
| Analysis.RemovedInOrder | modpack/modpack.go:239-246 | removed dependencies come in the order declared |
| Analysis.Summarize | modpack/modpack.go:198-221 | each counter counts its entries, and the five classes add up to the total when every entry is classified |
| Analysis.SummaryCounts | modpack/modpack.go:198-221 | each counter is the number of entries of its status and reason |
| Analysis.Analyze | modpack/modpack.go:69-85 | one entry per mod in order unless the context is done before one of them; the summary's classes add up |
| GameVersionSupport.SupportIff | modpack/modpack.go:288-299 | a release that lists exact versions supports a version exactly when it lists none or one with the same first two numbers |
| GameVersionSupport.SeriesOfSpaced | modpack/modpack.go:288-299 | the same of a supported version with space around it |
| GameVersionSupport.ListedIsSupported | modpack/modpack.go:288-299 | any listed text supports itself |
| Comparators.ReadByVersions | versions/versions.go:227-254 | from x.y.z and x.y.z-(dev, pre or rc).n the release order reads the numbers, saturated, and the tag |
| Comparators.ReadByModpack | modpack/modpack.go:300-312 | what the planner's order reads from the same texts |
| Comparators.ReleaseOrderSaturates | versions/versions.go:178-254 | on all such texts the release order is the planner's order of the versions with saturated numbers |
| Comparators.ComparatorsDifferOutOfRange | versions/versions.go:234-241 | beyond the int range the release order ties versions that the planner orders |
| Comparators.ComparatorsAgreeIff | versions/versions.go:178-254 | the two comparators give the same sign exactly when saturating the numbers keeps the precedence |
| Comparators.ComparatorsAgree | versions/versions.go:178-254 | the two independently written comparators give the same sign on all such texts with numbers in int range |
| Retry.Normalize | vshttp/vshttp.go:148-162 | each usable field is kept whatever the others are, each unusable one falls back to the default policy's, the attempts to one |
| Retry.ReadBodyIsExact | vshttp/do.go:104-116 | below the largest limit a body is returned exactly when whole and within the limit; too large, and only then, is not retryable |
| Retry.ReadBodyOverflows | vshttp/do.go:106-116 | at the largest limit every body reads as empty |
| Retry.Do | vshttp/do.go:20-64 | the loop satisfies the trace specification: requests stop at the first conclusive attempt or the limit, earlier only for the context or a panic; one request when not idempotent; a retryable status is returned only by the last attempt |
| Retry.RunIsDetermined | vshttp/do.go:27-64 | the trace specification has exactly one run |
| Retry.RetriesByExchange | vshttp/do.go:20-64 | requests go on exactly while the exchanges are a passing failure or a readable 429, 502, 503 or 504, up to MaxAttempts for an idempotent request and one otherwise, a panic or a cut sleep aside |
| Retry.OutcomeByExchange | vshttp/do.go:20-64 | a run that is neither cut nor panics ends with its last exchange: the whole answer, or exactly the error of that exchange |
| Retry.FetchJSON | vshttp/do.go:67-85 | a body is decoded exactly when the last request was answered 2xx with a readable body, and is then the whole body; any other final status becomes its status error, a final 429, 502, 503 or 504 a retryable one |
| Retry.RetryableFlag | vshttp/do.go:149-180 | exactly 429, 502, 503 and 504 are retried before the last attempt, while exactly these and 408 are marked retryable |
| Retry.StatusKinds | vshttp/do.go:149-172 | each status has its error kind, and only a 429 its hint |
| Retry.BackoffBounds | vshttp/do.go:200-212 | without overflow an unhinted wait is at least 3/4 and below 5/4 of the capped exponential delay, a hinted one is the hint cut to MaxWait |
| Retry.JitterSpreads | vshttp/do.go:205-207 | different draws give different waits |
| Retry.WaitBounds | vshttp/do.go:35-40 | the k-th wait of a run is the Retry-After of the 429 before it cut to MaxWait, or near its exponential step |
| Retry.TotalWait | vshttp/do.go:35-40 | a run never panics and waits at most (attempts - 1) times the larger of MaxWait and 5/4 MaxDelay |
| Retry.PanicIff | vshttp/do.go:35-40 | a run panics exactly when some retry within the limit has a capped delay below 2 ns, all attempts before it ask for a retry and no earlier sleep is cut |
| Retry.NeverPanics | vshttp/do.go:200-206 | a policy whose capped delays are all at least 2 ns never panics, whatever happens |
| Retry.UnsafeDelaysPanic | vshttp/do.go:200-206 | any other policy has a run that panics: the one that finds the server unreachable |
| Retry.DefaultDelayOverflows | vshttp/do.go:201-204 | with the default delays the first 35 retries are safe and the 36th overflows |
| Retry.DefaultPolicyIsBounded | vshttp/vshttp.go:142-146 | with the default policy a call sends at most three requests, never panics and waits at most twenty seconds |
| SharedCache.Client.constructor | moddb/client.go:68-73 | a new client holds an empty catalog and nothing else |
| SharedCache.Client.CheckList | moddb/client.go:238-245 | a hit exactly on a non-empty catalog younger than ten minutes, else the copy kept against failures |
| SharedCache.Client.CheckForGameVersion | moddb/client.go:275-284 | a hit exactly on an entry younger than ten minutes, empty or not, else the stale copy |
| SharedCache.Client.CheckDetails | moddb/client.go:368-373 | a hit exactly on details younger than thirty minutes |
| SharedCache.Client.StoreCatalog | moddb/client.go:322-325 | only the full catalog changes |
| SharedCache.Client.StoreForGameVersion | moddb/client.go:297-301 | only that filtered catalog changes |
| SharedCache.Client.StoreDetails | moddb/client.go:406-413 | exactly the requested id, the numeric ID and a non-empty slug get the new details |
| ClientSteps.NewClient | moddb/client.go:68-73 | a new client shows the protocol's initial state |
| ClientSteps.CheckCache | moddb/client.go:237-373 | the client's checks answer what the protocol's check step gives the caller |
| ClientSteps.WriteThrough | moddb/client.go:297-413 | the client's stores keep it showing the protocol state after the write step |
| Flights.StepInv | moddb/client.go:237-415 | every atomic step of callers and flights keeps the protocol invariant |
| Flights.Reachable | moddb/client.go:237-415 | every reachable state satisfies it |
| Flights.OneFlightPerKey | moddb/client.go:247-288 | at most one request per key is in progress and all waiters of a key wait for it |
| Flights.CacheIsLastFetch | moddb/client.go:233-236 | the caches hold, under every key, the last successful fetch that stored there |
| Flights.StaleResultWasHeld | moddb/client.go:244-255 | a stale result is the non-empty list that the caches held when the flight's leader, a caller of the same key, checked them |
| Flights.PlainErrorHadNoReserve | moddb/client.go:251-256 | a failed fetch is a plain error only when the check of the flight's leader had found no list to fall back on |
| Flights.NoCallerStuck | moddb/client.go:248-267 | until it has its result a caller can join or receive, or the flight it waits for is alive and can move |
| FlightOutcomes.OutcomeByCause | moddb/client.go:247-267 | over every run a call is canceled exactly when its caller left; any other gets data exactly when it needed no flight or its flight did not break |
| FlightOutcomes.BrokenFlightGivesReserve | moddb/client.go:244-263 | a caller whose flight broke gets the non-empty list that the flight's leader had found with a stale error, and a plain error only if there was none |
| FlightOutcomes.DataWithoutFailure | moddb/client.go:247-390 | while no fetch of its key fails, every call that is not left gets data |
| FlightOutcomes.LeavingIsAlone | moddb/client.go:247-267 | a waiting caller can leave at any time; its flight, the caches and all other callers go on |
| FlightOutcomes.DetailsByAnyName | moddb/client.go:406-413 | details just written answer calls by requested id, numeric ID and slug for thirty minutes |
| FlightWork.StepUsesWork | moddb/client.go:237-415 | only a new call adds work, time adds none, and every other step uses some up |
| FlightWork.CallsEnd | moddb/client.go:237-415 | ticks aside a run takes at most seven steps per call, and where it can only wait for new calls every caller is finished |
| FlightRuns.ExpiredIffLateJoin | moddb/client.go:238-264 | with any delays, a result was written TTL or more before its caller's check exactly when the caller joined a flight whose written data had by then expired for it |
| FlightRuns.InTimeIsFresh | moddb/client.go:363-415 | when every flight delivers within the TTL of its own key after its write, every result is younger than the TTL at its caller's check |
| FlightRuns.ResultsAreAnswers | moddb/client.go:363-415 | with any delays, a successful result of the three operations is what a direct request of the same key was answered during the run |
| FlightRequests.RunConserves | moddb/client.go:247-256 | requests started of a key are those completed plus the one in progress |
| FlightRequests.AnswerableIffRefreshed | moddb/client.go:238-256 | a caller that missed would request what the caches can answer exactly when its key was stored since its check and the last store is fresh and not an empty catalog |
| FlightRequests.NeedlessIsAfterRefresh | moddb/client.go:238-256 | over every run the requests that the caches could answer are, one for one, those started after such a refresh |
| FlightRequests.OneNecessaryRequest | moddb/client.go:238-256 | from every reachable state, within one TTL and without a failing fetch, at most one request of a key is not needless |
| FlightRequests.OneRequestIff | moddb/client.go:238-256 | without failure and expiry a missed key is requested once plus once per later start after a refresh, so exactly once exactly when there is none |
| FlightExamples.MissCanRequestTwice | moddb/client.go:238-256 | two callers that miss together can cause two requests with no failure and no expiry |
| FlightExamples.SlowDeliveryIsNotFresh | moddb/client.go:238-264 | a run in which a caller gets, with no error, data that expired before its check |
| FlightKeys.KeyTextInjective | moddb/client.go:247-377 | different requests have different singleflight keys |
| FlightKeys.ParamIsPlain | moddb/client.go:443-459 | an accepted filter is a series or an exact version, told apart by the parameter name, and needs no escaping |
| FlightKeys.AcceptedIff | moddb/client.go:443-459 | accepted are exactly x.y, x.y.x, x.y.z and x.y.z-(dev, pre or rc).n, with space around them |
| FlightKeys.SeriesAccepted | moddb/client.go:443-451 | x.y and x.y.x ask for gameversion=x.y |
| FlightKeys.ExactAccepted | moddb/client.go:452-457 | an exact version asks for gv with itself |
| FlightKeys.SameFlightSameQuery | moddb/client.go:286-288 | two filters share a flight exactly when they ask the server the same |
| EnrichPool.StepInv | moddb/client.go:475-506 | every step of feeder, workers, collector and cancellation keeps each index in exactly one place |
| EnrichPool.BufferNeverBlocks | moddb/client.go:476-488 | the results channel never exceeds its capacity and no worker waits to send |
| EnrichPool.NoDeadlock | moddb/client.go:466-528 | until the collector ends some step other than a cancellation is enabled |
| EnrichPool.StepWork | moddb/client.go:466-528 | every such step uses up work |
| EnrichPool.PoolTerminates | moddb/client.go:466-528 | under every schedule at most 4n + 11 steps are taken and an unfinished run can go on |
| EnrichPool.EightAtOnce | moddb/client.go:475-492 | never more than eight lookups nor more than there are items are in progress, and a run has that many |
| EnrichPool.CollectResults | moddb/client.go:507-520 | the loop over the results leaves the page, first error and failure count of the received sequence |
| EnrichPool.CollectionPointwise | moddb/client.go:507-520 | results with distinct indices enrich their own item and nothing else, whatever their order |
| EnrichPool.ScheduleIndependent | moddb/client.go:461-528 | under every schedule a finished page whose context was done yields no items, exactly then; any other has each item looked up once, is the pointwise enrichment, counts the failed lookups and names the first failure received |
| EnrichPool.CancelEnds | moddb/client.go:493-523 | at any time the context can end the page: it then finishes with no further hand-off and no further answer, and returns no items |
| Search.FilterMods | moddb/client.go:158-174 | the entries that pass all filters, in catalog order |
| Search.KeepsExactly | moddb/client.go:158-173 | an entry passes exactly when it passes the text, side, date and every tag filter that is set, tags in any case |
| Search.TextFindsFields | moddb/client.go:537-539 | a text filter finds what has it in a field or a tag, in any case, and a single word finds nothing else |
| Search.MatchesExactly | moddb/client.go:158-175 | the matches are the entries that pass, as often as listed, in the order asked for with ties in catalog order |
| Search.FilteredInOrder | moddb/client.go:158-174 | filtering keeps the catalog order |
| Search.EveryModeIsStrictWeak | moddb/client.go:553-569 | every sort mode, missing dates last included, is a strict weak order |
| Search.SortedAsAsked | moddb/client.go:553-569 | the result is in the order its mode names, entries without a date last when sorted by date |
| Search.SortMods | moddb/client.go:553-568 | the slice is sorted in place to the stable sort of its mode |
| Search.SortIsUnique | moddb/client.go:553-568 | in every mode there is exactly one possible result |
| Search.DefaultKeepsOrder | moddb/client.go:566 | the default mode keeps the order of a text search |
| Search.BoundsAreIdeal | moddb/client.go:176-192 | the 64-bit bounds are the page's bounds exactly when the product does not wrap into the list |
| Search.SlicePanicsIff | moddb/client.go:185-193 | slicing panics exactly when the product wraps to a negative start |
| Search.HugePagePanics | moddb/client.go:185-193 | a page number for which it does |
| Search.CutPage | moddb/client.go:176-193 | the page cut by those bounds with its totals |
| Search.SearchListing | moddb/client.go:154-204 | the page of the sorted matches, and exactly when Search fails, warns or drops the items |
| Search.PagesPartition | moddb/client.go:184-204 | pages 1 to TotalPages in turn are the result once, later pages are empty, and there is a next page exactly below TotalPages |
| Search.CutPageIsRight | moddb/client.go:176-204 | without overflow the page that is cut is the page of that partition |
| Search.SearchGivesPage | moddb/client.go:176-204 | a search gives the page asked for, page 1 below 1 and 24 entries outside 1 to 60, with its totals |
| Search.PagesInTurn | moddb/client.go:154-204 | searching for pages 1 to TotalPages in turn gives every match once, in order |
| Tags.CountTags | moddb/client.go:215-224 | the map holds, for every lower-case tag, the first spelling and the number of occurrences |
| Tags.ListTags | moddb/client.go:207-231 | for every map iteration order: lower-case names strictly increasing, each the first spelling with its count, none missing |
| Tags.TagListIsUnique | moddb/client.go:225-229 | that determines the list, so it does not depend on the iteration order |
| Tags.CountsAreConserved | moddb/client.go:215-224 | the counts add up to the tag occurrences in the catalog |
| Tags.ListingByPlaces | moddb/client.go:207-231 | in terms of the catalog: each count is the number of places of the tag, each name its first spelling, no tag is missing |

## Left out

- Text is ASCII: Unicode letters, digits, white space and case folding are not modelled.
- HTTP transport, TLS, DNS, URL handling and JSON decoding: a request is an oracle that succeeds with data, fails, or stays silent.
- `classify` in `vshttp/do.go`: kind and retryability of a transport error are chosen freely.
- `parseRetryAfter`: the hint is any duration.
- Logging fields of `APIError` (operation, method, endpoint, content type, cause) and the `Legacy` sentinels.
- `auth`, `modinfo`, `news` and `servers`: branch tables and field scraping whose claims are settled by reading one branch.
- The caches of `versions.Catalog.List` and `servers.Client`: one mutex held across the fetch, an easy case of the ModDB protocol.
- `parseRelease`, `parseFileSize`, `parseDate`, `parseScreenshot`, `fetchMods` field mapping and `mapDetails`: acceptance of a release and the fetched values are parameters.
- The empty page of `enrichPage`, which is returned at once.
- The empty id of `Get`, which fails before the protocol starts.
- The catalog that `Analyze` asks: its answer to each entry is a parameter.
- StableSorting.SliceStable: Go sorts blocks by insertion and merges them; the model sorts by insertion throughout, with the same result by uniqueness.
- FlightWork.CallsEnd: counts steps, not time; how long a request takes is left to the timeouts of the HTTP client.
