# Gatewayz backend: verified models of its small stateful algorithms

This project models, in Dafny 4.11, the algorithms of the Gatewayz backend that keep state or depend on order, and
proves what they are for. `dafny verify dfyconfig.toml` checks everything.

Each file is one module:

- `StreamReader.dfy` (with `Text.dfy`, `Json.dfy`, `Outcomes.dfy`): the event-stream readers of the benchmark scripts. The
  buffer loop that receives chunks is proved equal to a specification on the whole text; what it accumulates is described
  event by event, including exactly which events raise; the line-at-a-time client is related to it. JSON values carry
  Python's truthiness, `in`, subscript and `.get` behaviour with their exceptions.
- `RateLimiter.dfy`: the send limiter as a state machine of any number of threads, a lock, real time and a clock that may be
  set. The limit is stated in real time, on the second clock readings and on the releases of the lock, and also on the
  timestamps that are written; one call is a method.
- `GatewayErrors.dfy`: the gateway error cache. Queries evict, so whole runs are related to the history of failures, and to
  the same run with its queries erased.
- `OrderStatistics.dfy`, `LatencyTracking.dfy`: interpolated and nearest-rank percentiles, dominance, and the statistics of
  trackers that split one log by category.
- `CanonicalIds.dfy`, `ExposedKeyRotation.dfy`, `QualityScores.dfy`: paged scans that write the table they scan, offset and
  keyset paging, the family fold, the chunked upsert.
- `Lists.dfy`: list slices, used by the backfills.
- `ApiKeys.dfy`: the API-key table, its linear scan as a lookup, creation, rotation and bulk rotation.
- `EnvFile.dfy`, `Ledger.dfy`, `Scoring.dfy`, `SchemaSync.dfy`: `.env` rewriting, the usage ledger, the scoring chain, schema
  comparison.

Conventions. Floating-point numbers are reals; rounding is written out where it is the point. Clocks, randomness, failing
writes, JSON decoding, aliasing, inference, encryption and hashing are parameters. Database tables are sequences or maps of
rows, and one request is one atomic step. A Python exception is the value `Raise`.

Where the code and its own words differ, the model follows the code: a family is described as named after its largest
variant, but the code always stores the canonical id (`scripts/backfill_quality_scores.py:66-67` and `:78`); the limiter
speaks of two sends a second, but what it keeps apart is the second clock readings of the calls; of the threads it lets go,
three may fall in one second even with a perfect clock (`src/enhanced_notification_service.py:358-376`, `ThreeReleases`).

Promises that hold only under a condition, with the condition proved:

- on trimmed lines the two stream consumers accumulate the same, and answer the same, exactly under a condition on the
  lines that only one of them reads (`ConsumersAgree`, `ResponsesAgree`), with witnesses that each part matters
  (`ConsumersDisagree`);
- the second readings stay 0.6 s of real time apart exactly when no setting of the clock leaves it ahead within 0.6 s of the
  latest of them while no thread is between its readings (`AdjustExactly`, `ThroughoutExactly`); with a clock that is set
  forward the limit can fail altogether (`ForwardClockBreaksBound`); the written timestamps have a condition of their own
  (`SettingExactly`), and so have the sleeps (`SleepsExactly`);
- erasing queries leaves every answer of the error cache alone exactly when the failures since the last clear or expired
  query and those since the last clear have the same backoff (`ErasureInvisible`);
- the verdict for a key is independent of the order of the rows exactly when all rows with the key would give the same
  verdict (`OrderIndependence`);
- offset paging over the null filter returns every row exactly when no row of a page that is followed by further rows is
  written (`OffsetScanComplete`);
- a mirrored key stays mirrored exactly when its second write does not fail after the first (`MirrorKept`);
- each setting is assigned on one line exactly when the old file does not assign it on a line that starts otherwise
  (`AssignedOnce`);
- a higher score never worsens the tier, for all scores, exactly when no tier above 5 is reachable before one up to 5
  (`TierAntitone`);
- covering is transitive through a middle schema exactly when all its types are known (`CoversPreorder`);
- backfills with a limit reach a row that can be written exactly when fewer rows than the limit before it cannot be
  (`LimitedRunsReach`).

## Model

| member | source | states |
|---|---|---|
| StreamReader.MakeRequest | scripts/benchmarks/run_benchmark_simple.py:89-134 | for every chunking the buffer loop returns what reading the newline-terminated lines of the whole text returns, raising included, and leaves exactly the text after the last newline in the buffer; what that is for a stream of ordinary events is stated by `OrdinaryStream` |
| StreamReader.ReadLinesMeaning | scripts/benchmarks/run_benchmark_simple.py:97-128 | reading succeeds exactly when every line decodes or fails as a decode error and every event is readable; then all truthy content and reasoning parts are there in order, with the last usage and the last truthy finish reason |
| StreamReader.ReadEventMeaning | scripts/benchmarks/run_comparison_benchmark.py:199-211 | exactly which events raise, and what one readable event adds, for either reasoning key |
| StreamReader.RespondMeaning | scripts/benchmarks/run_benchmark_simple.py:97-144 | there is a response exactly when every line loads, every event is readable and every part is a string; it joins all content and all reasoning in order, with the last finish reason or stop and the last usage |
| StreamReader.OrdinaryStream | scripts/benchmarks/run_benchmark_simple.py:97-144 | for a stream whose data lines load to ordinary events, the response holds all content strings and all reasoning strings, joined in order, the last non-empty finish reason or stop, and the last usage; events whose choices are missing, null or empty, or whose texts are null or empty, add nothing and do not raise |
| Json.TruthyMeaning | scripts/benchmarks/run_benchmark_simple.py:116-121 | a string, list or object is truthy exactly when it is not empty, a number when it is not zero, null never |
| StreamReader.TailIgnored | scripts/benchmarks/run_benchmark_simple.py:97-99 | an unterminated last line never changes the response |
| StreamReader.ResponseGrows | scripts/benchmarks/run_benchmark_simple.py:114-119 | if the whole stream is answered, so is every prefix, with content and reasoning that are prefixes |
| StreamReader.CarriageReturnsIgnored | scripts/benchmarks/run_benchmark_simple.py:99 | lines ended by carriage return and newline read as lines ended by newline |
| StreamReader.CompleteStreaming | scripts/benchmarks/soundsgood_client.py:205-257 | the client loop with its skip, break and error exits computes its line-by-line specification and fails on a usage that is no dictionary |
| StreamReader.OrdinaryClient | scripts/benchmarks/soundsgood_client.py:205-257 | on such a stream, followed by a done marker and anything else, the client answers the joined texts of the lines before the marker, when their last usage is a dictionary |
| StreamReader.ConsumersRelate | scripts/benchmarks/soundsgood_client.py:205-241 | on trimmed lines the buffer reader is the client followed by the lines after the first done marker |
| StreamReader.ConsumersAgree | scripts/benchmarks/soundsgood_client.py:205-241 | on trimmed lines the two consumers accumulate the same exactly when what both read already fails, or when what only one of them reads (lines after the done marker, or an unterminated line) reads well, has no parts, and leaves the last usage and finish reason as they are |
| StreamReader.NoDataAddsNothing | scripts/benchmarks/soundsgood_client.py:209-212 | so they accumulate the same on every newline-terminated trimmed stream with no data after the done marker |
| StreamReader.ConsumersDisagree | scripts/benchmarks/soundsgood_client.py:209-212 | one event with a null usage, put after the done marker, on an unterminated line, or behind a space, makes them differ |
| StreamReader.ResponsesAgree | scripts/benchmarks/soundsgood_client.py:243-257 | on trimmed lines the two responses are the same exactly when what both read gives no response, or its last usage is a dictionary and the rest adds nothing, or it is none and the buffer reader fails on the rest |
| Text.LinesCut | scripts/benchmarks/run_benchmark_simple.py:97-98 | the lines and the tail join back to the text and contain no newline |
| Text.StripAround | scripts/benchmarks/run_benchmark_simple.py:99 | blanks, tabs and line breaks around a text that begins and ends with printable characters are what is stripped |
| Text.CutUnique | scripts/benchmarks/run_benchmark_simple.py:97-98 | there is only one such way to cut a text |
| RateLimiter.Limiter.WaitForRateLimit | src/enhanced_notification_service.py:363-376 | one call asks for what is missing to 0.6 s, and for nothing from 0.6 s after the last timestamp on; it asks for more than 0.6 s exactly on a clock behind the last timestamp; if the clock advances by what was asked, the timestamps are 0.6 s apart |
| RateLimiter.RunIsCalls | src/enhanced_notification_service.py:363-376 | under every interleaving and any clock, a run leaves exactly the timestamps and sleeps of its calls made one after the other, plus what the call under way asked for |
| RateLimiter.ProgramOrder | src/enhanced_notification_service.py:363-376 | every action moves at most one thread, one step along its program; only a waiting thread takes the lock, while it is free, and only the thread that leaves gives it back |
| RateLimiter.SleepsExactly | src/enhanced_notification_service.py:364-373 | under any clock no sleep of a run exceeds 0.6 s exactly when no call reads a time before the last timestamp |
| RateLimiter.AdjustExactly | src/enhanced_notification_service.py:363-376 | setting the clock once by any amount keeps all second readings 0.6 s of real time apart, whatever follows without setting it forward, exactly when there was none yet, a thread is between its readings, 0.6 s have passed since the latest, or the clock is not ahead of where it would have come since then |
| RateLimiter.ThroughoutExactly | src/enhanced_notification_service.py:363-376 | a run of any number of threads keeps the limit at every point, come what may afterwards short of setting the clock forward, exactly when each of its settings of the clock is harmless in that sense |
| RateLimiter.SettingExactly | src/enhanced_notification_service.py:364-376 | for the written timestamps: setting the clock once keeps all later ones 0.6 s apart, whatever follows without setting it back, exactly when the thread between its readings still has to sleep for what is then missing |
| RateLimiter.RunKeepsApart | src/enhanced_notification_service.py:363-376 | with a clock never set back, every run of any number of threads keeps mutual exclusion and written timestamps 0.6 s apart |
| RateLimiter.RateBound | src/enhanced_notification_service.py:47-53 | in every run with harmless settings of the clock, in real time, any closed window of length w holds at most floor(w/0.6)+1 second readings (two in a second) and at most floor(w/0.6)+2 releases of the lock (three in a second) |
| RateLimiter.OneWayClock | src/enhanced_notification_service.py:47-53 | a clock never set forward is harmless; with one never set back any window of timestamps holds at most floor(w/0.6)+1, and no sleep exceeds 0.6 s |
| RateLimiter.WindowBound | src/enhanced_notification_service.py:47-49 | times 0.6 s apart alone give the window bound |
| RateLimiter.ForwardClockBreaksBound | src/enhanced_notification_service.py:364-376 | with a clock set forward by 0.6 s before each call, any number of threads is let go at one instant without any sleep, although the clock never goes back |
| RateLimiter.ThreeReleases | src/enhanced_notification_service.py:363-376 | with a clock that is never set three threads can be let go within 0.6 s |
| RateLimiter.Progress | src/enhanced_notification_service.py:363-376 | no deadlock: with a clock never set back, some waiting or inside thread can move within 0.6 s |
| GatewayErrors.ErrorCache.SetGatewayError | src/cache.py:221-254 | writes message, time and the count after the previous one, and leaves the other gateways alone |
| GatewayErrors.ErrorCache.IsGatewayInErrorState | src/cache.py:280-315 | answers whether the age is below 300, 900, 1800 or 3600 s after one, two, three or more failures, and evicts an expired entry |
| GatewayErrors.ErrorCache.ClearGatewayError | src/cache.py:318-337 | removes the entry |
| GatewayErrors.ErrorCache.GetGatewayErrorMessage | src/cache.py:340-354 | returns the message exactly in the error state, with the same eviction |
| GatewayErrors.EntryMeaning | src/cache.py:221-337 | in every run the entry counts the failures since the last clear or expired query and carries the last one; a query is true exactly when its age is below the backoff of that count |
| GatewayErrors.BackoffSeconds | src/cache.py:257-277 | in every run one, two, three and more failures in a row give 300, 900, 1800 and 3600 s of error time from the last of them |
| GatewayErrors.GatewaysIndependent | src/cache.py:221-337 | operations on other gateways do not affect an entry |
| GatewayErrors.ErasureOnlyAdds | src/cache.py:257-315 | erasing any of the earlier queries never turns a true answer false, keeps the message, and adds error time only within an hour of the last failure |
| GatewayErrors.ErasureInvisible | src/cache.py:257-315 | in every run the earlier queries influence no answer, at any time, exactly when the failures since the last clear or expired query and the failures since the last clear have the same backoff |
| GatewayErrors.UnexpiredQueriesErasable | src/cache.py:280-315 | if no query of a run found an expired entry, erasing queries changes nothing |
| GatewayErrors.EvictionIsLazy | src/cache.py:280-315 | queries up to now do not change the answer now |
| GatewayErrors.QueryRestartsBackoff | src/cache.py:240-250 | a query between two failures can make the later answer strictly shorter-lived |
| OrderStatistics.SortDominates | scripts/benchmarks/latency_tracker.py:204-205 | pointwise larger samples, in any order, have pointwise larger order statistics |
| OrderStatistics.SortPermutation | scripts/benchmarks/latency_tracker.py:204 | the sorted samples depend only on the multiset |
| OrderStatistics.PercentileDominates | scripts/benchmarks/latency_tracker.py:204-214 | each interpolated percentile respects pointwise dominance of the unsorted samples |
| OrderStatistics.PercentileMonotone | scripts/benchmarks/latency_tracker.py:207-224 | percentiles are monotone in p and lie between min and max |
| OrderStatistics.PercentileInterpolates | scripts/benchmarks/latency_tracker.py:207-214 | where (n-1)p/100 lies a fraction t of the way from f to f+1, the percentile is (1-t) times the f-th plus t times the next sample in order |
| OrderStatistics.ProgressionPercentile | scripts/benchmarks/latency_tracker.py:207-214 | every percentile of evenly spaced samples, in any order, lies on the line through them |
| OrderStatistics.PercentileEnds | scripts/benchmarks/latency_tracker.py:207-214 | p0 is the min and p100 the max |
| OrderStatistics.MedianIsP50 | scripts/benchmarks/latency_tracker.py:216-219 | p50 equals the median for odd and even sample counts |
| OrderStatistics.NearestRankIsSample | scripts/benchmarks/coding_benchmark.py:331-340 | the nearest-rank percentile is an observed sample, monotone in pct before and after rounding |
| OrderStatistics.NearestRankAt | scripts/benchmarks/coding_benchmark.py:331-340 | it is the sample whose place in order is nearest to pct/100 times n, the even one of two, and the first or last beyond the ends |
| OrderStatistics.RoundedPercentileAt | scripts/benchmarks/coding_benchmark.py:331-340 | the reported value is that sample rounded to a tenth, half to even |
| OrderStatistics.NearestRankDominates | scripts/benchmarks/coding_benchmark.py:331-340 | it respects dominance, also after rounding |
| OrderStatistics.RoundMeaning | scripts/benchmarks/coding_benchmark.py:339 | the rounding gives the nearest integer and the even one of two equally near, and nothing else |
| OrderStatistics.NearestIndexAtHalf | scripts/benchmarks/coding_benchmark.py:339 | at 50 its half-even index lies in [k-1, k] for the interpolated rank k |
| OrderStatistics.NearestBelowInterpolated | scripts/benchmarks/coding_benchmark.py:331-340 | so it never exceeds the interpolated p50 |
| LatencyTracking.SummaryOrdered | scripts/benchmarks/latency_tracker.py:216-226 | min, p50, median, p90, p95, p99 and max are in order and the mean lies between min and max |
| LatencyTracking.SummaryFigures | scripts/benchmarks/latency_tracker.py:189-226 | the mean times n is the sum, min and max are the extreme samples, and each percentile field is the percentile of its name |
| LatencyTracking.StatsSummaries | scripts/benchmarks/latency_tracker.py:125-187 | the times are summarised over all requests, first chunks over those that have one, token rates over those with positive duration and output |
| LatencyTracking.StatsTokens | scripts/benchmarks/latency_tracker.py:177-185 | the token averages and the total are those of the input, output and reasoning tokens of all requests |
| LatencyTracking.StatsPermutation | scripts/benchmarks/latency_tracker.py:125-187 | the statistics do not depend on the order of the metrics |
| LatencyTracking.SummaryDominates | scripts/benchmarks/latency_tracker.py:216-226 | pointwise larger samples have no smaller figure |
| LatencyTracking.StatsDominate | scripts/benchmarks/latency_tracker.py:125-187 | each reported figure, total tokens included, is monotone in its own measurement and depends on no other; requests without a first chunk or a token rate may stay without |
| LatencyTracking.GroupedIsAll | scripts/benchmarks/latency_tracker.py:299-302 | however a log is split by category and whatever the category order, the groups together are the log |
| LatencyTracking.CategoryLatencyTracker.Record | scripts/benchmarks/latency_tracker.py:259-284 | recording files the metrics under its category and keeps every tracker equal to its share of the log |
| LatencyTracking.CategoryLatencyTracker.GetOverallStats | scripts/benchmarks/latency_tracker.py:293-307 | the overall statistics are those of one flat tracker fed the same sequence, raising exactly on an empty log |
| CanonicalIds.Models.SnapshotTargets | scripts/backfill_canonical_ids.py:49-78 | for every page size the keyset scan returns exactly the rows of the initial table with positive id, active, not deprecated, and without canonical id unless all are recomputed, once each in id order, whatever is written to already returned rows between pages |
| CanonicalIds.CanonicalForMeaning | scripts/backfill_canonical_ids.py:37-46 | a row resolves exactly when one of its two names does: to the alias of the provider's name, or else to the alias of the display name |
| CanonicalIds.AboveMeaning | scripts/backfill_canonical_ids.py:61-72 | those rows are exactly the active, not deprecated ones above the last id, with the filter on the canonical id, once each, in id order |
| CanonicalIds.Models.Backfill | scripts/backfill_canonical_ids.py:81-114 | of the rows that qualify, those before the limit whose name has an alias and whose write succeeds get that alias; every other row is as before |
| CanonicalIds.TallyMeaning | scripts/backfill_canonical_ids.py:89-105 | the counters count the rows written, those an alias supplied, and the failed writes |
| CanonicalIds.BackfillAgain | scripts/backfill_canonical_ids.py:81-114 | running again, with whatever writes failing, is like having run once with those writes failing that fail both times |
| CanonicalIds.LimitedRun | scripts/backfill_canonical_ids.py:81-105 | a run with any limit leaves for the next one exactly the null rows it did not write, in order |
| CanonicalIds.LimitedRunsReach | scripts/backfill_canonical_ids.py:81-105 | runs with limit n, as many as there are null rows, write exactly the rows that can be written and have fewer than n rows before them that cannot; all others stay however often it is run |
| CanonicalIds.OffsetScanSkips | scripts/backfill_canonical_ids.py:53-56 | offset paging over the null filter would skip, after each full page, exactly as many rows as it has written of the page |
| CanonicalIds.OffsetScanComplete | scripts/backfill_canonical_ids.py:53-56 | it would miss nothing exactly when no row of a page that is followed by further rows is written; else it returns fewer rows |
| CanonicalIds.OffsetScanAlternates | scripts/backfill_canonical_ids.py:53-56 | when every null row is written it would return every other page, and miss nothing exactly when there is at most one |
| ExposedKeyRotation.Rotation.Run | scripts/security/rotate_exposed_api_keys.py:54-94 | the offset-paged loop that updates users mid-scan processes every user once, in id order, for every page size: exactly the users whose key begins with gw_live_ and whose write succeeds get the key generated for them, and their rows of the second table follow; a dry run writes nothing |
| ExposedKeyRotation.EveryUserOnce | scripts/security/rotate_exposed_api_keys.py:70-91 | rotated, skipped and failed add up to the users; a dry run writes nothing |
| ExposedKeyRotation.UsersAfter | scripts/security/rotate_exposed_api_keys.py:66-78 | exactly the live users whose write succeeds get a new key; all others are untouched |
| ExposedKeyRotation.KeysAfter | scripts/security/rotate_exposed_api_keys.py:81-86 | a row of the second table changes exactly when it held its owner's key and both writes succeed, and then holds the owner's new key |
| ExposedKeyRotation.LiveKeysReplaced | scripts/security/rotate_exposed_api_keys.py:70-91 | a live key is in use after the run exactly by those who had it and whose write failed |
| ExposedKeyRotation.RotatedKeysDistinct | scripts/security/rotate_exposed_api_keys.py:39-41 | no two rotated users share a key |
| ExposedKeyRotation.MirrorKept | scripts/security/rotate_exposed_api_keys.py:78-88 | a user is mirrored after the run exactly when mirrored before and not left behind by a failed second write |
| QualityScores.AggregateFamilies | scripts/backfill_quality_scores.py:43-103 | for every page size the page-by-page fold gives the batch families: one for each canonical id, with its id as name, whether some row reasons, and the longest context its rows give |
| QualityScores.MaxContextMeaning | scripts/backfill_quality_scores.py:83-102 | the stored context is the maximum over the family, unknown counted as zero |
| QualityScores.FamiliesPermutation | scripts/backfill_quality_scores.py:62-103 | the families do not depend on the order of the rows |
| QualityScores.ScoreDb.CuratedCanonicalIds | scripts/backfill_quality_scores.py:106-124 | the paged scan finds exactly the families with a score whose source is manual or benchmark |
| QualityScores.ScoreDb.Backfill | scripts/backfill_quality_scores.py:127-166 | for every chunk size: the scores of a family with a manual or benchmark score, or without an active model, are as before; of the others, those before the limit get their inferred scores; no chunk repeats a key; a dry run writes nothing |
| QualityScores.RunMeaning | scripts/backfill_quality_scores.py:127-166 | a key holds the inferred score of a target family's task, every other key is as before; curated families keep exactly their rows |
| QualityScores.SecondRunIdentity | scripts/backfill_quality_scores.py:10-11 | a second run over unchanged models is the identity |
| ApiKeys.ScanIsLookup | src/db_security.py:160-286 | with distinct stored keys the row scan is a map lookup followed by the checks |
| ApiKeys.AcceptedIff | src/db_security.py:195-286 | a request is accepted exactly when a usable row stands for its key, and the answer describes that row |
| ApiKeys.FirstViolationLogged | src/db_security.py:195-262 | a matching row that is rejected is logged with the first thing wrong with it, in the order of the checks |
| ApiKeys.RejectionsPersist | src/db_security.py:203-246 | an inactive, expired or used-up key never becomes valid again by waiting or by more use |
| ApiKeys.OrderIndependence | src/db_security.py:170-200 | the verdict is independent of row order exactly when all rows with the key give the same verdict |
| ApiKeys.CreatedKeyVerdict | src/db_security.py:55-100 | a created key is accepted exactly until its expiry, with a request limit that is not negative, from its addresses and referrers; other verdicts are unchanged |
| ApiKeys.RekeyOldKey | src/db_security.py:344-366 | after rekeying some rows their old keys are rejected as invalid |
| ApiKeys.RekeyNewKey | src/db_security.py:344-366 | each new key gets the verdict its row gave before |
| ApiKeys.RekeyOthers | src/db_security.py:344-366 | every other key keeps its verdict |
| ApiKeys.RotationVerdicts | src/db_security.py:320-366 | the three together for a single rotation |
| ApiKeys.BulkRekeys | src/db_security.py:437-470 | a bulk rotation gives every active row of the user, in the environment if one is given, whose write succeeds a key of its own that nobody had, and touches no other row |
| ApiKeys.BulkVerdicts | src/db_security.py:437-470 | after a bulk rotation old keys are rejected and new keys get the old verdicts |
| ApiKeys.BulkOthers | src/db_security.py:437-470 | every other key keeps its verdict over a bulk rotation |
| ApiKeys.ApiKeyStore.ValidateSecureApiKey | src/db_security.py:160-317 | the loop computes the scan verdict, stamps only the accepted row, and changes no verdict |
| ApiKeys.ApiKeyStore.CheckKeyNameUniqueness | src/db_security.py:486-514 | true exactly when no other row of the user has the name |
| ApiKeys.ApiKeyStore.CreateSecureApiKey | src/db_security.py:24-88 | fails exactly on a taken name or failed insert; else appends one row with the given settings that stands for a fresh key; keeps ids unique, keys distinct, hashes in agreement |
| ApiKeys.ApiKeyStore.RotateApiKey | src/db_security.py:320-366 | fails exactly on a missing row, another owner or a failed write; else replaces key, hash and name of that row; keeps the invariant |
| ApiKeys.BulkRotateUserKeys | src/db_security.py:437-483 | exactly the active rows of the user, in the environment if one is given, whose write succeeds get a new key, and their id, name and new key are the list returned; every other row is as before; keeps the invariant |
| EnvFile.GenerateEncryptionConfig | scripts/setup_encryption_keys.py:77-127 | nothing is written exactly when the file contains one of the three assignments and the user declines; else splitting the output gives the kept lines, a blank line if any, and the five lines of the block |
| EnvFile.KeptMeaning | scripts/setup_encryption_keys.py:103-116 | a line of the old file that is not blank stays exactly when it does not begin with KEY_HASH_SALT=, KEY_VERSION= or KEYRING_1= |
| EnvFile.RewriteMeaning | scripts/setup_encryption_keys.py:103-123 | the new file assigns what the old one did with the three names overridden |
| EnvFile.AssignedOnce | scripts/setup_encryption_keys.py:103-109 | a name is assigned on exactly one line exactly when the old file does not assign it on a line starting otherwise, indented or exported |
| EnvFile.RerunMeaning | scripts/setup_encryption_keys.py:103-123 | a second run adds one more marker comment and means what the last run set |
| Ledger.UsageLedger.Summarize | agents/base.py:103-142 | the single pass reports counts and sums over the selected records and over each agent, rounded at the end |
| Ledger.TotalIsSumOfBuckets | agents/base.py:123-130 | the unrounded total is the sum of the agents' buckets |
| Ledger.RoundedTotalsClose | agents/base.py:134-142 | with k agents reported total and reported buckets differ by at most (k+1) * 0.00005 |
| Ledger.WindowsAdd | agents/base.py:117-130 | costs, tokens, cache reads and calls add over adjacent time windows, in total and for each agent; the earlier summary may be of the whole ledger |
| Ledger.LedgerIsSumOfRuns | agents/base.py:71-73 | over any interleaving the ledger total is the sum of all run totals and of all buckets |
| Ledger.RunAll | agents/base.py:237-248 | agents sharing a ledger leave exactly the interleaved records there and their own in their runs |
| Ledger.SummaryOfRuns | agents/base.py:103-142 | the summary of a ledger the agents have written reports the rounded sum of their run totals, and under each agent's name the rounded total, tokens and calls of its own run |
| Scoring.Recommend | scripts/benchmarks/glm_code_benchmark.py:285-301 | the loop computes the weighted score, and the tier of the first threshold it meets or 5 |
| Scoring.WeightedScoreMeaning | scripts/benchmarks/glm_code_benchmark.py:294-298 | the weighted score is the sum over the four categories of weight times average score; a category without tests or weight counts nothing |
| Scoring.WeightedScoreGrows | scripts/benchmarks/glm_code_benchmark.py:346-366 | no score lower gives no lower weighted score |
| Scoring.TierAntitone | scripts/benchmarks/glm_code_benchmark.py:385-397 | a higher score never gives a worse tier, for all scores, exactly when the fallback is the worst reachable tier |
| Scoring.BetterScoreNoWorseTier | scripts/benchmarks/glm_code_benchmark.py:285-301 | raising one test's score never worsens the recommended tier |
| Scoring.ScoreGain | scripts/benchmarks/glm_code_benchmark.py:295-298 | changing one score moves the weighted score by its difference times the category weight over the number of tests of the category |
| Scoring.WeightedScoreInRange | scripts/benchmarks/glm_code_benchmark.py:294-298 | scores in [0,100] and weights summing to at most 1 keep the weighted score in [0,100] |
| Scoring.DefaultConfiguration | scripts/benchmarks/benchmark_config.py:67-89 | the shipped weights, 0.35, 0.30, 0.20 and 0.15, and thresholds, 85, 75 and 65 for tiers 2 to 4, meet every condition used |
| SchemaSync.CompareSchemas | scripts/database/validate_schema_sync.py:335-392 | reports exactly the missing tables, missing columns and type conflicts; valid exactly when the target covers the source |
| SchemaSync.CompareSchemaToSnapshot | scripts/database/validate_schema_sync.py:449-490 | reports exactly the missing tables and columns; valid exactly when none is missing |
| SchemaSync.ValidMeansCovers | scripts/database/validate_schema_sync.py:155-157 | nothing to report is the same as covering |
| SchemaSync.CoversPreorder | scripts/database/validate_schema_sync.py:362-383 | every schema covers itself, and covering carries over through a middle schema, whatever is before and after it, exactly when all its types are known |
| SchemaSync.CoversOnward | scripts/database/validate_schema_sync.py:362-383 | a covering schema vouches for everything that covers it in turn exactly when it knows every type the covered one knows |
| SchemaSync.UnknownTypeBreaksTransitivity | scripts/database/validate_schema_sync.py:371-375 | a middle schema with an unknown type breaks transitivity |
| SchemaSync.SnapshotErrors | scripts/database/validate_schema_sync.py:449-490 | the snapshot comparison reports exactly the errors of the full comparison that are no type mismatches |
| SchemaSync.SnapshotComparison | scripts/database/validate_schema_sync.py:449-490 | the full comparison implies the snapshot comparison; the converse holds for every current schema exactly when the snapshot knows no type, and for every snapshot exactly when the current schema knows none |

## Left out

- HTTP, Supabase, Redis, files, email and UTF-8 decoding: streams are sequences of decoded chunks, tables are values, and one
  database request is one atomic step.
- Concurrency other than the send limiter: no two processes work on the same table at the same time, except that anything may
  happen to already returned rows between two pages of the keyset scan.
- Floating-point rounding: reals stand for floats, except that the explicit `round` calls are modelled on reals.
- The standard deviation, and the fields of the latency statistics that repeat another one.
- StreamReader.CompleteStreaming: takes the lines as given, because the line splitter of the HTTP library is not part of this
  model; response id, model name and timings are left out.
- StreamReader.ConsumersAgree: assumes a line splitter that cuts at newlines only, where the HTTP library also cuts at other
  line boundaries, and lines without surrounding whitespace.
- StreamReader.MakeRequest: the timings in its result are left out; the two comparison copies differ only in the reasoning key
  and in not reading the finish reason.
- RateLimiter.RateBound: bounds the second clock readings and the releases of the lock, not the moments the email service is
  called, since a thread may be delayed after it has released the lock.
- Fairness of the lock: which waiting thread gets it is not fixed, so no bound on one thread's wait is stated.
- ApiKeys.ApiKeyStore.ValidateSecureApiKey: expiry dates are instants, so the handling of malformed date strings is left out;
  `updated_at` follows `last_used_at` and is left out.
- Audit logs, rate-limit configuration rows and permissions of API keys: written once and never read by these functions.
- QualityScores.ScoreDb.Backfill: the order that `sorted` gives the families is a parameter, since only the limit depends on it.
- The parameter size that the family fold tracks: an abstract function of the row, since it never affects the result.
- Key generation, encryption and hashing: abstract functions; decryption inverts encryption and no key is generated twice.
- Warnings, extra tables and functions in schema comparison, and report texts everywhere.
- The deprecated cache dictionaries and the service layer behind them.
