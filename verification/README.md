# Crawl leases, bounded fetching and embedding inputs

A Dafny model of the crawler's three hard parts, with proofs:

1. **The crawl-lease protocol.** Jobs and attempts are rows of two tables. `LeaseSteps` gives the committed effect of `seed`, `lease`, `complete`, `fail` and `reap_expired` as functions on the tables and on a ghost history of every job's leases; `LeaseInvariant` and `LeaseTimes` prove what every one of them keeps. `CrawlQueues.CrawlQueue` runs the statements over mutable rows and is proved to refine those functions. `Workers` puts any number of crashing workers around the queue, one atomic transaction or answer per event, and `LeaseRuns` proves safety and fairness over whole runs: fencing, the handoff protocol, retry delays, exclusion in time, bounded overtaking. `ProcessNexts` runs one worker turn as the code does, with the others acting after each of its steps, and shows that it is a path of that model.
2. **The bounded fetch loop.** `FetchNet` interleaves any number of fetches over one table of per-host semaphores: the permit bound, conservation, progress, the redirect bound, and that every request stays in scope and follows the redirects of its own fetch. `FetchScopes` holds the scope itself, with host and path matching proved to compare labels and segments.
3. **The text pipeline.** Block removal, markup, whitespace, JSON fragments, `href` values, sentences, keywords, entity phrases and headings are loops, each proved against a reference definition (`HtmlBlocks`, `Whitespace`, `JsonText`, `ContentText`, `Hrefs`, `Sentences`, `Keywords`, `Entities`, `TagTexts`, over `Texts`, `Lists` and `Ranking`). `SemanticViews` assembles the embedding inputs and proves that they always meet the consumer's contract (`EmbeddingInputs`, `Revisions`); `CombinedText` proves what the one-vector text contains.

Text is a sequence of Unicode scalar values, except in `Hrefs`, which works on UTF-8 bytes as section 4 of RFC 3629 defines them. The Unicode tables, the entity decoder and the stopword list are parameters: the theorems hold for all of them, given that blanks and line ends are whitespace, lower-case ASCII letters, digits, `-`, `.` and the ellipsis are not, a lower-cased character is never empty, and an apostrophe is not alphanumeric. Identifiers are numbers; that a new one is fresh is an assumption of `seed` and `lease`. Time is in microseconds.

Where the code differs from what its text says, the model follows the code. The JSON limit is reported as "more than 20000 text fragments", but a document with exactly 20000 is refused too unless its last value is a string: `JsonText.CollectJsonText` states the exact condition and `JsonText.ExactLimitMayBeRefused` gives such a document. A job's `attempt_count` can pass its `max_attempts`: `LeaseInvariant.CountPassesLimitExactly` says in which steps it does, for every state, and `LeaseWitnesses.CountCanPassItsLimit` leads there from the empty tables. It cannot happen as long as no seed lowers the limit to what is, or may soon be, used up (`LeaseRuns.CountWithinLimitUntilLowered`).

`dafny verify dfyconfig.toml` checks the project.

## Model

| member | source | states |
|---|---|---|
| Backoff.BackoffIsCappedDoubling | runtime-worker/src/queue.rs:298-301 | for every 32-bit attempt number the delay is 30 s doubled per earlier failure, capped at a day; the clamp and the saturating operations never show |
| Backoff.DelayMonotone | runtime-worker/src/queue.rs:298-301 | a later retry never waits less |
| Backoff.TotalDelayClosedForm | runtime-worker/src/queue.rs:298-301 | the delays of n failures in a row add up to 30·(2^n − 1) s up to n = 12, and 122850 + 86400·(n − 12) s from there on |
| LeaseSteps.SanitizeCode | runtime-worker/src/queue.rs:303-314 | a code of 1 to 128 permitted characters: a proper one unchanged, otherwise exactly the first 128 permitted characters, or the default exactly when there are none |
| LeaseSteps.SingleCharacterCode | runtime-worker/src/queue.rs:303-314 | the permitted characters are ASCII letters and digits, `_` and `-` |
| LeaseInvariant.InvKept | runtime-worker/src/queue.rs:28-295 | every transaction keeps the row constraints, unique tokens and sources, and the correspondence of jobs and attempts, takeover of an expired lease included |
| LeaseInvariant.SeedKeeps | runtime-worker/src/queue.rs:28-73 | seeding keeps the invariant, whether it inserts a row or changes the limits of a leased one |
| LeaseInvariant.LeaseKeeps | runtime-worker/src/queue.rs:82-133 | leasing keeps the invariant, also when it takes over an expired lease whose attempt stays open |
| LeaseInvariant.EndKeeps | runtime-worker/src/queue.rs:161-198 | ending the attempt that holds a job's token and releasing the job keeps the invariant |
| LeaseInvariant.ReapKeeps | runtime-worker/src/queue.rs:258-289 | reaping keeps the invariant |
| LeaseInvariant.TokenAttemptCorrespondence | runtime-worker/migrations/001_runtime.sql:25-58 | a leased row has exactly one attempt with its token, which is open and its own; a free row has no owner, expiry or attempt with its token |
| LeaseInvariant.AttemptAccounting | runtime-worker/src/queue.rs:85-289 | `attempt_count` is what the job's attempts owe since the latest success; at most 100, at most 99 while leased, under any re-seeding; every attempt appears once in its job's history |
| LeaseInvariant.DebtCountsOwing | runtime-worker/src/queue.rs:178-185 | that debt is the number of failed or abandoned attempts with no succeeded one after them |
| LeaseInvariant.CountPassesLimitExactly | runtime-worker/src/queue.rs:53-289 | a count within its limit passes it in exactly three kinds of step: an accepted seed of the row below its count, and a committed failure or an expiry of a lease whose limit equals the count |
| LeaseWitnesses.CountCanPassItsLimit | runtime-worker/src/queue.rs:53-58 | six legal transactions from the empty tables (seed, lease, fail, lease, a seed that lowers the limit, fail) after which the count is over its limit |
| LeaseInvariant.LimitKeptUnlessLowered | runtime-worker/src/queue.rs:53-58 | a row that is within its limit even if its lease is lost stays so, except by, and exactly by, a seed whose limit the row would then not be within |
| LeaseInvariant.ExhaustedUnlessRaised | runtime-worker/src/queue.rs:53-96 | a free row with no attempts left keeps its count and its leases through every transaction, and has attempts again exactly after an accepted seed that raises its limit above the count |
| LeaseInvariant.ExhaustedStaysPut | runtime-worker/src/queue.rs:88-96 | such a row is changed by nothing but an accepted seed of it |
| LeaseInvariant.CountMovesWithAnOutcome | runtime-worker/src/queue.rs:178-285 | a job's count changes only when one of its own open attempts gets its outcome |
| LeaseInvariant.HolderIsLast | runtime-worker/src/queue.rs:98-133 | the attempt a job's token belongs to is the job's latest one and is open |
| LeaseInvariant.FencedAttemptFrozen | runtime-worker/src/queue.rs:161-289 | an attempt that has ended or was superseded is never changed again, and stays superseded |
| LeaseInvariant.FencedHolderChangesNothing | runtime-worker/src/queue.rs:161-253 | completing or failing such an attempt changes no row |
| LeaseInvariant.EndingIsFinal | runtime-worker/src/queue.rs:161-289 | only its holder's completion or failure or a reap changes an open attempt; then it has ended, was not superseded, and its job is free |
| LeaseInvariant.LeaseTakesTheFirstReadyRow | runtime-worker/src/queue.rs:88-97 | the row a lease takes is unlocked, enabled and due, has attempts left, is free or past its lease's expiry, and comes first in (`next_run_at`, `id`) order among all such rows |
| LeaseInvariant.NoRowIsReady | runtime-worker/src/queue.rs:88-97 | when a lease call finds nothing, every unlocked row is disabled, not due, used up, or leased and unexpired |
| LeaseInvariant.ReapIsComplete | runtime-worker/src/queue.rs:258-289 | after a reap no lease is expired; each expired job waits 60 s and the open attempt with its token is abandoned; no other job and no other attempt changed |
| LeaseInvariant.ReapEffect | runtime-worker/src/queue.rs:258-289 | what a reap makes of every job and attempt row: exactly the jobs past their expiry wait 60 s, count one more failure and record `lease_expired`; exactly their open attempts are abandoned |
| LeaseInvariant.LeaseAfterReap | runtime-worker/src/main.rs:229-233 | a lease at the instant of the reap before it takes a free row the reap did not touch and supersedes no open attempt |
| LeaseTimes.TimeInvKept | runtime-worker/src/queue.rs:88-289 | with a clock that never runs back, every transaction keeps the times of leases in order |
| LeaseTimes.LeasesDoNotOverlap | runtime-worker/src/queue.rs:93-103 | a job's lease is over, by release or by expiry, when its next one begins |
| LeaseTimes.UnexpiredLeaseIsHeld | runtime-worker/src/queue.rs:93-103 | while a lease that its holder has not settled is unexpired, its token is the row's |
| LeaseTimes.FreeRowKeepsItsTime | runtime-worker/src/queue.rs:53-283 | only an accepted seed moves the due time of a free row, and only a lease taken when it is due makes it other than free |
| LeaseTimes.EnabledOnlyBySeed | runtime-worker/src/queue.rs:53-58 | whether a row is enabled changes only by an accepted seed, to what that seed says |
| LeaseTimes.WaitingKept | runtime-worker/src/queue.rs:53-96 | a ready, overdue job keeps waiting exactly until a lease takes it or an accepted seed disables it or leaves it no attempts; refused calls and other seeds of it do not end its wait, nor move its `next_run_at` |
| LeaseTimes.LeaseServesBefore | runtime-worker/src/queue.rs:88-96 | an accepted lease call that does not take a waiting job takes a row before it, exactly unless it found the job locked and no row before it to take |
| LeaseTimes.AheadShrinks | runtime-worker/src/queue.rs:57-283 | no transaction puts a row in front of a waiting one, and a row that is leased is ahead no longer |
| CrawlQueues.CrawlQueue.constructor | runtime-worker/migrations/001_runtime.sql:6-58 | the empty tables satisfy the invariant |
| CrawlQueues.CrawlQueue.Seed | runtime-worker/src/queue.rs:28-73 | refuses exactly absent text, an interval outside 60 to 2592000 or a limit outside 1 to 100; otherwise inserts a free row due at once, or sets enabled, interval and limit of the one with the same tenant, source and URL and moves its due time to now if it is later |
| CrawlQueues.CrawlQueue.Lease | runtime-worker/src/queue.rs:75-148 | refuses exactly an absent owner or a duration outside 30 to 3600 s; takes the first ready unlocked row, sets its token, owner and expiry, inserts one open attempt and returns the row's values from before; or reports that there is none and changes nothing |
| CrawlQueues.CrawlQueue.Complete | runtime-worker/src/queue.rs:150-204 | commits exactly when the attempt is open with the caller's token and the row still has that token; then the count is zero, the row free and due after its interval, the receipt stored; otherwise both tables are as before |
| CrawlQueues.CrawlQueue.Fail | runtime-worker/src/queue.rs:206-256 | commits exactly when the attempt is open with the caller's token and the row still has that token; then the count is one more, the row free and due after the delay of the caller's snapshot, the sanitised code stored in both rows; otherwise both tables are as before |
| CrawlQueues.CrawlQueue.ReapExpired | runtime-worker/src/queue.rs:258-295 | although jobs are joined to the abandoned attempts only, every expired job is released; the answer is how many there were |
| CrawlQueues.ReleasedAreExpired | runtime-worker/src/queue.rs:262-289 | in every valid state the jobs of the abandoned attempts are exactly the expired jobs |
| CrawlQueues.FirstExists | runtime-worker/src/queue.rs:94-96 | a non-empty set of candidate rows has a first one in (`next_run_at`, `id`) order |
| Workers.WorldInvKept | runtime-worker/src/main.rs:180-291 | every event of every participant keeps the invariant of a run: table invariant, times, each worker's stage, and the call log |
| Workers.RunInv | runtime-worker/src/main.rs:180-291 | the invariant holds in every reachable state |
| Workers.OpPreserves | runtime-worker/src/queue.rs:28-295 | what a worker relies on while others commit: its source stays, its attempt is only ever abandoned, and while its token is the row's the count is the one it saw |
| LeaseRuns.FencedForever | runtime-worker/src/queue.rs:161-288 | an ended or superseded attempt keeps its row for the rest of the run |
| LeaseRuns.EndsAtMostOnce | runtime-worker/src/queue.rs:161-288 | in any run at most one completion, failure or reap ever commits for an attempt |
| LeaseRuns.EndedByReapOrOwner | runtime-worker/src/queue.rs:161-288 | an outcome is committed only by a reap or by the worker the attempt was leased to, never for a superseded attempt |
| LeaseRuns.FencedWorkerStops | runtime-worker/src/main.rs:251-288 | a worker whose attempt was fenced at any earlier point changes no row when it settles, and stops |
| LeaseRuns.AtMostOneHandoff | runtime-worker/src/main.rs:244-266 | no attempt is handed to the ingest API twice, and none whose crawl or envelope check failed |
| LeaseRuns.HandoffPrecedesSuccess | runtime-worker/src/main.rs:261-288 | when an attempt becomes `succeeded`, its own worker has handed over the page, for the leased tenant and source and with that `source_id`, and that call's receipt is stored |
| LeaseRuns.SucceededWasHandedOff | runtime-worker/src/types.rs:80-88 | every succeeded attempt of every reachable state shows such a handoff |
| LeaseRuns.ReapPrecedesLease | runtime-worker/src/main.rs:229-233 | in any run a worker leases only after a reap of its own, doing nothing else in between |
| LeaseRuns.LeasePrecedesCrawl | runtime-worker/src/main.rs:233-246 | in any run a worker crawls only for the job its own latest lease call was given, with the row's values from before that lease |
| LeaseRuns.AnswerDecides | runtime-worker/src/types.rs:72-141 | a crawl error or an envelope that fails any check makes the worker record a failure under the error's own code or as `crawl_command_protocol`; any other answer makes it hand over just that page |
| LeaseRuns.RefusedCrawlIsNeverHandedOver | runtime-worker/src/main.rs:246-259 | in any run, an attempt whose crawl failed or whose envelope failed a check is at no later point in the call log or `succeeded` |
| LeaseRuns.CallWasCrawled | runtime-worker/src/main.rs:246-266 | in any run, whatever is handed over for an attempt is the page its own worker's crawl brought for that attempt, in an envelope that passed every check |
| LeaseRuns.HandoffDecides | runtime-worker/src/main.rs:261-288 | a handoff logs one call with the leased tenant and source; a receipt leads to completion with it, an error to a failure with the error's code |
| LeaseRuns.FailureCommitsItsDelay | runtime-worker/src/queue.rs:206-250 | while a worker holds the token its snapshot count is the row's, whatever seeds came between, so a failure stores count n and waits exactly the delay of n |
| LeaseRuns.SettlingDecides | runtime-worker/src/queue.rs:161-241 | in any run a settling worker that still holds its lease ends its attempt as the crawl and the handoff went, with the sanitised code or the receipt, and the diagnostic |
| LeaseRuns.ExclusiveLeases | runtime-worker/src/queue.rs:93-103 | in every reachable state the times in which a job's leases are in force are disjoint |
| LeaseRuns.PunctualWorkerCommits | runtime-worker/src/queue.rs:165-253 | a worker that settles no later than its `lease_expires_at` always commits, whatever others do |
| LeaseRuns.LeasedRowWasReady | runtime-worker/src/queue.rs:88-93 | in any run every lease is of a row that is enabled, due, not used up, and free or expired |
| LeaseRuns.FreeUntilDue | runtime-worker/src/queue.rs:53-283 | in any run a free row stays free with its due time until that time has come, as long as no accepted seed of it comes |
| LeaseRuns.FailureIsWaitedOut | runtime-worker/src/queue.rs:206-250 | in any run, after a committed failure the job is not leased before 30 s doubled per earlier failure, at most a day, have passed, unless an accepted seed of it comes between |
| LeaseRuns.SuccessIsWaitedOut | runtime-worker/src/queue.rs:178-190 | in any run, after a committed success the job is not leased before its interval has passed, unless an accepted seed of it comes between |
| LeaseRuns.ReapIsWaitedOut | runtime-worker/src/queue.rs:274-286 | in any run, after its lease was reaped a job is not leased for 60 s, unless an accepted seed of it comes between |
| LeaseRuns.DisabledIsNotLeased | runtime-worker/src/queue.rs:53-90 | in any run, a job that an accepted seed has disabled is not leased until an accepted seed enables it |
| LeaseRuns.ExhaustedUntilRaised | runtime-worker/src/queue.rs:92-96 | in any run a free job with no attempts left keeps its count and is not leased again until an accepted seed raises its limit above the count; other seeds change nothing about it |
| LeaseRuns.CountWithinLimitUntilLowered | runtime-worker/src/queue.rs:53-58 | in any run the count stays within the limit as long as no seed lowers the limit to what is, or may soon be, used up |
| LeaseRuns.FailuresInARow | runtime-worker/src/queue.rs:206-250 | in any run, n committed failures of a job from a count of zero, with no other outcome of it in between, put it off by 30·(2^n − 1) s in all up to n = 12, and by 122850 + 86400·(n − 12) s from there on |
| LeaseRuns.CountKept | runtime-worker/src/queue.rs:161-289 | between the outcomes of its attempts a job's count does not move |
| LeaseRuns.AheadOnlyShrinks | runtime-worker/src/queue.rs:88-96 | while a job waits, nothing gets in front of it that was not there before |
| LeaseRuns.OvertakenOnlyByThoseAhead | runtime-worker/src/queue.rs:88-96 | while a job waits, a lease goes to a row before it exactly if it does not pass the job over as locked; then a fresh one goes to a row that was ahead at the start; the row is not ahead at the end |
| LeaseRuns.OvertakenAtMostOnce | runtime-worker/src/queue.rs:88-96 | a row leased while a job waits is not freshly leased again in front of it |
| LeaseRuns.BoundedOvertaking | runtime-worker/src/queue.rs:57-283 | the fresh leases given while a job waits without passing it over, plus the rows still ahead of it, are at most the rows that were ahead of it; the wait ends only when the job is leased or an accepted seed switches it off |
| LeaseRuns.LeaseRightAfterReapIsPrompt | runtime-worker/src/main.rs:229-233 | an accepted lease call right after a reap finds no lease run out |
| LeaseRuns.PromptLeaseIsFresh | runtime-worker/src/main.rs:229-233 | a lease call that finds no lease run out and does not pass a waiting job over is a fresh lease |
| LeaseRuns.ServedAfterThoseAhead | runtime-worker/src/main.rs:229-233 | before more such calls are made than rows were ahead of it, a waiting job is leased, or an accepted seed disables it or leaves it no attempts; no other call ends its wait |
| ProcessNexts.ProcessNext | runtime-worker/src/main.rs:222-291 | one turn, with anything the other participants do after each of its steps, is a path of the run model: reap, lease, crawl, at most one handoff, settle; it answers whether a row was ready, and fails exactly when the lease arguments were refused or the lease was lost, also during the ingest call; its attempt ends `succeeded` only after its own handoff answered with a receipt |
| ProcessNexts.ComeBack | runtime-worker/src/main.rs:229-286 | whatever others commit meanwhile keeps the invariant and the worker's own stage |
| ProcessNexts.ReapAndLease | runtime-worker/src/main.rs:229-235 | the first half: reap, then lease; an error only for a refused owner or duration |
| ProcessNexts.HandsOverExactlySoundAnswers | runtime-worker/src/main.rs:246-266 | among the events of a turn the worker's own handoffs are exactly one if the crawl's answer passed every check, and none otherwise |
| ProcessNexts.CrawlAndHandOver | runtime-worker/src/main.rs:246-280 | exactly one crawl, and one handoff exactly if its answer was accepted, with the others' events in between |
| ProcessNexts.RunLeased | runtime-worker/src/main.rs:246-290 | the second half: the turn succeeds exactly when the lease is still held by what the others have left when it settles; an answer that failed a check leaves the attempt `failed`, any other what its handoff says |
| ProcessNexts.Record | runtime-worker/src/main.rs:246-288 | a refused crawl or failed handoff is recorded as a failure, a receipt as a completion, by the transaction of the worker's stage |
| FetchScopes.NormalizeHostIdempotent | src/ingestion/network/policy.rs:154-178 | a normalised host is a fixed point of the normalisation |
| FetchScopes.NormalizeHostExactly | src/ingestion/network/policy.rs:154-178 | blanks around a host, trailing dots and ASCII case do not matter; what is left must be a DNS name, judged character by character, else the host is refused |
| FetchScopes.CanonicalHostByCharacters | src/ingestion/network/policy.rs:156-173 | the check label by label is the check of characters: 1 to 253 letters, digits, hyphens and dots, at least one dot, no IP literal, no dot or hyphen at an end or next to a dot, at most 63 characters between dots |
| FetchScopes.SubdomainsByLabel | src/ingestion/network/policy.rs:138-143 | with subdomains admitted, a host is allowed exactly when its label list ends with the root's labels |
| FetchScopes.PathMatchIsSegmentPrefix | src/ingestion/network/policy.rs:209-218 | on absolute paths a prefix matches exactly when its segments, without trailing slashes, begin the path's segments |
| FetchScopes.PathMatchReflexive | src/ingestion/network/policy.rs:209-218 | every absolute path matches itself |
| FetchScopes.PathMatchTransitive | src/ingestion/network/policy.rs:209-218 | matching is transitive on absolute paths |
| FetchScopes.AllowsUrlExactly | src/ingestion/network/policy.rs:134-151 | a URL is allowed exactly if its normalised host is the root, a listed host or, with subdomains admitted, ends label by label with the root; its port is the scheme's default where that is required; and some prefix is `/` or begins its path segment by segment |
| FetchScopes.WiderAllowsMore | src/ingestion/network/policy.rs:134-151 | adding hosts or path prefixes only enlarges what is allowed |
| FetchScopes.FetchScope.AllowHost | src/ingestion/network/policy.rs:102-107 | adds exactly the normalised host, which is then allowed; a refused host changes nothing |
| FetchScopes.FetchScope.AllowPathPrefix | src/ingestion/network/policy.rs:109-113 | adds exactly the canonical prefix, or nothing if it is refused |
| FetchScopes.FetchScope.SetAllowedPathPrefixes | src/ingestion/network/policy.rs:115-132 | replaces the prefixes by the canonical ones, or changes nothing if there is none or one is refused |
| FetchNet.NetInvKept | src/ingestion/network/fetcher.rs:71-234 | every step of every fetch keeps permits conserved, one semaphore per key, and each fetch's bounds |
| FetchNet.RequestsBounded | src/ingestion/network/fetcher.rs:220-234 | in every run the requests in flight per limiter key never exceed `max_concurrency_per_host` |
| FetchNet.RequestsPerHostBounded | src/ingestion/network/fetcher.rs:220-234 | in every run under the code's own keys, the requests in flight to one host, in whatever ASCII case, never exceed `max_concurrency_per_host` |
| FetchNet.OneSemaphorePerKey | src/ingestion/network/fetcher.rs:224-230 | a key keeps the semaphore it was first given |
| FetchNet.FetchesBehave | src/ingestion/network/fetcher.rs:79-217 | each fetch sends at most `max_redirects` + 1 requests, all allowed, validators exactly to the requested limiter key, and never ends with the error behind the loop |
| FetchNet.ValidatorsStayWithTheHost | src/ingestion/network/fetcher.rs:80-97 | in every run under the code's own keys, a request carries the caller's validators exactly if it goes to the requested host, in whatever ASCII case |
| FetchNet.RequestsFollowRedirects | src/ingestion/network/fetcher.rs:79-217 | in any run, however fetches interleave, a fetch's requests start at the requested URL and each goes where the redirect before it pointed; it ends as the answer to its last request says, and by a failed lookup or a cancellation only before an answer; the limit is hit exactly when one redirect too many has arrived |
| FetchNet.RequestsStayInScope | src/ingestion/network/safety.rs:34-46 | in every run under the code's own checks every request ever sent is in its scope by host labels, port and path segments |
| FetchNet.SomeFetchCanMove | src/ingestion/network/fetcher.rs:84-86 | while a fetch is unfinished some fetch can move: whoever waits for a permit holds none |
| FetchNet.WorkDecreases | src/ingestion/network/fetcher.rs:79-147 | every step uses up work of its fetch, at most 4·(`max_redirects` + 1) in all, and leaves the others alone |
| FetchNet.FetchStepsBounded | src/ingestion/network/fetcher.rs:79-147 | in any run, of any length, a fetch takes at most 4·(`max_redirects` + 1) steps of its own |
| FetchNet.AloneEnds | src/ingestion/network/fetcher.rs:79-217 | a fetch that is served always ends, with all its requests answered and where those answers lead |
| FetchNet.AloneSendsWhatResolves | src/ingestion/network/fetcher.rs:84-86 | a fetch that is served sends no request to a host that does not resolve, and fails to resolve only such |
| FetchNet.FollowRedirects | src/ingestion/network/fetcher.rs:71-218 | the loop computes the fetch that `AloneEnds` and `AloneSendsWhatResolves` describe, with the same requests; an unreadable or disallowed URL is refused without any; the end behind the loop is unreachable |
| HtmlBlocks.RemoveIgnoredHtmlBlocks | src/ingestion/content.rs:69-87 | the in-place passes terminate and replace every block of every tag by a blank, first block first |
| HtmlBlocks.IgnoredBlocksAreGone | src/ingestion/content.rs:69-87 | no opening of `script`, `style`, `noscript`, `template` or `svg` is left, in any ASCII case |
| HtmlBlocks.LaterTagsMakeNoOpening | src/ingestion/content.rs:69-87 | later passes bring back no opening an earlier one removed |
| HtmlBlocks.RemoveTagsKeepsOrder | src/ingestion/content.rs:69-87 | every character kept comes from a place of the input, in the same order; the rest are the blanks put in |
| HtmlBlocks.FirstBlockIsCut | src/ingestion/content.rs:73-84 | a block runs from its opening to its first closing tag, in any case, and becomes one blank |
| HtmlBlocks.UnclosedBlockIsCutToTheEnd | src/ingestion/content.rs:77-84 | a block that is never closed takes the rest of the text with it |
| HtmlBlocks.CleanTextUntouched | src/ingestion/content.rs:69-87 | a text without openings is unchanged |
| HtmlBlocks.StripMarkup | src/ingestion/content.rs:89-107 | the flag loop keeps exactly what stands outside angle brackets |
| HtmlBlocks.TagsBecomeBlanks | src/ingestion/content.rs:89-107 | a tag, whatever it holds, becomes two blanks, and the text behind it is read afresh |
| HtmlBlocks.TagTextGoes | src/ingestion/content.rs:89-107 | behind an opening bracket nothing is kept up to the next bracket |
| HtmlBlocks.VisibleBehindBracket | src/ingestion/content.rs:89-107 | a closing bracket is a blank wherever it stands |
| HtmlBlocks.PlainTextIsVisible | src/ingestion/content.rs:89-107 | text without angle brackets is all kept |
| Whitespace.CollapseWhitespace | src/ingestion/content.rs:121-136 | the pending-space loop computes the words joined by single blanks |
| Whitespace.CollapseAndTrim | src/ingestion/semantic_views.rs:297-312 | the second copy, which also trims, computes the same |
| Whitespace.NormalIdempotent | src/ingestion/content.rs:121-136 | normalising twice is normalising once, and the words survive |
| Whitespace.NormalEnds | src/ingestion/content.rs:121-136 | a normal form neither begins nor ends with whitespace |
| Whitespace.NormalOfBlank | src/ingestion/content.rs:121-136 | only blank text has an empty normal form |
| Whitespace.NormalOfPrefix | src/ingestion/semantic_views.rs:516-526 | cutting a normalised text short and normalising again loses at most one more character |
| Lists.RunsSplit | src/ingestion/content.rs:121-136 | an element outside the runs separates them: runs of the whole are the runs of both sides |
| Lists.RunsOfRun | src/ingestion/semantic_views.rs:391-408 | a list all of whose elements qualify is a single run |
| Lists.ChunksFlatten | src/ingestion/semantic_views.rs:154-169 | groups put together are the list |
| Lists.ChunksAreFull | src/ingestion/semantic_views.rs:154-169 | every group but the last is full, and none is empty |
| Lists.ChunkAt | src/ingestion/semantic_views.rs:154-169 | group number k holds the elements from n·k on, n of them or what is left |
| Lists.Dedupe | src/ingestion/semantic_views.rs:507-514 | the seen-set loop keeps the first element with each key |
| Lists.FirstsMeaning | src/ingestion/semantic_views.rs:221-224 | kept elements have different keys, every key keeps one, and nothing is invented |
| Lists.FirstsComeFirst | src/ingestion/semantic_views.rs:221-224 | what is kept stands in list order, and each key is kept at its first place |
| JsonText.CollectJsonText | src/ingestion/content.rs:34-67 | returns the keys and strings in document order, and succeeds exactly within 64 levels below the root and the limit of 20000 fragments as the walk applies it; each error tells which limit was hit |
| JsonText.MemberFragments | src/ingestion/content.rs:53-63 | a member's fragments stand in its place: its key, if it has one, and then its value's |
| JsonText.LevelsCountNesting | src/ingestion/content.rs:34-40 | a value is one level deeper than its deepest member |
| JsonText.ExactLimitMayBeRefused | src/ingestion/content.rs:45-50 | an array of 20000 strings fits; with a null behind them it holds no more fragments and is refused |
| ContentText.ExtractText | src/ingestion/content.rs:8-28 | the text by content type, failing only on JSON that is malformed or over the limits; always a fixed point of the whitespace normal form |
| ContentText.RawTextByType | src/ingestion/content.rs:8-28 | JSON types are read as their fragments joined by blanks, HTML types without ignored blocks and markup, `text/plain` as it is, everything else without markup |
| ContentText.BaseTypeIsInFront | src/ingestion/content.rs:30-32 | the base type is what stands before the first `;`, without the blanks around it |
| Hrefs.ExtractHrefValues | src/ingestion/content.rs:228-268 | the cursor loop terminates, stays on character boundaries, and returns the values of the reference scan |
| Hrefs.NextHref | src/ingestion/content.rs:233-265 | one turn strictly advances to a character boundary and adds at most the next value |
| Hrefs.SpansInOrder | src/ingestion/content.rs:228-268 | values are non-empty, belong each to an `href` of their own, and come in document order behind one another |
| Hrefs.EveryProperValueIsFound | src/ingestion/content.rs:228-268 | every value behind `href`, blanks, `=` and blanks, quoted or not, in any ASCII case, is found, unless its `href` is part of a value found before it |
| Hrefs.InOrderMeaning | src/ingestion/content.rs:228-268 | hence they are pairwise disjoint slices that do not contain their own terminator |
| Hrefs.ValueIsBounded | src/ingestion/content.rs:261-263 | every value begins and ends at a character boundary |
| Hrefs.ValuesAreWellFormed | src/ingestion/content.rs:261-263 | every value of well-formed UTF-8 is well-formed UTF-8, so the lossy conversion loses nothing |
| Hrefs.AsciiIsACharacter | src/ingestion/content.rs:229-263 | in well-formed UTF-8 an ASCII byte is a character of its own |
| Hrefs.WellFormedIsEncoded | src/ingestion/content.rs:229-263 | the byte sequences the scan is proved for are exactly the encodings of texts by section 3 of RFC 3629 (one direction; the other is `EncodedIsWellFormed`) |
| Hrefs.EncodedIsWellFormed | src/ingestion/content.rs:229-263 | the encoding of any text is well-formed |
| Sentences.CompleteSentences | src/ingestion/semantic_views.rs:314-335 | the first `limit` pieces with 6 to 110 words and 36 to 900 characters, normalised, without repeats in another ASCII case |
| Sentences.ReadSentences | src/ingestion/semantic_views.rs:317-333 | the buffer loop with its early stop finds the first `limit` good pieces of the whole text |
| Sentences.PiecesEndWithTheirTerminator | src/ingestion/semantic_views.rs:317-332 | a piece holds one terminator, its last character, and at most 1001 characters |
| Sentences.PieceIsRead | src/ingestion/semantic_views.rs:314-335 | a stretch up to `.`, `!` or `?` is one piece with its terminator, and the text behind it is read afresh; of a stretch of more than 1000 characters whole runs of 1001 are dropped |
| Sentences.GoodSnoc | src/ingestion/semantic_views.rs:320-327 | a piece counts, normalised, exactly if it has 6 to 110 words and 36 to 900 characters |
| Keywords.NormalizedTokens | src/ingestion/semantic_views.rs:351-365 | the tokenizer loop yields the lower-cased runs of letters, digits and apostrophes, without leading apostrophes |
| Keywords.TokensSplit | src/ingestion/semantic_views.rs:351-365 | whatever is no letter, digit or apostrophe separates tokens |
| Keywords.OneToken | src/ingestion/semantic_views.rs:351-365 | letters, digits and apostrophes without a separator are one token, lower-cased and without leading apostrophes |
| Keywords.KeywordsOfSnoc | src/ingestion/semantic_views.rs:367-377 | a token counts exactly if it has three characters, is no stopword and not all numeric |
| Keywords.ExtractKeywords | src/ingestion/semantic_views.rs:367-389 | the best ranked keywords, each long enough, no stopword and not all numeric |
| Entities.CountEntities | src/ingestion/semantic_views.rs:391-408 | the phrase buffer counts exactly the groups of five of the maximal runs of entity tokens |
| Entities.FlushEntity | src/ingestion/semantic_views.rs:423-432 | ends the open phrase and counts it if it is long enough and no common sentence lead |
| Entities.PhrasesGrow | src/ingestion/semantic_views.rs:395-404 | one more entity token extends the open group or starts one |
| Entities.EntityTokenIs | src/ingestion/semantic_views.rs:434-453 | an entity token has two characters, not all numeric, begins with a capital, and has no other capital letter or is at most eight letters, all of them capital |
| Entities.TokenIsTrimmed | src/ingestion/semantic_views.rs:396-398 | a word loses what is no letter, digit, hyphen or apostrophe at its ends |
| Entities.PhrasesSplit | src/ingestion/semantic_views.rs:399-406 | a token that is no entity token ends the phrase before it |
| Entities.PhrasesAreCutAtFive | src/ingestion/semantic_views.rs:399-405 | entity tokens in a row are one phrase, but after five of them the next begins |
| Entities.CandidateIs | src/ingestion/semantic_views.rs:423-478 | a phrase counts, its tokens joined by blanks, exactly if it has three characters and is none of the common sentence leads |
| Entities.ExtractEntities | src/ingestion/semantic_views.rs:391-421 | the best ranked candidates, up to the limit |
| Ranking.BestOfMeaning | src/ingestion/semantic_views.rs:408-421 | no duplicates; listed more often comes first, then earlier in text order; nothing left out comes before what was taken |
| Ranking.TextLessByFirstDifference | src/ingestion/semantic_views.rs:378-383 | text order: the first different character decides, and a proper beginning comes first |
| Ranking.BestOfIsUnique | src/ingestion/semantic_views.rs:378-388 | a list has only one such selection |
| Ranking.RankingIsUnique | src/ingestion/semantic_views.rs:378-383 | counts determine their ranking |
| TagTexts.ExtractTagTexts | src/ingestion/semantic_views.rs:226-263 | the texts of the first `limit` elements that have any, each of 1 to 700 characters |
| TagTexts.FindOpen | src/ingestion/semantic_views.rs:233-244 | skipping behind an opening of another tag misses no opening of this one |
| TagTexts.ContentsInOrder | src/ingestion/semantic_views.rs:233-261 | each content runs from its own opening's `>` to the first closing tag behind it; contents come in order and do not overlap |
| TagTexts.FirstElementIsFound | src/ingestion/semantic_views.rs:233-261 | the first complete element behind the cursor is found, if no opening of the tag comes before it, and the scan goes on behind it |
| TagTexts.ScanEnds | src/ingestion/semantic_views.rs:233-254 | the scan ends where there is no opening or the first one is never closed |
| TagTexts.ElementText | src/ingestion/semantic_views.rs:255-260 | an element's text is its content without markup, decoded, normalised and cut at 700 characters; it counts unless it is empty |
| Texts.TruncateChars | src/ingestion/semantic_views.rs:516-526 | short text unchanged; longer text keeps all but the last place for an ellipsis |
| EmbeddingInputs.PushInput | src/ingestion/semantic_views.rs:208-219 | appends the normalised, truncated text unless it is shorter than three characters |
| EmbeddingInputs.PushedAreSound | src/ingestion/semantic_views.rs:208-219 | every pushed input passes validation and ends in a visible character |
| EmbeddingInputs.InputsComeFrom | src/ingestion/semantic_views.rs:174-224 | the numbered inputs are, in view order, the normal forms cut at 700 of the views' texts with three or more characters, the first of those equal in some ASCII case |
| EmbeddingInputs.SetOrdinals | src/ingestion/semantic_views.rs:176-180 | numbers the inputs from zero; fails exactly when there are more than 16 bits can count |
| EmbeddingInputs.ValidateEmbeddingInputs | src/ingestion/revision.rs:54-71 | accepts exactly 1 to 96 valid inputs with ordinals 0, 1, 2, … |
| EmbeddingInputs.AcceptableMeans | src/ingestion/revision.rs:54-71 | one to 96 inputs, numbered from zero, each with a visible character, at most 700 characters and a weight from 0.1 to 2 |
| SemanticViews.BuildSummary | src/ingestion/semantic_views.rs:337-349 | at most 900 characters, from the first three sentences if together they have 80, otherwise from the content |
| SemanticViews.ThreeSentencesAreASummary | src/ingestion/semantic_views.rs:337-349 | three sentences of a document are always long enough: the summary is those three, cut at 900 characters |
| SemanticViews.FewSentencesMayBeASummary | src/ingestion/semantic_views.rs:337-349 | one or two sentences are the summary exactly if they, with the blank between them, have 80 characters; without any it is the content, cut |
| SemanticViews.CollectHeadings | src/ingestion/semantic_views.rs:124-130 | at most twelve texts of each heading tag in tag order, without repeats, 24 in all |
| SemanticViews.HeadingsAre | src/ingestion/semantic_views.rs:124-130 | at most twelve texts of `h1`, then `h2`, then `h3`, the first of those equal in some ASCII case, 24 in all |
| SemanticViews.PushViews | src/ingestion/semantic_views.rs:136-172 | pushes the plan's views, in order, with their weights |
| SemanticViews.ViewsArePlanned | src/ingestion/semantic_views.rs:136-172 | the views stand in the order title, headings, summary, entities by six, keywords by eight, sentences, address, content, each with its weight |
| SemanticViews.PlanIsCovered | src/ingestion/semantic_views.rs:136-191 | every text of that order with three or more characters is shown by exactly one input, from its own place or that of an earlier equal text; every input shows such a text with its kind and weight; inputs stand in that order |
| SemanticViews.ViewsAreFew | src/ingestion/semantic_views.rs:136-172 | the plan never has more than 86 views, all with acceptable weights |
| SemanticViews.PartsAreBounded | src/ingestion/semantic_views.rs:124-135 | the parts of any document stay within 24 headings, 48 sentences, 32 keywords and 32 entities |
| SemanticViews.MarkupPartsAre | src/ingestion/semantic_views.rs:112-130 | title and headings come from the markup: the first text of the `title` element, and the headings; without markup there are none |
| SemanticViews.ContentPartsAre | src/ingestion/semantic_views.rs:132-135 | sentences, summary, keywords and entities come from the content: the first 48 good sentences without repeats, their summary, and the best 32 of each kind of term |
| SemanticViews.ProducerMeetsConsumer | src/ingestion/semantic_views.rs:174-191 | the inputs are acceptable to the consumer, 3 to 700 characters long, pairwise distinct ignoring ASCII case; the cut at 96 drops nothing |
| SemanticViews.DocumentViewIsPushed | src/ingestion/semantic_views.rs:167-172 | normalised content of three or more characters always gives an input |
| SemanticViews.BuildDocument | src/ingestion/semantic_views.rs:174-192 | from the parts to the checked document: fails exactly when no text of the plan has three characters, never for content of three or more; its title, terms and inputs are those of the parts |
| SemanticViews.ExtractWithParts | src/ingestion/semantic_views.rs:103-193 | a document exactly when some view survives: the pushed texts of its title, headings, summary, terms, sentences, address and content, each once, numbered in order |
| SemanticViews.ExtractSemanticDocument | src/ingestion/semantic_views.rs:103-193 | unreadable JSON and blank content are refused; content of three or more characters always gives a document; every document given meets the consumer's contract and covers the parts read from its markup and content, text by text |
| CombinedText.CombinedEmbeddingText | src/ingestion/semantic_views.rs:89-100 | the longest prefix of labelled lines within 24000 characters, trimmed |
| CombinedText.LineIsLabelled | src/ingestion/semantic_views.rs:90-98 | each input is one line: the name of its kind, a colon and its text |
| CombinedText.CombinedTextOfDocument | src/ingestion/semantic_views.rs:89-100 | for every extracted document trimming takes exactly the last line end, and at least the first min(n, 33) inputs are in |
| Revisions.DecideRevisionWithInputs | src/ingestion/revision.rs:18-42 | refuses bad inputs, and then exactly hashes that are not 64 hexadecimal digits; unchanged exactly if the hashes are equal in some ASCII case; otherwise stores the new hash and the link in lower case |
| Revisions.StoredRevisionIsRemembered | src/ingestion/revision.rs:18-33 | once stored, the same hash in any ASCII case is unchanged and any other is stored with a link back |
| Revisions.HistoriesAreChains | src/ingestion/revision.rs:18-33 | over any series of fetches the stored revisions form a chain: each links to the one before it and differs from it |
| Revisions.LatestIsLastFetched | src/ingestion/revision.rs:18-33 | the latest revision is the hash fetched last, in lower case |

## Left out

- PostgreSQL, `sqlx` and migration execution: each transaction is one atomic step with one instant of a nondecreasing clock, although `now()` is a transaction's start; deadlocks and waiting for row locks are not modelled.
- `SKIP LOCKED`: the rows other transactions hold are a set given to each lease; the fairness theorems do not count lease calls that pass the waiting row over for that.
- `created_at`, `updated_at`, the contents of JSON columns, and indexes.
- The text checks of lease owners and start URLs: refused text arrives as an absent option.
- The crawl child process, the ingest HTTP client, DNS, TLS and `reqwest`: a crawl, an ingest call and an HTTP answer are arbitrary outcomes. Of the crawl envelope only the check on `source_id` is spelled out; the others are one truth value.
- `run_worker`'s idle sleep and its signal handling: a worker may stop at any event.
- `Url::parse` and `join`, `canonicalize_url` and `sha256_hex` (the `eal_semantic` crate is not part of this model): URLs arrive parsed, or absent.
- FetchScopes.FetchScope.AllowPathPrefix: how a prefix is made canonical is a parameter, because it ends in the URL parser; so are root host and path when a scope is made for a URL.
- FetchNet.RequestsBounded: the bound is per limiter key; keys are lower-cased hosts, and a trailing dot makes another key.
- `decode_common_entities`: any function from text to text; it is no inverse of escaping, since `&amp;` is replaced before `&lt;`.
- Exact Unicode tables and the stopword list: parameters. Weights are reals, so the finiteness check has no counterpart.
- Ranking.SortByRank: stands for collecting and sorting the counts, by choosing the best that is left.
- SemanticViews.ExtractSemanticDocument: the signal taken from the address, the decoded body and the parsed JSON are parameters.
- JsonText.CollectJsonText: arrays and objects are one kind of node, whose children may have keys.
- `discover_links`, `canonical_identity`, `EmbeddingWorkItem`, the reconcile endpoint, configuration range checks, address classification, previews and error texts: easy members or plumbing.
