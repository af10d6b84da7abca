# serp-harvester: a verified model of the acquisition engine

The harvester fetches search pages and web pages through a pool of proxies and a pool of browser sessions,
crawls sites within limits, and obeys robots.txt. This project models the parts of it that decide what is
fetched, when and through what, and proves what they keep in every run:

- **Browser sessions** (`SessionPool`, `SessionProtocol`, `SessionSafety`, `SessionReuse`, `SessionLaunch`,
  `SessionDrain`, `SessionProgress`, `SessionHealth`, `SessionChoice`, `SessionKey`). The sections that run under
  the fetcher's mutex are methods of a class, each proved equal to a function on its fields. Those functions are the steps of a protocol with any number of
  fetches, failing creations, crashing pages, dying and relaunched browsers, and `Close`; the locked section of
  acquire, which may launch a browser, is entered and left in two steps. A run is a sequence of steps; the main
  lemmas hold in every state that some run reaches.
- **Crawl coordinator** (`Crawl`, `CrawlSafety`, `CrawlCompleteness`, `CrawlIncomplete`, `CrawlAccounts`). Again a class for
  the coordinator's variables and a protocol over them: one coordinator, any number of workers, unbuffered
  channels, cancellation at any time. `visit` is an oracle that gives each URL an outcome and its in-scope links.
- **Proxies and retries** (`Outcomes`, `ProxyHealth`, `ProxyPool`, `PoolRun`, `Acquire`, `WorkerRun`).
  Classification of fetch errors, cooldowns as a function of the history of reports, the pool as a class over
  its proxies with the runs its calls make, the waiting and retry loops as methods during which time passes,
  the context may end, other jobs may report on and take proxies and the pool may be reloaded between any two
  steps, and any number of workers on one queue.
- **robots.txt** (`RobotsPattern`, `RobotsGreedy`, `RobotsRunes`, `RobotsRfc`, `RobotsParse`, `RobotsLines`,
  `RobotsRecords`, `RobotsVerdict`, `RobotsRanking`, `RobotsConformance`, `RobotsFile`). Lines are read by how they
  are written; the regular expressions the code builds are read back with a semantics for their text and for what Go reads from octets, and compared with a search without
  backtracking and with sections 2.2.2 and 2.2.3 of RFC 9309; the one-pass parser is compared with the only way
  to cut a file into groups; and all is put together, from the content of a file, the agent's name and the path
  as it is requested, into the verdict, compared with the RFC's.
- **Data structures** (`Latency`, `Utf8`; `Commons` holds what several modules share). The latency ring with
  its percentile snapshot, and the cut of a UTF-8 string.

Concurrency is interleaving of atomic steps. Times and durations are integers, with int64 wrap-around where the
code can reach it (the doubling of a cooldown and of a retry's backoff); the totals wrap as uint64.

Where the code does something else than it or its standard says, the model follows the code, and the
difference has its exact condition:

- "Until every in-scope URL within MaxDepth and MaxPages has been visited" (internal/crawl/crawler.go:86): with several
  workers a page can be found first over a longer path and keep that depth. `CompleteIffSafeLimits`: every
  unhindered run is complete if and only if there is one worker, or MaxDepth is at most 1, or MaxPages is at most
  MaxDepth + 1.
- A robots.txt pattern that does not decode to UTF-8, as `/caf%E9`, panics in whatever group it stands
  (internal/robots/robots.go:162). `Parse` returns if and only if there is none; `CompiledItems`, `LatinPatternPanics`.
- U+FFFD in a pattern matches an octet of the path that belongs to no character, `/%EF%BF%BD` matches `/%FF`
  (internal/robots/robots.go:138). `PatternReadsAlikeIffNoReplacement`, `StringReadsAlikeIffWellFormed`, `ReplacementDiffers`.
- `%2A` in a robots.txt pattern works as a wildcard, because patterns are decoded before they are split
  (internal/robots/robots.go:154), and a pattern with an invalid escape is not decoded at all, its valid escapes included
  (internal/robots/robots.go:165-170). `AgreesOnEveryStringIffNoEncodedStar`.
- An encoded delimiter in a pattern or path is the delimiter, `/a%2Fb` matches `/a/b` (internal/robots/robots.go:135 and 154),
  where section 2.2.2 of RFC 9309 keeps reserved octets encoded. `PatternAgreesIffNoEscapedDelimiter`,
  `PathAgreesIffNoEscapedDelimiter`, `EncodedSlashDiffers`.
- `*` does not run over a decoded newline (internal/robots/robots.go:158). `AgreesOnEveryPatternIffNoNewline`.
- Rules are ranked by the length of the pattern as written (internal/robots/robots.go:141), where section 2.2.2 of RFC 9309
  takes the match with the most octets: `/%61%62` outranks `/abc`. `SameVerdictsIffRankAlike`, `EscapesOutrank`.
- A user-agent line selects the crawler by any part of its name, "web" for "web-harvester" (internal/robots/robots.go:103),
  where section 2.2.1 of RFC 9309 compares the product token. `SelectsAlikeIffNoPartialName`.
- A Sitemap or unknown record between two User-agent lines splits their group (internal/robots/robots.go:96), against
  section 2.2.4 of RFC 9309. `GroupsAsRfcIffNoRunIsSplit`.
- A carriage return alone does not end a line, and a line of a megabyte ends the file (internal/robots/robots.go:61-63), against
  section 2.2 of RFC 9309. `SameLinesIffPlain`, `ReturnsJoinLines`.
- A vertical tab, form feed or carriage return around a key or value is trimmed like a space (internal/robots/robots.go:72-73),
  where section 2.2 of RFC 9309 has spaces and tabs only. `ReadsAlikeIffNoOddSpace`.
- `/robots.txt` is always allowed only as it is written there (internal/robots/robots.go:132), not as `/robots%2Etxt`.
  `AlwaysPermittedIffRobotsTxt`, `RespelledRobotsTxtDiffers`.
- "Exactly when this call put p into a new cooldown" (internal/proxy/pool.go:347-349): also for a cooldown of no length.
  `AnswersRightIffSound` gives the settings for which it never happens.
- The doubling of the retry backoff overflows at attempt 38, where it panics (internal/worker/pool.go:369-373).
  `NoBackoffPanicsIffAtMost37`; with at most 37 retries `Acquire` never panics.
- A session key joins its fields with a NUL (internal/fetcher/playwright.go:605), so that a field with a NUL in it can make
  requests share a key that need different contexts. `KeyDeterminesSettingsIffClean`.
- "Doubled ... capped at MaxCooldown" (internal/proxy/pool.go:391-392): unless the first doubling that reaches the cap
  overflows. `EscalatesUpToCapIffInReach`.

## Model

| member | source | states |
|---|---|---|
| SessionPool.PlaywrightFetcher.BrowserLocked | internal/fetcher/playwright.go:426-485 | the loop over the idle list, in place, drops exactly the sessions of the dead browser; a closed fetcher never launches, nor one in backoff |
| SessionPool.PlaywrightFetcher.AcquireLocked | internal/fetcher/playwright.go:347-377 | the whole new state and grant of the locked section of acquire: browser, dead sessions out, reuse, else evict if full, else reserve |
| SessionPool.PlaywrightFetcher.Sweep | internal/fetcher/playwright.go:353-366 | the loop over the idle list sorts it into dead, reused and kept in order, and lowers the count by the dead |
| SessionPool.ScanFinds | internal/fetcher/playwright.go:355-365 | a session is found if and only if some idle one has the key and browser and is not dead; what is found fits; what is dropped is dead and what is kept is not |
| SessionPool.ScanLosesNone | internal/fetcher/playwright.go:355-365 | the sessions dropped, kept and found are as many as were idle |
| SessionChoice.ScanTakesOldest | internal/fetcher/playwright.go:353-366 | what is dropped are the dead ones in order; of the others the first that has the key and the browser is found, and the rest are kept in order |
| SessionChoice.PickByAge | internal/fetcher/playwright.go:353-377 | on a connected browser acquire reuses the oldest living session that will do; if none will and those open without the dead have reached PoolSize it gives up the oldest; else it keeps all and reserves one more |
| SessionChoice.EvictsOldestOnlyIfFull | internal/fetcher/playwright.go:371-375 | in every state of the protocol a living idle session is taken out and not handed to the fetch only if no idle one would do, the pool is full without the dead, and it is the oldest |
| SessionPool.PlaywrightFetcher.ReleaseLocked | internal/fetcher/playwright.go:402-411 | the whole new state: a session goes to the end of the idle list exactly if healthy, open, not crashed, under its uses and of the current, connected browser; else the list stays and the count drops |
| SessionPool.PlaywrightFetcher.UnreserveLocked | internal/fetcher/playwright.go:387-389 | a failed creation gives its reservation back and changes nothing else |
| SessionPool.PlaywrightFetcher.CloseLocked | internal/fetcher/playwright.go:548-552 | Close takes every idle session out and off the count |
| SessionSafety.CountsAlways | internal/fetcher/playwright.go:327-416 | in every reachable state the slots taken are those of the fetches under way and of Close, and `open` is the idle sessions plus the fetches that hold or reserve one, within 0..PoolSize |
| SessionSafety.FullPoolHasIdle | internal/fetcher/playwright.go:371-376 | in every reachable state in which a fetch is about to acquire, a full pool has an idle session to evict |
| SessionSafety.AcquireCounts | internal/fetcher/playwright.go:353-377 | acquire adds exactly one to what is held if it grants and respects the cap if its caller left room |
| SessionSafety.AcquirePlaces | internal/fetcher/playwright.go:353-376 | every idle session ends up idle, dropped or with the fetch, exactly once |
| SessionSafety.PlacesAlways | internal/fetcher/playwright.go:348-421 | in every reachable state each session ever created is in exactly one of idle list, one fetch, Close, retired; the gauge is the number not retired |
| SessionSafety.GaugeNeverNegative | internal/fetcher/playwright.go:418-421 | no session leaves the open-sessions gauge twice and the gauge is never negative |
| SessionReuse.UsesAlways | internal/fetcher/playwright.go:400-416 | in every reachable state all idle sessions belong to the current browser and may serve again, `uses` is the number of fetches served, and none has served more than MaxSessionUses |
| SessionReuse.SessionsAreNotShared | internal/fetcher/playwright.go:355-372 | two fetches never work with the same session, and none works with an idle or retired one |
| SessionReuse.ReuseIsSound | internal/fetcher/playwright.go:355-372 | what is reused was idle, has the fetch's key, the connected current browser, no crash seen and a use left; a new session is opened only if no idle one would do |
| SessionHealth.FailedSessionsNeverServe | internal/fetcher/playwright.go:398-413 | in every reachable state no session through which a fetch has failed is idle or with a fetch that works or is to work with it |
| SessionHealth.SessionsServeOneKey | internal/fetcher/playwright.go:355-363 | in every reachable state all fetches that one session was ever given to came with the same key |
| SessionHealth.ReturnedIffFit | internal/fetcher/playwright.go:400-413 | in every state of the protocol a release puts the session last in the idle list if and only if the fetch did not fail, the fetcher is open, the page has not crashed, a use is left and its browser is the current, connected one; otherwise it is counted off and the fetch must close it |
| SessionChoice.SecondFetchReuses | internal/fetcher/playwright.go:355-370 | for every key some run has a second fetch work with the session that the first one opened and gave back |
| SessionChoice.DeadBrowserIsReplaced | internal/fetcher/playwright.go:426-485 | for every key some run has the browser die over an idle session, and the next fetch drop that and launch another browser |
| SessionReuse.BrowserKeepsIdle | internal/fetcher/playwright.go:438-449 | a browser is launched only over an empty idle list |
| SessionLaunch.LockAlways | internal/fetcher/playwright.go:347-378 | in every reachable state the mutex is held exactly by the one fetch inside the locked section of acquire |
| SessionLaunch.MutexGuards | internal/fetcher/playwright.go:403-411 | in every reachable state with a fetch inside the locked section, no step of another fetch, of Close or of the world touches what the mutex guards |
| SessionLaunch.OneBrowserAlways | internal/fetcher/playwright.go:427-430 | in every reachable state at most one browser is connected, the one that sessions are opened in |
| SessionLaunch.TriesIffDue | internal/fetcher/playwright.go:426-441 | in every state of the protocol a fetch attempts a launch if and only if no browser is connected, it saw the fetcher open and the wait was over by then |
| SessionLaunch.BackoffIsKept | internal/fetcher/playwright.go:435-471 | in every run, after the k-th failed launch in a row at time t no launch is begun before t plus the k-th wait |
| SessionLaunch.BackoffDoubles | internal/fetcher/playwright.go:464-471 | the wait after the k-th failure is min(30, 2^(k-1)) seconds for every k, and never falls |
| SessionLaunch.FailuresAreInARow | internal/fetcher/playwright.go:464-476 | in every run the count that the wait grows with is the number of failed launches since the last that worked |
| SessionLaunch.NoLaunchDecidedOnceClosed | internal/fetcher/playwright.go:430-434 | after Close was called at most one more browser is launched, by the fetch that was inside the locked section then, and none if no fetch was |
| SessionLaunch.CloseWaitsForLaunch | internal/fetcher/playwright.go:547-552 | when Close has had the mutex no such launch is under way any more |
| SessionLaunch.NoLaunchOnceEmptied | internal/fetcher/playwright.go:430-434 | from the moment Close has emptied the idle list no continuation launches a browser |
| SessionDrain.EmptyAlways | internal/fetcher/playwright.go:404-407 | once Close has emptied the idle list it stays empty, whatever is released later |
| SessionDrain.OnlySeenOpenBegin | internal/fetcher/playwright.go:337-341 | after Close was called, in any continuation, no more fetches begin to work with a session, new or reused, than had seen the fetcher open by then |
| SessionDrain.DrainedIsEmpty | internal/fetcher/playwright.go:544-565 | when Close holds every slot: no fetch under way, nothing idle or reserved, `open` and gauge 0, every session ever created retired exactly once |
| SessionDrain.DrainedForGood | internal/fetcher/playwright.go:337-346 | and in every continuation no session is created and no browser launched any more |
| SessionDrain.NoFetchIsStuck | internal/fetcher/playwright.go:330-416 | a fetch that has a slot can take its next step, or waits for the mutex, whose holder can take its own |
| SessionDrain.CloseCanDrain | internal/fetcher/playwright.go:557-565 | Close can take the slots it lacks when no fetch has one |
| SessionProgress.FetchWorks | internal/fetcher/playwright.go:327-416 | once the idle list is empty every step of a fetch but taking a slot lowers the number of steps it has left, at most seven and the sessions it must close |
| SessionProgress.DrainIsBounded | internal/fetcher/playwright.go:557-565 | while Close drains, in any continuation, the steps of fetches and Close are at most those left at its start and seven for each fetch that still takes a slot |
| SessionProgress.ReachableDrainCompletes | internal/fetcher/playwright.go:557-565 | in every reachable state in which Close drains, it can be completed by the fetches under way and Close within that bound, and as long as it is not some fetch or Close can go on |
| SessionKey.KeyDeterminesSettingsIffClean | internal/fetcher/playwright.go:602-646 | for one request: no request with its key needs another proxy, User-Agent, locale or device profile, if and only if the separator is in none of its fields |
| SessionKey.SameSettingsSameKey | internal/fetcher/playwright.go:602-606 | requests that need the same context have the same key |
| SessionKey.SomeoneSharesTheKey | internal/fetcher/playwright.go:604-606 | for every request with the separator in a field, another with its key and different settings |
| SessionKey.CountriesShareIffSame | internal/fetcher/playwright.go:608-619 | requests of one language have the same locale if and only if their countries are the same but for case, or there is no language |
| SessionKey.DevicesShareIffSame | internal/fetcher/playwright.go:628-644 | requests have the same device profile if and only if their hints are the same but for case or neither is mobile or tablet |
| Crawl.Coordinator.constructor | internal/crawl/crawler.go:104-121 | the frontier is what enqueueing the start URLs in order gives |
| Crawl.Coordinator.EnqueueOne | internal/crawl/crawler.go:107-118 | a new URL is recorded, counted and queued last unless the budget is used up, which is noted; a seen one changes nothing |
| Crawl.Coordinator.HandOut | internal/crawl/crawler.go:145-151 | the first pending job leaves the queue and one more is in flight |
| Crawl.Coordinator.Receive | internal/crawl/crawler.go:152-158 | one less in flight, and the links are enqueued in order unless the context has ended |
| Crawl.Coordinator.Stop | internal/crawl/crawler.go:159-161 | cancellation empties the queue and nothing else |
| CrawlSafety.InvStep | internal/crawl/crawler.go:104-166 | every step of coordinator and workers keeps the invariant |
| CrawlSafety.SafetyAlways | internal/crawl/crawler.go:104-166 | in every reachable state: no URL handed out twice; seen = handed out + pending until the coordinator stops; the page budget holds; every depth is the length of a real link path, at most MaxDepth |
| CrawlSafety.Accounts | internal/crawl/crawler.go:72-79 | at the end of a run that is not cancelled, Discovered = Fetched + Failed + RobotsDisallow |
| CrawlAccounts.CountersAlways | internal/crawl/crawler.go:170-240 | in every reachable state Fetched, Failed and RobotsDisallow are each the number of visited URLs whose outcome is that one; no job is visited twice, and every job handed out is visited or being visited as long as the context lasts |
| CrawlAccounts.OutcomesAreCounted | internal/crawl/crawler.go:72-79 | when a run is over each of the three is the number of URLs handed out with that outcome, and at most that if it was cancelled |
| CrawlAccounts.ExhaustedIffLeftOut | internal/crawl/crawler.go:107-118 | when a run that was not cancelled is over, BudgetExhausted is set if and only if a start or link that was found was not visited, and then MaxPages URLs were |
| CrawlSafety.NoDeadlock | internal/crawl/crawler.go:123-164 | while the coordinator loops some step can be taken, and when it is done no worker holds a job |
| CrawlSafety.RunsAreBounded | internal/crawl/crawler.go:142-162 | every run, in every interleaving, ends within a number of steps given by the page budget |
| CrawlSafety.MeasureDrops | internal/crawl/crawler.go:142-162 | every step lowers the measure of unseen budget, pending jobs, jobs in flight and flags |
| CrawlCompleteness.OneWorkerSearchesBreadthFirst | internal/crawl/crawler.go:86-166 | with one worker, no cancellation and no exhausted budget: the URLs handed out are exactly those within MaxDepth links, each once, each with its shortest distance |
| CrawlCompleteness.FinishedQueue | internal/crawl/crawler.go:142-166 | at the end of an unhindered run every link of every page above the last level was handed out |
| CrawlCompleteness.CompleteIfNoneTooDeep | internal/crawl/crawler.go:211-213 | with any number of workers an unhindered run is complete if no page nearer than MaxDepth was recorded on the last level |
| CrawlCompleteness.DepthNeedsPages | internal/crawl/crawler.go:107-118 | a page recorded at depth d has at least d pages before it in the queue |
| CrawlCompleteness.ChainIsExact | internal/crawl/crawler.go:107-118 | when the pages form a chain their depths are the shortest distances |
| CrawlCompleteness.SafeLimitsAreComplete | internal/crawl/crawler.go:86-87 | one worker, MaxDepth at most 1 or MaxPages at most MaxDepth + 1 make every unhindered run complete |
| CrawlIncomplete.PageMissed | internal/crawl/crawler.go:123-166 | for all other limits there is a site and a finished, unhindered run that misses a page within MaxDepth |
| CrawlIncomplete.CompleteIffSafeLimits | internal/crawl/crawler.go:86-87 | the documented promise holds for exactly those limits |
| Outcomes.WrappingKeepsTheClass | internal/fetcher/classify.go:129-173 | adding text to an error changes neither its outcome nor its Retry-After |
| Outcomes.TransportOnlyFillsIn | internal/fetcher/classify.go:164-172 | marking an error as a transport error changes its outcome only if it had none |
| Outcomes.UrlFillsInOrHidesTimeout | internal/fetcher/classify.go:160-172 | a url.Error does the same but hides a timeout that its own error does not report |
| Outcomes.FailoverMeansCooling | internal/fetcher/classify.go:112-125 | a job fails over exactly after the outcomes that cool the proxy; these are retryable; only a rate limit has a Retry-After; an outcome that ends the job is never held against the proxy |
| Outcomes.OutcomeByChain | internal/fetcher/classify.go:129-173 | for every nesting of what an error wraps, each outcome if and only if: a rate limit, each block reason, a status of 500 or more, any other status, a cancellation, a timeout, a failure of the transport, or none of these is in it |
| Outcomes.MeaningByChain | internal/worker/pool.go:295-331 | and so for the job and the proxy: final exactly for a status below 500 and a cancellation; failover exactly for a rate limit and every block but consent; these count as rate limit and block, consent and what is final as neutral, all else as a failure; and the Retry-After is that of the rate limit |
| ProxyHealth.EscalatesUpToCapIffInReach | internal/proxy/pool.go:393-407 | the loop gives min(cap, base * 2^k) for every k if and only if the first doubling that reaches the cap is an int64 |
| ProxyHealth.SmallCapInReach | internal/proxy/pool.go:394-401 | a cap of at most 2^62 always is in reach |
| ProxyHealth.DoublingOverflows | internal/proxy/pool.go:398-401 | otherwise some streak gives a negative cooldown |
| ProxyHealth.EscalatesAsDocumentedIffFits | internal/proxy/pool.go:391-407 | in terms of the settings alone: the cooldown after k others is min(base * 2^k, MaxCooldown), or min(base * 2^k, 16 * base) if MaxCooldown is not set, for every k, if and only if no doubling up to that limit overflows |
| ProxyHealth.DefaultCooldowns | cmd/harvester/main.go:77-79 | with the default settings 30, 60, 120, 240, 480 seconds, and 600 from then on |
| ProxyHealth.EscalatingReportCools | internal/proxy/pool.go:352-355 | after any history an escalating report makes the cooldown end that long after it, unless another ends later |
| ProxyHealth.FailsAreRemainder | internal/proxy/pool.go:382-388 | after any history the failure count is the failures in a row modulo the threshold |
| ProxyHealth.FailsBelowThreshold | internal/proxy/pool.go:383-386 | so it stays below the threshold |
| ProxyHealth.TotalsAreCounts | internal/proxy/pool.go:361-371 | the totals are the successes and the failures, blocks and rate limits of the history, as uint64 |
| ProxyHealth.FailuresCoolAgain | internal/proxy/pool.go:352-354 | among any threshold-many failures in a row one brings a cooldown |
| ProxyHealth.StreakIsEscalations | internal/proxy/pool.go:87-88 | the streak is the number of escalating reports since the last success, cooling already or not; a Retry-After does not count |
| ProxyHealth.CoolsUntilLatestEnd | internal/proxy/pool.go:409-421 | after any history the cooldown ends at the latest of the ends of all cooldowns, a Retry-After lasting as long as it says |
| ProxyHealth.CooldownNeverShrinks | internal/proxy/pool.go:413-418 | in a history of reports no later one, not even a success, makes a cooldown end earlier |
| PoolRun.CooldownNeverShrinksInRuns | internal/proxy/pool.go:220-344 | in every run of reports on any proxies, picks of every strategy and reloads, the end of no proxy's cooldown moves to an earlier time |
| ProxyHealth.RetryAfterIsHonoured | internal/proxy/pool.go:375-378 | after a 429 with Retry-After d at t the proxy is cooling at every time before t + d, whatever is reported later |
| PoolRun.RetryAfterIsHonouredInRuns | internal/proxy/pool.go:246-344 | in every run after it, no pick of any strategy that looks at the proxy before t + d returns it |
| PoolRun.RetainedURLKeepsItsProxy | internal/proxy/pool.go:214-244 | a URL that every reload of a run keeps stays with its proxy and so with its history |
| PoolRun.URLIsNotHandedOutEarly | internal/proxy/pool.go:214-344 | with distinct URLs, no proxy at all is handed out for such a URL before the Retry-After reported for it is over |
| PoolRun.Start | internal/proxy/pool.go:192-212 | a new pool shows the first state of such a run |
| PoolRun.ReportStep | internal/proxy/pool.go:357-389 | every report on the class is the report step of such a run |
| PoolRun.NextStep | internal/proxy/pool.go:246-330 | every pick on the class is an allowed pick step of such a run |
| PoolRun.ReloadStep | internal/proxy/pool.go:220-244 | every reload of the class is the reload step of such a run |
| ProxyHealth.TrueIffStartsCooling | internal/proxy/pool.go:347-349 | true exactly when the proxy was available and a cooldown came; and that is its passing to cooling, exactly unless the cooldown has no length |
| ProxyHealth.AnswersRightIffSound | internal/proxy/pool.go:347-349 | the documented answer is right after every history and for every report if and only if the settings are sound: a positive base and a positive cap in reach |
| ProxyHealth.ZeroCooldownAnswersWrong | internal/proxy/pool.go:347-349 | with a cooldown of zero a block is answered with true and the proxy does not cool |
| ProxyHealth.LengthsArePositive | internal/proxy/pool.go:393-407 | with sound settings every cooldown has a length |
| ProxyPool.PickIsFirstFree | internal/proxy/pool.go:261-272 | round robin gives a proxy if and only if it is free and no free one is nearer in cyclic order from the index; it fails if and only if none is free |
| ProxyPool.PickIsNotCooling | internal/proxy/pool.go:261-272 | the proxy taken had no cooldown left when it was looked at; none is taken if and only if all had |
| ProxyPool.RoundRobinIsFair | internal/proxy/pool.go:36-37 | a proxy that stays available is picked in any n calls in a row, whatever the cooldowns of the others |
| ProxyPool.Pool.constructor | internal/proxy/pool.go:192-212 | one clean proxy per URL in order, or one direct connection |
| ProxyPool.Pool.Reload | internal/proxy/pool.go:220-244 | proxies whose URL stays keep their object and so their history; new URLs start clean; the index restarts |
| ProxyPool.Pool.NextRoundRobin | internal/proxy/pool.go:261-272 | the loop computes that pick, each proxy looked at at its own time, and leaves the index behind it |
| ProxyPool.Pool.NextRandom | internal/proxy/pool.go:274-292 | only a proxy that was not cooling when looked at; none exactly if all were cooling |
| ProxyPool.Pool.NextAvailableAt | internal/proxy/pool.go:425-442 | none if and only if a proxy is available, else the earliest end of a cooldown |
| ProxyPool.Pool.Report | internal/proxy/pool.go:357-389 | the proxy's fields become what the function of its state and the report says; after a block, a rate limit without Retry-After and the failure that reaches the threshold the cooldown ends as documented for the streak, or later |
| ProxyPool.Pool.EscalatedCooldown | internal/proxy/pool.go:393-407 | the loop computes the escalated length, the documented one if no doubling overflows, and advances the streak |
| ProxyPool.Pool.Cool | internal/proxy/pool.go:413-421 | the cooldown is never shortened, the failure count restarts, and the result says whether it was not cooling |
| Acquire.Worker.NextInTurn | internal/proxy/pool.go:261-272 | with others reporting meanwhile: what it returns was not cooling when checked; it fails only if no listed proxy was ready or something changed |
| Acquire.Worker.NextAvailableAt | internal/proxy/pool.go:425-442 | with others reporting meanwhile: no listed cooldown ends before the time it gives, and one ends then unless something changed |
| Acquire.Worker.NextProxy | internal/worker/pool.go:268-290 | with others reporting, taking proxies and reloading the pool meanwhile: terminates when they make finitely many reports and reloads; returns a proxy not cooling when checked, or fails with every listed cooldown ending after start + max wait, or the context has ended; the sleeps add up to at most the max wait |
| Acquire.FailoverCools | internal/worker/pool.go:295-331 | the report after a rate limit or block leaves the proxy cooling, for a Retry-After at least that long, and no report shortens a cooldown |
| Acquire.Worker.FetchAndReport | internal/worker/pool.go:224-231 | the outcome is that of the error returned, or a cancellation for an error after the end of the context; it is counted, a cooldown it begins is counted, and the proxy's state becomes what its report says |
| Acquire.Worker.Attempt | internal/worker/pool.go:201-253 | one attempt, with when its proxy was seen free and what it left it with; no fetch only if all proxies cool beyond the max wait |
| Acquire.NoBackoffPanicsIffAtMost37 | internal/worker/pool.go:368-375 | the backoff is defined for all retries if and only if there are at most 37 |
| Acquire.BackoffDoublesToTwoSeconds | internal/worker/pool.go:368-373 | up to there the base is 50 ms * 2^attempt until the fifth retry and two seconds from the sixth on |
| Acquire.Worker.Acquire | internal/worker/pool.go:182-256 | at most MaxRetries + 1 attempts; Attempts, outcome counts, failures and cooldowns equal what was made; every outcome is that of the error returned; all but the last attempt call for another; success exactly if the last response was used; given up only for want of retries, after a client error or for cancellation; no backoff exactly after a failover; no proxy used again before its cooldown ends; a panic only before a retry whose backoff overflows, never with at most 37 retries |
| Acquire.NothingAfterFinal | internal/worker/pool.go:231-238 | in what Acquire made, after a fetch that returned a status below 500 or a cancellation, however wrapped, there is no other attempt and the job is dropped |
| Acquire.GivenUpForWantOfRetries | internal/worker/pool.go:233-255 | a job whose last fetch returned any other error, a status of 500 or more among them, was dropped only with its retries used up or the context ended |
| Acquire.FailoverAvoidsCooling | internal/worker/pool.go:185-189 | after a rate-limited or blocked attempt through p every later attempt uses another proxy or begins at or after the end of p's cooldown, which lies after the report |
| Acquire.Worker.Process | internal/worker/pool.go:136-145 | a job that does not panic is counted once, as success exactly if its response was used |
| Acquire.Worker.RunWorker | internal/worker/pool.go:88-100 | success + dropped = jobs taken by this worker, and jobs are left only if the context ended, unless a job panicked, which none does with at most 37 retries |
| WorkerRun.EveryJobIsCounted | internal/worker/pool.go:75-152 | in every run of any number of workers on one queue and one set of counters: success + dropped + jobs being processed = jobs taken; when all have returned success + dropped = jobs taken, all that were sent unless the context ended |
| WorkerRun.NoWorkerIsStuck | internal/worker/pool.go:88-100 | once the queue is closed or the context has ended every worker that has not returned can go on |
| RobotsPattern.SplitQuoteJoin | internal/robots/robots.go:154-158 | splitting on stars, quoting and joining with dot-star is a character-by-character translation |
| RobotsPattern.CompiledItems | internal/robots/robots.go:151-163 | the text built for a pattern is a valid expression if and only if the pattern decodes to well-formed UTF-8; and then it is start anchor, the pattern's characters and runs, and end anchor if asked for |
| RobotsPattern.CompileCorrect | internal/robots/robots.go:151-163 | for every pattern and string the expression matches if and only if the pattern compiles and the characters read from its decoding match those read from the string, one by one, no run crossing a newline |
| RobotsGreedy.GreedyDecides | internal/robots/robots.go:151-163 | taking each part between stars at the first place where it occurs, without backtracking, decides the same for every pattern that compiles and every string |
| RobotsRunes.RunesAreOctets | internal/robots/robots.go:138-163 | matching by characters is matching by octets for a pattern that compiles, if it has no U+FFFD or the string is well-formed |
| RobotsRunes.PatternReadsAlikeIffNoReplacement | internal/robots/robots.go:138 | the two are the same on every string if and only if the pattern has no U+FFFD |
| RobotsRunes.StringReadsAlikeIffWellFormed | internal/robots/robots.go:138 | the two are the same for every pattern that compiles if and only if the string is well-formed UTF-8 |
| RobotsRfc.LatinPatternPanics | internal/robots/robots.go:33-35 | a family of patterns with an octet of Latin-1 at the end, on which the code panics |
| RobotsRfc.ReplacementDiffers | internal/robots/robots.go:138 | a family of patterns with U+FFFD that the code matches to an octet of no character and the RFC does not |
| RobotsRfc.AgreesOnEveryPatternIffNoNewline | internal/robots/robots.go:158 | code and RFC wildcard agree on a string for every pattern that compiles if and only if it has no newline |
| RobotsRfc.StarStopsAtNewline | internal/robots/robots.go:158 | a pattern that shows the difference on any string with a newline |
| RobotsRfc.UnescapesAsReadIffReadsWell | internal/robots/robots.go:165-170 | a string is decoded octet by octet if and only if its escapes are all valid or it has none |
| RobotsRfc.SameTokensIffNoEncodedStar | internal/robots/robots.go:154 | decoding before reading the stars gives the RFC's reading if and only if no star is encoded |
| RobotsRfc.AgreesOnEveryStringIffNoEncodedStar | internal/robots/robots.go:151-170 | code and RFC match the same octets if and only if the pattern's escapes are all valid, or it has none, and no star is encoded; for every pattern |
| RobotsRfc.PatternAgreesIffNoEscapedDelimiter | internal/robots/robots.go:154 | matching by the values of octets is matching by octets as section 2.2.2 compares them, on all paths without encoded delimiters, if and only if the pattern has none |
| RobotsRfc.PathAgreesIffNoEscapedDelimiter | internal/robots/robots.go:135 | the same for all patterns without encoded delimiters, if and only if the path has none |
| RobotsRfc.EncodedSlashDiffers | internal/robots/robots.go:154 | a family of patterns with an encoded slash that the code matches to the slash and the RFC does not |
| RobotsRfc.CodeDecidesRfcMatching | internal/robots/robots.go:135-163 | from a pattern as written and a path as requested: if the pattern compiles, with valid escapes, none of a delimiter, no encoded star in the pattern, no newline in the path, and no octet of the path that can pass for a U+FFFD of the pattern, the code decides sections 2.2.2 and 2.2.3 |
| RobotsParse.CutIsMaximal | internal/robots/robots.go:75-82 | cutting line by line gives maximal runs of user-agent lines and loses no line |
| RobotsParse.CutIsUnique | internal/robots/robots.go:75-82 | a file can be cut into maximal runs in one way only |
| RobotsParse.Scan | internal/robots/robots.go:56-97 | the mutable one-pass loop leaves the groups of that cut, and the sitemaps, or panics at a rule that does not compile |
| RobotsParse.Collect | internal/robots/robots.go:101-120 | the merge loops give the rules of the selected groups in order and their greatest delay |
| RobotsParse.Parse | internal/robots/robots.go:49-123 | for every content and agent Parse returns if and only if every rule line with a value inside a group, selected or not, compiles; and then equals its declarative specification |
| RobotsParse.KeptRulesAreTheGovernedOnes | internal/robots/robots.go:99-121 | the rules kept are those of the lines that come under a selecting user-agent line, in file order |
| RobotsParse.ParseKeepsTheGovernedRules | internal/robots/robots.go:44-48 | by lines naming the agent if there are any, else by star lines |
| RobotsParse.DelayIsLastGiven | internal/robots/robots.go:87-92 | the delay of a group is that of its last Crawl-delay line with a value |
| RobotsParse.SitemapsInOrder | internal/robots/robots.go:93-94 | the sitemaps are the values of all Sitemap lines, wherever they stand, in file order |
| RobotsRecords.LineSays | internal/robots/robots.go:64-95 | whatever white space is around key and value, whatever the case of the key and whatever comment follows: an Allow, Disallow, User-agent, Crawl-delay and Sitemap line says that, with its value, a user-agent in lower case; any other key says nothing of the five |
| RobotsRecords.NoColonSaysNothing | internal/robots/robots.go:68-71 | a line without a colon before its comment says nothing |
| RobotsRecords.ReadsAlikeIffNoOddSpace | internal/robots/robots.go:72-73 | a line says the same to the code and to section 2.2 of RFC 9309, read by what it is written of, if and only if it is not a known record with other white space than spaces and tabs at an end of key or value |
| RobotsFile.OneGroupDecides | internal/robots/robots.go:44-146 | a file of a user-agent line and a rule, in any layout: a path is forbidden if and only if the rule is a Disallow that matches it, the name is a star or part of the agent's name, and it is not /robots.txt |
| RobotsFile.ParseAndAsk | internal/robots/robots.go:44-146 | and so say Parse and Allowed, one after the other |
| RobotsFile.DisallowForbidsItsMatches | internal/robots/robots.go:44-146 | "User-agent: *" and "Disallow: " with any pattern that compiles forbids exactly the paths other than /robots.txt that the pattern matches |
| RobotsParse.GroupsAsRfcIffNoRunIsSplit | internal/robots/robots.go:93-96 | the code groups a file as the RFC does, ignoring other records, if and only if none splits a run of user-agent lines |
| RobotsParse.OtherRecordSplitsRun | internal/robots/robots.go:93-96 | files on which they differ: a Sitemap, Crawl-delay or unknown record between two user-agent lines |
| RobotsLines.SameLinesIffPlain | internal/robots/robots.go:61-64 | the scanner gives the lines of RFC 9309, empty ones aside, if and only if each carriage return stands before a line feed or at the end and every line fits its buffer |
| RobotsLines.SameEvents | internal/robots/robots.go:61-71 | and then the file says the same to both |
| RobotsRecords.FileSaysTheSame | internal/robots/robots.go:61-73 | and with no such white space the RFC reads the same records from its own lines as the code does from those of the scanner |
| RobotsFile.LongLineEndsFile | internal/robots/robots.go:61-63 | a line of a megabyte ends the file, whatever follows |
| RobotsLines.ReturnsJoinLines | internal/robots/robots.go:61-64 | a family of files of two lines for the RFC and one for the scanner |
| RobotsVerdict.Allowed | internal/robots/robots.go:128-146 | true exactly for /robots.txt or if no rule matches or some matching Allow is at least as long as every matching rule |
| RobotsVerdict.VerdictIgnoresOrder | internal/robots/robots.go:136-145 | only the set of rules matters |
| RobotsVerdict.AllowOnlyPermits | internal/robots/robots.go:125-127 | one more Allow never forbids a path |
| RobotsVerdict.DisallowOnlyForbids | internal/robots/robots.go:125-127 | one more Disallow never permits a path |
| RobotsVerdict.FileVerdict | internal/robots/robots.go:44-146 | parsing, merging and ranking together decide a path as the lines of the file say |
| RobotsConformance.SelectsAlikeIffNoPartialName | internal/robots/robots.go:101-120 | the code selects the user-agent lines that section 2.2.1 selects if and only if none has a proper part of the agent's name |
| RobotsConformance.PartialNameDiffers | internal/robots/robots.go:103 | a file on which they differ for every such part: the code forbids what the RFC permits |
| RobotsConformance.WebNamesWebHarvester | internal/robots/robots.go:44-48 | "web" is such a part of "web-harvester" |
| RobotsConformance.KeepsTheRfcRules | internal/robots/robots.go:49-123 | without such lines and split runs the rules kept are those RFC 9309 gives the agent |
| RobotsConformance.KeptRulesCompile | internal/robots/robots.go:99-121 | if Parse returns all rules kept compile |
| RobotsRanking.CodeRanksByWritten | internal/robots/robots.go:136-145 | the verdict of the code is that of the rule longest as written |
| RobotsRanking.SameVerdictsIffRankAlike | internal/robots/robots.go:141 | two measures of rules give the same verdict whatever matches if and only if they put each Disallow on the same side of each Allow |
| RobotsRanking.NoEscapesRankAlike | internal/robots/robots.go:141 | rules without escapes rank alike by length and by octets |
| RobotsRanking.EscapesOutrank | internal/robots/robots.go:141 | two rules and a path on which the code permits and the RFC forbids |
| RobotsConformance.AlwaysPermittedIffRobotsTxt | internal/robots/robots.go:132-134 | a path is permitted under every file for which Parse returns if and only if it is /robots.txt as written |
| RobotsConformance.RespelledRobotsTxtDiffers | internal/robots/robots.go:132-134 | any other spelling of it the RFC permits under every file and the code forbids under some |
| RobotsConformance.EncodedDotReads | internal/robots/robots.go:132-134 | /robots%2Etxt is such a spelling |
| RobotsConformance.DecidesAsRfc | internal/robots/robots.go:44-163 | from the content of a file, the agent's name and a path the verdict is that of RFC 9309, with its own lines, records, grouping, selection, octets, wildcards and ranking, under conditions seen in the three |
| Latency.LatencyRecorder.constructor | internal/metrics/latency.go:26-31 | an empty ring of at least one place |
| Latency.LatencyRecorder.Record | internal/metrics/latency.go:34-44 | the ring holds the last min(total, capacity) observations, oldest at the write index, after any sequence of records |
| Latency.LatencyRecorder.Stats | internal/metrics/latency.go:55-84 | the recorder is unchanged and the snapshot describes the samples held |
| Latency.RecordKeepsWindow | internal/metrics/latency.go:38-43 | overwriting at the index and stepping it drops the oldest observation and adds the new one |
| Latency.SnapshotIsOrdered | internal/metrics/latency.go:75-83 | Min <= P50 <= P95 <= P99 <= Max, each a held sample, and all samples lie between Min and Max |
| Latency.SnapshotHasPercentiles | internal/metrics/latency.go:65-82 | P50, P95 and P99 of n samples have the ranks k with 100 k <= p n < 100 (k + 1) |
| Latency.SortedRank | internal/metrics/latency.go:65-73 | the sample picked has its rank: so many samples are not greater and the others not smaller |
| Latency.SnapshotIgnoresOrder | internal/metrics/latency.go:55-84 | the snapshot depends on the samples held only, not on how the ring is rotated |
| Utf8.TruncateUTF8 | internal/extract/extract.go:283-291 | a prefix that fits; for well-formed input the longest well-formed one |
| Utf8.WholePrefix | internal/extract/extract.go:287 | a prefix of well-formed UTF-8 is well formed if and only if it ends where a character does |
| Utf8.CutLosesAtMostThree | internal/extract/extract.go:287-289 | the cut gives up at most three bytes |
| Utf8.EncodingComesBack | internal/robots/robots.go:138 | every string of characters is read back from its encoding, which is well formed |
| Utf8.WellFormedIffEncoding | internal/robots/robots.go:162 | a string is well formed if and only if it is the encoding of the characters read from it |

## Left out

- Browser, HTTP, proxies on the wire and cookies are oracles: what they answer is arbitrary in every run.
- The locked section of acquire takes two steps, between which the world, other fetches and Close go on; inside it the
  connections and crashes are read when it ends. The other locked sections are single steps.
- Live browser contexts can briefly exceed the pool size, because release counts a session off before it closes it;
  the cap is proved for `open`, which is what the code promises to cap.
- SessionProtocol leaves out cancellation of a fetch that waits for a slot, and the driver that Close stops at the end;
  a fetch that ends with its context is an unhealthy release.
- In the robots.txt modules a character is a byte; case folding, trimming and letters are ASCII; keys, pages and errors are taken as text, and normalisation of URLs and
  scope are part of the crawl oracle.
- Crawl accounting takes a worker's outcome as one of fetched, failed, disallowed or canceled, and canceled only once the context
  has ended; URLs that do not parse, Flagged and the Crawl-delay gate are not modelled.
- Weighted rotation and the health average: floating point; for both random strategies only that the result was not cooling is modelled.
- The rate limiter: waiting for it either succeeds or ends with the context. The jitter of a retry's backoff is arbitrary within its bounds.
- Acquire.Worker.RunWorker: one worker; that its counts add up with those of others on the same queue is WorkerRun.EveryJobIsCounted,
  where processing a job is one step.
- The wrap-around of times (not durations).
- Section 2.2.2 of RFC 9309 is taken octet by octet: an escape is one octet to a wildcard and to the ranking; raw octets that are
  neither unreserved nor reserved count as encoded; the star and the dollar match in either form, as the examples of its
  section 2.2.3 have it.
- RobotsParse.Parse: the reading of a Crawl-delay number is a parameter.
- robots.Cache, and the policy for an unreachable robots.txt.
- Latency.LatencyRecorder.Stats: the rank floor(p * n / 100) is computed exactly instead of in floating point.
- HTML classification, parsers, extraction, queues, stores, API, scheduler, metrics export and command-line programs.
