# Vigil: what its state machines and exact code guarantee

Vigil is a monitoring server. Workers probe targets, a status controller turns verdicts into a
status, incidents open and close, people are alerted, and every observation is written to a
per-actor hash chain. This project models the parts of it whose correctness is an argument rather
than a matter of taste, and proves what they promise.

| files | component |
|---|---|
| `Incidents`, `IncidentStore`, `IncidentLaws`, `IncidentTransactions` | the tables of one organisation, its transactions as functions and as statements over a stored object, and the invariant each of them keeps |
| `Protocol`, `ProtocolTheorems`, `CrashRepair`, `Abandoned`, `FailureRuns`, `LateClaim`, `Responders`, `DeletionRace` | workers and operators with stale snapshots, crashes and arbitrary interleavings of those transactions |
| `StatusController` | the level-triggered status against its whole history |
| `Canonical`, `CanonicalLaws`, `Chain`, `Ledger`, `Hlc` | canonical JSON, fact hashes, the chain verifier, stamping, hybrid logical clocks |
| `Uptime`, `UptimeLaws` | the uptime sweep and the window query against a pointwise definition |
| `Dispatch`, `Fairness` | leases, chunked claims and follow-up reservations; the tenant-fair ranking |
| `RateLimit`, `RateLimitLaws` | the bounded sliding-window limiter against its history |
| `Text`, `Net`, `NetLaws` | the IP parsers and the address classifier |
| `Target` | masking, restoring and redacting the secret inside a target |
| `Importer`, `ImportEngine`, `ImporterLaws` | the migration engine, its provenance keys and its report |
| `ImportIndex`, `ImportDecided`, `ImportCounts`, `ImportGroups`, `ImportAgain` | what decides a report, its headline count, its group paths, and a second import |

`dafny verify dfyconfig.toml` checks the whole project.

## How the model reads the source

Each database transaction is one atomic step; row locks, the two unique indexes the code relies on
and rollback are taken as Postgres gives them. A transaction that reads first and writes later takes
what it read as an argument, and any other step may come in between. The one transaction that needs
more care, a monitor's deletion, is also taken apart (`DeletionRace`). Where the source updates in
place or loops, the model has a class or a method with the loop, proved equal to a function, and the
theorems are about that function.

Code outside these files appears as parameters: verdicts, fresh ids, clock readings, the answers of
the incident hooks, the digest, the translation of an imported check, and whether the database
refuses a row.

## Where the code does less than it says

Each of these is stated as a lemma, with the condition under which the promise holds and an input for
which it does not.

- A claim has no status predicate, so an incident that opened and closed unannounced can still be
  announced. If a recovery closed it, nobody ever hears that it ended (`AllClearIffNoLateClaim`,
  `LateClaimHappens`). If an operator did, the channels have heard, but the responders the claim
  mails are never mailed an all-clear (`RespondersClearIffNoLatePage`, `LatePageHappens`).
- A deletion takes no lock on the monitor row. An incident opened between its two statements is left
  open with no monitor, and only an operator can close it (`RacedKeepsIff`, `OnlyOperatorsClose`,
  `OrphanHappens`).
- The repair query skips any incident with a `system` line. Docker lines are such lines, and so is
  an operator's acknowledgement, so an interrupted worker's incident that somebody acknowledged is
  never paged for (`CheckRepairs`, `WhatHides`, `NeverPaged`, `ForsakenHappens`).
- `recordCheckOutcome` reads its clock before its transaction, so a failure run may be stored that
  began before the last resume (`AlwaysIffNoStaleWrite`, `StaleWriteHappens`).
- A recorded check clears its monitor's claim whoever holds it. A job that outlives its lease frees
  the monitor under the next job, and a third is handed out (`ExclusiveIffNoForeign`,
  `OverdueCheckBreaks`).
- Samples of one instant that disagree make uptime depend on the order they arrive in
  (`OrderIrrelevantIffDistinct`).
- A refusal under a rate limit of zero writes an entry and never sweeps, so the map can outgrow its
  hard cap (`CapIsKept`).
- Restoring a masked target drops the colon of an empty password (`RestoreUndoesMask`,
  `EmptyPasswordLosesColon`).
- The IPv6 parser also takes a dotted quad just before `::` (`BeyondRfc`, `QuadBeforeElisionIsRead`).
- A zone inside the brackets of a host defeats the unbracketing (`ZoneInBrackets`).
- The engine's index keeps one row per group key, in no stated row order. Where a path leads to two
  groups a preview is not the report of the import that follows it (`DecidedIffUniquePaths`,
  `TornReportsDiffer`, `PreviewMayDiffer`).
- The lines of a report are looked up by source id. A source id that occurs twice makes the count of
  created monitors too small or too large (`CountsRightIffDistinct`, `Undercounts`, `Overcounts`).
- A slash inside a group name shares a deeper path's cache entry (`SharedKeyIff`,
  `ChecksShareGroup`).
- A second import finds every group the first one made, unless a path leads to two groups or two
  paths share a cache entry (`ReimportCreatesNoGroup`, `TwinsAreMadeAgain`, `SlashedIsMadeLater`).

## Model

| member | source | states |
|---|---|---|
| `ProtocolTheorems.NotifiedIffIntent` | src/modules/incidents/service.ts:794-809 | In every world any interleaving reaches, an automatic incident is marked notified exactly when its opened intent is committed; a shadow incident has neither |
| `ProtocolTheorems.OneIncidentPerMonitor` | src/modules/incidents/service.ts:594-689 | Every reachable world has at most one open automatic incident per monitor |
| `ProtocolTheorems.ClosingAnnounces` | src/modules/incidents/service.ts:352-404 | Whatever step closes an announced incident (operator, recovery, deletion) commits its resolved intent in that step, with the responders' mail, under a key that was not there before |
| `ProtocolTheorems.AllClearMeansClosed` | src/modules/incidents/service.ts:866-898 | A resolved intent exists only for an incident that is resolved |
| `ProtocolTheorems.ResolvedIsTerminal` | src/modules/incidents/lifecycle.ts:26-33 | From any reachable world, over any further run with stale readers, a resolved incident's status, resolution time, severity, acknowledgement, revision and all-clear never change |
| `ProtocolTheorems.RevisionCountsMoves` | src/modules/incidents/service.ts:313-338 | Over any run the stored revision grows by exactly the number of steps that change the status |
| `ProtocolTheorems.EqualRevisionsFence` | src/modules/incidents/service.ts:313-338 | If the revision is the same at both ends of a run, the status held one value in every world in between |
| `ProtocolTheorems.AllClearIffNoLateClaim` | src/modules/monitors/outcome.ts:128-162 | Over any run, every announced automatic incident that is closed has a resolved intent, which every channel hears, if and only if no claim came after a close that committed none |
| `Responders.RespondersClearIffNoLatePage` | src/modules/incidents/service.ts:373-387 | Over any run, every closed automatic incident whose opening mailed the responders has a resolved intent that mails them, if and only if no claim mailed them about an incident already closed, whoever closed it |
| `Responders.RespondersStep` | src/modules/incidents/service.ts:794-809 | One step breaks that if and only if it is a claim that mails the responders of an unannounced, already resolved incident, with or without a resolved intent |
| `Responders.LatePageHappens` | src/modules/incidents/service.ts:366-387 | A concrete run (open, resolved by an operator, claim): the channels hear of both ends, the responders are mailed the start only |
| `ProtocolTheorems.OnlyClaimNotifies` | src/modules/incidents/service.ts:794-809 | One action marks an incident notified if and only if it is a claim of that incident |
| `ProtocolTheorems.AllClearStep` | src/modules/incidents/service.ts:794-809 | One step leaves an announced, closed incident without any resolved intent if and only if it claims an unannounced, already resolved incident that has none |
| `LateClaim.LateClaimHappens` | src/modules/monitors/outcome.ts:283-306 | A concrete run (open, recover, claim) ends with an announced, resolved incident and no resolved intent |
| `Protocol.NextKeeps` | src/modules/monitors/outcome.ts:195-389 | Every action keeps the table invariant and the standing of every worker's snapshot, and changes each incident only in the ways listed by Evolves |
| `Protocol.RunKeeps` | src/modules/monitors/outcome.ts:195-389 | Every world reached by any interleaving of workers, operators, ticks and crashes satisfies the invariant |
| `CrashRepair.CheckRepairs` | src/modules/monitors/outcome.ts:238-342 | After a worker stopped after any transaction, one undisturbed down check past its window leaves exactly one open automatic incident, which is notified with its intent or carries a hold or shadow decision exactly when no other system line hides it from the repair query |
| `CrashRepair.WhatHides` | src/modules/incidents/service.ts:257-263 | The system lines that hide an unhandled incident are exactly Docker's and an operator's acknowledgement |
| `CrashRepair.RepairQuerySees` | src/modules/incidents/service.ts:750-771 | The repair query finds a monitor's open incident if and only if nobody handled it and no other system line hides it |
| `Abandoned.NeverPaged` | src/modules/incidents/service.ts:750-771 | An unannounced incident with a system line, no hold to release and no worker at it stays unannounced over every further run |
| `Abandoned.ForsakenHappens` | src/modules/incidents/service.ts:257-263 | A concrete run (open, worker stopped, acknowledged) reaches such an incident, open and hidden from the repair query |
| `FailureRuns.RunStep` | src/modules/monitors/service.ts:1150-1161 | One step stores a failure run older than the last pause or resume if and only if it applies a check whose clock was read before that reset |
| `FailureRuns.AlwaysIffNoStaleWrite` | src/modules/monitors/service.ts:1023-1032 | Over any run, no stored failure run predates a reset if and only if no check was applied with an overtaken clock reading |
| `FailureRuns.FreshClockIsNotStale` | src/modules/monitors/service.ts:1023-1032 | A check whose clock is read in the recording step never stores such a run |
| `FailureRuns.ClockAtWriteSuffices` | src/modules/monitors/service.ts:1023-1032 | In any run whose every clock reading is followed at once by its write, no world on the way stores a failure run older than a reset |
| `FailureRuns.StaleWriteHappens` | src/modules/monitors/service.ts:666-730 | A concrete run with a pause and a resume between the clock reading and the write stores a failure run that began before the resume |
| `IncidentTransactions.OpenKeeps` | src/modules/incidents/service.ts:594-689 | Opening keeps the invariant and refuses exactly on a missing, up or paused row or an open incident of that monitor |
| `IncidentTransactions.ClaimKeeps` | src/modules/incidents/service.ts:794-809 | For every id, a claim marks exactly an unannounced row; it keeps the invariant if and only if the row is one its callers page for, and then commits an intent whose key was new |
| `IncidentTransactions.AcknowledgeKeeps` | src/modules/incidents/service.ts:200-273 | The first acknowledgement wins, a resolved incident is never acknowledged, and the invariant is kept |
| `IncidentTransactions.ChangeStatusKeeps` | src/modules/incidents/service.ts:275-407 | A stale reader's status change commits exactly when the status it validated is still stored; then one row moves, its revision grows by one and one broadcast is committed under a key that was new |
| `IncidentTransactions.ChangeSeverityKeeps` | src/modules/incidents/service.ts:467-533 | A severity change never touches a resolved incident and broadcasts under a key of its own |
| `IncidentTransactions.PostUpdateKeeps` | src/modules/incidents/service.ts:409-465 | A public update always broadcasts under a key of its own and an internal note never does |
| `IncidentTransactions.ResolveKeeps` | src/modules/incidents/service.ts:812-903 | Auto-resolve closes what is open for the monitor, with an all-clear exactly where somebody was alerted |
| `IncidentTransactions.DeleteKeeps` | src/modules/monitors/service.ts:740-832 | Taken as one step, deleting a monitor closes its incident, owes the all-clear where somebody was alerted, and leaves nothing open behind |
| `DeletionRace.RacedKeepsIff` | src/modules/monitors/service.ts:740-832 | Whatever commits between its two statements when nothing was open at the first, a deletion keeps the tables' rules and orphans nothing if and only if nothing is open for the monitor at the second |
| `DeletionRace.DeleteRowOrphans` | src/modules/monitors/service.ts:817-817 | The delete orphans exactly the incidents open for the monitor when it runs |
| `DeletionRace.UnracedKeeps` | src/modules/monitors/service.ts:740-832 | If no worker opens an incident for the monitor in between, the deletion is as good as one step |
| `DeletionRace.OnlyOperatorsClose` | src/modules/monitors/service.ts:753-762 | Over any further run an orphaned incident stays open unless an operator changes its status |
| `DeletionRace.OrphanHappens` | src/modules/incidents/service.ts:594-689 | A concrete run: the deletion finds nothing open, the worker opens, the row goes |
| `IncidentTransactions.EndShadowKeeps` | src/modules/importers/bridge/service.ts:1117-1207 | Ending a shadow fleet resolves exactly its open shadow incidents, commits no intent, takes the fleet out of shadow and keeps the invariant |
| `IncidentTransactions.ShadowCloseKeeps` | src/modules/importers/bridge/service.ts:1140-1172 | The closing half alone: exactly the open shadow incidents of the fleet are resolved, and no other row, monitor or intent changes |
| `IncidentTransactions.PauseKeeps` | src/modules/monitors/service.ts:666-730 | Pausing and resuming alike leave the row without a failure run and with an unknown status, change nothing else, and keep the invariant |
| `IncidentTransactions.RecordKeeps` | src/modules/monitors/service.ts:1077-1200 | A rejected check write changes nothing; an applied one advances the stored run as if read and write were one, and stores down only inside a run |
| `IncidentTransactions.StaleStatusShows` | src/modules/monitors/service.ts:1033-1045 | The stored status differs from the one a fresh read would give exactly when the check failed inside its window and the two reads of the status differ |
| `IncidentStore.Store.OpenMonitorIncident` | src/modules/incidents/service.ts:594-689 | Opens exactly when the row exists, is neither up nor paused and has nothing open, keeps the table invariant, and leaves an incident the repair query can find |
| `IncidentStore.Store.ClaimIncidentNotification` | src/modules/incidents/service.ts:794-809 | Says yes exactly to the first claim of a row and then commits its intent under a key that was new; the invariant survives if and only if the row is one to page for |
| `IncidentStore.Store.AcknowledgeIncident` | src/modules/incidents/service.ts:200-273 | Whatever stale row the reader saw, only an active unacknowledged row changes, it is acknowledged by this user, nothing is announced, and an acceptance of an unacknowledged row means it is acknowledged by somebody |
| `IncidentStore.Store.ChangeIncidentStatus` | src/modules/incidents/service.ts:275-407 | Accepted exactly when the validated status is still stored and may move; then it moves, its revision grows by one, and a resolution commits its broadcast under a new key; the invariant is kept |
| `IncidentStore.Store.ChangeIncidentSeverity` | src/modules/incidents/service.ts:467-533 | An accepted change touches the severity of one active row and commits one broadcast under a key that was new; the invariant is kept |
| `IncidentStore.Store.PostIncidentUpdate` | src/modules/incidents/service.ts:409-465 | Accepted exactly on an active row; never changes a row, never broadcasts an internal note, always broadcasts a public one under a key that was new; the invariant is kept |
| `IncidentStore.Store.ResolveMonitorIncidents` | src/modules/incidents/service.ts:812-903 | The loop over open rows closes all of them as one simultaneous step, lists each of them once, leaves none open and keeps the invariant |
| `IncidentStore.Store.DeleteMonitor` | src/modules/monitors/service.ts:740-832 | The bulk close, the loop of lines and all-clears and the delete, with nothing in between, are the deletion transaction; each closed incident is returned once, the row is gone and the invariant kept |
| `IncidentStore.Store.RecordCheckOutcome` | src/modules/monitors/service.ts:1017-1200 | All or nothing: with nothing concluded no row changed, and a conclusion means an unpaused row whose stored status it is and whose failure run advanced from the stored one; no incident, line or intent moves |
| `IncidentStore.Store.SetMonitorPaused` | src/modules/monitors/service.ts:666-730 | Whichever way it is switched, the row is left without status and failure run, nothing else moves, and the invariant is kept |
| `StatusController.StatusIsHistory` | src/modules/monitors/status-controller.ts:55-150 | The incremental status equals its history: decided by the part of the history after the last up or degraded alone |
| `StatusController.FailureRunIsHistory` | src/modules/monitors/status-controller.ts:100-108 | The stored run start is the time of the earliest down since the last up or degraded, and null when there is none |
| `StatusController.DownIffWindowElapsed` | src/modules/monitors/status-controller.ts:55-91 | From a clean slate with non-decreasing time the row is down exactly when the last verdict is down and the run's first down is a window old |
| `StatusController.ElapsedIsHistory` | src/modules/monitors/status-controller.ts:55-91 | The window test on the stored column is the window test on the history |
| `StatusController.RunStartIsUnique` | src/modules/monitors/status-controller.ts:100-108 | A history has only one run start, so the description determines the status |
| `StatusController.ColumnsDescribeTheRun` | src/modules/monitors/status-controller.ts:100-108 | Every history has a run start, and the stored columns are what it and the status description say |
| `CanonicalLaws.CanonicalIffSameMeaning` | src/modules/ledger/chain.ts:43-54 | Two JSON values print the same canonical text if and only if they mean the same: key order, undefined entries and what prints as null are all that is forgotten |
| `Chain.HashIdentifiesFact` | src/modules/ledger/chain.ts:56-71 | Under a collision-free digest two facts have the same hash if and only if every field is equal and their claims mean the same |
| `Chain.VerifyChain` | src/modules/ledger/chain.ts:82-108 | The loop accepts exactly the chains all of whose links hold and otherwise reports the first bad link and its reason |
| `Chain.AcceptsExactlySlices` | src/modules/ledger/chain.ts:82-108 | Facts of an accepted chain, reordered, dropped or repeated at will, are accepted exactly when they are a contiguous slice; otherwise the index reported is the first one out of step |
| `Chain.RemovalDetected` | src/modules/ledger/chain.ts:82-108 | Removing an interior fact is always reported, at the fact that followed it |
| `Chain.EditAcceptedIff` | src/modules/ledger/chain.ts:82-108 | Rewriting a fact or its stored hash goes unnoticed if and only if nothing was rewritten or it is the last fact, rehashed to fit its predecessor; otherwise the verifier stops at that fact or the next one |
| `Chain.LedgerEditAcceptedIff` | src/modules/ledger/chain.ts:56-71 | The same equivalence for the ledger's own hash under a collision-free digest |
| `Ledger.Writer.StampFact` | src/modules/ledger/service.ts:102-146 | The stamped fact is numbered one up, linked to its actor's head and later than it; its chain still verifies with it, no other chain changes, and an unknown actor writes nothing |
| `Ledger.EveryChainVerifies` | src/modules/ledger/service.ts:102-146 | Whatever the interleaving of stamps by any number of actors on any clocks, every actor's chain and every slice of it verifies |
| `Ledger.SequencesAreDense` | src/modules/ledger/service.ts:102-146 | The k-th fact of an actor carries sequence number k + 1 |
| `Hlc.PackingIsBijective` | src/modules/ledger/hlc.ts:22-32 | Encoding and decoding are inverse between the readings that encode and the non-negative integers |
| `Hlc.NextIsMax` | src/modules/ledger/hlc.ts:46-58 | The next clock value is the larger of previous + 1 and now times 65536, for every input, with the range error exactly on a negative result |
| `Hlc.DriftIsBounded` | src/modules/ledger/hlc.ts:46-58 | After n stamps the clock has advanced at least n ticks and runs at most n ticks ahead of the largest wall reading |
| `Uptime.UptimeFromSamples` | src/modules/monitors/uptime.ts:150-194 | The sort-and-sweep loop returns the count of covered and of up milliseconds of the pointwise definition, for every input |
| `Uptime.SweepIsExact` | src/modules/monitors/uptime.ts:162-186 | The sum of clipped durations over sorted samples equals the number of milliseconds whose latest sample is unexpired (and ok) |
| `UptimeLaws.WindowsAddUp` | src/modules/monitors/uptime.ts:150-194 | Covered and up time of a window split at any point are the sums of the two parts |
| `UptimeLaws.UpIsCovered` | src/modules/monitors/uptime.ts:187-193 | Up time never exceeds covered time, which never exceeds the window |
| `UptimeLaws.CountIgnoresOrder` | src/modules/monitors/uptime.ts:150-194 | With distinct timestamps the result depends neither on input order nor on repeats |
| `UptimeLaws.OrderIrrelevantIffDistinct` | src/modules/monitors/uptime.ts:150-194 | Every reordering of a history gives the same numbers in every window if and only if no two samples of one instant disagree |
| `UptimeLaws.QueryIsExact` | src/modules/monitors/uptime.ts:276-323 | With one row per instant the query's scan bound, lead, clipping and dropped segments sum to the sample loop's numbers, for every history and every window, empty ones included |
| `UptimeLaws.OneMethodology` | src/modules/monitors/uptime.ts:101-110 | The query, with its horizon in seconds, and the sample loop, with its own in milliseconds, give the same numbers |
| `Dispatch.AtMostOneLiveRight` | src/modules/monitors/service.ts:1466-1538 | In any interleaving of claims, reservations, recorded checks and edits, with stale clock readings, in which no check is recorded under somebody else's live right, a monitor has at most one dispatch right neither expired nor spent, and a row is free exactly when it has none |
| `Dispatch.ExclusiveIffNoForeign` | src/modules/monitors/service.ts:1466-1538 | Over any run, exclusion holds in every state and survives any one further step if and only if no check is recorded under somebody else's live right |
| `Dispatch.TimelyIsNotForeign` | src/modules/monitors/service.ts:1077-1200 | A check recorded while its own right is live is never such a check |
| `Dispatch.ReclaimedReached` | src/modules/monitors/service.ts:1466-1500 | A concrete run reaches that state: claimed, lease elapsed, claimed again |
| `Dispatch.OverdueCheckBreaks` | src/modules/monitors/service.ts:1077-1200 | A job whose lease ran out records its check while a second job holds the monitor: the claim is cleared, and a third job is handed out beside the second |
| `Dispatch.DroppedJobReturns` | src/modules/monitors/service.ts:1235-1256 | Nothing having touched a claimed monitor since, it is due again exactly when its lease has ended |
| `Dispatch.Monitors.ClaimMonitorsForDispatch` | src/modules/monitors/service.ts:1466-1500 | The chunk loop leaves the rows that claiming chunk by chunk leaves and returns each requested id at most once, whatever others write between chunks |
| `Dispatch.Monitors.ClaimStatement` | src/modules/monitors/service.ts:1484-1499 | Returns, each once, exactly the requested rows that were due and not locked elsewhere; each of them is off the due list exactly until its lease ends, and no other row is touched |
| `Dispatch.Monitors.ReserveMonitorForFollowUp` | src/modules/monitors/service.ts:1521-1538 | Taken exactly when the monitor is running and free, and then free again exactly from the end of the lease; a refusal changes nothing |
| `Dispatch.ChunksRefineOneClaim` | src/modules/monitors/service.ts:1464-1483 | With nobody else writing and one clock, the chunks together take exactly what one statement over all ids would |
| `Dispatch.ClaimSplits` | src/modules/monitors/service.ts:1484-1499 | Two successive claims take what one claim of both lists takes, and with a positive lease never the same monitor |
| `Fairness.TenantFairness` | src/modules/monitors/service.ts:1346-1369 | For any tenants a and b the batch gives a at least the smaller of a's due monitors and b's share less one |
| `Fairness.SharesArePrefixes` | src/modules/monitors/service.ts:1346-1369 | The batch has min(limit, due) monitors, all due, and each tenant's share is a prefix of its own most-overdue-first queue |
| `Fairness.AheadIsSelected` | src/modules/monitors/service.ts:1346-1369 | Whoever ranks ahead of a selected monitor is selected |
| `Fairness.RankedKeepsQueues` | src/modules/monitors/service.ts:1346-1369 | The ranked order restricted to one tenant is that tenant's own queue |
| `RateLimit.Limiter.CheckRateLimit` | src/lib/rate-limit.ts:61-79 | For every limit, zero included, one call filters, records and perhaps sweeps as specified, whatever order expiry ties come in |
| `RateLimit.Limiter.Sweep` | src/lib/rate-limit.ts:43-59 | A sweep keeps the unexpired entries, or the target number of them that expire last when more than the cap are unexpired |
| `RateLimitLaws.SweepingIsInvisible` | src/lib/rate-limit.ts:43-79 | Call by call over any run on a clock that never runs back, the answer is that of a limiter that keeps every attempt and forgets a key only on eviction |
| `RateLimitLaws.CapIsKept` | src/lib/rate-limit.ts:61-79 | A call keeps the map within its hard cap if and only if it is not the refusal of a new key under a limit of zero on a full map |
| `RateLimitLaws.RunIsCapped` | src/lib/rate-limit.ts:61-79 | Under positive limits the map is within its hard cap after every call of every run |
| `RateLimitLaws.AdmittedPerWindow` | src/lib/rate-limit.ts:61-79 | In any run and any window, a key is admitted at most limit times (1 + its evictions in that window) times |
| `RateLimitLaws.EvictionNeedsFlood` | src/lib/rate-limit.ts:50-58 | In any run under positive limits, when a key is evicted more than the hard cap of keys have an attempt inside their window at that call, and the map is left at the target size |
| `Net.ParseIPv4` | src/modules/monitors/net.ts:169-181 | The loop computes the specification function on every text |
| `Net.ExpandGroups` | src/modules/monitors/net.ts:244-265 | The loop computes the specification function on every text |
| `NetLaws.IPv4IsCanonical` | src/modules/monitors/net.ts:169-181 | A text reads as an IPv4 address if and only if it is that address's one canonical dotted quad |
| `NetLaws.IPv6ReadsSpellings` | src/modules/monitors/net.ts:222-265 | A text reads as eight hextets if and only if it is a spelling of them (full, one elision, dotted-quad endings); all eight are below 65536 |
| `NetLaws.SpellingIsUnique` | src/modules/monitors/net.ts:222-265 | A text is spelt in one way only |
| `NetLaws.BeyondRfc` | src/modules/monitors/net.ts:244-258 | Of the texts read, those no section 2.2 form of RFC 4291 spells are exactly the ones with a dot before their elision |
| `NetLaws.QuadBeforeElisionIsRead` | src/modules/monitors/net.ts:244-258 | 1.2.3.4::5 is one of them |
| `NetLaws.CarriedClass` | src/modules/monitors/net.ts:267-315 | A mapped, translated, NAT64, 6to4 or compatible address has its IPv4's class if and only if it is not ::1 |
| `NetLaws.PrivateBlocks` | src/modules/monitors/net.ts:190-210 | An IPv4 address is private exactly when it lies in one of the RFC 1918 blocks or the shared address space |
| `NetLaws.LocalBlocks` | src/modules/monitors/net.ts:190-210 | Loopback, link-local, metadata and unspecified are exactly their blocks and addresses |
| `NetLaws.ReservedBlocks` | src/modules/monitors/net.ts:183-210 | Reserved is exactly the remaining special-purpose blocks, multicast and everything above |
| `NetLaws.IPv6Blocks` | src/modules/monitors/net.ts:267-295 | The class of an address that carries no IPv4 is decided by the ranges the masks stand for |
| `NetLaws.DressedClass` | src/modules/monitors/net.ts:88-95 | For every host spelling of such an address, parsing gives the class of the plain IPv4 host, save for ::1 |
| `NetLaws.HostForms` | src/modules/monitors/net.ts:151-158 | Letter case, brackets and a zone after the brackets do not change the normalised host |
| `NetLaws.ZoneInBrackets` | src/modules/monitors/net.ts:151-158 | With the zone inside the brackets the closing bracket is cut off with it and no address is read |
| `Target.RestoreUndoesMask` | src/modules/monitors/spec.ts:173-217 | Restoring a masked target from itself gives it back if and only if it does not have a colon with an empty password |
| `Target.EmptyPasswordLosesColon` | src/modules/monitors/spec.ts:173-217 | s://u:@h comes back without its colon |
| `Target.EditKeepsPassword` | src/modules/monitors/spec.ts:198-217 | Whatever else an edit changes, a mask left in place ends as the stored password in the submitted target |
| `Target.MaskNeverLeaves` | src/modules/monitors/spec.ts:194-217 | The mask survives a restore if and only if it was submitted and is itself the stored password |
| `Target.RedactionHides` | src/modules/monitors/spec.ts:86-112 | A redacted target carries no password, and redacting again changes nothing |
| `Target.RedactionIgnoresMask` | src/modules/monitors/spec.ts:86-90 | Masking before redacting makes no difference |
| `Target.OnlyTheUserShows` | src/modules/monitors/spec.ts:173-182 | Two targets that differ only in the password mask and redact to the same text |
| `Target.SplitComposed` | src/modules/monitors/spec.ts:134-156 | Parts put together split at the same places |
| `Target.SplitTakesApart` | src/modules/monitors/spec.ts:134-156 | A target that splits with a userinfo is its parts put together, with the credential in the authority |
| `ImportEngine.Migration.ResolvePath` | src/modules/importers/engine.ts:232-297 | The loop with its undo of cached ids and lines equals resolving the whole path or rolling all of it back |
| `ImportEngine.Migration.ImportSnapshot` | src/modules/importers/engine.ts:307-376 | A dry run leaves the table as it was; unless two rows share a group key, the report is the report of every import of this snapshot into this table, dry or not; the totals count the lines |
| `ImportIndex.ReportIsDecided` | src/modules/importers/engine.ts:315-345 | On a table where no two rows share a group key, every import of a snapshot makes the same report and the same table, in whatever order the rows were read |
| `ImportDecided.DecidedIffUniquePaths` | src/modules/importers/engine.ts:307-376 | For one engine and one table, every import from whatever source makes one report and one table, in whatever order the rows are read, if and only if every path leads to one group at most |
| `ImportIndex.IndexDecidedIff` | src/modules/importers/engine.ts:387-409 | Every reading of the table agrees on its keys and on every group looked up if and only if no two rows share a group key |
| `ImportIndex.TornReportsDiffer` | src/modules/importers/engine.ts:387-409 | On any table where two top-level groups share a key and only one has a subgroup that a check the rules refuse asks for, two readings give different reports |
| `ImportIndex.PreviewMayDiffer` | src/modules/importers/engine.ts:307-376 | Groups A and a, x inside A, and the path A / x: one import finds x and another creates it |
| `Importer.TotalsOf` | src/modules/importers/report.ts:148-161 | The totals are the counts of the lines by outcome and of the lines that carry a monitor id |
| `Importer.LoadExisting` | src/modules/importers/engine.ts:387-409 | Every key of every row is indexed and names a row that answers to it |
| `Importer.LoadImported` | src/modules/importers/provenance.ts:132-165 | Exactly the digests recorded for this provider are indexed |
| `ImporterLaws.ResolveKeeps` | src/modules/importers/engine.ts:232-297 | Resolved or rolled back, the parent given is a live row and every cached group id names a live row |
| `ImporterLaws.CheckKeeps` | src/modules/importers/engine.ts:426-592 | One check leaves only live ids in every cache, loses no row, adds one row under its own line exactly when that line carries an id, and that row records the check's origin |
| `ImporterLaws.CreatedMatchesTable` | src/modules/importers/report.ts:148-161 | With distinct source ids monitorsCreated is exactly the number of rows added, however many group savepoints rolled back |
| `ImportCounts.CountsRightIffDistinct` | src/modules/importers/engine.ts:333-356 | For one engine, as it folds, clips and digests, monitorsCreated is right whatever these checks translate to, whatever the store refuses and into any table, if and only if no source id comes twice |
| `ImportCounts.RepeatedIdMiscounts` | src/modules/importers/engine.ts:333-356 | Two checks with one source id store at most one row, and the report counts two if that is the second and none otherwise |
| `ImportCounts.Undercounts` | src/modules/importers/engine.ts:333-356 | Two copies of one check create a monitor and count none |
| `ImportCounts.Overcounts` | src/modules/importers/engine.ts:333-356 | An unmapped check and a stored one under one id create one monitor and count two |
| `ImporterLaws.ReimportCreatesNothing` | src/modules/importers/engine.ts:426-592 | Importing the same snapshot again, whatever rows were added since, creates a monitor only for a check the store refused before |
| `ImporterLaws.RenamedIsStillSkipped` | src/modules/importers/provenance.ts:185-195 | A check whose monitor was created or already recorded is skipped by later imports, however its monitor was renamed or edited |
| `ImportGroups.SharedKeyIff` | src/modules/importers/engine.ts:240-241 | Two group paths share a cache entry if and only if they are equal once every segment is split at its slashes |
| `ImportGroups.ChecksShareGroup` | src/modules/importers/engine.ts:232-297 | Two placed checks of one import whose paths share an entry are put in the same group, whatever came between them |
| `ImportGroups.PlainKeysDistinct` | src/modules/importers/engine.ts:240-241 | A snapshot whose group names have no slash has a cache entry per path |
| `ImportGroups.TwinFreeIsUnique` | src/modules/importers/engine.ts:176-186 | Where no two rows share a group key, every path leads to one group at most |
| `ImportGroups.NoGroupIffAllStand` | src/modules/importers/engine.ts:184-204 | Where each path of the snapshot leads to one group at most and has a cache entry of its own, an import creates no group if and only if every path it asks for is there already |
| `ImportAgain.ReimportCreatesNoGroup` | src/modules/importers/engine.ts:184-204 | Importing a snapshot again, whatever rows were added since and whatever the store refuses now, creates no group, as long as each of its paths leads to one group at most |
| `ImportAgain.TwinsAreMadeAgain` | src/modules/importers/engine.ts:242-261 | Two spellings of one group name in a snapshot make two groups, and importing it again creates a subgroup a second time |
| `ImportAgain.SlashedIsMadeLater` | src/modules/importers/engine.ts:240-241 | With the paths a / b and a/b in a snapshot, importing it again creates the group the first import folded into the other |

## Left out

- Sockets, DNS, TLS, HTTP, probes, the outbox and its delivery: foreign calls. A verdict is any value, and an intent is a row under a unique cause key.
- Organisations: the incident and dispatch models hold the rows of one installation or one organisation, so tenancy checks do not appear.
- Group monitors' derived state (`refreshGroups`): to the incident protocol a group's evaluation is one more check with some verdict; the depth-bounded walk itself is not modelled.
- `updateMonitor`, which edits the failure window and other settings, is not an action of the protocol; a monitor's window is fixed.
- Evidence capture, AI drafting, audit rows, postmortems, titles and message texts: none of them is read by a modelled step.
- The hooks of `applyOutcome`: their answer (held or not) is an arbitrary input, and a released hold is an action of its own.
- Lone surrogates, `toJSON`, functions and dates in `canonicalize`: a value is a JSON value or undefined.
- SHA-256 is an arbitrary function, collision-free only where a lemma says so.
- Uptime percentages are hundredths by integer division; IEEE rounding inside `round2` is not modelled.
- `ensureActor` and its cache: an actor row exists or it does not.
- `deferHighFrequencyOwned` and the backlog readings: one conditional update and two counts.
- RateLimitLaws.SweepingIsInvisible: is stated for one policy per key, which is how the callers use it; a key called under changing policies is not modelled.
- Net: characters outside ASCII are left as they are by the lower-casing; none of them could become part of an address.
- The host allow and deny decisions built on the classifier are one-line predicates.
- Status pages, tags and extras of an import: they carry no monitor id, so they enter the report as lines given from outside. Re-import does duplicate status pages, because they get a suffixed slug.
- Report detail texts and the check that they are not empty: each line carries the reason as a value instead.
- ImportAgain.ReimportCreatesNoGroup: asks that each path of the snapshot leads to one group at most in the second table, that no two of them share a cache entry and that the store refused no path the first time; dropping either of the first two can fail, as the two lemmas beside it show, and NoGroupIffAllStand is the exact condition on the second table.
- ImportDecided.DecidedIffUniquePaths: takes from the database that no row answers to a key below an id it does not have, as its foreign key and generated ids ensure.
- DeletionRace.RacedKeepsIff: a deletion that does close an incident is taken as one step, because the unique index holds up every other open of that monitor until it has committed.
- Rows are read in any order by an import, since its query states none; the database's actual order is not modelled.
- The push-token check of an import, which edits a setting no key depends on.
