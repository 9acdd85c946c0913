# A model of the SOC investigation platform

This project models the stateful protocols and the algorithms at the core of an assistive
security-operations platform, and proves what they keep over every input, every run and every
reachable state. `dafny verify dfyconfig.toml` checks all of it.

| files | what they model |
|---|---|
| `Alerts.dfy`, `Dispatching.dfy`, `DeadLetters.dfy`, `AlertService.dfy` | dispatching an approved alert over failover tiers, bounded retries, deduplication, dead letters |
| `Resilience.dfy`, `Channel.dfy`, `TtlCache.dfy` | token bucket, circuit breaker, their composition in a notification channel, and the LRU/TTL cache |
| `Sessions.dfy` | rotating refresh tokens with reuse detection (the scheme of section 4.14.2 of RFC 9700) |
| `Reducers.dfy`, `Investigation.dfy` | the graph-state reducers, and the investigation graph with its human gate and redirect loop |
| `Chunking.dfy`, `TextShape.dfy`, `Packing.dfy`, `Chunker.dfy` | boundary-aware chunking of documents, on real strings |
| `SessionMemory.dfy`, `WorkingMemory.dfy` | two-tier session memory and the bounded per-turn scratchpad |
| `Detection.dfy`, `Correlation.dfy`, `MaximalRuns.dfy` | authentication detectors, time-window correlation, and the partition into maximal runs that they and failover share |
| `Versions.dfy`, `Applicability.dfy` | version order, three-valued vulnerable ranges, applicability verdicts |
| `KnowledgeIndex.dfy` | the append-only, versioned knowledge index |
| `Common.dfy`, `Ordering.dfy` | wrappers and sorted key lists |

Code that updates fields or local variables step by step is a class or a method with loops here.
Each such method is proved equal to a small specification function (`Dispatch`, `Acquire`, `Rotate`,
`Store`, ...) or against a declarative predicate, and the properties over whole runs are lemmas
about those functions. Foreign code becomes a parameter: clocks, random names, the heading pattern,
product matching, token estimates, and the adapters. Adapters are adversarial: `world(n)` is what the
n-th send ever made answers, and the results hold for every `world`.

## Where the code and its documentation differ

The model follows the code. The differences are results of their own.

- Re-running a dispatch is documented as a no-op (`services/notifications.py:18-22`, `:73-79`). A
  deduplicated tier does not count as having reached anybody, so the next tier is tried.
  `SilentIffEveryoneTold` gives the exact condition; `RedispatchPagesTheFallback` shows the second page.
- A dead letter is described as an alert that reached nobody (`backend/services/notifications.py:267`). It
  speaks of the current call only. `FalseDeadLetterIff`: adapters can bring about a dead letter for an alert
  that somebody has exactly when some but not all targets of the plan were SENT before the call.
- Retries keep a dead letter that fails again dead (`backend/services/notifications.py:350-351`), but a
  re-dispatch may make it a plain failure: `DeadLetterAfterDispatch` says exactly when, and
  `DeadLetterBackToFailed` is a witness.
- A half-open probe is spent before the limiter is asked. `NeverStuckIff`: a channel whose admitted
  messages are all recorded can be refused for ever exactly when its messages per minute times its reset
  seconds stay below 60.
- Session memory promises "the worst case is a cache miss" and "never a wrong answer"
  (`memory/session.py:6-10`). `ReadIsStaleIff` says over every run when a read answers with an old
  revision, and `ReadAllCompleteIff` when the whole-set read is complete and newest;
  `PartlyWarmCacheHidesKeys` shows how keys go missing from any state.
- The redirect is described as re-running the pipeline (`graph/nodes.py:645-646`); the edge re-enters
  triage only, which is what `OnTrack` in `Investigation.dfy` records.
- Merging updates is not associative when a key changes its kind: `AssociativeIff` is the exact condition,
  `KindChangeBreaksBatching` an instance.
- The token budget of working memory is checked before the new summary is added. `OverBudgetIff` says
  exactly when a call leaves the pad over budget, `SummaryMayOverrunBudget` is a witness at every budget.
  An overwritten key keeps its old place: `WriteSurvivesIff` says exactly when a write keeps what it
  wrote, `OverwriteMayEvictItself` is a witness.
- A range with an unreadable bound is documented as undecidable (`tools/versions.py:243-245`); in fact the
  first bound that fails or cannot be read decides. `UndecidedThoughOutsideIff` says exactly when the
  answer is undecidable although the version is outside however the bounds are read. A decided
  answer is right under every reading, except for ranges whose bounds are all blank:
  `DecidedAnswersAreRobustIff`. `2.0` is below `2.0.0`: `TrailingNumberRaises`.
- A chunk id added again resolves to the older record: `ResolvesToItselfIff`.
- A confirmed assessment fails its own contract check exactly when every exposed host has an empty name:
  `ConfirmationSupportedIff`, with `NamelessHostIsRefused` as a witness.

## Model

| member | source | states |
|---|---|---|
| `Alerts.EveryRunIsTruthful` | backend/services/notifications.py:185-240 | over every run of decisions, dispatches and retries and every adapter behaviour: each row's attempt count is the number of sends made to its address on its channel for its approval and investigation, it is SENT exactly when one of them delivered, no address is delivered to twice on a channel for an approval, every send has its row, and every send has an APPROVE decision of that same investigation behind it |
| `Alerts.KeyOfIff` | services/notifications.py:64-87 | two deliveries share a dedupe key exactly when investigation, approval, channel and normalised address all agree |
| `Alerts.SentIsFinal` | backend/services/notifications.py:319-358 | a SENT row is never changed and its key never sent to again, whatever follows |
| `Alerts.RunKeeps` | backend/services/notifications.py:67-358 | every run keeps keys unique, rows truthful, no row PENDING between calls, every row approved; rows only gain attempts and sends are only appended |
| `Alerts.Verify` | backend/services/notifications.py:67-91 | no refusal exactly when the decision exists, belongs to a conversation of this investigation, and approves; and which refusal otherwise |
| `Alerts.UnapprovedIsRefused` | backend/services/notifications.py:104 | a dispatch goes ahead exactly on a valid approval; otherwise nothing changes and the refusal names the failed check |
| `Alerts.FloorExact` | services/notifications.py:41-61 | which priorities clear which floor |
| `Alerts.SuppressionIsNotFailure` | backend/services/notifications.py:108-123 | below the floor, or without a channel, nothing changes and nothing is reported as failed |
| `Alerts.Attempts` | backend/services/notifications.py:216-230 | the answers of one attempt loop: bounded, consecutive, all but the last undelivered, stopping early only on a delivery or refusal |
| `Alerts.AttemptsUnique` | backend/services/notifications.py:216-230 | those facts determine the answers completely |
| `Dispatching.FailoverOrder` | backend/services/notifications.py:129-147 | the handled targets are those of a prefix of the tiers, all and in order; only the last tried tier reaches anybody; tiers stay untried only if it did |
| `Dispatching.PlanAccounts` | backend/services/notifications.py:216-257 | every send of a dispatch belongs to one handled target's own loop: none for a deduplicated one, at most the maximum otherwise, no resend after a delivery or refusal, and the outcome reports exactly that loop |
| `Dispatching.SilentIffEveryoneTold` | backend/services/notifications.py:193-201 | a verified dispatch above the floor, with at least one attempt allowed, sends nothing if and only if every target that has an adapter is SENT at its own channel and address for this approval |
| `Dispatching.PlanSkips` | backend/services/notifications.py:193-201 | of the targets a dispatch handles, exactly those are skipped whose own channel and address was told before the call or earlier in it; every other address is attempted |
| `Dispatching.EveryTargetReported` | backend/services/notifications.py:144-149 | every handled target is reported once, with an outcome or as deduplicated, and deduplicated exactly if it had been told |
| `Dispatching.DispatchFrame` | backend/services/notifications.py:280-283 | a dispatch touches no row of another approval, dead-lettering included |
| `Dispatching.SingleChannelRedispatchIsSilent` | services/notifications.py:73-79 | on a single channel, after a dispatch whose every outcome delivered, dispatching again sends nothing |
| `Dispatching.RedispatchPagesTheFallback` | backend/services/notifications.py:144-153 | with Slack then e-mail, the second dispatch of an alert Slack delivered sends an e-mail, and is dead-lettered exactly when that does not deliver |
| `Dispatching.FirstDispatchTellsSlackOnly` | backend/services/notifications.py:129-133 | the first dispatch stops behind the tier that delivered |
| `DeadLetters.DeadLetterExact` | backend/services/notifications.py:151-153 | dead-lettered exactly when something was attempted and nothing delivered, and then no FAILED row of the approval is left |
| `DeadLetters.DeadLetterTellsNobody` | backend/services/notifications.py:151-153 | a dead-lettered dispatch changes nobody's SENT status, so that no target of the plan has the alert afterwards is true exactly when it was true before |
| `DeadLetters.FalseDeadLetterIff` | backend/services/notifications.py:260-283 | some adapter behaviour makes a verified dispatch above the floor a dead letter although a target of the plan is SENT if and only if some but not all targets are SENT before the call |
| `Alerts.RetryTouchesOneRow` | backend/services/notifications.py:319-358 | a retry changes its own row only; it takes a dead letter out of that state only by delivering it, and only on a valid approval |
| `Alerts.RetryReports` | backend/services/notifications.py:319-381 | a retry is accepted exactly for a known row that is not SENT; it sends to the row's own recipient, reports exactly the sends it made, and a row it does not deliver keeps its status |
| `DeadLetters.DeadLetterAfterDispatch` | backend/services/notifications.py:232-240 | a dispatch makes a dead letter SENT exactly when its target was delivered to, FAILED exactly when its target was attempted without a delivery and some target of the same call was reached, and leaves it a dead letter otherwise |
| `DeadLetters.DeadLetterBackToFailed` | backend/services/notifications.py:237-239 | both channels fail and are dead-lettered; on the second dispatch Slack fails, e-mail delivers, and the Slack row is FAILED |
| `AlertDispatcher.FailoverPlan` | services/notifications.py:118-133 | the tiers are the unique partition into maximal runs of one channel |
| `AlertDispatcher.AlertService.VerifyApproval` | backend/services/notifications.py:67-91 | as `Verify`, with the reason of the refusal |
| `AlertDispatcher.AlertService.AttemptSends` | backend/services/notifications.py:216-230 | the attempt loop appends exactly the sends of `Attempts` and returns their number and last answer |
| `AlertDispatcher.AlertService.DeliverTarget` | backend/services/notifications.py:168-257 | new rows, sends and outcome of one target |
| `AlertDispatcher.AlertService.DeliverEach` | backend/services/notifications.py:134-147 | every target of a tier is handled, in order |
| `AlertDispatcher.AlertService.DeadLetterApproval` | backend/services/notifications.py:280-283 | exactly the FAILED rows of the approval become dead letters |
| `AlertDispatcher.AlertService.DispatchAlert` | backend/services/notifications.py:94-165 | rows, sends and report of a whole dispatch, including refusals, suppression and no configured channel |
| `AlertDispatcher.AlertService.RetryDelivery` | backend/services/notifications.py:301-381 | rows, sends and outcome of a retry, including its refusals |
| `MaximalRuns.Runs` | services/notifications.py:127-133 | the left-to-right scan yields a partition into maximal runs: concatenation restores the input, neighbours inside a run join, runs do not |
| `MaximalRuns.PartitionUnique` | tools/correlation.py:131-140 | there is only one such partition |
| `MaximalRuns.SharesRunIff` | tools/correlation.py:131-140 | two items share a run exactly when every neighbouring pair between them joins |
| `MaximalRuns.LongRunIff` | tools/detection.py:363-374 | a run of at least n items exists exactly when n consecutive items all join |
| `Resilience.LevelStaysInRange` | integrations/resilience.py:122-134 | the token level stays between empty and full over every run |
| `Resilience.GrantsBounded` | integrations/resilience.py:98-134 | over every run with a non-decreasing clock, the tokens granted in any interval are at most the capacity plus the refill of that interval |
| `Resilience.LevelExact` | integrations/resilience.py:122-134 | the exact level after every such run: the least of the capacity, of what came in less what was granted, and of the same counted from a full bucket at any of the uses |
| `Resilience.RefusedIff` | integrations/resilience.py:122-128 | after every run a take is refused exactly when one of these accounts is short of it |
| `Resilience.AskingIsFree` | integrations/resilience.py:116-134 | after any number of refused takes and looks the bucket is as if left alone |
| `Resilience.ClockBackAddsNothing` | integrations/resilience.py:130-134 | a clock that went back adds and takes nothing, and the bucket counts on from there |
| `Resilience.RateLimiter.Build` | integrations/resilience.py:101-114 | a limiter is built full, exactly for capacities of at least one |
| `Resilience.RateLimiter.RefillTokens` | integrations/resilience.py:130-134 | refill by elapsed time, capped; a clock that went back adds nothing |
| `Resilience.RateLimiter.Available` | integrations/resilience.py:116-120 | looking refills too |
| `Resilience.RateLimiter.TryAcquire` | integrations/resilience.py:122-128 | refill, then take all or nothing |
| `Resilience.BreakerRefinesHistory` | integrations/resilience.py:162-214 | for every history of questions and results, the fields are facts of the history: closed exactly when fewer failures than the threshold were recorded since the last success, with the time of the last opening and whether a probe is out |
| `Resilience.AnswerFromHistory` | integrations/resilience.py:175-190 | a call is let through exactly when the circuit is closed, or the reset time has passed since the last opening and no probe is out |
| `Resilience.OneProbeBetweenRecords` | integrations/resilience.py:178-190 | once tripped, at most one call is let through between two recorded results |
| `Resilience.CircuitBreaker.Build` | integrations/resilience.py:148-164 | a breaker is built closed, exactly for thresholds of at least one |
| `Resilience.CircuitBreaker.State` | integrations/resilience.py:166-173 | the state accounts for the elapsed reset time |
| `Resilience.CircuitBreaker.AllowCall` | integrations/resilience.py:175-190 | the answer, and that a half-open grant spends the probe |
| `Resilience.CircuitBreaker.RecordSuccess` | integrations/resilience.py:192-198 | a success closes and clears |
| `Resilience.CircuitBreaker.RecordFailure` | integrations/resilience.py:200-214 | a failed probe restarts the reset clock without counting; otherwise the count decides |
| `Channel.ResilientChannel.IsAvailable` | integrations/notifications.py:135-143 | usable exactly when not open; nothing is consumed |
| `Channel.ResilientChannel.GuardSend` | integrations/notifications.py:145-153 | breaker first, then limiter, each with its own reading of the clock and the state it leaves behind |
| `Channel.ResilientChannel.RecordResult` | integrations/notifications.py:155-160 | what an attempt records on the breaker |
| `Channel.AlwaysUndisturbed` | integrations/notifications.py:145-160 | under every interleaving of guards and records, while the circuit is open and no probe is out, the limiter has not been touched since the opening |
| `Channel.ProbeNeverRateLimited` | integrations/notifications.py:145-153 | if capacity is at least one and a token flows back per reset period, no probe the breaker grants is refused by the limiter, after any interleaving |
| `Channel.ProbeIsPending` | integrations/notifications.py:145-160 | above the bound and under every interleaving, while a probe is out some admitted call is unrecorded; so nothing is stuck once all admitted calls are recorded |
| `Channel.StuckForever` | integrations/notifications.py:145-160 | a channel whose probe was refused refuses every later message |
| `Channel.GetsStuck` | integrations/notifications.py:145-160 | below the bound, every configuration has a history that gets it stuck |
| `Channel.NeverStuckIff` | integrations/notifications.py:109-160 | no history gets a channel stuck if and only if messages per minute times reset seconds is at least 60 |
| `Channel.AdmitsAfterRest` | integrations/notifications.py:145-153 | above the bound, after any history the next message is admitted once the reset time has passed |
| `TtlCaching.TtlCache.Get` | integrations/resilience.py:62-70 | returns the last value set for the key exactly when the key is held and not expired, and touches it exactly then |
| `TtlCaching.TtlCache.GetStale` | integrations/resilience.py:72-79 | returns the last value set exactly when the key is held, expired or not, touching nothing |
| `TtlCaching.TtlCache.Set` | integrations/resilience.py:81-88 | keeps the cache exact: it holds the most recently touched distinct keys, up to the bound, in recency order, each with its last value and expiry |
| `TtlCaching.TtlCache.EvictOldest` | integrations/resilience.py:87-88 | eviction leaves the newest entries |
| `TtlCaching.RecentIff` | integrations/resilience.py:81-88 | a key is among the n most recent exactly when fewer than n distinct keys were touched after its last touch |
| `TtlCaching.SetKeepsExact` | integrations/resilience.py:81-88 | moving a key to the end and trimming keeps exactness, whether or not the key was held |
| `Sessions.OneLiveTokenPerSession` | backend/auth/sessions.py:172-217 | in every reachable store each session has exactly one unused refresh record, and every record belongs to a stored session with the user and expiry it was started with |
| `Sessions.ExchangedAtMostOnce` | backend/auth/sessions.py:196-212 | along every run each token is exchanged at most once |
| `Sessions.SpentForever` | backend/auth/sessions.py:202-206 | a token that was exchanged or forgotten is never exchanged again |
| `Sessions.ReplayClosesFamily` | backend/auth/sessions.py:196-212 | once a token was exchanged, after any calls in between, presenting it again before the original expiry is answered as reuse if its family is still stored and as unknown otherwise; afterwards the family is closed, nothing of it is left, and no other session is touched |
| `Sessions.ClosedForever` | backend/auth/sessions.py:202-217 | a closed family stays closed and none of its tokens is ever exchanged again |
| `Sessions.ExchangeExact` | backend/auth/sessions.py:196-212 | in every reachable state, for every token: success exactly on the newest token of a stored family before its original expiry, with the session as started; reuse exactly on every other token ever issued for such a family; unknown or expired exactly otherwise |
| `Sessions.LoginLasts` | backend/auth/sessions.py:172-182 | in every reachable state a login starts a session of that user until now plus the lifetime, and its first token is good exactly until then |
| `Sessions.RunKeeps` | backend/auth/sessions.py:85-102 | every run keeps the coherence of sessions, records and families |
| `Sessions.RunRemembers` | backend/auth/sessions.py:94-102 | over every run no token of a stored family is forgotten |
| `Sessions.SessionStore.DeleteRefreshesForSession` | backend/auth/sessions.py:100-102 | exactly the family's records are removed |
| `Sessions.SessionService.StartSession` | backend/auth/sessions.py:172-182 | the store after a start, and the session returned |
| `Sessions.SessionService.IssueRefresh` | backend/auth/sessions.py:184-194 | one fresh, unused record with the session's user and expiry |
| `Sessions.SessionService.RotateToken` | backend/auth/sessions.py:196-212 | the store and the result of a rotation: unknown, expired, replayed, session gone, exchanged |
| `Sessions.SessionService.RevokeSession` | backend/auth/sessions.py:214-217 | the store after a logout |
| `Reducers.MergeSubstate` | graph/state.py:63-72 | the key-by-key loop computes the recursive merge, with either side missing |
| `Reducers.AssociativeIff` | graph/state.py:55-72 | merging is associative exactly on triples where, wherever the second update replaces the first, the older value has nothing to add to the newest |
| `Reducers.AbsorbedIff` | graph/state.py:55-67 | when merging under a value leaves that value as it is |
| `Reducers.AssociativeOnFixedKinds` | graph/state.py:55-72 | with a fixed kind per key, applying updates one by one or batched gives the same state |
| `Reducers.KindChangeBreaksBatching` | graph/state.py:55-60 | a list overwritten by a scalar and set again differs when batched |
| `Reducers.CommuteIff` | graph/state.py:55-72 | two updates give the same state in either order from every state if and only if they are equal scalars, lists that can be swapped, or mappings that so agree on every shared key |
| `Reducers.IsolatedWritersCommute` | graph/state.py:55-72 | hence updates with recursively disjoint keys commute from every state |
| `Reducers.ListGrows` | graph/state.py:50-57 | a list survives an update exactly when the update respects its path, and then the update's items are appended |
| `Reducers.ListHistoryPreserved` | graph/state.py:50-72 | along any sequence of respecting updates a list is its old content followed by exactly what was appended |
| `Reducers.ExtendHistory` | graph/state.py:39-47 | transitions are appended and stamped with their position |
| `Investigation.EveryCheckpointSound` | graph/builder.py:81-99 | every checkpoint reachable by continuing from any retained checkpoint is sound: its whole history is determined by verdict, decisions and position |
| `Investigation.EveryCheckpointTellsTheStory` | graph/nodes.py:617-666 | in every checkpoint, with the inputs on its path: the recorded decisions are exactly those analysts gave at its gates, in order, the verdict is that of its threat detection, the pending alerts are those of its notify steps; sequence numbers are positions, each gate follows a triage, notify happens at most once, only behind a gate where the last decision given was approve, and always by the end if it was, and research ran exactly when the verdict is not benign |
| `Investigation.EveryCheckpointEchoes` | graph/nodes.py:498-505 | nothing put in on the path to a checkpoint is altered, dropped or made up |
| `Investigation.StepKeeps` | graph/nodes.py:423-505 | every node and routing step keeps all of this |
| `Chunking.CleanTextKeepsInk` | rag/chunking.py:29-38 | cleaning keeps every non-whitespace character in order |
| `TextShape.CleanTextKeepsWords` | rag/chunking.py:29-38 | cleaning keeps the words and that they are separated |
| `TextShape.CleanTextIsTidy` | rag/chunking.py:35-38 | cleaned text has single spaces only, no tabs or carriage returns, and no whitespace at line ends or around it |
| `TextShape.CleanTextLeavesTidy` | rag/chunking.py:29-38 | tidy text without excess blank lines is left as it is, single blank lines included |
| `TextShape.CollapseNewlinesExact` | rag/chunking.py:37 | that pass leaves no three newlines in a row |
| `TextShape.LineEndingsDoNotMatter` | rag/chunking.py:35 | a document with other line ends is cleaned to the same text |
| `TextShape.StripExact` | rag/chunking.py:38 | stripping takes all whitespace at both ends and nothing else |
| `Chunking.SectionsKeepInk` | rag/chunking.py:41-53 | wherever the headings are, sections lose only whitespace and none is empty |
| `TextShape.SectionsAreBetweenHeadings` | rag/chunking.py:43-50 | with headings every section is the text between two neighbouring ones, so none has a heading inside |
| `TextShape.BlocksExact` | rag/chunking.py:52 | without headings the blocks contain no blank line and joined by blank lines are the text again |
| `TextShape.SectionsHaveNoBlankLine` | rag/chunking.py:51-53 | so neither do the sections |
| `Packing.Pack` | rag/chunking.py:84-98 | for any sections, blank ones included: blocks join consecutive sections and lose only blank ones; a joined block fits the bound and could not have taken the next section as well |
| `Packing.PackingKeepsInk` | rag/chunking.py:84-98 | packing loses nothing |
| `Packing.JoinedByBlankLines` | rag/chunking.py:91-92 | a block is its sections with one blank line between each two |
| `Chunker.ChooseEnd` | rag/chunking.py:106-111 | a window ends with the section if it fits, else at the last space of its final stretch, else at full length |
| `Chunker.SplitOversized` | rag/chunking.py:100-116 | terminates, and the windows chain from the start to the end of the section |
| `Chunker.WindowsMeet` | rag/chunking.py:105-115 | consecutive windows leave no gap and move forward, and share exactly `overlap` characters, or all but one of a window no longer than that |
| `Chunker.WindowsCover` | rag/chunking.py:100-116 | dropping at most `overlap` repeated characters per part restores the section's non-whitespace text |
| `Chunker.AddSection` | rag/chunking.py:72-81 | a block that fits is one chunk; a longer one becomes the non-blank stripped windows of a tiling, linked to one parent |
| `Chunker.Chunk` | rag/chunking.py:65-82 | for all texts and bounds: chunks are numbered 0..n-1, non-empty and at most the maximum long; they are laid out by the greedy packing, an oversized block as the stripped windows of a tiling that share their parent; together they restore every non-whitespace character in order with at most `overlap` repeated per chunk |
| `SessionMemory.ReadsAreFresh` | memory/session.py:46-77 | over every run in which cache writes succeed, with entries vanishing at will, a read equals the newest durable revision |
| `SessionMemory.WritesAreKept` | memory/durable.py:42-48 | over every run each write to a key is one more revision with its value and source, in order, and there are no others |
| `SessionMemory.ReadReturnsLastWrite` | memory/session.py:46-77 | over every run in which cache writes succeed, a read returns value and source of the last write to the key, or nothing if there was none |
| `SessionMemory.ReadIsStaleIff` | memory/session.py:53-77 | over every run in which any cache write may fail: a read answers with an old revision exactly when the key was cached at its last failed write and has since been neither written through, lost nor rebuilt; what is cached is always a durable revision |
| `SessionMemory.FailedCacheWriteHarmsIffCached` | memory/session.py:53-63 | one swallowed cache failure breaks coherence exactly when the key was cached |
| `SessionMemory.RebuildHeals` | memory/session.py:89-100 | after a rebuild every cached key holds its newest revision, however stale it was |
| `SessionMemory.RebuildWarmsEverything` | memory/session.py:89-100 | after a rebuild the whole-set read is complete and newest, however stale the cache was |
| `SessionMemory.ReadAllExact` | memory/session.py:79-87 | whatever cache writes failed before, the whole-set read is key-sorted and holds durable revisions, newest ones while the cache is coherent; it is the newest revision of every key exactly when the cache was empty, or covers every durable key with none stale |
| `SessionMemory.ReadAllCompleteIff` | memory/session.py:79-87 | over every run in which any cache write may fail: complete and newest exactly when the cache is empty, or covers every durable key and no key is shadowed by a failed write |
| `SessionMemory.PartlyWarmCacheHidesKeys` | memory/session.py:81-84 | from any state, losing the cache and reading one key back makes the whole-set read return that key alone |
| `SessionMemory.RunKeeps` | memory/durable.py:42-62 | over every run revisions are numbered 1..n and histories only extend |
| `SessionMemory.MemoryManager.WriteEntry` | memory/session.py:46-64 | the entry holds key, value and source as given and the next revision number; both tiers after the write, with the cache write succeeding or failing |
| `SessionMemory.MemoryManager.ReadEntry` | memory/session.py:66-77 | the answer, and the cache it leaves |
| `SessionMemory.MemoryManager.RebuildHot` | memory/session.py:89-100 | returns the newest revision of every key and caches them |
| `SessionMemory.MemoryManager.ReadAllEntries` | memory/session.py:79-87 | answer and cache of a whole-set read |
| `SessionMemory.MemoryManager.EvictHot` | memory/session.py:106-108 | one investigation's cache is dropped and nothing else |
| `WorkingMemory.NothingIsLost` | memory/working.py:53-111 | over every run of writes and loads: a key was stored exactly when it is retained or named in a summary; retained keys are distinct, at most the cap, and never none once something was stored |
| `WorkingMemory.NothingIsMadeUp` | memory/summarization.py:54-61 | over every run, what is retained was stored as it stands, and a summary names a key with a source it was stored from |
| `WorkingMemory.LastOneCounts` | memory/working.py:73-78 | where a load names a key twice the last entry counts |
| `WorkingMemory.EvictsNothingIff` | memory/working.py:91-99 | a call changes nothing exactly when the cap holds and entries and summaries cost at most the budget, or one entry is held |
| `WorkingMemory.EntryCostAppend` | memory/working.py:80-84 | the cost of entries is the sum of theirs |
| `WorkingMemory.Evicted` | memory/working.py:91-99 | eviction takes the shortest oldest-first prefix after which the cap holds and the budget is met beside the existing summaries, or one entry is left |
| `WorkingMemory.OverBudgetIff` | memory/working.py:91-107 | a call leaves the pad over its budget if and only if it evicts nothing and the single entry held is too costly beside the summaries, or it evicts and the summary of the evicted does not fit beside what stays |
| `WorkingMemory.OverrunIsOneSummary` | memory/working.py:98-107 | with two or more entries retained the overrun is at most the cost of the call's own summary |
| `WorkingMemory.SummaryMayOverrunBudget` | memory/working.py:101-107 | at every admissible budget, a write from within the budget can end over it |
| `WorkingMemory.SummariesCrowdOutEntries` | memory/working.py:80-99 | once the summaries alone exceed the budget, at most one entry is retained for the rest of the turn |
| `WorkingMemory.WriteSurvivesIff` | memory/working.py:53-58 | a write keeps the entry it wrote if and only if that entry fits together with everything that stands behind its place |
| `WorkingMemory.NewKeySurvivesItsWrite` | memory/working.py:53-58 | a key written for the first time is last and survives its own write |
| `WorkingMemory.OverwriteMayEvictItself` | memory/working.py:53-58 | at every admissible budget, overwriting the oldest key can evict it at once |
| `WorkingMemory.Scratchpad.Write` | memory/working.py:53-58 | entries and summaries after a write |
| `WorkingMemory.Scratchpad.Load` | memory/working.py:73-78 | entries and summaries after a recovery load, enforced once |
| `WorkingMemory.Scratchpad.EnforceBudget` | memory/working.py:91-107 | the two eviction loops take exactly the shortest sufficient prefix and summarise it |
| `Detection.GroupByPrincipal` | tools/detection.py:266-279 | each principal's events of the wanted kinds, all of them, ordered by time and id |
| `Detection.RelevantExact` | tools/detection.py:270-275 | a group holds every event of its principal and the wanted kinds as often as it occurred, and no other |
| `Detection.SortFacts` | tools/detection.py:276-279 | a permutation in which times do not decrease and ids break ties |
| `Detection.ScanBreakthroughs` | tools/detection.py:309-329 | the one-pass scan reports exactly the successes whose maximal block of immediately preceding failures has at least three members within the window, in order, each match being that block and the success |
| `Detection.BreakthroughsDisjoint` | tools/detection.py:309-329 | matches of one principal share no event |
| `Detection.DetectBreakthrough` | tools/detection.py:304-330 | the same over all principals, each match once, in principal order |
| `Detection.GatherInOrder` | tools/detection.py:308-330 | the matches of the principals follow one another, each once |
| `Detection.SplitByGap` | tools/detection.py:363-374 | the bursts are the unique partition into maximal runs |
| `Detection.SameEpisodeIff` | tools/detection.py:363-374 | two events share a burst exactly when no gap between them exceeds the window |
| `Detection.ScanBruteForce` | tools/detection.py:288-300 | exactly the bursts of at least five failures, in order |
| `Detection.AtLeastInOrder` | tools/detection.py:288-300 | each long enough burst is kept once, in order |
| `Detection.BruteForceIff` | tools/detection.py:282-301 | fires exactly when five consecutive failures are each within the window of the one before |
| `Detection.DetectBruteForce` | tools/detection.py:282-301 | the same over all principals, each burst once, in principal order |
| `Correlations.FillBuckets` | tools/correlation.py:89-99 | each key's bucket holds its events in order, once per carried occurrence |
| `Correlations.BucketExact` | tools/correlation.py:91-99 | an event is in a key's bucket exactly when it carries the key |
| `Correlations.BucketInOrder` | tools/correlation.py:91-99 | in event order, once for each time the event carries the key |
| `Correlations.UniqueEventIds` | tools/correlation.py:143-151 | the ids by first occurrence |
| `Correlations.DistinctFacts` | tools/correlation.py:143-151 | which are distinct and complete |
| `Correlations.DistinctInOrder` | tools/correlation.py:143-151 | and come in the order of their first occurrences |
| `Correlations.CorrelateBucket` | tools/correlation.py:105-123 | one key's qualifying episodes, in order |
| `Correlations.QualifyingInOrder` | tools/correlation.py:106-123 | each qualifying episode is described once, in order |
| `Correlations.CorrelateEvents` | tools/correlation.py:80-124 | a correlation is reported exactly for every maximal episode of a key with enough distinct ids, once, by key and then by time |
| `Correlations.CorrelationsAreReal` | tools/correlation.py:105-123 | its ids are distinct, at least the minimum many, and belong to events that carry its key |
| `Correlations.CorrelationSpans` | tools/correlation.py:110-117 | a correlation starts with the earliest and ends with the latest event of its episode, neighbours are within the window, and its ids are exactly those of the episode |
| `Versions.VersionOrderTotal` | tools/versions.py:104-118 | versions are strictly and totally ordered |
| `Versions.ParseVersion` | tools/versions.py:129-173 | the token loop splits at the first pre-release word, and refuses blank, unreadable and number-free texts |
| `Versions.PrereleaseBelowRelease` | tools/versions.py:104-118 | any readable pre-release suffix sorts below its release |
| `Versions.PrereleasesInOrder` | tools/versions.py:157-164 | pre-releases of one release are ordered by maturity, then by number, none first |
| `Versions.ReleaseWordsDoNotCount` | tools/versions.py:146-152 | words such as "final" and empty pieces change nothing wherever they stand |
| `Versions.TrailingNumberRaises` | tools/versions.py:168-173 | one more number, zero included, makes every readable version larger: 2.0 is below 2.0.0 |
| `Versions.InVulnerableRange` | tools/versions.py:240-266 | the loop over the four bounds gives the three-valued answer |
| `Versions.RangeMeaning` | tools/versions.py:240-266 | a range with readable bounds contains exactly the versions from its including start, after its excluding start, up to its including end and before its excluding end, each where given |
| `Versions.DecideExact` | tools/versions.py:258-266 | true exactly when every bound is readable and met; false exactly when one is not met and all before it are readable |
| `Versions.DecidedAnswersAreRobustIff` | tools/versions.py:240-266 | a decided answer of a range is right under every reading of its unreadable bounds if and only if the range is not one whose given bounds are all blank |
| `Versions.BlankStartContainsAll` | tools/versions.py:247-248 | such a range contains every version, although a reading of the blank excludes it |
| `Versions.OutsideUnderEveryReadingIff` | tools/versions.py:252-265 | a version is outside a range under every reading exactly when some readable bound fails |
| `Versions.UndecidedThoughOutsideIff` | tools/versions.py:258-265 | the undecidable answer is given to a version outside under every reading if and only if some readable bound fails and an unreadable one stands before the first that does |
| `Versions.UndecidedThoughOutside` | tools/versions.py:261-265 | such a range: an unreadable start and an end below the version |
| `Versions.RangesAreConvex` | tools/versions.py:240-266 | what lies between two versions inside a range is inside it |
| `Applicability.AssessApplicability` | tools/versions.py:269-316 | verdict and evidence of the loops over assets, software and ranges |
| `Applicability.EvidenceExact` | tools/versions.py:292-297 | the evidence is exactly the findings of all matching asset, software and range triples |
| `Applicability.AssetsInOrder` | tools/versions.py:292-297 | an inventory is assessed part by part, each finding once, in the order of the assets |
| `Applicability.SoftwareInOrder` | tools/versions.py:293 | likewise for the software of an asset |
| `Applicability.RangesInOrder` | tools/versions.py:294-297 | likewise for the published ranges |
| `Applicability.OneRange` | tools/versions.py:294-297 | one range gives one finding if its product matches, else none |
| `Applicability.FindingExact` | tools/versions.py:319-375 | a finding names its host and product, the version as installed, and the reason that fits |
| `Applicability.NothingToAssess` | tools/versions.py:281-309 | without a published range, or without a matching product, the one finding says so |
| `Applicability.VerdictExact` | tools/versions.py:299-316 | confirmed exactly when some triple has a readable version decidably inside; not applicable exactly when there are triples and all are decidably outside |
| `Applicability.ConfirmationIsStable` | tools/versions.py:269-316 | adding assets never takes a confirmation back |
| `Applicability.ConfirmationSupportedIff` | models/vulnerability.py:220-242 | a confirmation passes its contract check exactly when some exposed triple is on a host with a name |
| `Applicability.NamelessHostIsRefused` | models/vulnerability.py:220-242 | a confirmed assessment that its contract refuses |
| `KnowledgeIndex.SearchableExact` | rag/index.py:154-159 | every copy of a chunk is searchable if its version is its source's active one, and none otherwise |
| `KnowledgeIndex.StagingIsInvisibleIff` | rag/index.py:132-135 | adding chunks changes searches exactly when one lands in an active version |
| `KnowledgeIndex.ActivationSwapsEditions` | rag/index.py:137-149 | activation takes out the superseded edition and brings in the new one; nothing else moves and the counts balance |
| `KnowledgeIndex.OtherSourcesKeepTheirView` | rag/index.py:137-159 | over any run that neither activates a source nor adds to its pinned version, searches of that source see the same chunks in the same order |
| `KnowledgeIndex.RollbackRestores` | rag/index.py:137-159 | after any run that adds nothing to a version, activating it again shows exactly what it showed before |
| `KnowledgeIndex.ResolvedForever` | rag/index.py:183-187 | an id that resolved once resolves to the same record for ever |
| `KnowledgeIndex.ResolvesToItselfIff` | rag/index.py:183-187 | a record is found under its id exactly when no earlier record carries that id |
| `KnowledgeIndex.VectorStore.AddChunks` | rag/index.py:132-135 | chunks are appended under the given version and counted |
| `KnowledgeIndex.AddedAsGiven` | rag/index.py:132-135 | added chunks keep id, source and content, in order; only the version is set |
| `KnowledgeIndex.VectorStore.ActivateVersion` | rag/index.py:137-149 | the source points at the version; the count is the size of the superseded edition |
| `KnowledgeIndex.VectorStore.SearchableChunks` | rag/index.py:154-159 | the chunks of each source's active version, in order |
| `KnowledgeIndex.VectorStore.GetChunk` | rag/index.py:183-187 | the oldest record with the id |

## Left out

- Network and storage back ends (HTTP, SMTP, Redis, SQL, object storage, JWT, OIDC): adapters are arbitrary answers and stores are their in-memory forms.
- Transactions and crashes around sends: every call is taken as committed, and calls do not interleave.
- Every admitted send is taken to be recorded. A send that raises between the guard and the record, as building an e-mail with a line break in its recipient does (`integrations/notifications.py:283-288`), would strand a probe at any rate.
- LangGraph's scheduler, retry policy and checkpointer back ends: only the edges, the routers, the reducers and continuing from retained checkpoints are modelled.
- Human decisions and conversations are only ever added, never edited or deleted, in the runs of `Alerts.dfy`.
- Hashes are taken as collision-free and random tokens and ids as never drawn twice; ids, names, keys and message texts are abstract.
- `resolve_targets`, message rendering, `sent_at`, `failure_reason`, the audit log and the pause between attempts: they do not decide who is told.
- Clock and token arithmetic is over reals, so floating-point rounding is not modelled; the refill rate is taken as non-negative.
- Login transactions (`save_login`, `pop_login`) and the counters of hits, misses and recoveries: one-line facts.
- Pattern rules, log parsers, beaconing and notability scores: their behaviour lives in regular expressions and tables.
- The heading pattern, version tokenising and product matching are parameters: positions, tokens and a relation.
- Chunker.Chunk: a negative overlap is not modelled, since the settings demand at least zero (`config/settings.py:231-233`), and `clean_text` is not claimed to be idempotent, because a blank line made of spaces breaks that.
- Scratchpad token costs are parameters, and a summary is the list of references it names rather than its text; a replacement summarizer that drops names is not covered.
- Embeddings, search scores, filters and the retrieval cache of `rag/service.py`: searches are represented by the set of chunks they may see.
- CVSS scoring, severity bands, the role table, request rate limiting, routes, streaming and the user interface: finite tables or input and output.
