# Verification of the gateway's scheduler and of the TLS record side it carries

A Dafny model of the parts of this repository that keep state and have to keep promises, with
proofs of those promises; `dafny verify dfyconfig.toml` checks the whole project.

The code that changes state in place is modelled by classes and methods with the same fields,
branches, constants and error cases. Each method is tied to a function of the old state; the
properties of that function over all runs, all interleavings or all inputs are lemmas beside it.
Code shared by threads or requests is also a step system, with one step for each critical section
or await point.

| file | models |
|---|---|
| `Gateway.dfy`, `GatewayAnswers.dfy` | the request's retry loop: exclude list, switches, same-account retries, queueing, slot guards; what the client gets, over the history of a request |
| `AccountTable.dfy`, `AccountRanking.dfy`, `SelectionRules.dfy` | cost and warm-up limits, tiers, sticky bindings, ranking; the rules in the fields of an account |
| `Admission.dfy`, `AdmissionLimits.dfy`, `Account.dfy` | session admission, which limit guards which set, and account selection over the shared cache |
| `OauthRefresh.dfy`, `OauthAnswers.dfy` | token refresh under a lease lock, as interleaved requests; where their tokens come from |
| `Memory.dfy`, `QuotaHistory.dfy`, `Slots.dfy` | the in-memory cache; its quota sets against the history of calls; slots under interleaving, cancellation included |
| `Ticketer.dfy` | ticket-key rotation by threads that drop the lock while generating |
| `RecordLayer.dfy`, `VecBuf.dfy`, `CommonState.dfy` | sequence numbers and trial decryption, chunked byte queues, plaintext to records |
| `LimitedCache.dfy` | the map with a queue, against an insertion-ordered list |
| `UsageRecorder.dfy`, `UsageStore.dfy` | the usage line parser; batching, log, daily roll-up and statistics |
| `Json.dfy`, `ThinkingRepair.dfy`, `ThinkingKeeps.dfy` | the message repair pass; what it leaves as it was |
| `OauthFlow.dfy`, `Utf8.dfy` | percent coding and query parameters; the lossy UTF-8 conversion they end in |
| `Prelude.dfy` | shared vocabulary |

## Where the code and its promises part

The model follows the code. Each of these is a lemma, with the exact condition where one exists.

- `ticketer.rs` documents that a ticket is accepted for at most twice the lifetime. Rolling is lazy, so an idle
  switcher accepts it at any later time (`AcceptedAfterAnyIdleTime`). The bound holds in exactly the runs of
  `DocumentedBoundHoldsExactlyWhenRetiring` and `BoundHoldsExactlyWhenDemotedInTime`.
- At the soft sequence limit the close alert re-enters the sender with the counter unchanged, so sending does not
  return (`SendingLoopsExactlyAcrossSoftLimit`); past the hard limit fragments are dropped without a word
  (`SendingDeliversExactly`). The sending methods of `CommonState` ask for a counter clear of both for the bytes they take.
- The read counter has no limit and, in release arithmetic, wraps (`DecryptIncoming`).
- A refused admission can leave the session in the live set of an account that does not serve it
  (`RefusedAttemptLeavesAtMostTheSession`, `RefusedSessionMayHoldAPlace`).
- Negative limits mean no limit to the cache but win the minimum against a positive warm-up cap
  (`EffectiveMaxEnforcesBothExactly`).
- The quota's clock is read before its locks are taken, so a call that read the old day can run after one that read the
  new day, and empties the sets: the window then lets in more ids than its limit (`SteppingBackExceedsTheLimit`). The
  exact conditions are `CountedAgreesWithHistoryExactly` for the sets and `LimitHoldsInHistoryExactly` for the limit.
- With clocks that step back the live set can forget a session early (`StaleClockForgetsSession`,
  `LiveAgreesWithHistoryExactly`). The percent decoder panics on some non-ASCII text (`PanicsExactly`).
- An overlong line drops what was pending, and the rest of that line is then read as a line of its own
  (`FeedIsFaithfulExactly`).
- A slot whose release is cancelled between forgetting the guard and releasing is lost
  (`CancelledReleaseBlocksTheKey`); nothing else loses one (`IdleCounterIsTheCancelledReleases`).
- A refresh that outstays its lease can overlap another (`OutstayedLeaseAllowsOverlap`): exactly while the tokens need a
  refresh and no lease runs (`OverlapIsPossibleExactlyWithoutALease`).
- After a burst 429 the account is put on a cooldown (`src/service/account.rs:804-820`), so the "same-account" retry
  usually selects another one. The bounds of the loop do not rely on which account comes back.

## Model

Line ranges are those of the modelled code. Members without a row are specification functions and helper lemmas.

| member | source | states |
|---|---|---|
| Gateways.HandleRequest | src/service/gateway.rs:366-743 | for every behaviour of scheduler and upstream the loop terminates, forwards at most 1 + 5 + 3·(accounts) times, goes on exactly while it should, and what it does to slots is that of its turns: each slot taken, for the account selected, is given back exactly once on every exit and retry path |
| Gateways.TakeTurn | src/service/gateway.rs:381-742 | one turn: returns exactly when the turn ends the request, with the answer the client should get, and otherwise leaves exclude list, queue, counters and last response as the next loop head should find them; its slot events are those of the account selected |
| Gateways.TryAccount | src/service/gateway.rs:476-742 | taking the slot, forwarding and classifying one answer: concludes, switches or retries the same account in exactly the right cases, and the slot is refused, or taken and dropped with the guard when it concludes, or taken, forgotten and released by hand when it goes on |
| Gateways.AttemptIsSwitchCount | src/service/gateway.rs:381-385 | the attempt number computed from four list lengths is the number of switches, and no subtraction saturates |
| Gateways.RunKeepsConsistent | src/service/gateway.rs:366-742 | at every loop head of every run the exclude list is the disjoint union of blocked, queued, type-rejected and switched accounts, within all three allowances |
| Gateways.NextKeepsConsistent | src/service/gateway.rs:395-741 | every kind of turn (queue wait, type rejection, quota rejection, retry, switch) keeps that partition and those allowances |
| Gateways.RetainLeavesTheOthers | src/service/gateway.rs:398-399 | ending a queue wait removes exactly the quota-rejected accounts from the exclude list |
| Gateways.TurnMakesProgress | src/service/gateway.rs:379-741 | a turn that is not the last strictly lowers the lexicographic measure switches, same-account retries, waits, unused accounts |
| Gateways.RunIsBounded | src/service/gateway.rs:122-132 | switches, retries, queue time and the number of loop turns are bounded in terms of the number of accounts |
| Gateways.AbandonedStayExcluded | src/service/gateway.rs:427-435 | a blocked, switched-away or type-rejected account is excluded and not selected for the rest of the request |
| Gateways.RetriesAreBounded | src/service/gateway.rs:701-716 | same-account retries over all accounts are at most three times the number of accounts |
| Gateways.EverySlotIsGivenBackOnce | src/service/gateway.rs:476-742 | in every run takings and givings back alternate and are equal in number |
| Gateways.RequestsLeaveZero | src/service/gateway.rs:476-742 | requests whose slot events are those of the loop, however interleaved, leave every counter at zero |
| Gateways.EventsTellThePhase | src/service/gateway.rs:476-494 | in every interleaving with other requests, a holder whose slot events follow the loop's discipline is where its own events say |
| Gateways.DisciplineLeaksNothing | src/service/gateway.rs:627-741 | if every request keeps to the discipline, no slot leaks in any interleaving |
| Gateways.FinishedRequestsLeaveZero | src/service/gateway.rs:476-494 | when all requests have finished and the spawned releases have run, every slot counter is back at zero and each taken slot was given back once |
| GatewayAnswers.RequestsAreAnsweredRightly | src/service/gateway.rs:381-741 | over whole runs, said over the answers the upstream gave: the loop goes on exactly while it should, so a 401, a 403, a billing rejection or a wall reaches the client only after five accounts were switched away from, a burst limit only after three retries of its account as well, any other answer at once; without an account the client gets the last answer of the upstream, else 403 if some account did not take the client type, else 503, and only when nobody is queued or 40 waits are over |
| GatewayAnswers.RunIsItsHistory | src/service/gateway.rs:366-742 | forwards, switches and exclude list of every run are those of its history: blocked, switched away, mismatched, or full since the last wait |
| GatewayAnswers.SlotsTurnByTurn | src/service/gateway.rs:476-741 | a turn that goes on after taking a slot has forgotten the guard and released by hand, the last one drops the guard; the slot is that of the account selected, and no other turn touches one |
| AccountTable.CapForAge | src/service/account.rs:138-148 | the cap is that of the first tier the age is below, zero (no limit) otherwise or when warm-up is off |
| AccountTable.CapIsOfFirstTierAbove | src/service/account.rs:138-148 | the cap is that of the first tier whose age is above the account's |
| AccountTable.CapsLoosenWithAge | src/service/account.rs:138-148 | with caps that grow along the tiers an older account is never capped tighter |
| AccountTable.EffectiveMaxEnforcesBothExactly | src/service/account.rs:152-158 | the effective maximum enforces both limits exactly when they do not have opposite signs |
| AccountTable.GetByIdFinds | src/service/account.rs:267 | looking a row of the table up by its id finds that row |
| AccountRanking.SortSorts | src/service/account.rs:362 | the sort yields a sorted permutation |
| AccountRanking.RankingPermutes | src/service/account.rs:348-364 | shuffling, sorting and dropping the scores keeps exactly the candidates |
| AccountRanking.RankedIdsAreDistinct | src/service/account.rs:348-364 | a ranking of distinct table rows lists each candidate id once |
| AccountRanking.TiersAreCandidates | src/service/account.rs:317-325 | the candidates are the primary tier when it has anybody, else the fallback tier; none exactly when no account is eligible |
| SelectionRules.StickyExactly | src/service/account.rs:264-279 | a binding leads to an account exactly while it has not expired and the account is active, past its rate limit, permitted and below its cost cap, in the fields of the row |
| SelectionRules.TierExactly | src/service/account.rs:293-325 | an account is a candidate exactly when it is active, strictly past its rate limit, permitted, below its cap, and below 85 % of it unless every usable account is past that |
| SelectionRules.RankingPrefersExactly | src/service/account.rs:348-364 | ranking first means a smaller priority number, or the same and a smaller share of seats taken, cross-multiplied over live counts and maxima |
| AccountServices.AccountService.LookUpSticky | src/service/account.rs:264-290 | the bound account when it is schedulable, not excluded, allowed and not exhausted; an expired binding is removed |
| AccountServices.AccountService.SplitTiers | src/service/account.rs:293-315 | each listed, permitted, unexhausted account in exactly one tier, split at 85 % of its cost cap |
| AccountServices.AccountService.RankCandidates | src/service/account.rs:348-364 | for every shuffle: a permutation of the candidates sorted by priority, then live occupancy |
| AccountServices.AccountService.SelectAccount | src/service/account.rs:257-342 | a usable sticky account wins and keeps its binding; otherwise an account of the first non-empty tier that no other there has a smaller priority number than, or with the same number a smaller share of seats taken, freshly bound; none exactly when nobody is eligible |
| AccountServices.AccountService.TryCandidate | src/service/account.rs:498-520 | one account asked: session limit, then quota, the second only after the first; let in exactly when each of the account's limits leaves room in the set it guards; no other account touched |
| AccountServices.AccountService.ForceIn | src/service/account.rs:455-465 | a bound session enters live set and quota whatever the limits; no other account touched |
| AccountServices.AccountService.OfferInTurn | src/service/account.rs:496-527 | walking the ranking equals the first-fit specification, state included |
| AccountServices.AccountService.AdmitBound | src/service/account.rs:441-470 | a session bound to a usable account is forced in and the binding kept; otherwise live sets and quotas are untouched |
| AccountServices.AccountService.AdmitNew | src/service/account.rs:473-528 | a new session goes to the first account with room in the ranking of the first non-empty tier, is bound to it, or every usable account refuses |
| AccountServices.AccountService.TryAdmit | src/service/account.rs:440-528 | one whole round of admission, sticky or new |
| AccountServices.AccountService.AdmitClient | src/service/account.rs:428-533 | empty sessions pass untouched; whatever other requests do to the cache between rounds, success leaves the client placed with a usable account; failure after 40 rounds means no usable binding and every usable account refusing; it succeeds exactly in the first round whose cache binds the client to a usable account or has a usable account with a place in all three sets |
| AccountServices.AccountService.AdmitAndSelect | src/service/account.rs:257-533 | admission and the next selection agree: same account unless the table, the costs or the binding changed meanwhile; whatever is selected is schedulable, permitted and not exhausted |
| AdmissionLimits.AttemptSucceedsExactly | src/service/account.rs:498-520 | an unforced attempt succeeds iff the session is live or its count is below max_sessions and the warm-up cap (where positive, unless one is negative), the device is empty, counted today or below device_quota, and the session is empty, counted today or below session_quota |
| AdmissionLimits.AttemptLeaves | src/service/account.rs:498-520 | the live set afterwards gains the session exactly when the session limits fit, the day's devices and sessions gain the client's exactly when all fit; nothing else changes |
| AdmissionLimits.AgeIsInHours | src/service/account.rs:189-191 | the age compared with the tiers is in hours |
| AdmissionLimits.BoundForADay | src/service/account.rs:519-524 | a new binding leads to its account for exactly one day; other clients keep theirs |
| AdmissionLimits.UnusableBindingIsRemoved | src/service/account.rs:264-290 | a binding that has expired or cannot be used is removed, and no other |
| AdmissionLimits.ServedIsFirstWithPlace | src/service/account.rs:496-527 | the account served is the first of the ranking with a place for the client; nobody is served exactly when none has |
| AdmissionLimits.OfferServesExactly | src/service/account.rs:471-528 | somebody is served exactly when some usable account has a place |
| Admission.RefusedAttemptLeavesAtMostTheSession | src/service/account.rs:507-518 | a refusal never changes the quota window; it leaves the session in the live set exactly when the session limit passed and the quota refused |
| Admission.RefusedSessionMayHoldAPlace | src/service/account.rs:507-518 | a concrete refusal whose leftover then shuts another session out |
| Admission.ForcedSessionIsIn | src/service/account.rs:454-466 | forcing enters the session and its ids and pushes nobody else out |
| Admission.RefusedAgain | src/service/account.rs:505-520 | asking the same account again at once is refused again |
| Admission.OfferTouchesOnlyTheOffered | src/service/account.rs:496-527 | accounts not in the ranking keep their state |
| Admission.OfferIsFirstFit | src/service/account.rs:496-527 | the account served is the first with room; those before keep what their refusal left, those after are untouched |
| Admission.BetterAccountsWereFull | src/service/account.rs:494-527 | every usable account ranking strictly before the one served was full |
| Admission.AllRefuseAgain | src/service/account.rs:529-530 | when nobody has room everybody was asked and would refuse again |
| Admission.BindingIsUsableExactlyUntilItExpires | src/service/account.rs:264-279 | with table, costs and the binding itself unchanged a usable binding stays usable exactly until it expires |
| Admission.AdmittedIsPlaced | src/service/account.rs:521-526 | the account that lets a new session in is the one its binding then leads to |
| OauthRefresh.StepKeepsLease | src/service/account.rs:633-647 | every step of every request keeps: a request inside its lease holds the lock |
| OauthRefresh.RefreshIsSingleFlight | src/service/account.rs:623-712 | in every interleaving at most one request inside its lease is in the critical section |
| OauthRefresh.CallsUseTheLatestTokens | src/service/account.rs:663-694 | in runs where refreshes end within the lease every upstream call uses the tokens most recently stored, and only because those were not valid when re-read |
| OauthRefresh.OverlapNeedsAnExpiredLease | src/service/account.rs:633-647 | two calls overlap only when one of them outstayed its lease |
| OauthRefresh.NewcomerCallsExactly | src/service/account.rs:623-672 | from any state a request that is not held up reaches the upstream exactly when the stored tokens need a refresh and no lease runs; nobody else is disturbed |
| OauthRefresh.OverlapIsPossibleExactlyWithoutALease | src/service/account.rs:633-672 | in every reachable state with a call in flight a newcomer can join it with a second call exactly when the tokens still need a refresh and no lease runs; a caller inside its lease is such a lease |
| OauthRefresh.OutstayedLeaseAllowsOverlap | src/service/account.rs:633-647 | a concrete run in which an outstayed lease lets a second call use the same refresh token |
| OauthAnswers.TokensHaveASource | src/service/account.rs:623-712 | in every run a request hands out a token only if it was stored and valid for the buffer when that request looked, or the upstream gave it to this request, which stored it, or the upstream failed and it was stored and unexpired when read again before the call |
| OauthAnswers.UnavailableExactly | src/service/account.rs:623-712 | a finished request has no token exactly when it was cancelled, the store failed under it, it found no refresh token, waited in vain, failed to store, or the upstream failed with no unexpired token left |
| OauthAnswers.RequestsRemember | src/service/account.rs:623-694 | what a request holds in its variables is what its own earlier turns loaded or were given |
| OauthAnswers.RequestsCountPolls | src/service/account.rs:649-657 | a waiting request counts its looks, none of which found a valid token |
| OauthAnswers.FinishedRequestsHoldNoLock | src/service/account.rs:643-647 | a finished request leaves no lock of its own unless it was cancelled while it held it |
| OauthAnswers.StoredTokensAreGiven | src/service/account.rs:684-694 | the stored tokens are those of the start or what the upstream gave some request |
| OauthRefresh.RunningLeaseIsSafeFromOthers | src/store/memory.rs:212-242 | no step of another request removes or replaces a lock whose lease still runs |
| OauthRefresh.ReleaseRemovesOnlyOwnLock | src/store/memory.rs:235-242 | a release, however late, removes only the releaser's own lock |
| MemoryStores.LiveSessionsAreRecentlyAccepted | src/store/memory.rs:114-145 | for a monotone clock the live sessions are exactly those with an accepted call less than the TTL ago |
| MemoryStores.StoredExactly | src/store/memory.rs:114-133 | for every clock reading a session is stored, with the stamp of its last accepted call, exactly when no later call read a clock at which that one had run out |
| MemoryStores.LiveExactly | src/store/memory.rs:114-145 | for every clock reading the live set is decided by the last accepted call alone |
| MemoryStores.LiveAgreesWithHistoryExactly | src/store/memory.rs:114-145 | whatever the clocks read, the live set agrees with the history exactly when no recent acceptance is followed by a last one that has been outrun |
| MemoryStores.StaleClockForgetsSession | src/store/memory.rs:122-124 | a concrete history in which a clock that steps back makes them disagree |
| MemoryStores.SessionCountAgreesWithHistory | src/store/memory.rs:135-145 | for a monotone clock the reported count is the number of sessions with an accepted call less than the TTL ago |
| MemoryStores.MaximumIsNeverExceeded | src/store/memory.rs:114-145 | without forced calls a fixed positive maximum is never exceeded, whatever the clocks read |
| MemoryStores.WindowIsTheDayOfUtcPlusEight | src/store/memory.rs:162-164 | two instants share a daily window exactly when no midnight of UTC+8 lies between them |
| MemoryStores.RefusalChangesNothing | src/store/memory.rs:183-193 | a refused call adds to neither set |
| MemoryStores.MembersAreReadmitted | src/store/memory.rs:173-182 | ids already counted in the window are let in again whatever the limits |
| MemoryStores.QuotaLimitsHold | src/store/memory.rs:173-182 | without forced calls the two stored sets stay within their fixed positive limits, whatever the clocks read; the ids a window has let in are a matter of its history |
| MemoryStores.MemoryStore.GetSessionAccountId | src/store/memory.rs:52-63 | the bound account unless expired; an expired binding is removed |
| MemoryStores.MemoryStore.SetSessionAccountId | src/store/memory.rs:65-81 | binds the hash for the TTL and touches no other |
| MemoryStores.MemoryStore.TryAcquireSlot | src/store/memory.rs:89-98 | takes a slot exactly when the count stays within the maximum |
| MemoryStores.MemoryStore.GiveBackSlot | src/store/memory.rs:100-107 | decrements a positive count, else nothing |
| MemoryStores.MemoryStore.SessionAdmit | src/store/memory.rs:114-133 | the live-set step for one account, no other account touched |
| MemoryStores.MemoryStore.SessionCount | src/store/memory.rs:135-145 | counting entry by entry gives the number of live sessions, which the history lemma relates to accepted calls |
| MemoryStores.MemoryStore.AccountQuotaAdmit | src/store/memory.rs:147-194 | the quota step for one account, no other account touched |
| MemoryStores.MemoryStore.QuotaCounts | src/store/memory.rs:196-210 | counting entry by entry gives the numbers of ids in the current window, which the history lemma relates to accepted calls |
| MemoryStores.MemoryStore.TryAcquireLock | src/store/memory.rs:212-233 | takes a free or expired lock, leaves a running one |
| MemoryStores.MemoryStore.GiveBackLock | src/store/memory.rs:235-242 | removes the lock only for its owner |
| QuotaHistory.CountedExactly | src/store/memory.rs:158-194 | for every clock reading an id is stored for a window exactly when an accepted call brought it there and no later call read another window |
| QuotaHistory.CountedAgreesWithHistoryExactly | src/store/memory.rs:158-194 | whatever the clocks read, a stored set is all the distinct non-empty ids accepted in its window exactly when no accepted id was swept out and not brought back |
| QuotaHistory.QuotaSetsAreHistory | src/store/memory.rs:147-194 | when windows never step back, both sets are exactly the distinct non-empty ids of the accepted calls, in every window from the last call's on |
| QuotaHistory.QuotaCountsAgreeWithHistory | src/store/memory.rs:196-210 | and the counts are then the numbers of those ids |
| QuotaHistory.SteppingBackExceedsTheLimit | src/store/memory.rs:158-172 | a concrete history in which a clock read before the lock steps back over midnight, and a window lets in two devices under an unforced limit of one |
| QuotaHistory.WithinReach | src/store/memory.rs:158-194 | without forced calls the ids a window lets in never pass the reach of the clock readings: one a call, up to the limit, in each unbroken stretch of that window |
| QuotaHistory.NewcomersAttainTheReach | src/store/memory.rs:158-194 | calls that each bring a new id attain the reach, for every sequence of readings |
| QuotaHistory.LimitHoldsInHistoryExactly | src/store/memory.rs:158-194 | for given clock readings no history lets more distinct ids into a window than a limit allows iff their reach does not pass the limit |
| QuotaHistory.LimitHoldsWhenWindowsAdvance | src/store/memory.rs:147-194 | when windows never step back, every window lets in no more distinct ids than a fixed positive limit, in both dimensions |
| SlotProtocol.StepKeepsBalance | src/store/memory.rs:89-107 | every step of every holder keeps: counter = holders + pending releases + leaked, within the largest limit passed |
| SlotProtocol.SlotsAreConserved | src/store/memory.rs:89-107 | that balance in every interleaving, and slots taken = slots given back + slots in use |
| SlotProtocol.SlotIsGrantedExactlyBelowTheMaximum | src/store/memory.rs:89-98 | in every interleaving a slot is granted exactly when holders, pending releases and leaks of the key are fewer than the maximum; a refusal leaves the count |
| SlotProtocol.HoldersStayWithinLimit | src/store/memory.rs:89-98 | holders never outnumber the largest limit passed |
| SlotProtocol.ReleasesNeverSaturate | src/store/memory.rs:100-107 | every release finds a positive count, so the saturating decrement hides nothing |
| SlotProtocol.LeakedIsTheCancelledReleases | src/service/gateway.rs:627-741 | per slot, what has leaked is exactly the number of requests cancelled between forgetting the guard and releasing |
| SlotProtocol.NothingLeaksExactlyWithoutCancelledReleases | src/service/gateway.rs:627-741 | nothing leaks exactly when there was no such cancellation |
| SlotProtocol.IdleCounterIsTheCancelledReleases | src/service/gateway.rs:627-741 | with nobody inside and nothing pending a counter is that number: zero exactly when no release of the slot was cancelled |
| SlotProtocol.CancelledReleaseBlocksTheKey | src/service/gateway.rs:644-645 | one such cancellation with a limit of one blocks the account for good |
| Ticketers.TicketSwitcher.EnterSection | craftls/rustls/src/ticketer.rs:94-112 | the first critical section: usable, demote and install the next ticketer, or recover |
| Ticketers.TicketSwitcher.RecoverSection | craftls/rustls/src/ticketer.rs:121-133 | the recovery section re-reads the deadline before it switches |
| Ticketers.TicketSwitcher.MaybeRoll | craftls/rustls/src/ticketer.rs:65-134 | a call with no other thread in between, for every generator outcome |
| Ticketers.TicketSwitcher.Encrypt | craftls/rustls/src/ticketer.rs:146-150 | tickets are sealed with the ticketer that is current after rolling |
| Ticketers.TicketSwitcher.Decrypt | craftls/rustls/src/ticketer.rs:152-165 | tickets are tried with the current, then the previous ticketer: what the current one sealed before this call opens even if the call switches |
| Ticketers.RollAloneIsALoneRun | craftls/rustls/src/ticketer.rs:65-134 | a call without interference is a run of the step system with one thread at work: same state, ready exactly when that run acquires it, for every generator outcome |
| Ticketers.SealedOpensAcrossOneSwitch | craftls/rustls/src/ticketer.rs:107-165 | the ticketer that sealed a ticket is held, and so opens it in any later call that is ready, as long as at most one switch lies between |
| Ticketers.OneSwitchWithinALifetime | craftls/rustls/src/ticketer.rs:65-134 | at most one call switches while the clocks stay within one lifetime of the sealing |
| Ticketers.RoundTripWithinALifetime | craftls/rustls/src/ticketer.rs:146-165 | so a ticket opens again for any calls with clocks within one lifetime of its sealing |
| Ticketers.FirstTicketerServesOneLifetime | craftls/rustls/src/ticketer.rs:38-55 | a new switcher seals with its first ticketer exactly until one lifetime after its start |
| Ticketers.StepKeepsInv | craftls/rustls/src/ticketer.rs:65-134 | in every interleaving no ticketer is in two places and none is placed twice, with the lock dropped during generation |
| Ticketers.SwitchesAreSpaced | craftls/rustls/src/ticketer.rs:65-134 | any two switches carry clock values more than a lifetime apart |
| Ticketers.TicketKeyIsRetained | craftls/rustls/src/ticketer.rs:65-165 | a ticketer current when a ticket was made at t stays current or previous until a switch whose clock exceeds t + lifetime |
| Ticketers.CurrentKeySealsForOneLifetime | craftls/rustls/src/ticketer.rs:65-150 | a ticketer seals tickets for at most one lifetime of caller clocks |
| Ticketers.DroppedKeyStaysDropped | craftls/rustls/src/ticketer.rs:65-134 | a dropped ticketer never comes back |
| Ticketers.AcceptedAfterAnyIdleTime | craftls/rustls/src/ticketer.rs:34-37 | the documented bound of twice the lifetime fails for an idle switcher: a ticket is accepted at any later clock |
| Ticketers.DocumentedBoundHoldsExactlyWhenRetiring | craftls/rustls/src/ticketer.rs:34-37 | from any point of any run on, a sealing ticketer is used only for clocks up to t + 2·lifetime iff it is no longer held, or no longer current with its deadline within that bound |
| Ticketers.BoundHoldsExactlyWhenDemotedInTime | craftls/rustls/src/ticketer.rs:34-37 | in every run of a switcher that bound holds from the demoting switch on iff the switch came no later than t + lifetime |
| LimitedCaches.LimitedCache.Get | craftls/rustls/src/limited_cache.rs:81-87 | the value of the reference list, which is the last value written |
| LimitedCaches.LimitedCache.Insert | craftls/rustls/src/limited_cache.rs:57-79 | one step of the insertion-ordered reference: update in place without refreshing age, or join the back and push the front out when that fills the queue |
| LimitedCaches.LimitedCache.GetOrInsertDefaultAndEdit | craftls/rustls/src/limited_cache.rs:35-55 | the same with the edited value or the edited default |
| LimitedCaches.LimitedCache.GetMut | craftls/rustls/src/limited_cache.rs:89-95 | a present value is edited in place without refreshing its age; an absent key changes nothing |
| LimitedCaches.LimitedCache.EvictOldest | craftls/rustls/src/limited_cache.rs:70-77 | drops exactly the key resident longest |
| LimitedCaches.LimitedCache.Remove | craftls/rustls/src/limited_cache.rs:97-116 | drops exactly the key, from map and queue, and returns its value; the others keep their order, ages and last writes |
| LimitedCaches.LookupAfterPut | craftls/rustls/src/limited_cache.rs:57-79 | what every lookup gives after an insertion, the evicted key included |
| LimitedCaches.LookupAfterRemove | craftls/rustls/src/limited_cache.rs:97-116 | what every lookup gives after a removal |
| LimitedCaches.RunsNeverShowStaleValues | craftls/rustls/src/limited_cache.rs:35-116 | over every run a lookup gives nothing or the last value written |
| LimitedCaches.NewKeySurvives | craftls/rustls/src/limited_cache.rs:35-116 | a new key survives as many later new keys as fit below capacity |
| VecBuf.ChunkVecBuffer.IsFull | craftls/rustls/src/vecbuf.rs:40-45 | full exactly when more is stored than the limit allows |
| VecBuf.ChunkVecBuffer.ApplyLimit | craftls/rustls/src/vecbuf.rs:58-66 | the allowance: what the limit leaves room for, everything without a limit |
| VecBuf.ChunkVecBuffer.Append | craftls/rustls/src/vecbuf.rs:76-85 | bytes join the back; no empty chunk is stored |
| VecBuf.ChunkVecBuffer.AppendLimitedCopy | craftls/rustls/src/vecbuf.rs:69-73 | appends the longest prefix that fits |
| VecBuf.ChunkVecBuffer.Pop | craftls/rustls/src/vecbuf.rs:88-90 | the first chunk leaves the front |
| VecBuf.ChunkVecBuffer.Read | craftls/rustls/src/vecbuf.rs:94-107 | terminates, fills min(buffer, stored) bytes from the front and leaves the rest of the buffer alone |
| VecBuf.ChunkVecBuffer.Consume | craftls/rustls/src/vecbuf.rs:122-132 | drops the first bytes across chunk boundaries, nothing else |
| VecBuf.ChunkVecBuffer.WriteTo | craftls/rustls/src/vecbuf.rs:135-148 | one vectored write of at most 64 chunks: what the writer took leaves the front, nothing on an error |
| RecordLayers.RecordLayer.EncryptOutgoing | craftls/rustls/src/record_layer.rs:109-117 | seals under (encrypter, counter), a pair never used before in any run; the counter advances by one |
| RecordLayers.RecordLayer.DecryptIncoming | craftls/rustls/src/record_layer.rs:61-103 | all outcomes: passed through, opened (the read counter wraps), dropped within the trial budget, or failed |
| RecordLayers.RecordLayer.DoingTrialDecryption | craftls/rustls/src/record_layer.rs:211-222 | a record is dropped exactly when the remaining budget covers it, and the total dropped never exceeds what was configured |
| RecordLayers.RecordLayer.PrepareMessageEncrypter | craftls/rustls/src/record_layer.rs:121-125 | a new encrypter starts at zero and is not active |
| RecordLayers.RecordLayer.SetMessageEncrypter | craftls/rustls/src/record_layer.rs:151-154 | a key change: new cipher, counter zero, active at once |
| RecordLayers.RecordLayer.SetMessageDecrypterWithTrialDecryption | craftls/rustls/src/record_layer.rs:167-174 | starts a fresh trial budget |
| RecordLayers.RecordLayer.FinishTrialDecryption | craftls/rustls/src/record_layer.rs:177-179 | no record is dropped afterwards |
| CommonStates.Chunks | craftls/rustls/src/msgs/fragmenter.rs:26-47 | fragments are non-empty, at most the maximum, full except the last, and concatenate to the payload |
| CommonStates.SendFragmentsOutcome | craftls/rustls/src/common_state.rs:254-276 | for every counter and every number of nested calls: all fragments, a prefix up to the hard limit, or no end at all |
| CommonStates.SendingLoopsExactlyAcrossSoftLimit | craftls/rustls/src/common_state.rs:220-262 | sending never returns exactly when the run of fragments meets the soft limit, where the close alert re-enters with the counter unchanged |
| CommonStates.SendingDeliversExactly | craftls/rustls/src/common_state.rs:254-276 | all fragments are sealed in order under consecutive numbers exactly when none meets the soft limit or lies past the hard one |
| CommonStates.SealedCarriesPayload | craftls/rustls/src/common_state.rs:230-276 | the application plaintext of the sealed fragments is the payload |
| CommonStates.ClearForAllIsClearForAPrefix | craftls/rustls/src/common_state.rs:230-250 | a counter clear of the limits for all the data is clear for whatever prefix a limited write takes |
| CommonStates.SealedRecordAt | craftls/rustls/src/common_state.rs:254-276 | the i-th sealed record is the i-th fragment under the i-th number from the counter |
| CommonStates.ClearRecordAt | craftls/rustls/src/common_state.rs:398-405 | the i-th record in the clear is the i-th fragment |
| CommonStates.CommonState.SendSingleFragment | craftls/rustls/src/common_state.rs:254-276 | one fragment sealed and queued, or dropped past the hard limit |
| CommonStates.CommonState.SendEachFragment | craftls/rustls/src/common_state.rs:220-227 | fragments are sealed in order under consecutive numbers, up to the hard limit, and the rest dropped |
| CommonStates.CommonState.SendAppdataEncrypt | craftls/rustls/src/common_state.rs:230-250 | accepts what the TLS buffer limit leaves room for and seals exactly that |
| CommonStates.CommonState.SendPlain | craftls/rustls/src/common_state.rs:279-301 | accepted bytes are buffered before traffic keys and sealed after, under the right buffer limit |
| CommonStates.CommonState.SendSomePlaintext | craftls/rustls/src/common_state.rs:186-189 | conservation: accepted bytes in order equal the plaintext of emitted records followed by what is buffered; the number accepted is what the right buffer has room for after a pending key update, which leaves first; records already emitted stay |
| CommonStates.CommonState.SetBufferLimit | craftls/rustls/src/common_state.rs:357-360 | one limit for both buffers; what is already stored stays |
| CommonStates.CommonState.StartOutgoingTraffic | craftls/rustls/src/common_state.rs:304-307 | the handshake-to-traffic switch emits everything buffered, in order, and leaves the buffer empty |
| CommonStates.CommonState.FlushPlaintext | craftls/rustls/src/common_state.rs:364-372 | the draining loop keeps conservation at every turn and terminates |
| CommonStates.CommonState.QueueTlsMessage | craftls/rustls/src/common_state.rs:375-377 | one record joins the TLS buffer behind the others |
| CommonStates.CommonState.SendMsg | craftls/rustls/src/common_state.rs:380-410 | encrypted, exactly the fragments up to the hard limit are sealed in order; otherwise exactly the clear records of the fragments are queued; the application plaintext is undisturbed |
| CommonStates.CommonState.EnqueueKeyUpdateNotification | craftls/rustls/src/common_state.rs:561-568 | the notification is sealed at once under the old key |
| CommonStates.CommonState.PerhapsWriteKeyUpdate | craftls/rustls/src/common_state.rs:570-574 | the queued notification is written once |
| CommonStates.CommonState.WriteTls | craftls/rustls/src/conn.rs:533-535 | what the writer took, and only that, leaves the front of the queue and is counted; bytes that left followed by those still queued are the encoded records in order |
| UsageParsers.UsageParser.Feed | src/service/usage_recorder.rs:147-160 | equals the specification of one chunk; every count is then the last one its own key was given by the events of the lines read; no newline is pending between feeds |
| UsageParsers.UsageParser.Finish | src/service/usage_recorder.rs:180-186 | a streamed response is not changed; a whole body is parsed once and its counts are those of its own keys |
| UsageParsers.LinesOfConcat | src/service/usage_recorder.rs:147-160 | cutting a stream anywhere gives the same lines and the same pending rest |
| UsageParsers.ChunkingIsIrrelevant | src/service/usage_recorder.rs:147-178 | for every chunking within the cap the result is that of reading each line of the whole stream once, in order |
| UsageParsers.FeedIsFaithfulExactly | src/service/usage_recorder.rs:149-151 | a feed reads on faithfully, whatever the lines mean, exactly when nothing pending is dropped by the cap |
| UsageParsers.TallyTellsOfTheEvents | src/service/usage_recorder.rs:188-263 | over any events each count is what its own JSON key had in the last event that sets it (starts and bodies always, deltas when positive, the split only where it is present), and model and id are the first ones named |
| UsageParsers.StreamIsTalliedByItsEvents | src/service/usage_recorder.rs:147-263 | for every chunking within the cap, that holds of the events of all lines of the stream |
| UsageParsers.OutputIsLastPositiveReport | src/service/usage_recorder.rs:227-232 | the output count is the last positive one reported, over any events |
| UsageParsers.MetadataIsStable | src/service/usage_recorder.rs:213-225 | the first model and request id stay, over any events |
| UsageWriters.UsageWriter.Flush | src/service/usage_recorder.rs:79-93 | one batch leaves the buffer whether or not the database takes it; what is received stays flushed or buffered in order, and the store holds exactly what the taken batches contribute |
| UsageWriters.UsageWriter.OnRecord | src/service/usage_recorder.rs:58-63 | a record joins the buffer; a full buffer becomes one batch of exactly 100 |
| UsageWriters.UsageWriter.OnTick | src/service/usage_recorder.rs:70-74 | the timer empties the buffer |
| UsageWriters.UsageWriter.OnClose | src/service/usage_recorder.rs:64-67 | on close nothing stays behind |
| UsageWriters.DailyRowsAreTheTakenBatches | src/service/usage_recorder.rs:50-93 | from received to roll-up: each daily row is what was there before plus what the batches the database took contribute to its key |
| UsageStores.UsageStore.Execute | src/store/usage_store.rs:17-72 | the statements of a transaction build the log and the roll-up of old and new records together |
| UsageStores.UsageStore.BatchInsertAndRollup | src/store/usage_store.rs:6-75 | all or nothing for every failing statement; the roll-up stays the group-by of everything committed |
| UsageStores.UsageStore.PruneLogsBefore | src/store/usage_store.rs:316-322 | old log rows go, the roll-up stays |
| UsageStores.PruningKeepsExactlyTheRecent | src/store/usage_store.rs:316-322 | exactly the rows from the cutoff on stay, as often as they were there |
| UsageStores.PruningKeepsOrder | src/store/usage_store.rs:316-322 | and in their order |
| UsageStores.UsageStore.Stats | src/store/usage_store.rs:258-314 | one row per group, most input tokens first, each the column sums of exactly its records; any set of groups adds up to the committed records in range that fall into it |
| UsageStores.DailyRowSumsItsRecords | src/store/usage_store.rs:38-70 | each daily row sums, column by column, exactly the records of its day, token, account and model |
| UsageStores.StatisticsSumTheirRecords | src/store/usage_store.rs:258-314 | each row of the statistics sums, column by column, exactly the records in range of its group |
| UsageStores.EveryRecordHasItsRow | src/store/usage_store.rs:258-314 | and every record in range falls under a row |
| UsageStores.BatchIsLoggedInOrder | src/store/usage_store.rs:17-36 | the log gains one row per record, in order |
| UsageStores.UpsertAddsOnce | src/store/usage_store.rs:38-70 | an upsert adds a record to its key once and to no other |
| UsageStores.CollapseConserves | src/store/usage_store.rs:38-70 | grouping conserves the sums of every set of keys |
| UsageStores.CollapseHasUniqueKeys | src/store/usage_store.rs:38-70 | the roll-up has one row per key |
| UsageStores.DailyRowIsItsRecords | src/store/usage_store.rs:38-70 | each daily row equals the sums and count of the committed records with its key |
| UsageStores.StatisticsAreDirectSums | src/store/usage_store.rs:258-314 | two levels of grouping equal one |
| UsageStores.GroupingsAgreeOnTheTotal | src/store/usage_store.rs:264-270 | every grouping of a range adds up to the same total |
| ThinkingRepair.StripEmptyTextBlocks | src/service/thinking_repair.rs:221-234 | exactly the empty text blocks go, and it says whether any did |
| ThinkingRepair.TransformMessage | src/service/thinking_repair.rs:123-219 | the block loop equals the specification of one message |
| ThinkingRepair.RemoveThinkingContextStrategies | src/service/thinking_repair.rs:109-121 | equals its specification for every shape of the context-management value |
| ThinkingRepair.TransformForRetry | src/service/thinking_repair.rs:75-107 | equals the specification of a whole body; an unparsable or unchanged body is returned as it was |
| ThinkingRepair.RewriteAllCleans | src/service/thinking_repair.rs:130-205 | rewriting reaches the normal form of its stage, and leaves content already in it alone |
| ThinkingRepair.TransformReachesNormalForm | src/service/thinking_repair.rs:123-219 | a transformed message has no thinking, redacted or empty text block (and no tool block in stage two) |
| ThinkingRepair.TransformKeepsOtherFields | src/service/thinking_repair.rs:123-219 | role and every field but the content stay |
| ThinkingRepair.TransformNeverEmpties | src/service/thinking_repair.rs:206-217 | a message with content never ends up with none |
| ThinkingRepair.TextsSurviveExactlyWithoutPlaceholder | src/service/thinking_repair.rs:130-217 | stage one keeps the ordered non-empty text and thinking strings exactly when no placeholder is needed |
| ThinkingRepair.DisablingThinkingRemovesItsStrategies | src/service/thinking_repair.rs:87-121 | when thinking is removed no clear-thinking edit stays |
| ThinkingRepair.BodyKeepsMessagesAndRoles | src/service/thinking_repair.rs:87-105 | messages keep their number, order and roles |
| ThinkingRepair.BodyTextsSurviveExactlyWithoutPlaceholder | src/service/thinking_repair.rs:87-105 | what all the messages of a body say, in order, is what they said before exactly when none of them needs a placeholder |
| ThinkingRepair.BodyReachesNormalForm | src/service/thinking_repair.rs:75-107 | every message of the result is in normal form |
| ThinkingRepair.RetryIsIdempotent | src/service/thinking_repair.rs:66-107 | each stage changes nothing the second time, if what is written of a clean body does not read back unclean |
| ThinkingRepair.StageTwoAbsorbsStageOne | src/service/thinking_repair.rs:66-107 | stage one after stage two changes nothing, under the same condition for stage two |
| ThinkingKeeps.MessageKeepsItsItems | src/service/thinking_repair.rs:123-219 | all a message consists of stays, in order: texts, thinking as text, tool blocks as they are or in stage two as their descriptions, any other block as it is; when there was nothing, one placeholder by role |
| ThinkingKeeps.BodyKeepsTheRest | src/service/thinking_repair.rs:75-107 | every other key of the body stays, messages that are no array, and every other key of the context management |
| ThinkingKeeps.BodyKeepsOtherEdits | src/service/thinking_repair.rs:109-121 | with thinking removed the context edits are those kept, or no list when none is |
| ThinkingKeeps.OtherEditsStay | src/service/thinking_repair.rs:112-115 | exactly the edits that do not clear thinking are kept, as often as they were there |
| ThinkingKeeps.OtherEditsKeepTheirOrder | src/service/thinking_repair.rs:112-115 | and in their order |
| OauthFlow.PercentEncode | src/service/oauth_flow.rs:590-603 | equals its specification byte by byte |
| OauthFlow.EncodingHasNoDelimiters | src/service/oauth_flow.rs:590-603 | the encoding consists of unreserved characters, percent signs and hex digits only |
| OauthFlow.EncodingIsMinimal | src/service/oauth_flow.rs:590-603 | text stays as it is exactly when it is all unreserved |
| OauthFlow.PercentDecode | src/service/oauth_flow.rs:552-579 | equals its specification, slicing panic and replacement of invalid UTF-8 included |
| OauthFlow.PanicsExactly | src/service/oauth_flow.rs:558-561 | decoding panics exactly when the third byte after some percent sign continues a character |
| OauthFlow.AsciiNeverPanics | src/service/oauth_flow.rs:552-579 | so it never does on ASCII input |
| OauthFlow.DecodeInvertsEncode | src/service/oauth_flow.rs:552-603 | decoding the encoding gives the bytes back, and the string exactly when they are valid UTF-8 |
| OauthFlow.EverySpellingDecodes | src/service/oauth_flow.rs:552-579 | however an encoder writes it (plus signs for spaces, escapes in either case, ASCII as it is) the text decodes to what was meant |
| OauthFlow.FormRoundTrip | src/service/oauth_flow.rs:552-579 | decoding inverts a form-style encoder with plus signs and lower-case escapes |
| OauthFlow.StrayPercentStays | src/service/oauth_flow.rs:558-568 | a percent sign that begins no escape, or has no two characters after it, stays as it is |
| OauthFlow.DecodeIsLenient | src/service/oauth_flow.rs:552-579 | an escape with a leading plus sign decodes like one with a leading zero |
| OauthFlow.FromHexPair | src/service/oauth_flow.rs:561-566 | two characters make a byte exactly when they are hex digits, or a plus sign and a hex digit |
| OauthFlow.ExtractQueryParam | src/service/oauth_flow.rs:539-550 | equals its specification |
| OauthFlow.ExtractRecoversFirstValue | src/service/oauth_flow.rs:539-550 | from any query built of encoded values the first matching string comes back, or nothing when no key matches |
| Utf8.LossyKeepsExactlyTheValid | src/service/oauth_flow.rs:578 | the lossy conversion is the identity exactly on valid UTF-8 |
| Utf8.LossyIsValid | src/service/oauth_flow.rs:578 | whatever the bytes, its result is valid UTF-8 |

## Left out

- Rewriting of identities, headers, fingerprints, telemetry and billing blocks, session mapping and account warming: string work over unseen formats.
- `src/store/redis.rs`: its command sequences are not atomic and have other semantics; only the in-memory cache is modelled.
- HTTP routing, SQL text, migration, configuration, web UI, the JavaScript sidecar, logging and the proxy streams around the parser.
- Upstream replies, clocks, shuffles, generators, allocator capacities and database failures are inputs.
- Ciphers, record encoding, JSON parsing and printing and line decoding are abstract functions; each installed cipher is a number never installed before.
- Floating point: costs, ratios and ages are exact reals.
- Per-minute request counters: a full quota is an input of each turn of the retry loop.
- QUIC, early data, TLS 1.2 renegotiation, certificate verification and the receiving side beyond decryption counters.
- The per-token slot of a request: it follows the same guard as the account slot and is one more holder in `SlotProtocol`.
- The five-hour cost cache: a cost is read from the surroundings of a round.
- Gateways.HandleRequest: what one turn sees (selection, flags, slot, reply) is an input, with only "not excluded and in the table" known of a selected account; sleeping times other than the queueing time are not counted.
- AccountServices.AccountService.AdmitClient: other requests act on the cache between rounds, not between the calls of one round.
- AccountServices.AccountService.AdmitAndSelect: agreement is stated for an unchanged table, unchanged costs and an unchanged binding, because an account disabled or exhausted meanwhile is rightly passed over.
- CommonStates.CommonState.SendSomePlaintext: once traffic keys exist it asks that no fragment of the bytes it takes meets the soft limit or lies past the hard one; exactly then the call returns with those bytes delivered.
- RecordLayers.RecordLayer.EncryptOutgoing: asks for an active encrypter below the hard limit, where the code asserts.
- MemoryStores.MemoryStore.QuotaCounts: both sets are read at one instant, while the source locks them one after the other, so its pair may mix two states.
- OauthRefresh.CallsUseTheLatestTokens: tokens edited by an administrator during a refresh are not modelled.
- UsageStores.UsageStore.Stats: ids are not turned into text; the order of rows with equal input tokens is not promised, as in SQL.
- UsageParsers.ChunkingIsIrrelevant: counts are those of the parsed JSON; integers outside the 64-bit range are not.
