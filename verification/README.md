# Motogram in Dafny

A model of the state machines behind the Motogram API and its mobile client, with proofs of what
every run of them keeps. Each service is a class whose fields are the database rows and Redis keys it
touches; each method is one service call at an explicit instant (`now`, in milliseconds). Its `ensures`
ties the new state to a step function, and the properties are lemmas about runs of those functions.
`dafny verify dfyconfig.toml` checks everything.

- `Calendar`, `Quests`: quest progress with lazy period resets, XP, levels and badges. The stored counter
  refines "the sum of the triggers of this period".
- `Rsvp`: event seats, the waitlist and the cached participant counter.
- `Tokens`, `SingleFlight`: refresh-token rotation, and the client's single-flight refresh against a server
  whose check, revocation and issue can be interleaved.
- `Deletion`: the 30-day account purge with its two executors, cancellation and re-request.
- `LiveIndex`, `NearbyRiders`: the sharded location index, its sweeper, and who appears on a viewer's map.
- `FixedWindow`, `SosLimiter`, `ReplayGuard`: rate limits by INCR/EXPIRE, and the nonce guard.
- `FollowPages`: keyset pagination of follower lists, also while the tables change between two pages.
- `FollowBlock`: follows, their counters, and blocks.
- `Bucketing`, `Glob`, `FeatureFlags`: weighted A/B buckets, sticky assignments and the patterns that delete them, and
  flags stored as strings.
- `Conversations`: unique direct conversations, one chat per community, and conversations that are never empty.
- `Prelude`: options, expiring keys and facts about finite sets.

A Redis key written with an expiry counts as present at its expiry instant.

## Where code and comments disagree

The model follows the code.

- The sweeper is documented with a threshold of five minutes. Its ping keys live 30 seconds, so a rider
  whose last ping is older than 30 seconds is removed (`LiveIndex.ThirtySecondsDecide`).
- The privacy rule says that a block hides in every case. A shared party is checked first, so a blocked
  rider in the viewer's party can be shown (`NearbyRiders.BlockHidesExactly`, `NearbyRiders.BlockedButShown`).
- "Three alerts per ten minutes" holds per window; an interval of ten minutes can hold five, because two
  windows can touch (`SosLimiter.FiveAlertsPerTenMinutes`, `FixedWindow.IntervalBoundIsTight`).
- A/B assignments are documented to last while the order of the variants does not change. They last as long
  as the assigned id stays in the configuration, in any order, and no deletion reaches them
  (`Bucketing.AssignmentSticks`). Deleting one test is meant to clear its own assignments. The key becomes part
  of a pattern and is not validated, so a star as the key clears those of all tests (`Bucketing.StarDropsAll`).
- Everybody in a community is said to take part in its chat. A member is added only by creating it
  (`Conversations.CommunityChatJoinsExactly`).
- The waitlist is promoted when somebody answers NOT_GOING, not when a seat is given up for INTERESTED
  or WAITLIST (`Rsvp.ConservingExactly`, `Rsvp.InterestedStrandsWaiter`). A row that was INTERESTED keeps its
  `joinedAt` and can enter the queue ahead of a waiter (`Rsvp.JumpsAheadExactly`, `Rsvp.InterestedJumpsQueue`).
- The deletion processor does not compare `scheduledFor`. The 30 days hold exactly as long as no older job
  of the user is left in the queue (`Deletion.RequestTimelyExactly`, `Deletion.LostCancelPurgesEarly`).
- Following an accepted user again moves the counters again; nothing takes that back
  (`FollowBlock.CountersRightExactly`, `FollowBlock.FollowingTwice`).
- The client's store sets and clears tokens and user id together. A refresh that is in flight at a sign-out still
  stores the tokens of its answer, without a user (`SingleFlight.AlwaysNamedExactly`,
  `SingleFlight.SignOutInFlight`).

## Model

| member | source | states |
|---|---|---|
| Calendar.YearStart | apps/api/src/modules/gamification/gamification.service.ts:289-310 | the month table behind the UTC date calls agrees with the closed form of ECMAScript's DayFromYear for every year |
| Calendar.DateArithmetic | apps/api/src/modules/gamification/gamification.service.ts:294-304 | moving the date or month of a Date carries over month and year ends |
| Calendar.MidnightAfter | apps/api/src/modules/gamification/gamification.service.ts:293-301 | clearing the time and moving the date gives midnight that many days later |
| Calendar.FirstOfMonthAfter | apps/api/src/modules/gamification/gamification.service.ts:303-306 | moving the month first and clearing the time after gives the first midnight of the next month |
| Calendar.NextResetAt | apps/api/src/modules/gamification/gamification.service.ts:289-310 | the Date-mutating code returns the least UTC day, Sunday or month boundary strictly after its argument, and nothing without a period |
| Calendar.NextResetIsLeast | apps/api/src/modules/gamification/gamification.service.ts:289-310 | the next reset is a boundary, later than the instant, with no boundary between, also from a boundary and across December |
| Calendar.SamePeriodUntilReset | apps/api/src/modules/gamification/gamification.service.ts:85-87 | a later instant shares the period exactly as long as the reset is not reached |
| Quests.LevelBracket | apps/api/src/modules/gamification/gamification.service.ts:27-29 | the level is the unique n with 50(n-1)^2 <= xp < 50n^2 |
| Quests.GamificationService.constructor | apps/api/src/modules/gamification/gamification.service.ts:77-79 | a new user has level 1, no XP, no progress |
| Quests.GamificationService.TriggerQuestRow | apps/api/src/modules/gamification/gamification.service.ts:75-153 | the loop body stores and pays what one trigger of the quest stores and pays in the step function |
| Quests.GamificationService.TriggerQuest | apps/api/src/modules/gamification/gamification.service.ts:65-192 | a call is the succession of the triggers of its quests, with increment 1 by default |
| Quests.RunAppend | apps/api/src/modules/gamification/gamification.service.ts:65-192 | calls compose: what two calls do is what their triggers do one after the other |
| Quests.XpLedger | apps/api/src/modules/gamification/gamification.service.ts:116-153 | XP is its start plus everything paid, the level is always that of the XP, and each award quotes the balance it led to |
| Quests.BadgeLedger | apps/api/src/modules/gamification/gamification.service.ts:128-143 | a badge is held iff held before or unlocked by an award; its recorded source never changes |
| Quests.RunProjects | apps/api/src/modules/gamification/gamification.service.ts:75-114 | a quest's row and payments depend on its own triggers only |
| Quests.LazyResetCountsPerPeriod | apps/api/src/modules/gamification/gamification.service.ts:81-112 | the counter of a repeatable quest is the sum of the increments in the period of the latest trigger, and resetAt is that period's end |
| Quests.RepeatablePayments | apps/api/src/modules/gamification/gamification.service.ts:92-114 | a repeatable quest pays at a trigger iff the period's sum is at or past the target |
| Quests.OneTimePayment | apps/api/src/modules/gamification/gamification.service.ts:92-114 | a non-repeatable quest pays exactly at the first crossing of its target |
| Quests.OneTimeQuestPaysOnce | apps/api/src/modules/gamification/gamification.service.ts:92-114 | it pays once if the target was ever reached, else never |
| Quests.RowIsLog | apps/api/src/modules/gamification/gamification.service.ts:75-119 | a row is the function of its trigger log that sums the period, or up to the target, and keeps the last instant that earned the reward |
| Quests.EngineRefinesLog | apps/api/src/modules/gamification/gamification.service.ts:65-192 | over whole runs with other quests interleaved, every field of a quest's row (progress, completed, completedAt, resetAt) is that of its trigger log, and a one-time quest pays once if its log reached the target, else never |
| Quests.PrizesFromLog | apps/api/src/modules/gamification/gamification.service.ts:119-153 | over any run the awards are those of the steps that earn one, in their order, each with its quest's XP and badge |
| Quests.BadgesFromLog | apps/api/src/modules/gamification/gamification.service.ts:128-143 | a badge is held iff it was before or a step of the run earned a reward with it; its source is the quest of the first such step |
| Quests.BadgeHeldExactly | apps/api/src/modules/gamification/gamification.service.ts:65-153 | who holds a badge after a run: whoever did before, or won a quest that gives it (reached its target, for a repeatable one within a period) |
| Quests.LateUpsertPaysExactly | apps/api/src/modules/gamification/gamification.service.ts:77-119 | a trigger with a row read earlier pays a one-time quest again iff that row was not completed and the increment reaches the target from it |
| Quests.SameReadPaysTwiceExactly | apps/api/src/modules/gamification/gamification.service.ts:77-119 | two triggers with the same read both pay iff each alone would, and one increment is lost |
| Rsvp.EventService.constructor | apps/api/src/modules/event/event.service.ts:41-72 | the organizer takes the first seat and the counter is 1 |
| Rsvp.EventService.FindFirstWaiting | apps/api/src/modules/event/event.service.ts:201-204 | finds a waiter of least joinedAt iff somebody waits |
| Rsvp.EventService.Rsvp | apps/api/src/modules/event/event.service.ts:173-270 | every branch: what is deleted, updated, created, promoted and counted, and what is answered |
| Rsvp.OwnRow | apps/api/src/modules/event/event.service.ts:182-267 | the caller's row: gone after NOT_GOING, as asked for after INTERESTED or WAITLIST, and after GOING a seat iff the event is unlimited, has one free, or the caller's fits; joinedAt is that of the first answer |
| Rsvp.OtherRows | apps/api/src/modules/event/event.service.ts:186-219 | no other row changes but the promoted waiter's, which becomes GOING in its place |
| Rsvp.CounterFollows | apps/api/src/modules/event/event.service.ts:186-267 | the counter moves by the change in the number of GOING rows |
| Rsvp.GoingAfter | apps/api/src/modules/event/event.service.ts:186-267 | who holds a seat changes by the caller and the promoted waiter only |
| Rsvp.WaitingAfter | apps/api/src/modules/event/event.service.ts:186-267 | who waits changes by the caller and the promoted waiter only |
| Rsvp.RsvpKeepsCount | apps/api/src/modules/event/event.service.ts:173-270 | the counter stays the number of GOING rows, no NOT_GOING row is stored, and GOING never exceeds the larger of its old value and the maximum |
| Rsvp.CreatedIsConsistent | apps/api/src/modules/event/event.service.ts:41-72 | a new event holds the organizer's seat alone under the given limit, with an exact counter, free capacity and an empty waitlist |
| Rsvp.LateSeatExactly | apps/api/src/modules/event/event.service.ts:223-265 | storing a seat that was granted earlier respects the capacity iff the user has a seat or one is still free |
| Rsvp.CapacityOnEveryRun | apps/api/src/modules/event/event.service.ts:173-270 | capacity and exact counter hold after any sequence of RSVPs |
| Rsvp.ConservingExactly | apps/api/src/modules/event/event.service.ts:194-251 | nobody waits beside a free seat, exactly unless a seat is left for INTERESTED while others wait, or WAITLIST is asked for with a seat free |
| Rsvp.WorkConservingRun | apps/api/src/modules/event/event.service.ts:186-251 | a non-empty waitlist means exactly full in every state of a run iff no request of the run wastes a seat |
| Rsvp.GoingRunsWasteNothing | apps/api/src/modules/event/event.service.ts:186-232 | GOING and NOT_GOING requests waste no seat |
| Rsvp.NoOvertaking | apps/api/src/modules/event/event.service.ts:200-232 | whoever is seated is at least as old as everybody still waiting |
| Rsvp.PlaceKept | apps/api/src/modules/event/event.service.ts:234-267 | a user that asks for nothing but GOING keeps its seat or place in the queue, with its joinedAt |
| Rsvp.SeatKept | apps/api/src/modules/event/event.service.ts:234-267 | a seat is kept over any run in which its holder asks for nothing but GOING |
| Rsvp.FirstComeFirstServed | apps/api/src/modules/event/event.service.ts:186-251 | on runs that waste no seat, of two waiters that stay in line the later one is never seated before the earlier |
| Rsvp.JumpsAheadExactly | apps/api/src/modules/event/event.service.ts:222-259 | a request puts somebody ahead of a waiter iff it stores a row as waiting that was not, with an earlier or equal joinedAt |
| Rsvp.QueueMoves | apps/api/src/modules/event/event.service.ts:194-259 | unless somebody jumps ahead, nobody gets ahead of a waiter and a departure seats it or somebody ahead of it |
| Rsvp.ServedAfterDepartures | apps/api/src/modules/event/event.service.ts:186-259 | a waiter with k ahead that stays in line is seated after at most k + 1 departures, on every run in which nobody jumps ahead of it |
| Rsvp.GoingRunsNeverJump | apps/api/src/modules/event/event.service.ts:186-259 | on GOING/NOT_GOING runs with later stamps nobody jumps ahead |
| Rsvp.InterestedStrandsWaiter | apps/api/src/modules/event/event.service.ts:246-251 | a concrete event with a free seat and a waiter |
| Rsvp.InterestedJumpsQueue | apps/api/src/modules/event/event.service.ts:235-239 | a concrete event where an INTERESTED row enters the queue ahead of an older waiter |
| Tokens.TokenService.IssueTokenPair | apps/api/src/modules/auth/token.service.ts:43-68 | the new refresh token, and only it, becomes live |
| Tokens.TokenService.RevokeRefresh | apps/api/src/modules/auth/token.service.ts:78-80 | one token stops being live |
| Tokens.TokenService.RevokeAllForUser | apps/api/src/modules/auth/token.service.ts:82-84 | all and only the user's tokens stop being live, and their number is returned |
| Tokens.AuthService.Refresh | apps/api/src/modules/auth/auth.service.ts:213-256 | error by error when no pair is given; a presented refresh token never survives, a new pair needs it live and the user active |
| Tokens.AuthService.Logout | apps/api/src/modules/auth/auth.service.ts:258-272 | what a logout revokes on one or all devices; an unverifiable token changes nothing |
| Tokens.AuthService.ChangePassword | apps/api/src/modules/auth/auth.service.ts:275-303 | when no refresh interleaves, a changed password ends all sessions of this user and no other, a refused one none |
| SingleFlight.ApiClient.BeginRefresh | apps/mobile-native/src/lib/api-client.ts:25-30 | joins the refresh in flight, gives up without a token, or starts one |
| SingleFlight.ApiClient.Settle | apps/mobile-native/src/lib/api-client.ts:37-47 | stores both tokens of an answer, and in any case ends the flight |
| SingleFlight.ApiClient.Resume | apps/mobile-native/src/lib/api-client.ts:109-118 | retries after a refresh, else clears tokens and user |
| SingleFlight.AnswerStored | apps/mobile-native/src/lib/api-client.ts:37-47 | an answer with a pair is stored in both places and handed to those who wait; one without leaves what is stored |
| SingleFlight.UnauthorizedWaits | apps/mobile-native/src/lib/api-client.ts:25-37 | a 401 waits for the call in flight, or for a new one with the stored refresh token, or, without a token, for nothing |
| SingleFlight.ResumeStored | apps/mobile-native/src/lib/api-client.ts:109-118 | a request that resumes without a pair leaves nothing stored; with one it changes nothing |
| SingleFlight.AlwaysPaired | apps/mobile-native/src/lib/api-client.ts:40-41 | the two stored tokens are of one pair in every state of every run |
| SingleFlight.AlwaysNamedExactly | apps/mobile-native/src/store/auth.store.ts:32-53 | the stored user id names the user of the stored tokens in every state of a run iff no answer brings a pair for a user who is not, or no longer, signed in |
| SingleFlight.SignOutInFlight | apps/mobile-native/src/store/auth.store.ts:43-53 | a run from sign-in in which that happens: tokens are stored without a user |
| SingleFlight.SubStepsMakeRefresh | apps/api/src/modules/auth/auth.service.ts:231-255 | check, revoke and issue in a row do to the live tokens what the refresh call does |
| SingleFlight.CheckExclusiveExactly | apps/api/src/modules/auth/auth.service.ts:231-241 | a check keeps calls exclusive iff no other call is past its check of the same token |
| SingleFlight.AloneRunIsSafe | apps/api/src/modules/auth/auth.service.ts:231-255 | calls are exclusive in every state of a run iff every check that succeeds is alone; then each token is exchanged at most once, whatever else interleaves |
| SingleFlight.HarmlessExactly | apps/api/src/modules/auth/auth.service.ts:231-255 | the calls under way can only go on to one pair per token iff each is past its check with a token of its own that is not exchanged yet |
| SingleFlight.NeverDoublesExactly | apps/api/src/modules/auth/auth.service.ts:231-255 | over whole runs no token can be exchanged for two pairs iff every check that succeeds is alone |
| SingleFlight.LoseExactly | apps/mobile-native/src/lib/api-client.ts:43-47 | giving up on the awaited call keeps refreshes from overlapping iff the server has answered it |
| SingleFlight.SingleFlightRun | apps/mobile-native/src/lib/api-client.ts:23-50 | if every call given up had been answered, only the awaited call can be unanswered, so every check is alone |
| SingleFlight.NeverOverlapsExactly | apps/mobile-native/src/lib/api-client.ts:23-50 | refreshes never overlap in any state of a run iff every call given up had been answered |
| SingleFlight.OnePairPerToken | apps/mobile-native/src/lib/api-client.ts:23-50 | from sign-up on, for any number of concurrent 401s and any responses lost on their way back: refreshes never overlap, and no refresh token is or can still be exchanged for two pairs |
| SingleFlight.StoredTokenIsLive | apps/mobile-native/src/lib/api-client.ts:23-50 | with no lost response or revocation the stored token is live whenever no refresh is in flight, and every awaited refresh brought a pair |
| SingleFlight.OverlapIssuesTwice | apps/api/src/modules/auth/auth.service.ts:231-255 | two calls past the check of one token end in two pairs for it |
| SingleFlight.AbandonedCallDoublesPair | apps/mobile-native/src/lib/api-client.ts:43-47 | a run from sign-up in which a call given up before it was answered leads to two pairs for one token |
| SingleFlight.RevokeAllEndsExactly | apps/api/src/modules/auth/auth.service.ts:297-303 | revoking all tokens of a user, as a password change does, ends its sessions until it signs in again iff no refresh with one of its tokens is past its check |
| Deletion.DeletionQueue.EnqueueDelayed | apps/api/src/modules/account/deletion.queue.ts:86-103 | a job per user and schedule, delayed by the given time; a known id adds nothing |
| Deletion.DeletionQueue.CancelByJobId | apps/api/src/modules/account/deletion.queue.ts:105-115 | removes exactly the named job |
| Deletion.AccountService.constructor | apps/api/src/modules/account/account.service.ts:75-86 | no deletion is pending at the start |
| Deletion.AccountService.RequestDeletion | apps/api/src/modules/account/account.service.ts:75-137 | an unknown user fails, a pending request is returned unchanged, else the user is marked, the record renewed and a job queued if the queue can be reached |
| Deletion.AccountService.CancelDeletionOnLogin | apps/api/src/modules/account/account.service.ts:142-166 | cancels iff a request is pending: restores the user, marks the record, removes the recorded job |
| Deletion.AccountService.CancelDeletion | apps/api/src/modules/account/account.service.ts:168-197 | the same by hand, with its error and its idempotence |
| Deletion.AccountService.LogIn | apps/api/src/modules/auth/auth.service.ts:168-206 | a login is let through unless the account is past its grace period, and cancels what is pending |
| Deletion.AccountService.ProcessJob | apps/api/src/modules/account/account.service.ts:59-72 | deletes the user iff its record is pending, without looking at the schedule |
| Deletion.AccountService.ExecuteDeletions | apps/api/src/modules/account/account.service.ts:219-248 | deletes exactly the due users whose deletion does not fail, and counts both kinds |
| Deletion.StateRepeatsLog | apps/api/src/modules/account/account.service.ts:90-154 | deletedAt is set iff the log of calls holds an uncancelled request, which the record repeats with its schedule |
| Deletion.LoginDecided | apps/api/src/modules/auth/auth.service.ts:168-206 | from the log: a login is let through iff nothing is pending or the latest request is less than 30 days old, and then nothing is pending and deletedAt is cleared |
| Deletion.OthersKept | apps/api/src/modules/account/account.service.ts:75-197 | a call about one user leaves every other user and record as they were |
| Deletion.CancelMarks | apps/api/src/modules/account/account.service.ts:142-166 | a cancellation clears deletedAt, stamps the record and takes exactly the recorded job off a reachable queue, or does nothing |
| Deletion.QueueFromLog | apps/api/src/modules/account/account.service.ts:87-166 | for every user still there: a job is queued iff an accepted request with the queue reachable added it and it was neither handed out nor cancelled as the recorded one since; the record names the latest such job |
| Deletion.StatusFromLog | apps/api/src/modules/account/account.service.ts:213-275 | what the status endpoint answers, from the log: the pending request, its schedule and the days left |
| Deletion.RequestTimelyExactly | apps/api/src/modules/account/account.service.ts:87-123 | a new request is safe from early jobs iff no older job of the user would fire before its schedule |
| Deletion.UncleanRequestPurgedEarly | apps/api/src/modules/account/account.service.ts:59-72 | otherwise the older job is obeyed and purges the account early |
| Deletion.TimelyRun | apps/api/src/modules/account/account.service.ts:59-248 | no queued job of a pending request fires before its schedule, in any state of a run, iff every accepted request of the run is clean |
| Deletion.NoPrematurePurge | apps/api/src/modules/account/account.service.ts:59-248 | over clean runs a user is only deleted 30 days or more after its latest uncancelled request |
| Deletion.ReliableRunIsClean | apps/api/src/modules/account/account.service.ts:155-163 | if cancellations reach the queue, every request is clean |
| Deletion.ThirtyDays | apps/api/src/modules/account/account.service.ts:59-248 | so the 30 days hold on every run whose cancellations reach the queue |
| Deletion.PurgeComes | apps/api/src/modules/account/account.service.ts:59-72 | while the queue can be reached, a request that nobody cancels has its job 30 days later, and the job as well as the batch delete the user |
| Deletion.LostCancelPurgesEarly | apps/api/src/modules/account/account.service.ts:155-163 | a concrete run in which a lost cancellation purges ten days after the second request |
| Deletion.DaysRemaining | apps/api/src/modules/account/account.service.ts:268-275 | the days shown are the least whole number after which the schedule is reached |
| LiveIndex.LocationService.UpdateLocation | apps/api/src/modules/location/location.service.ts:42-119 | banned, rate-limited, sharing off and stored updates: what each changes and answers |
| LiveIndex.LocationService.RemoveFromRedis | apps/api/src/modules/location/location.service.ts:321-329 | removes the rider from one shard, and its ping |
| LiveIndex.LocationService.Zombies | apps/api/src/modules/location/location.service.ts:290-297 | the members without a live ping no older than the threshold |
| LiveIndex.LocationService.SweepShard | apps/api/src/modules/location/location.service.ts:279-309 | removes exactly these from one shard and counts members and removals |
| LiveIndex.LocationService.SweepZombies | apps/api/src/modules/location/location.service.ts:271-316 | the nested loop sweeps every indexed shard; removed, scanned and shardsChecked are the true totals |
| LiveIndex.AlwaysCovered | apps/api/src/modules/location/location.service.ts:89-109 | on every run each shard with a member is named by the shard index |
| LiveIndex.SweepIsExact | apps/api/src/modules/location/location.service.ts:271-316 | then a sweep keeps exactly the entries of live riders, over all shards |
| LiveIndex.PingsRepeatLog | apps/api/src/modules/location/location.service.ts:89-100 | the ping key of a rider repeats its latest stored update, unless it was removed after it |
| LiveIndex.ThirtySecondsDecide | apps/api/src/modules/location/location.service.ts:271-316 | on every run in time order a sweep keeps exactly the entries of riders whose latest stored update is at most 30 seconds old and was not followed by a removal |
| LiveIndex.RemovedThenSwept | apps/api/src/modules/location/location.service.ts:321-329 | whoever was removed from one shard is in no shard after the next sweep |
| LiveIndex.RateRefinesLimiter | apps/api/src/modules/location/location.service.ts:56-62 | a rider's counter is the fixed-window counter of its unbanned updates |
| LiveIndex.OneUpdatePerSecond | apps/api/src/modules/location/location.service.ts:56-71 | updates let through are more than a second apart, and one is refused iff the last was within a second |
| LiveIndex.OutcomeFromLog | apps/api/src/modules/location/location.service.ts:49-118 | what an update is answered, from the log: refused within a second of the last one let through, then refused if sharing is off without a party, else stored; the shard is that of the update's city, else the user's |
| LiveIndex.SameShardExactly | apps/api/src/modules/location/location.constants.ts:7-12 | two cities share a shard iff their normalised names are equal; no city and an empty one are the same |
| LiveIndex.EntriesFromLog | apps/api/src/modules/location/location.service.ts:89-103 | a rider is in a shard iff one of its stored updates put it there and neither a removal from this shard nor a sweep that found it not recent took it out since |
| LiveIndex.AfterSweep | apps/api/src/modules/location/location.service.ts:271-316 | after a sweep exactly those of them are left whose latest stored update is recent |
| LiveIndex.IndexFromLog | apps/api/src/modules/location/location.service.ts:103 | the shard index names exactly the shards some update was stored in |
| NearbyRiders.QueryNearbyRaw | apps/api/src/modules/location/location.service.ts:152-187 | joins the search rows with their live status hashes, in order |
| NearbyRiders.StatusReadBack | apps/api/src/modules/location/location.service.ts:90-98 | what a stored update writes to the status hash is what the map reads back |
| NearbyRiders.MutualFollowerIds | apps/api/src/modules/map/map.service.ts:96-113 | exactly the users with accepted follows both ways |
| NearbyRiders.CanView | apps/api/src/modules/location/location.service.ts:208-251 | outside a shared party: no block either way, and a mode that grants it |
| NearbyRiders.ChecksDecide | apps/api/src/modules/map/map.service.ts:49-73 | the checks of the loop, in its order, amount to the declarative visibility |
| NearbyRiders.GetNearbyRiders | apps/api/src/modules/map/map.service.ts:21-91 | the result is the visible part of the raw result, in its order |
| NearbyRiders.ShownExactly | apps/api/src/modules/map/map.service.ts:47-85 | a card is shown iff it is that of a visible rider |
| NearbyRiders.OrderKept | apps/api/src/modules/map/map.service.ts:47-85 | the cards are the search rows thinned out: nothing reordered or repeated |
| NearbyRiders.NearestFirst | apps/api/src/modules/map/map.service.ts:21-91 | a search sorted by distance gives cards sorted by distance |
| NearbyRiders.EndToEnd | apps/api/src/modules/map/map.service.ts:21-91 | a search row becomes a card iff its status is live and makes the rider visible |
| NearbyRiders.MapFromTables | apps/api/src/modules/map/map.service.ts:21-91 | from the tables and status hashes alone: a card is shown iff its rider was found, has a live status, is neither the viewer nor deleted or banned, passes the filter, and shares the viewer's party or has no block either way and a mode that admits the viewer; its name and party are those stored |
| NearbyRiders.WideningHidesNobody | apps/api/src/modules/location/location.service.ts:217-250 | widening sharing modes hides nobody |
| NearbyRiders.WidthDecides | apps/api/src/modules/location/location.service.ts:217-250 | one mode grants whatever another does iff it is at least as wide in PUBLIC over FOLLOWERS_ONLY over MUTUAL_FOLLOWERS over the rest |
| NearbyRiders.BlockHidesExactly | apps/api/src/modules/location/location.service.ts:215-223 | a blocked rider is shown iff the two share a party and the FRIENDS filter, if set, lets it through |
| NearbyRiders.BlockedButShown | apps/api/src/modules/location/location.service.ts:215-216 | a concrete blocked rider, sharing nothing, that is shown to a party member |
| NearbyRiders.OfflineHidden | apps/api/src/modules/location/location.service.ts:321-329 | a rider whose status holds only the offline mark is shown to nobody |
| FixedWindow.IntervalBound | apps/api/src/modules/emergency/emergency.service.ts:100-116 | any closed interval of one window length holds at most 2 * limit - 1 passed calls |
| FixedWindow.PerWindowBound | apps/api/src/modules/emergency/emergency.service.ts:100-116 | at most limit calls pass per window |
| FixedWindow.RejectionDoesNotExtend | apps/api/src/modules/emergency/emergency.service.ts:100-116 | a call passes iff the window is over or not used up, and rejected calls do not move the expiry |
| FixedWindow.WindowFromCalls | apps/api/src/modules/emergency/emergency.service.ts:100-116 | the counter is the number of calls since the one that opened the window, and a call passes iff it is among the first `limit` of them |
| FixedWindow.IntervalBoundIsTight | apps/api/src/modules/emergency/emergency.service.ts:100-116 | for every limit, a trace that puts 2 * limit - 1 passed calls into one interval |
| FixedWindow.OneAtATime | apps/api/src/modules/location/location.service.ts:56-62 | with a limit of one, passed calls are more than a window apart and the expiry follows the last |
| FixedWindow.OneAtATimeNext | apps/api/src/modules/location/location.service.ts:56-62 | with a limit of one a call passes iff none passed within a window before it |
| SosLimiter.EmergencyService.CreateAlert | apps/api/src/modules/emergency/emergency.service.ts:76-116 | the checks in order, the counter, the lock and the rows each outcome leaves |
| SosLimiter.EmergencyService.FlagFalseAlarm | apps/api/src/modules/emergency/emergency.service.ts:442-471 | an audit entry iff the lock was free |
| SosLimiter.TraceCounts | apps/api/src/modules/emergency/emergency.service.ts:81-116 | banned users and short taps never touch the counter |
| SosLimiter.VerdictFromLog | apps/api/src/modules/emergency/emergency.service.ts:81-116 | from the calls alone: banned users and short taps are turned away, and of the others exactly the first three of a window alert |
| SosLimiter.FiveAlertsPerTenMinutes | apps/api/src/modules/emergency/emergency.service.ts:100-116 | any 600 seconds hold at most five alerts |
| SosLimiter.OneAuditPerWindow | apps/api/src/modules/emergency/emergency.service.ts:442-471 | two audit entries are more than 600 seconds apart, each from a call beyond the third |
| SosLimiter.AuditsFromLog | apps/api/src/modules/emergency/emergency.service.ts:442-471 | from the calls alone: of the rate-limited calls exactly those more than 600 seconds after the last entry are audited, with the count of their window |
| ReplayGuard.InternalTokenGuard.CanActivate | apps/api/src/common/guards/internal-token.guard.ts:27-67 | the verdict check by check, and the nonce stored by an acceptance only |
| ReplayGuard.VerdictFromLog | apps/api/src/common/guards/internal-token.guard.ts:27-67 | the verdict on a request from the requests before it: incomplete, stale, misconfigured, badly signed, replayed iff its nonce was accepted at most the lifetime earlier, else accepted |
| ReplayGuard.AcceptedIsFresh | apps/api/src/common/guards/internal-token.guard.ts:32-58 | accepted requests are complete, within 30 seconds and signed |
| ReplayGuard.NonceSpacing | apps/api/src/common/guards/internal-token.guard.ts:60-64 | two acceptances of a nonce are further apart than its lifetime |
| ReplayGuard.AcceptedOnce | apps/api/src/common/guards/internal-token.guard.ts:35-64 | over any run a signed timestamp and nonce are accepted at most once |
| ReplayGuard.ShorterLifetimeReplays | apps/api/src/common/guards/internal-token.guard.ts:35-64 | any shorter nonce lifetime lets a request in twice |
| ReplayGuard.OneReading | apps/api/src/common/guards/internal-token.guard.ts:47-48 | a signed text has one reading without dots in timestamp and nonce |
| ReplayGuard.TextAcceptedOnce | apps/api/src/common/guards/internal-token.guard.ts:46-64 | over any run a signed text is accepted at most once if timestamps and nonces contain no dot |
| ReplayGuard.OtherReadingExactly | apps/api/src/common/guards/internal-token.guard.ts:46-64 | another fresh reading of an accepted text is accepted next iff its nonce differs and is not remembered |
| ReplayGuard.DottedNonceReplays | apps/api/src/common/guards/internal-token.guard.ts:46-64 | a nonce with a dot gives such a reading whenever the longer timestamp is fresh |
| FollowPages.ViewerBlockedPeerIds | apps/api/src/modules/follows/follows.service.ts:204-218 | exactly the users blocked by or blocking the viewer |
| FollowPages.SelectContinues | apps/api/src/modules/follows/follows.service.ts:154-191 | selecting behind the id of a selected row gives exactly the rows after it |
| FollowPages.PageIsNext | apps/api/src/modules/follows/follows.service.ts:235-269 | a page holds the next rows, and a cursor iff there are more, at its last row |
| FollowPages.WalkNeverRepeats | apps/api/src/modules/follows/follows.service.ts:154-191 | whatever changes between requests, a walk lists rows in id order and each at most once |
| FollowPages.WalkMissesNobody | apps/api/src/modules/follows/follows.service.ts:154-191 | a finished walk lists every row that matched throughout |
| FollowPages.WalkListsOnlyMatches | apps/api/src/modules/follows/follows.service.ts:154-191 | nothing is listed that did not match when its page was read |
| FollowPages.StillWalk | apps/api/src/modules/follows/follows.service.ts:235-269 | n requests on unchanged tables list the first n * limit rows, and are done iff there are no more |
| FollowPages.WalkIsTheList | apps/api/src/modules/follows/follows.service.ts:154-191 | with enough requests the walk is exactly the matching, unblocked, accepted rows in id order, for every page size |
| FollowPages.ShownExactly | apps/api/src/modules/follows/follows.service.ts:154-269 | from the tables alone: a finished walk shows a user iff an accepted follow puts it on the list and no block either way stands between it and the viewer, marked iff the viewer follows it; a profile that is gone shows nobody |
| FollowPages.OwnListAllFollowed | apps/api/src/modules/follows/follows.service.ts:220-269 | in one's own following list every item is marked as followed |
| FollowPages.CheckIsFollowingUser | apps/mobile-native/src/api/follows.api.ts:28-37 | true iff the target is on the pages walked in ten requests of fifty, also while tables change |
| FollowPages.FirstFiveHundred | apps/mobile-native/src/api/follows.api.ts:27-37 | on unchanged tables: true iff the target is among the first 500 |
| FollowPages.CheckAgrees | apps/mobile-native/src/api/follows.api.ts:27-37 | a followed user is found iff fewer than 500 listed rows have smaller ids |
| FollowBlock.FollowsService.Follow | apps/api/src/modules/follows/follows.service.ts:59-119 | its errors, the stored status and both counters |
| FollowBlock.FollowsService.Unfollow | apps/api/src/modules/follows/follows.service.ts:121-144 | removes the row and takes back both counters of an accepted follow |
| FollowBlock.BlocksService.BlockUser | apps/api/src/modules/blocks/blocks.service.ts:39-65 | removes both follows, then stores the block |
| FollowBlock.BlocksService.UnblockUser | apps/api/src/modules/blocks/blocks.service.ts:67-71 | removes this block and nothing else |
| FollowBlock.TablesFromLog | apps/api/src/modules/follows/follows.service.ts:59-144 | every follow (with its status), block and profile in the tables is the one the log of calls gives |
| FollowBlock.FollowAnswers | apps/api/src/modules/follows/follows.service.ts:59-103 | what a follow answers, from the log: itself, unknown or inactive, blocked either way, pending for a private account, else accepted |
| FollowBlock.BlocksExclude | apps/api/src/modules/blocks/blocks.service.ts:39-71 | in every state of every run no blocked pair has a follow in either direction |
| FollowBlock.LateCommitExactly | apps/api/src/modules/follows/follows.service.ts:76-107 | the transaction alone keeps this iff no block exists when it commits |
| FollowBlock.ExcessStep | apps/api/src/modules/follows/follows.service.ts:90-143 | a step moves a user's counters away from its accepted follows iff it repeats an accepted follow |
| FollowBlock.CountersDrift | apps/api/src/modules/follows/follows.service.ts:90-143 | on every run the counters are the accepted follows plus the repeated follows |
| FollowBlock.CountersRightExactly | apps/api/src/modules/follows/follows.service.ts:90-143 | both counters are right iff no follow of or by the user was repeated |
| FollowBlock.UnfollowUndoesExactly | apps/api/src/modules/follows/follows.service.ts:121-144 | unfollowing undoes a follow iff there was no row before |
| FollowBlock.FollowingTwice | apps/api/src/modules/follows/follows.service.ts:90-107 | a concrete run with one follow and a counter of two |
| Bucketing.OneOwner | apps/api/src/modules/ab-test/ab-test.service.ts:112-121 | every bucket below the total weight has exactly one variant |
| Bucketing.PickVariant | apps/api/src/modules/ab-test/ab-test.service.ts:110-125 | the loop returns the variant that owns the hash bucket; its fallback is never reached |
| Bucketing.BucketsMatchWeights | apps/api/src/modules/ab-test/ab-test.service.ts:110-125 | each variant owns exactly weight-many buckets |
| Bucketing.SharesMatchWeights | apps/api/src/modules/ab-test/ab-test.service.ts:110-125 | of n hash prefixes a variant of weight w gets between w * (n / total) and w * (n / total + 1) |
| Bucketing.SharesOfATest | apps/api/src/modules/ab-test/ab-test.service.ts:110-125 | its exact share of all 2^32 prefixes in a stored test |
| Bucketing.AbTestService.Upsert | apps/api/src/modules/ab-test/ab-test.service.ts:27-38 | stores the configuration under its key and touches no assignment |
| Bucketing.AbTestService.Delete | apps/api/src/modules/ab-test/ab-test.service.ts:40-48 | removes the configuration and the assignments its pattern matches |
| Bucketing.AbTestService.Assign | apps/api/src/modules/ab-test/ab-test.service.ts:82-107 | not found, disabled, cached and newly picked answers, and what is stored |
| Bucketing.ConfigFromLog | apps/api/src/modules/ab-test/ab-test.service.ts:27-62 | a configuration is stored under a key iff it was put there last and nobody has removed it since |
| Bucketing.AnsweredExactly | apps/api/src/modules/ab-test/ab-test.service.ts:82-125 | the answer from the stored texts: the assignment of this user and test if a variant has its id, else the owner of the bucket of key and user, which is stored; a disabled test answers with its first variant; nothing else changes |
| Bucketing.InputsDistinct | apps/api/src/modules/ab-test/ab-test.service.ts:113 | no two users and no two tests share a hash input |
| Bucketing.SlotsApart | apps/api/src/modules/ab-test/ab-test.service.ts:43-46 | deleting under a key without pattern characters reaches the assignments of that test and of no other |
| Bucketing.ReachIsRelative | apps/api/src/modules/ab-test/ab-test.service.ts:43-46 | what a deletion reaches depends on the two keys and the user only |
| Bucketing.SlotsDistinct | apps/api/src/modules/ab-test/ab-test.service.ts:95-96 | assignments of different users or tests have different keys |
| Bucketing.StaysExactly | apps/api/src/modules/ab-test/ab-test.service.ts:40-107 | a stored assignment survives a step iff no deletion, under whatever key, reaches it and the user does not ask while its id is gone |
| Bucketing.AssignmentSticks | apps/api/src/modules/ab-test/ab-test.service.ts:95-107 | it survives every run that keeps its id in the configuration and in which no deletion reaches it |
| Bucketing.SameAnswerAgain | apps/api/src/modules/ab-test/ab-test.service.ts:82-107 | the user then gets the same variant again, or the first one while the test is disabled |
| Bucketing.StarReachesAll | apps/api/src/modules/ab-test/ab-test.controller.ts:42-47 | the pattern built from a star matches every assignment of every test |
| Bucketing.StarDropsAll | apps/api/src/modules/ab-test/ab-test.controller.ts:42-47 | the delete endpoint does not validate its key: under a star it drops whatever any test assigned |
| Glob.PlainStrips | apps/api/src/modules/ab-test/ab-test.service.ts:43 | text without pattern characters stands for itself in a KEYS pattern |
| Glob.PlainThenStar | apps/api/src/modules/ab-test/ab-test.service.ts:43 | such a text followed by a star matches exactly what starts with it |
| FeatureFlags.SplitJoin | apps/api/src/modules/feature-flag/feature-flag.service.ts:50-52 | splitting joined ids gives them back |
| FeatureFlags.DecimalReadBack | apps/api/src/modules/feature-flag/feature-flag.service.ts:47-49 | a stored percentage reads back as itself |
| FeatureFlags.FeatureFlagService.BuildPayload | apps/api/src/modules/feature-flag/feature-flag.service.ts:42-58 | which fields are written, and what |
| FeatureFlags.FeatureFlagService.Upsert | apps/api/src/modules/feature-flag/feature-flag.service.ts:41-64 | the hash is replaced as a whole and its reading returned |
| FeatureFlags.FeatureFlagService.Delete | apps/api/src/modules/feature-flag/feature-flag.service.ts:66-69 | removes the flag and tells whether it existed |
| FeatureFlags.FeatureFlagService.ReadValue | apps/api/src/modules/feature-flag/feature-flag.service.ts:88-118 | field by field, what a stored hash means |
| FeatureFlags.FeatureFlagService.Evaluate | apps/api/src/modules/feature-flag/feature-flag.service.ts:121-172 | the decision on what is stored |
| FeatureFlags.FlagReadBack | apps/api/src/modules/feature-flag/feature-flag.service.ts:41-118 | reading a stored flag gives its dto back, empty lists and texts as absent, whatever was stored before |
| FeatureFlags.EvaluateIsDirect | apps/api/src/modules/feature-flag/feature-flag.service.ts:41-172 | evaluating after upsert gives the whole answer for the dto directly (enabled, strategy, user and reason), for every user; other flags are untouched |
| FeatureFlags.OddHashIsOff | apps/api/src/modules/feature-flag/feature-flag.service.ts:88-172 | a hash no upsert has written enables nobody unless its strategy is known; a percentage that is no number counts as zero |
| FeatureFlags.DeletedIsOff | apps/api/src/modules/feature-flag/feature-flag.service.ts:121-126 | a deleted flag is disabled as not found |
| FeatureFlags.RaisingDisablesNobody | apps/api/src/modules/feature-flag/feature-flag.service.ts:145-167 | raising the percentage disables nobody |
| FeatureFlags.ExactRollout | apps/api/src/modules/feature-flag/feature-flag.service.ts:176-181 | exactly pct of the 100 buckets are enabled, and the exact number of hash prefixes |
| Conversations.ConversationService.FindOrCreateDirect | apps/api/src/modules/messaging/conversation.service.ts:37-75 | its errors, the conversation found, or the one created for the two |
| Conversations.ConversationService.CreateConversation | apps/api/src/modules/messaging/conversation.service.ts:77-143 | direct, community and group branches with their errors |
| Conversations.ConversationService.LeaveConversation | apps/api/src/modules/messaging/conversation.service.ts:306-337 | its errors, and leaving |
| Conversations.DirectAnswer | apps/api/src/modules/messaging/conversation.service.ts:37-75 | nobody writes to themselves or across a block either way; everybody else gets the direct conversation of the two, or a new one of exactly them |
| Conversations.CommunityAnswer | apps/api/src/modules/messaging/conversation.service.ts:89-122 | only an active member is given the chat of a community, the one there is or a new one |
| Conversations.GroupAnswer | apps/api/src/modules/messaging/conversation.service.ts:77-143 | a group needs three different users, its creator among them, and consists of exactly these; a direct conversation by dto is the one with the first user named |
| Conversations.InsertKeepsUniqueExactly | apps/api/src/modules/messaging/conversation.service.ts:46-73 | inserting a direct conversation keeps them unique iff the pair had none |
| Conversations.RunSound | apps/api/src/modules/messaging/conversation.service.ts:37-143 | the invariants of conversations hold on runs from any sound state |
| Conversations.AlwaysSound | apps/api/src/modules/messaging/conversation.service.ts:37-143 | from the empty tables on, direct conversations are pairs of distinct active users, one per pair, communities have at most one chat, and no conversation is empty |
| Conversations.RunPersists | apps/api/src/modules/messaging/conversation.service.ts:306-337 | no conversation disappears, changes kind or loses a participant row |
| Conversations.DirectIsBetween | apps/api/src/modules/messaging/conversation.service.ts:37-75 | a successful call gives the direct conversation of exactly the two users |
| Conversations.SameDirectAgain | apps/api/src/modules/messaging/conversation.service.ts:37-75 | either of the two, at any later time, gets the same conversation, and asking changes nothing |
| Conversations.LeavingExactly | apps/api/src/modules/messaging/conversation.service.ts:306-337 | each answer iff its condition; leaving succeeds iff an active member of a non-direct conversation is not its last, and affects nobody else |
| Conversations.CommunityChatJoinsExactly | apps/api/src/modules/messaging/conversation.service.ts:89-118 | opening a community chat makes a member a participant iff the chat is new or the member is in it |

## Left out

- Statements of one call that other calls could interleave are one step, except in `SingleFlight`. What the atomicity carries is stated for five of them: `Rsvp.LateSeatExactly`, `FollowBlock.LateCommitExactly`, `Conversations.InsertKeepsUniqueExactly`, `Quests.LateUpsertPaysExactly` and, for a password change, `SingleFlight.RevokeAllEndsExactly`.
- INCR with the EXPIRE after it is one step: a process that stops between the two leaves a counter without expiry.
- Failures of single database writes and of the Redis connection, except where a property is about them (`reachable` in `Deletion`, `Lose` in `SingleFlight`, `failing` in the batch).
- Rows are those of one user (`Quests`, `SosLimiter`) or one event (`Rsvp`); runs of several users are runs of several objects.
- `Rsvp.EventService.constructor` models the event row and the organizer's seat; the other columns, the permission checks, visibility, and `updateEvent`, which may change the maximum, are not modelled.
- Banned users, wrong passwords and the other login methods in front of `Deletion.AccountService.LogIn`; the listener that cancels a deletion is taken as part of the login.
- Queue internals: attempts, back-off, job retention, and jobs that are active while they are cancelled. A processed job is one step, and it succeeds.
- The cascade of an account deletion to follows, conversations and other tables, and the counters it leaves stale.
- JWT signing and expiry, bcrypt, SHA-1 and HMAC: tokens are identified by user and jti, signatures are a predicate, hashes are functions into 32-bit values.
- Notifications, push messages, broadcasts, logs, metrics, `retryAfterSeconds` and response times.
- `online`, `heading`, `speed`, `lastPing` and `city` in the status hash, party member sets, live sessions and archived pings.
- A city named like the shard index (`_shards`) would share its key; shards and the index are separate in `LiveIndex`.
- GEOSEARCH is a given list; trimming and lower-casing of city names is an arbitrary function.
- `Number(...)` on strings that `upsert` did not write: anything but decimal digits reads as not finite.
- JSON encoding of A/B configurations, their labels, descriptions and timestamps, and the sorted `list` calls.
- KEYS patterns are matched against keys that are not empty, as all keys of the model are.
- `deletedAt` of conversations, which no service writes; messages, read marks and mutes.
- JavaScript's date range and floating-point rounding; levels use real square roots.
- Likes, comments, community counters, OTP attempts, emergency contacts, moderation, the party store and the media worker.
