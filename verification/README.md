# Donetick backend: verified state machines

This project models the small state machines inside the Donetick backend whose guarantees hold over whole
runs, and proves those guarantees. Each module follows one component:

| module | component |
|---|---|
| `AttemptLimiting` | the MFA attempt limiter: failures per key in fixed windows, lazy deletion, amortised sweep |
| `TokenBuckets` | the token-bucket limiter of real-time connections, with background eviction |
| `Connections`, `Pools`, `Broadcasting`, `RealTime` | one bounded event channel; a circle's pool with its two indices; its broadcast and its cleanup among other threads; the service over all circles |
| `Assignment` | choosing the next assignee of a chore, seven strategies |
| `TokenRotation` | refresh-token rotation with reuse detection (section 4.14.2 of RFC 9700), call by call |
| `TokenRaces` | the same refreshes statement by statement, overlapping in any way |
| `Migrations` | the in-place sort of the registry and the resumable runner |
| `MissedChores` | the hourly catch-up job for overdue chores |
| `TextCleaning`, `MessageSanitizing`, `MessageNesting` | cleaning one string; validation and sanitising of WebSocket messages; how deep they nest |
| `SubscriptionEvents` | RevenueCat webhook deliveries: event log and subscription table |
| `AccountDeletion` | the ordered deletes of an account and their preview |
| `BackupCodes` | single-use recovery codes and the login step that uses them |
| `Common`, `Decimals` | options; numbers as they are written down |

Code that works in place is modelled as classes and arrays with methods; each such method is tied, by what it
ensures, to a specification over values: a history, a transition function, or a relation. The run-level
theorems are lemmas about those specifications, for every sequence of calls and every pattern of failures.
Beside each specification stand laws that do not go through its own definition: what an answer must have for a
cause, what a call undoes, what a computed value means.

## Assumptions

The clock never goes back, and each limiter call reads it once. Every locked Go method is one step; the
service's `AddConnection`, which looks the pool up and inserts under two locks, is also one step.
Connection ids, family ids and token hashes are fresh. Assignees are distinct. Database answers, failures,
random draws, map iteration order, the next-date computation, upper-casing and time-based one-time codes are
arbitrary inputs.

## Where the code and its promises part

The model follows the code. These are the places where a natural promise does not hold, with the exact
condition that is proved instead:

- **Eviction of token buckets** is invisible exactly when a bucket holds nothing or refills within ten minutes
  and a nanosecond (`EvictionObservability`). Otherwise each eviction can add one more full bucket to what is
  granted (`GrantBound`, `EvictionBound`). The most that one connection can be granted in an interval is known
  exactly, for both cases and every length (`MostGranted`, `MostIsReached`).
- **A closed connection** has its channel closed only if `Close` came before an overflow: after an overflow
  every later `Close` returns early (`ChannelFate`, `OverflowThenClose`).
- **The pool's connection counter** is never too high, and exact exactly when every removal of a connection
  that was not there met an empty pool or has since been followed by one (`CounterExact`); removing one
  connection twice can leave a member uncounted (`RemovedTwice`).
- **Fair assignment** is within 2, not 1, because the history is read before the completion is written
  (`LeastAssignedIsFair`, `TwoApart`). It is within 1 exactly when no tie is broken for the person who is just
  completing the chore and then completes it again (`GapReachesTwo`, `FairWithinOne`).
- **Reuse of a refresh token** ends its family exactly when the token's own row is still found and the
  revocation is written, or the family had ended anyway (`ReplayVerdict`). The error of the family revocation is
  ignored, and a used token whose own row was revoked is only "invalid" (`ReplayMissed`). Logging out reports
  success when the lookup failed (`LogoutVerdict`, `LogoutMissed`).
- **A refresh token is single-use** only if no other refresh marks it between a refresh's own lookup and mark,
  which are separate statements without a guard (`LateMeansOverlap`). A family has one unused row and one more for
  each mark that comes late, less what is lost (`RowsConserved`); with two refreshes at a time that is any number,
  and nothing is detected (`RacesAddUp`). With no step in between, it is one (`OneUnusedWhenAtomic`).
- **A recorded migration runs again** exactly when its count query fails, since that error is not looked at
  (`RunsAgain`, `CountFailureRunsAgain`).
- **The nesting limit of message data** holds for an object that is the value of a field: at most four hops lead
  to it after the silent ones at the front, where a hop goes through one key and perhaps an array, and is silent
  if its key is empty and it goes through none (`NestingLimit`, for any data). An object that is an item of an
  array is not limited itself, so objects nest to any depth through arrays (`ArraysNestFreely`), and under empty
  keys (`EmptyKeysNestFreely`).
- **Cleaning a string** always removes control characters, but deletes the two URL schemes in one pass after
  escaping tags. A tag or scheme is left exactly where the text spells one with whole schemes between its
  characters (`WhatCleaningLeaves`, `ATagCanBeLeft`, `ASchemeCanBeLeft`); a string without either scheme is left without all
  four (`CleanWithoutSchemes`).
- **A webhook event whose log entry is lost** is processed again. On any table that changes nothing exactly when
  its row holds what the event sets, or is unknown and not bought by it (`NothingToDo`); after any other deliveries
  and with any answers of the database the second time, exactly when the row, with what was set in it since, holds
  what the event now sets (`Redelivered`); and a whole run stays as if every event were delivered once exactly when
  every reprocessed event finds that (`LostLogEntries`).
- **Assignee and label rows** of other people on a deleted user's chores stay behind (`AssigneesAndLabelsMayDangle`,
  `OneRowDangles`), a deleted user keeps any circle the transfer list leaves out (`CirclesLeftBehind`,
  `OneCircleLeftOut`), and the list can hand over circles of other people (`WhoseCirclesChangeHands`,
  `AnothersCircleTaken`).
- **A backup code** stays usable when storing the used list fails, because that error is only logged
  (`AcceptedExactly`, `NotStoredIsNotUsed`).

## Model

| member | source | states |
|---|---|---|
| AttemptLimiting.AttemptLimiter.constructor | internal/mfa/attempt_limiter.go:62-76 | a new limiter has no history; a limit or window that is not positive becomes the default |
| AttemptLimiting.AttemptLimiter.Allow | internal/mfa/attempt_limiter.go:80-98 | refuses exactly when the key's own failures since its last reset fill a window that still runs, whatever was deleted or swept |
| AttemptLimiting.AttemptLimiter.RecordFailure | internal/mfa/attempt_limiter.go:101-114 | adds one failure to the key's history and keeps map and history in agreement for every key |
| AttemptLimiting.AttemptLimiter.Reset | internal/mfa/attempt_limiter.go:119-123 | drops the key's record and no other, and clears the key's history only |
| AttemptLimiting.AttemptLimiter.Sweep | internal/mfa/attempt_limiter.go:129-139 | at most once per interval, drops exactly the records whose window is over; no history changes |
| AttemptLimiting.Replay | internal/mfa/attempt_limiter.go:80-139 | any sequence of calls over any keys on a new limiter is answered as each key's own full history says |
| AttemptLimiting.OtherKeysUnobservable | internal/mfa/attempt_limiter.go:80-123 | calls for other keys change nothing for a key |
| AttemptLimiting.ClearedStartsOver | internal/mfa/attempt_limiter.go:119-123 | what came before a reset of a key leaves no trace in the key's failures |
| AttemptLimiting.AnswersAfterClearing | internal/mfa/attempt_limiter.go:80-123 | so later answers are those of the calls after the reset alone |
| AttemptLimiting.RefusedForCause | internal/mfa/attempt_limiter.go:80-114 | a refusal has maxAttempts failures behind it, all of the last window's length |
| AttemptLimiting.NotRefusedEarly | internal/mfa/attempt_limiter.go:80-123 | with fewer of them, counted from any reset on, every answer in every sequence of calls is yes |
| AttemptLimiting.FullWindowBudget | internal/mfa/attempt_limiter.go:80-114 | what every step keeps: in a full running window, failures and verifications in flight stay within the bound together |
| AttemptLimiting.WindowBound | internal/mfa/attempt_limiter.go:80-114 | with at most c verifications of a key in flight no window ever records more than maxAttempts + c - 1 failures |
| AttemptLimiting.WindowBoundReached | internal/mfa/attempt_limiter.go:80-114 | for every limit, window and c there is a run that reaches that bound |
| AttemptLimiting.TwoWindows | internal/mfa/attempt_limiter.go:100-114 | an interval one window long meets at most two windows and misses the opening failure of one |
| AttemptLimiting.IntervalBound | internal/mfa/attempt_limiter.go:80-114 | without a reset any interval of one window's length holds at most 2 * (maxAttempts + c - 1) - 1 failures |
| AttemptLimiting.SequentialVerifications | internal/mfa/attempt_limiter.go:80-114 | one verification at a time: at most maxAttempts in a window and 2 * maxAttempts - 1 in any such interval |
| TokenBuckets.RateLimiter.Allow | internal/realtime/rate_limiter.go:39-73 | grants exactly when the refilled bucket holds a token, and takes one |
| TokenBuckets.RateLimiter.Remove | internal/realtime/rate_limiter.go:76-80 | forgets that connection's bucket only |
| TokenBuckets.RateLimiter.Cleanup | internal/realtime/rate_limiter.go:89-107 | evicts exactly the buckets whose last refill is over ten minutes ago |
| TokenBuckets.QuotientIsDivision | internal/realtime/rate_limiter.go:59 | the refill count is integer division |
| TokenBuckets.Truncated | internal/realtime/rate_limiter.go:59 | for any signs it is truncated toward zero |
| TokenBuckets.Budget | internal/realtime/rate_limiter.go:39-107 | what every call and sweep keeps: tokens held and grants made since s stay within any allowance that is met by a full bucket at once, a token per refill interval and a full bucket per eviction |
| TokenBuckets.GrantBound | internal/realtime/rate_limiter.go:39-107 | over every pattern of calls and sweeps, grants in [s, t] are at most capacity * (1 + evictions in [s, t]) + floor((t - s) / rate), whatever was granted before; there are no evictions where sweeps are skipped |
| TokenBuckets.EvictionBound | internal/realtime/rate_limiter.go:96-102 | an interval meets at most one eviction of a connection, and one more for each idle limit it is longer than |
| TokenBuckets.SweptGrantBound | internal/realtime/rate_limiter.go:39-107 | where eviction cannot be observed the sweeping limiter keeps the bound without evictions |
| TokenBuckets.SweepsKeepAlike | internal/realtime/rate_limiter.go:56-73 | a limiter that sweeps and one that does not hold the same buckets, except full ones |
| TokenBuckets.EvictionUnobservable | internal/realtime/rate_limiter.go:89-107 | if a full refill fits in the idle limit, sweeping changes no answer |
| TokenBuckets.EvictionObservable | internal/realtime/rate_limiter.go:89-107 | otherwise there are calls after which a swept limiter grants and a kept one refuses |
| TokenBuckets.EvictionObservability | internal/realtime/rate_limiter.go:56-107 | eviction is invisible to every run exactly when the capacity is not positive or capacity * rate is at most ten minutes and a nanosecond |
| TokenBuckets.MostGranted | internal/realtime/rate_limiter.go:39-107 | no interval of x nanoseconds holds more grants than Most(x): capacity + floor(x / rate) without observable evictions; with them, full buckets drained one after another, each as soon as the one before can be evicted, the first created up to one refill before the interval if that gives more |
| TokenBuckets.MostIsReached | internal/realtime/rate_limiter.go:39-107 | for every capacity, rate and length there is a run that is granted exactly that |
| TokenBuckets.TokensExplained | internal/realtime/rate_limiter.go:39-107 | over every run a bucket holds the least, over its calls, of what a bucket full at that call would hold now |
| TokenBuckets.RefusedForCause | internal/realtime/rate_limiter.go:56-73 | a call is refused exactly if, since some call on the bucket, the grants have used up a full bucket and every whole refill that came in |
| TokenBuckets.FirstCallsGranted | internal/realtime/rate_limiter.go:42-73 | a connection is granted as many calls as a bucket holds, since the call that created it |
| TokenBuckets.RefusedOverTime | internal/realtime/rate_limiter.go:56-73 | a refused call comes after a call since which a full bucket was granted, and one more for every two refill intervals |
| Connections.StepSound | internal/realtime/connection.go:57-122 | each send, close and receive keeps the channel protocol |
| Connections.NeverPanics | internal/realtime/connection.go:57-122 | under every interleaving nothing is sent on a closed channel, it is closed at most once, holds at most 256 events, and received followed by buffered is what was accepted |
| Connections.NothingAcceptedOnceClosed | internal/realtime/connection.go:100-102 | once `closed` is set nothing is accepted, for good |
| Connections.ChannelFate | internal/realtime/connection.go:61-66 | the channel gets closed exactly if a Close found the connection open; closed with an open channel means exactly that a send overflowed |
| Connections.OverflowThenClose | internal/realtime/connection.go:61-66 | 257 sends with no reader close the connection and not its channel, and a Close after that does not either |
| Connections.Draining | internal/realtime/connection.go:35 | n reads take the n oldest buffered events, in order |
| Connections.EverythingIsRead | internal/realtime/connection.go:35 | after any steps, as many reads as events are buffered hand over everything accepted, and no more |
| Connections.Connection.constructor | internal/realtime/connection.go:28-40 | a new connection is open, empty, and has taken no step |
| Connections.Connection.Close | internal/realtime/connection.go:57-78 | is one close step of the protocol |
| Connections.Connection.SendEvent | internal/realtime/connection.go:96-122 | is one send step: accepted exactly when open with room, and an overflow marks the connection closed |
| Connections.Connection.Receive | internal/realtime/connection.go:35 | is one receive step: takes the oldest event if there is one, or tells the end of a closed and empty channel |
| Connections.Connection.UpdateActivity | internal/realtime/connection.go:89-93 | dates the last activity, and takes no step |
| Pools.AddAgrees | internal/realtime/pool.go:62-64 | adding under a fresh id keeps the two indices in agreement |
| Pools.RemoveAgrees | internal/realtime/pool.go:78-97 | swap-with-last removal keeps them in agreement, also when the connection is absent |
| Pools.ListIsUsersConnections | internal/realtime/pool.go:13-14 | when the indices agree a user's list holds exactly the user's connections of the id map |
| Pools.Once | internal/realtime/pool.go:13-14 | and each of them once |
| Pools.CounterBounds | internal/realtime/pool.go:66-103 | over every history the counter is never negative or too high, and too low by no more than the removals of absent connections |
| Pools.CounterExact | internal/realtime/pool.go:99-103 | over every history the counter is exact exactly when every removal of an absent connection met an empty pool or has been followed by one |
| Pools.ConnectionPool.ExactWhen | internal/realtime/pool.go:99-103 | so it is for any pool, told from its history |
| Pools.RemovedTwice | internal/realtime/polling_handler.go:182-191 | a run that leaves a pool with one member counted as none |
| Pools.ConnectionPool.AddConnection | internal/realtime/pool.go:47-71 | adds to both indices and the counter, or refuses at a limit and changes nothing |
| Pools.ConnectionPool.RemoveConnection | internal/realtime/pool.go:74-104 | removes from both indices; the counter drops even for an absent connection; exactly when it stays exact, and when it becomes exact again |
| Pools.ConnectionPool.FindInUserList | internal/realtime/pool.go:82-84 | finds the connection's place in its user's list exactly if it is in the pool |
| Pools.ConnectionPool.Close | internal/realtime/pool.go:190-204 | closes every member and empties both indices and the counter |
| Broadcasting.Broadcast | internal/realtime/pool.go:107-125 | with any steps of other threads between the sends, on connections and on the pool: every connection takes the others' steps and, if it was open when collected, one send at its place; the counter grows by the sends that found room and the others' own; the pool stays consistent |
| Broadcasting.SendAmong | internal/realtime/pool.go:117-124 | the same for the connections collected |
| Broadcasting.CleanupStaleConnections | internal/realtime/pool.go:165-180 | with any such steps in between: exactly the members found stale take one close step each and are out of the pool in the end; any other member leaves it only by a step of another thread |
| Broadcasting.DroppedIsClosed | internal/realtime/pool.go:175-179 | and each of them is closed in the end, whatever came in between |
| Broadcasting.OneStepEach | internal/realtime/pool.go:117-124 | the steps of a collected connection are the others' with exactly one send, or one close, among them |
| Broadcasting.NoStepElsewhere | internal/realtime/pool.go:117-124 | any other connection takes the others' steps alone |
| RealTime.RealTimeService.Start | internal/realtime/service.go:63-88 | starts if the service is enabled |
| RealTime.RealTimeService.GetConnectionPool | internal/realtime/service.go:122-134 | returns the circle's pool, made empty if there was none |
| RealTime.RealTimeService.AddConnection | internal/realtime/service.go:137-144 | adds to the pool of the connection's own circle, with the exact answer in every case |
| RealTime.RealTimeService.RemoveConnection | internal/realtime/service.go:147-156 | removes that connection and leaves every other circle's pool as it is, also when it was removed before (internal/realtime/polling_handler.go:182-191) |
| RealTime.RealTimeService.BroadcastToCircle | internal/realtime/service.go:159-174 | reaches every open connection of the circle exactly once and no connection of another circle; message totals grow by the accepted events |
| RealTime.RealTimeService.Stop | internal/realtime/service.go:91-114 | leaves no pool, and every pooled connection closed |
| RealTime.RealTimeService.PerformCleanup | internal/realtime/service.go:209-225 | drops exactly the connections last active longer ago than the threshold, each by one close, and leaves no pool empty |
| RealTime.Live | internal/realtime/connection.go:43-93 | any sequence of activity and cleanups: the service drops exactly the connections that some cleanup finds idle for longer than the threshold, closed, and no cleanup takes a step on any other |
| RealTime.RealTimeService.ReadPumpEnds | internal/realtime/connection.go:125-129 | the pump removes its connection from the pool it was started with, dropped by the service or not, and closes it; the service stays consistent |
| RealTime.RealTimeService.StepsOnConnections | internal/realtime/connection.go:57-122 | steps that senders, closers and readers take by themselves, and other broadcasts that count a message, keep the service consistent |
| Assignment.IndexOf | internal/chore/handler.go:3638-3645 | the first index of a user, or -1 |
| Assignment.Remove | internal/chore/handler.go:3629-3636 | what is left of the slice is exactly the other users |
| Assignment.FewestChores | internal/chore/handler.go:3518-3575 | for every walk of the map the choice has the smallest count among the assignees; none if there are no assignees |
| Assignment.CheckNextAssignee | internal/chore/handler.go:3500-3627 | every outcome, error cases included, is one the strategy allows; the caller's list is not written |
| Assignment.ErrorsExactly | internal/chore/handler.go:3600-3625 | an error exactly for an unknown strategy, or a round with nobody in it |
| Assignment.NobodyExactly | internal/chore/handler.go:3517-3627 | exactly when nobody is next, strategy by strategy |
| Assignment.KeptForGood | internal/chore/handler.go:3583-3585 | keep_last never changes the assignee over any run |
| Assignment.CountIsRows | internal/chore/handler.go:3518-3575 | the counts compared are the numbers of history rows assigned to the user, or completed by them |
| Assignment.FirstCompletion | internal/chore/handler.go:3510-3515 | with no history least_assigned goes to somebody other than the performer exactly if there is anybody, and least_completed to anybody |
| Assignment.RoundRobinStart | internal/chore/handler.go:3605-3617 | a round starts at the front if nobody in it has the chore |
| Assignment.StaysAssignable | internal/chore/handler.go:3517-3627 | over every run and strategy the chore is unassigned or assigned to a current assignee |
| Assignment.NeverTwiceRunning | internal/chore/handler.go:3586-3599 | random_except_last never gives a chore to the same person twice running, and to nobody exactly if there is nobody else |
| Assignment.CompletionKeepsBalance | internal/chore/handler.go:3518-3575 | a completion keeps counts within 2 and the person now assigned within 1 of the least |
| Assignment.LeastAssignedIsFair | internal/chore/handler.go:3518-3546 | over every completion run from an empty history any two assignees' recorded counts differ by at most 2 |
| Assignment.LeastCompletedIsFair | internal/chore/handler.go:3547-3575 | the same for least_completed when each completion is by the person assigned |
| Assignment.TwoApart | internal/chore/handler.go:1925-1979 | a difference of 2 occurs, as the history is read before the completion is written |
| Assignment.GapReachesTwo | internal/chore/handler.go:3518-3575 | over two completions a difference comes to 2 exactly if a tie was broken for the person just completing |
| Assignment.FairWithinOne | internal/chore/handler.go:3518-3575 | a run from an empty history stays within 1 exactly if that never happens before another completion |
| Assignment.RoundRobinWalk | internal/chore/handler.go:3600-3622 | from any completion on the assignments go round the list |
| Assignment.RoundRobinCycle | internal/chore/handler.go:3600-3622 | any n consecutive completions assign each of n assignees exactly once |
| TokenRotation.TokenService.GenerateTokens | internal/auth/token_service.go:55-102 | is the login call, for every step that may fail |
| TokenRotation.TokenService.RefreshTokens | internal/auth/token_service.go:105-180 | is the refresh call: look up, detect reuse or mark used, then store the next token of the family; a failed step ends it there |
| TokenRotation.TokenService.RevokeToken | internal/auth/token_service.go:183-190 | is the logout call; an unknown token and a failed lookup both report success |
| TokenRotation.TokenService.RevokeAllUserTokens | internal/auth/token_service.go:193-195 | is the logout from all devices |
| TokenRotation.TokenService.CleanupExpiredSessions | internal/user/repo/repository.go:452-456 | is the deletion of expired and revoked rows |
| TokenRotation.CallKeepsSound | internal/auth/token_service.go:55-190 | every call keeps each family to one owner and at most one unused row, whatever fails in it |
| TokenRotation.RunIsSound | internal/auth/token_service.go:55-190 | so does every run |
| TokenRotation.OwnerNeverChanges | internal/auth/token_service.go:157-164 | a family belongs to the user who logged in, over the whole run |
| TokenRotation.SingleUse | internal/auth/token_service.go:115-125 | no token is exchanged twice in any run |
| TokenRotation.DeadForever | internal/auth/token_service.go:105-190 | a family with nothing left to refresh stays so, whatever calls come after |
| TokenRotation.DeadMeansNoRefresh | internal/auth/token_service.go:105-180 | exactly the families with nothing left to refresh have no token with which a refresh succeeds |
| TokenRotation.ReplayVerdict | internal/auth/token_service.go:115-120 | presenting a token that is used, or whose row is deleted, leaves its family dead exactly if it was dead, or the row is found and the revocation is written |
| TokenRotation.ReuseEndsFamily | internal/auth/token_service.go:115-120 | after a detected and written reuse no refresh in that family ever succeeds again |
| TokenRotation.LostRotation | internal/auth/token_service.go:122-168 | a refresh that fails after marking the old token leaves the family dead |
| TokenRotation.ReplayMissed | internal/user/repo/repository.go:421-427 | a run in which a used token is presented again undetected and the family goes on |
| TokenRotation.ReuseReported | internal/auth/token_service.go:110-120 | reuse is reported exactly for a used token whose row is found, unexpired and unrevoked |
| TokenRotation.LogoutVerdict | internal/auth/token_service.go:185-188 | after a successful logout the token still works exactly if its lookup failed |
| TokenRotation.LogoutMissed | internal/auth/token_service.go:185-188 | a run in which a logout reports success and the token is exchanged after it |
| TokenRotation.LogoutAllVerdict | internal/user/repo/repository.go:446-450 | after a logout from all devices that reports success exactly the user's families, and those that were, are dead; other families keep their rows |
| TokenRotation.LogoutAllEndsFamilies | internal/auth/token_service.go:193-195 | so no refresh of any of them ever succeeds again, whatever calls come after |
| TokenRotation.HandedOut | internal/auth/token_service.go:55-180 | a token is handed out exactly if a row was written under it: unused, found until its date, for the right user and family |
| TokenRotation.CleanupKeeps | internal/user/repo/repository.go:452-456 | a cleanup that works keeps exactly the rows that are not revoked and expire at its time or later |
| TokenRotation.CleanupUnobservable | internal/user/repo/repository.go:452-456 | every call of every run is answered as in the same run with all cleanups left out |
| TokenRaces.RowsConserved | internal/auth/token_service.go:110-168 | over every interleaving of statements a family's unused rows and those about to be added are one for its login and one for each late mark, less what was given up or deleted |
| TokenRaces.UnusedBound | internal/auth/token_service.go:110-168 | so there are never more unused rows than one and the late marks |
| TokenRaces.EveryMarkWasRead | internal/auth/token_service.go:110-123 | whatever a refresh marks it has read unused at a lookup of its own |
| TokenRaces.SpentBy | internal/user/repo/repository.go:429-432 | only the mark of a refresh that holds the token, or a cleanup, takes a token away |
| TokenRaces.FreshUntilSpent | internal/user/repo/repository.go:429-432 | a token read unused stays so until some refresh marks it or a cleanup deletes it, and never is again |
| TokenRaces.LateMeansOverlap | internal/user/repo/repository.go:429-432 | a mark comes late exactly if one of these happened since the same refresh looked the token up |
| TokenRaces.OneUnusedWhenAtomic | internal/auth/token_service.go:110-125 | if every refresh marks right after it looked up, a family has at most one unused row, whatever else interleaves |
| TokenRaces.OneAtATime | internal/auth/token_service.go:105-180 | the statements of one refresh with nothing in between do what the whole call does, for every failure |
| TokenRaces.OthersAsCalls | internal/auth/token_service.go:55-102 | the statements of logins, logouts and cleanups do what those calls do |
| TokenRaces.RacesAddUp | internal/user/repo/repository.go:429-432 | for every n and c, a run with at most c refreshes under way that leaves 1 + n * (c - 1) unused rows |
| Migrations.SortMigrations | migrations/base.go:34-43 | the exchange sort gives an ordered permutation in place, and leaves a sorted registry untouched |
| Migrations.FirstDifference | migrations/base.go:37 | the order is that of the first different character, a prefix coming first |
| Migrations.NumbersFirst | migrations/base.go:37 | ids that begin with numbers of one length are ordered by the number |
| Migrations.OldestFirst | migrations/base.go:34-57 | so a run takes migrations named by date in ascending date |
| Migrations.Exchange | migrations/base.go:37-39 | one comparison puts the least id so far in front and permutes the rest |
| Migrations.Runner.Register | migrations/base.go:29-31 | appends to the registry |
| Migrations.Runner.RunOne | migrations/base.go:57-91 | one migration is skipped, applied and recorded, or stops the run, with the scripts it executes |
| Migrations.Runner.Run | migrations/base.go:46-100 | sorts, then does what the migrations do one after the other up to the first failure, with both counters |
| Migrations.PrefixOfSorted | migrations/base.go:53-57 | the recorded set is closed downwards exactly if it is the first n of the sorted registry |
| Migrations.WalkRecordsInOrder | migrations/base.go:57-91 | whatever fails in it, a run leaves a prefix recorded |
| Migrations.WalkKeeps | migrations/base.go:55-90 | a run loses and changes no record, and counts each migration it passes once |
| Migrations.NewRecords | migrations/base.go:67-90 | a run adds exactly the records of the migrations it reaches whose script and record work, each with its description and time |
| Migrations.AlwaysAPrefix | migrations/base.go:46-100 | over any number of runs with any failures the records are a prefix of the sorted registry, and only grow |
| Migrations.ErrorFreeRun | migrations/base.go:96-97 | an error-free run records everything, with succeeded + skipped = total |
| Migrations.RunsAgain | migrations/base.go:59-65 | a recorded migration is executed again exactly if the run reaches it and its count query fails, and then the run fails |
| Migrations.CountFailureRunsAgain | migrations/base.go:59-65 | a run with a failed count query that executes a recorded migration |
| Migrations.NeverTwice | migrations/base.go:59-65 | with working count queries a recorded migration is executed by no later run |
| Migrations.Resumes | migrations/base.go:57-91 | a run executes exactly the migrations from the first unrecorded one on, in order, up to the end or the one that stops it |
| Migrations.RegisteredLater | migrations/base.go:29-31 | a migration registered later keeps the prefix exactly if it does not sort before a recorded one |
| MissedChores.Scheduler.MissOne | internal/notifier/scheduler.go:111-138 | one chore's loop is its turns in order up to the first that stops it, at most 30, and touches no other chore |
| MissedChores.Scheduler.MissOverdueChores | internal/notifier/scheduler.go:96-142 | every overdue chore is worked off as if alone; the rest are left as they are |
| MissedChores.MissedDatesFormAChain | internal/notifier/scheduler.go:111-138 | the recorded dates are the chain the schedule and its fallback give, each past when its turn came; what stops it is the first turn not past, or failing |
| MissedChores.NextInChain | internal/notifier/scheduler.go:123-128 | from one date to the next is what the schedule gives, or else twenty-four hours |
| MissedChores.OneRun | internal/notifier/scheduler.go:108-139 | strictly increasing dates, each before the clock, at most 30; without errors it stops only when up to date or at the cap |
| MissedChores.BacklogShrinks | internal/notifier/scheduler.go:108-139 | each run at the cap gains at least 30 * s - period on the backlog |
| MissedChores.BacklogClears | internal/notifier/scheduler.go:108-139 | a backlog is cleared once n gains of 30 * s - period cover it |
| MissedChores.BacklogStays | internal/notifier/scheduler.go:108-114 | with steps of exactly s and 30 * s no more than the period, a backlog of over 29 steps is never cleared |
| TextCleaning.SanitizeString | internal/realtime/message_validator.go:262-281 | no control character is left; each tag and scheme is left exactly where the text, without its control characters, spells it with whole schemes between the characters |
| TextCleaning.StrippedPiecewise | internal/realtime/message_validator.go:262-272 | stripping works character by character and keeps the order |
| TextCleaning.StrippedOne | internal/realtime/message_validator.go:262-272 | and drops exactly the characters below 32 other than tab, line feed and carriage return |
| TextCleaning.TagsLeft | internal/realtime/message_validator.go:274-278 | a tag is left exactly if some `<` of the text is followed by its rest once the schemes are deleted, and was not before |
| TextCleaning.SchemesUnescaped | internal/realtime/message_validator.go:275-278 | escaping the tags makes no scheme and breaks none |
| TextCleaning.JavascriptLeft | internal/realtime/message_validator.go:277-278 | the first scheme is left exactly where both deletions join one |
| TextCleaning.VbscriptLeft | internal/realtime/message_validator.go:278 | the second is left exactly where its own deletion joins one |
| TextCleaning.ReadsThroughBothIsDeleted | internal/realtime/message_validator.go:277-278 | with both schemes deleted a text starts with exactly what it spells with whole schemes between the characters, the first scheme also inside the second |
| TextCleaning.WhatCleaningLeaves | internal/realtime/message_validator.go:261-281 | for each of the four, the exact condition on the text, told without running the deletion |
| TextCleaning.CleanWithoutSchemes | internal/realtime/message_validator.go:261-281 | an input without either scheme is left without all four |
| TextCleaning.ATagCanBeLeft | internal/realtime/message_validator.go:275-277 | an input after which an opening tag is left |
| TextCleaning.ASchemeCanBeLeft | internal/realtime/message_validator.go:277 | an input after which a scheme is left |
| TextCleaning.PlainStringsAreKept | internal/realtime/message_validator.go:262-281 | a string without control characters, `<` and `:` is unchanged |
| MessageSanitizing.ValidateDataFields | internal/realtime/message_validator.go:133-193 | the errors are exactly the problems of the fields, at every level that is looked into, each with its path; none exactly for acceptable data |
| MessageSanitizing.ValidateValue | internal/realtime/message_validator.go:154-189 | the same for one value at its path |
| MessageSanitizing.ValidateItems | internal/realtime/message_validator.go:171-183 | the same for an array: its size, and the fields of the objects directly in it |
| MessageSanitizing.Limits | internal/realtime/message_validator.go:143-189 | the limits in figures on keys, texts, numbers, arrays and the dots in a path |
| MessageSanitizing.NameCharacters | internal/realtime/message_validator.go:196-204 | the characters of field names, by code point |
| MessageSanitizing.LengthIsEncoded | internal/realtime/message_validator.go:143 | the length compared with the limits is that of the UTF-8 encoding |
| MessageSanitizing.EncodedReads | internal/realtime/message_validator.go:143 | which is read back to the same code point |
| MessageSanitizing.ItemPathsDiffer | internal/realtime/message_validator.go:171-183 | different items have different paths |
| MessageSanitizing.SanitizeDataFields | internal/realtime/message_validator.go:222-241 | gives cleaned values under cleaned keys, for every walk of the map; of keys cleaned alike one survives |
| MessageSanitizing.SanitizeArray | internal/realtime/message_validator.go:244-259 | keeps length and order, sanitises items, and leaves arrays inside arrays alone |
| MessageSanitizing.SanitizedIsPrintable | internal/realtime/message_validator.go:222-259 | sanitising leaves no control character in any key or text, except in arrays directly inside arrays, validated or not |
| MessageSanitizing.KeysAreKept | internal/realtime/message_validator.go:196-204 | validated keys survive sanitising, so no two collide |
| MessageSanitizing.FieldsKeepShape | internal/realtime/message_validator.go:133-259 | validated data keeps every key, array length and other value at all levels; only string contents change |
| MessageSanitizing.UnvalidatedKeysCanCollide | internal/realtime/message_validator.go:225-226 | without validation two keys that differ in a control character become one |
| MessageSanitizing.MessageValidator.ValidateMessageStructure | internal/realtime/message_validator.go:100-130 | the errors are exactly the problems of the message; none exactly for an allowed, short enough kind, a timestamp that parses if given, and acceptable data |
| MessageSanitizing.KindAndTime | internal/realtime/message_validator.go:103-120 | besides its data a message needs an allowed kind of 1 to 50 bytes and a timestamp that parses or is empty |
| MessageSanitizing.MessageValidator.ValidateMessage | internal/realtime/message_validator.go:84-96 | hands on exactly the messages in order, with the data's shape kept |
| MessageNesting.NestingLimit | internal/realtime/message_validator.go:136-183 | any data is accepted exactly if all else fits and, on every way to an object that is the value of a field, at most four hops follow the silent ones at the front |
| MessageNesting.AcceptedIsShallow | internal/realtime/message_validator.go:162-166 | below any prefix, on every way in accepted data the path of such an object keeps the limit of dots |
| MessageNesting.RefusedIsDeep | internal/realtime/message_validator.go:162-166 | data refused for nothing else holds a way that breaks it |
| MessageNesting.ArraysNestFreely | internal/realtime/message_validator.go:171-183 | under any valid key objects nest through arrays to any depth |
| MessageNesting.EmptyKeysNestFreely | internal/realtime/message_validator.go:137-140 | at the top objects nest under empty keys to any depth |
| SubscriptionEvents.Webhook.ExtractUserID | external/payment/webhook.go:416-430 | the positive number in the app user id, else in the attribute, else 0 |
| SubscriptionEvents.UserIsNumber | external/payment/webhook.go:416-430 | the user is the number written in the app user id, or else in the attribute |
| SubscriptionEvents.ReadExactly | external/payment/webhook.go:418-424 | exactly which texts are read as which number |
| Decimals.DecimalReads | external/payment/webhook.go:418 | a number written down is read back |
| Decimals.ReadsBack | external/payment/webhook.go:418 | and digits without a leading zero are written back |
| SubscriptionEvents.SecondsOf | external/payment/webhook.go:396 | milliseconds become whole seconds, towards zero |
| SubscriptionEvents.PurchasedUntil | external/payment/webhook.go:394-406 | a purchase runs until the event's own date, or else its transaction's |
| SubscriptionEvents.Webhook.HandleInitialPurchase | external/payment/webhook.go:358-412 | writes the whole purchased row, or nothing |
| SubscriptionEvents.Webhook.HandleRenewal | external/payment/webhook.go:432-466 | reactivates and redates a known row, and treats an unknown one as a purchase |
| SubscriptionEvents.Webhook.HandleCancellation | external/payment/webhook.go:468-495 | a known row becomes cancelled |
| SubscriptionEvents.Webhook.HandleExpiration | external/payment/webhook.go:497-524 | a known row becomes expired |
| SubscriptionEvents.Webhook.HandleBillingIssue | external/payment/webhook.go:526-553 | a known row gets a billing issue |
| SubscriptionEvents.Webhook.HandleProductChange | external/payment/webhook.go:555-587 | a known row gets product and date, an empty product being skipped by the update |
| SubscriptionEvents.Webhook.HandleTransfer | external/payment/webhook.go:595-627 | a known row moves to the user named, if one is |
| SubscriptionEvents.Webhook.UpdateSubscription | external/payment/repo/repository.go:341-356 | writes only the fields that are not empty, and nothing without an id |
| SubscriptionEvents.Webhook.RevenueCatWebhook | external/payment/webhook.go:299-356 | a delivery changes nothing if its event is logged or the log cannot be read; otherwise it is handled and logged |
| SubscriptionEvents.DuplicatesChangeNothing | external/payment/webhook.go:299-355 | deliveries repeated anywhere, with whatever answers, leave what the first of each event leaves |
| SubscriptionEvents.FirstsAreDistinct | external/payment/webhook.go:299-310 | those first deliveries are of distinct events not logged before |
| SubscriptionEvents.OnlyOwnRow | external/payment/webhook.go:358-627 | an event changes only its own row, removes none, and only purchases and renewals add one |
| SubscriptionEvents.ChangeOnRow | external/payment/webhook.go:358-627 | the effect of an event on a known row is the fields its kind sets |
| SubscriptionEvents.NothingToDo | external/payment/webhook.go:358-627 | on any table an event changes nothing exactly if its row holds what it sets, or it is unknown and not bought |
| SubscriptionEvents.StatusAbsorbed | external/payment/webhook.go:468-553 | the status kinds change nothing exactly if the row has the status |
| SubscriptionEvents.NetChangeOnRow | external/payment/webhook.go:299-356 | over any deliveries a row becomes what was last set in each field |
| SubscriptionEvents.Redelivered | external/payment/webhook.go:351-353 | an event delivered again unlogged, after any other deliveries and with answers of its own, changes nothing exactly if its row, with what was set in it since any point, holds what it now sets; for an unknown row, exactly if it does not buy it |
| SubscriptionEvents.RedeliveredAlike | external/payment/webhook.go:351-353 | with the same answers and a row known after the first time: exactly if what the others set last agrees with what it sets, and a renewal that bought its row under another date has been redated |
| SubscriptionEvents.OneMoreDelivery | external/payment/webhook.go:299-356 | a delivery departs from the run of first deliveries exactly if it reprocesses an event that is not absorbed |
| SubscriptionEvents.LostLogEntries | external/payment/webhook.go:299-356 | with any failures of the log, a run stays at every point what the first deliveries alone would leave exactly if every reprocessed event is absorbed |
| SubscriptionEvents.ReprocessedAtOnce | external/payment/webhook.go:432-466 | handling an event twice in a row is handling it once, exactly except for the renewal of an unknown subscription dated in two ways |
| SubscriptionEvents.LostLogEntryReactivates | external/payment/webhook.go:351-353 | if logging fails, a purchase delivered again after its cancellation is active again |
| AccountDeletion.DeletionService.CheckUserAccountDeletion | internal/user/deletion_service.go:80-138 | asks for a transfer, fails, or counts every step on the tables as they are |
| AccountDeletion.DeletionService.DeleteUserAccount | internal/user/deletion_service.go:55-232 | all the steps, the transfers and the user, or nothing at all |
| AccountDeletion.DeletionService.DeleteSteps | internal/user/deletion_service.go:200-208 | the steps in order, each count taken as its step finds the tables |
| AccountDeletion.StepsReadChoresFirst | internal/user/deletion_service.go:181-198 | the steps are distinct, cover all tables, and reach chores after every table found through them |
| AccountDeletion.StepsAreIndependent | internal/user/deletion_service.go:200-208 | for every such order each step does what it would have done at the start |
| AccountDeletion.PreviewIsExact | internal/user/deletion_service.go:101-132 | the preview's counts are those of the deletion, table by table the number of rows lost |
| AccountDeletion.PreviewRestsOnTheOrder | internal/user/deletion_service.go:181-198 | among all orders of distinct steps exactly those with chores after their readers make preview and deletion agree on all data |
| AccountDeletion.OthersKeepTheirRows | internal/user/deletion_service.go:322-388 | which rows survive: all of other users, except those on the user's chores in three tables |
| AccountDeletion.NothingDangles | internal/user/deletion_service.go:342-388 | no subtask, time session or history row is left pointing at a deleted chore |
| AccountDeletion.AssigneesAndLabelsMayDangle | internal/user/deletion_service.go:350-356 | assignee or label rows are left dangling exactly if another user's row is on one of the user's chores |
| AccountDeletion.OneRowDangles | internal/user/deletion_service.go:350-356 | tables in which one such row is left dangling |
| AccountDeletion.LastTransferCounts | internal/user/deletion_service.go:304-319 | a circle ends with the owner named last for it, or the one it had |
| AccountDeletion.CirclesLeftBehind | internal/user/deletion_service.go:140-146 | the deleted user still owns a circle exactly if the list leaves one out or hands one back |
| AccountDeletion.OneCircleLeftOut | internal/user/deletion_service.go:140-146 | of two circles one handed over, the other still owned |
| AccountDeletion.WhoseCirclesChangeHands | internal/user/deletion_service.go:304-319 | only the user's own circles change hands exactly if no other circle is named last for a new owner |
| AccountDeletion.AnothersCircleTaken | internal/user/deletion_service.go:304-319 | a list that hands over a circle of somebody else |
| BackupCodes.VerifyBackupCode | internal/mfa/service.go:74-116 | valid exactly if the code is on the list and none that counts as it is used; the code is then appended |
| BackupCodes.SameExactly | internal/mfa/service.go:90-97 | codes count as the same exactly if their characters other than hyphens agree one by one once cased |
| BackupCodes.VerdictExactly | internal/mfa/service.go:147-160 | valid exactly if time-based, or listed and unused; an error exactly if a list that is looked into does not parse |
| BackupCodes.IsCodeValid | internal/mfa/service.go:147-160 | a time-based code leaves the used list alone; otherwise the backup verdict |
| BackupCodes.Verifier.VerifyMFA | internal/user/mfa_handlers.go:200-232 | allow, verify, record or reset, store: refused exactly as the limiter's history says; only an accepted and stored code changes the used list; only a wrong one counts as a failure |
| BackupCodes.WholeVerification | internal/user/mfa_handlers.go:200-225 | a whole verification follows the limiter's protocol and leaves nothing in flight |
| BackupCodes.VerifyAll | internal/user/mfa_handlers.go:200-232 | any sequence of whole verifications on a new limiter gives the replies, history and used list of the specification; it is a run of the protocol with one in flight, so no window holds more failures than allowed |
| BackupCodes.UsedByAdmitted | internal/user/mfa_handlers.go:206-232 | what is stored in the end is what the attempts the limiter let through have used |
| BackupCodes.LoginsFollowProtocol | internal/user/mfa_handlers.go:200-225 | any sequence of logins is a run of the limiter's protocol |
| BackupCodes.WrongCodesCounted | internal/user/mfa_handlers.go:200-225 | the failures the limiter is told of are the wrong codes, one each |
| BackupCodes.RefusedAfterWrongCodes | internal/user/mfa_handlers.go:200-225 | a login is only refused after maxAttempts wrong codes in the last window's length, all since the last accepted login |
| BackupCodes.GuessesBounded | internal/user/mfa_handlers.go:200-225 | as long as no login is accepted, no interval of one window's length sees more than 2 * maxAttempts - 1 wrong codes checked |
| BackupCodes.UsedExactly | internal/user/mfa_handlers.go:206-232 | over every run the used list never shrinks and holds exactly the first ones and those accepted and stored |
| BackupCodes.AcceptedExactly | internal/user/mfa_handlers.go:206-232 | which attempts a backup code lets in, over every run with any failures to store |
| BackupCodes.SingleUse | internal/mfa/service.go:90-111 | a code accepted and stored is never accepted again, whatever its case and hyphens |
| BackupCodes.NotStoredIsNotUsed | internal/user/mfa_handlers.go:228-232 | a code whose use is not stored is accepted again |
| BackupCodes.NoMoreThanTheCodes | internal/mfa/service.go:90-111 | backup codes are accepted at most as often as there are distinct unused codes |

## Left out

- HTTP, JSON and gin plumbing, authentication headers, logging, configuration, `ui/` and SQL-only migrations: no state of their own.
- Cryptography and randomness (bcrypt, TOTP, SHA-256, UUIDs, code and token generation): opaque, with fresh values where the code draws them.
- Machine integers: counters, times and durations are unbounded; the int64 limit appears only where the code compares with it.
- PerformCleanup: one step at the service, which holds its own lock; what other threads may do between collecting and closing is proved of the pool's cleanup (`Broadcasting.CleanupStaleConnections`).
- BroadcastToCircle: one step at the service; what other threads may do between its sends is proved of the pool's broadcast (`Broadcasting.Broadcast`).
- Concurrent logins with one backup code: the used list is read and written back in separate statements; logins are whole here. So are the calls of `TokenRotation`, whose refreshes `TokenRaces` takes apart.
- Service statistics (`ActiveConnections`, `CirclesActive`), `BroadcastToUser`, `GetStats` and the SSE event loop: they add no state that the guarantees depend on.
- `RateLimiter.Stop` and the tickers: background sweeps come at arbitrary times instead.
- A refill rate of zero: the Go division panics, and the limiter's calls here require a rate other than zero.
- Completion side effects other than assignee and history (points, time sessions, notifications, approval, undo), and the update of a history row started earlier.
- History rows that are not completions, and the join with time sessions that can repeat a history row: the fairness runs are completion-only.
- The primary key of session rows: a row is named by its token hash, which the table declares unique. Expiry dates are arbitrary; access tokens are not modelled.
- Calendar arithmetic of `internal/chore/scheduling`: the next date is an arbitrary function of the due date, anew at each turn.
- The selection of active recurring chores that are not pending approval: the rows of `MissedChores` are those.
- JSON parsing, the 8 KB message limit and UTF-8 validity: messages are parsed trees of valid text; arrays and objects inside nested arrays are neither validated nor sanitised by the code, and the model keeps that.
- Creation and update timestamps of subscriptions and the Stripe webhook; the index over provider and external id; how the ORM saves a row with an empty key.
- DeleteUserAccount: the user has no child accounts. The code recurses over users whose `parent_user_id` names the deleted one, in transactions of their own, and its preview does not count them; no code of the repository writes that column (internal/user/model/model.go:22).
- Deleting stored files from the storage backend: I/O after the steps.
- Enabling, disabling and regenerating backup codes: each replaces both lists.
