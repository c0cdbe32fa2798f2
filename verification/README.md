# Verified model of the earthquake platform's core

The platform ingests earthquake events hour by hour into a warehouse (bronze, silver, ODS), builds daily
gold partitions from it, copies those into a serving schema for the dashboards, and serves an API behind a
circuit breaker, a rate limiter and token authentication. This project models the parts of it that keep
state or rely on an order, and proves what they promise over every run. `dafny verify dfyconfig.toml`
checks everything.

| file | what it models |
|---|---|
| `Redis.dfy`, `CircuitBreaker.dfy` | Redis keys with deadlines; the breaker as an object over four of them |
| `BreakerReference.dfy` | what the breaker means (a phase and a call history), and that the keys implement it |
| `BreakerProbes.dfy` | the half-open period: how many calls it lets through, how many it takes to close |
| `BreakerInterleaved.dfy`, `BreakerRaces.dfy`, `BreakerBridge.dfy` | N workers sharing the keys, one Redis command per step; what races do to the documented promises; the bridge to the model of one worker |
| `RateLimit.dfy`, `RateLimitSkew.dfy`, `RateLimitKeys.dfy` | the sliding-window limiter on one key; how long an interval its bound covers; the middleware and who shares a key with whom |
| `Auth.dfy`, `AuthUsers.dfy`, `AuthTokens.dfy`, `AuthChains.dfy`, `AuthReset.dfy`, `AuthOverlap.dfy`, `AuthSessions.dfy` | the two tables of the auth service; who may register and log in, single use, rotation chains, password resets; overlapping refreshes and what they do to sessions |
| `Clock.dfy`, `IsoTime.dfy`, `IsoText.dfy`, `Events.dfy`, `Dedup.dfy`, `Ods.dfy`, `OdsRows.dfy` | durations, times as text and back, silver deduplication, the guarded upsert, their composition, and what a stored row holds |
| `Dates.dfy`, `Gold.dfy`, `Calendar.dfy`, `BiLoad.dfy`, `MartRuns.dfy`, `MartFresh.dfy`, `MartMoves.dfy` | the daily build and its calendar days, the delete-insert load, and whole runs of upserts, builds and loads: any run, runs in which no event changes its day, and what a move does |
| `Backfill.dfy` | the window loop of the hourly backfill |

## How to read the models

Code that updates state in place is a class whose methods do the same steps in the same order (`Breaker`,
`Middleware`, `AuthService`, `Repository`, `GoldStorage`, `ServingLayer`). An object is made on whatever the
store already holds. Each method is proved equal to a function on the state, and the main results are lemmas
about those functions over whole runs, which start from an empty store, stated against something defined
independently of them: a history, a reference circuit, a plain view.

- **Circuit breaker, one worker.** Time is real, the Unix clock is not negative, a key lives while
  `now < deadline`, and `int(time.time())` is the floor. A call has a start and a finish, because the
  protected function takes time; nothing else happens on the worker in between. `BreakerRefinesCircuit`
  says that every answer is that of a circuit with a phase, an outcome history and a count of probe
  successes; the other results read the numbers off that circuit. All of them are about one worker.
- **Circuit breaker, N workers.** Each Redis command is one step, and deadlines are ignored.
  `LoneCallMatchesBreaker` ties the two models together: a call that no other worker disturbs, and during
  whose protected function no key expires, does the same in both.
- **Rate limiter.** The timestamp is read before the Redis pipeline runs, so an attempt carries both its
  timestamp and the server time of its pipeline, at most `d` later; the pipelines run in server order.
  With `d = 0` this is one monotone clock.
- **Authentication.** Except in `AuthOverlap.dfy` and `AuthSessions.dfy`, requests are served one after the other. A token is never
  drawn twice, SHA-256 is injective, bcrypt is an abstract `verify`, and all clock reads of one request
  agree. Disabling an account is an operator's action and part of every run. In those two a refresh
  is two steps, its SELECT with the checks and its UPDATE with INSERT, and anything may happen in between.
- **Silver and ODS.** The `row_number` query is any choice of one row per id with the greatest `updated`
  text; ties are the database's. A page is one statement, which the database refuses when it meets an id
  it has already written.
- **Gold and BI.** A build and a load are one step each. Partitions are named by the stamp of their build,
  and the one that sorts last is loaded. The order in which pandas breaks ties, and the statistics it works
  out on floating-point numbers, are parameters of each build.

## What the code does that its documentation does not say

Each of these is settled exactly: by a condition that holds if and only if the promise does.

- The breaker's class comment promises one probe call in HALF_OPEN (`api/middleware/circuit_breaker.py:28`),
  for a breaker shared by workers (line 23). The code lets every call through in HALF_OPEN and closes after
  `success_threshold` successes. Over all schedules no call starts while the circuit is half-open if and only
  if there is no worker, or a single one and one success closes the circuit (`OneProbeAmongWorkersIff`); with two,
  probes even run at once (`ProbesRunTogether`). For one worker on the timed keys there is one more case in
  which the promise is kept: a timeout over an hour, so that the circuit never becomes half-open
  (`BreakerProbes.OneProbeIff`; a run with two probes is in `TwoProbesGoThrough`).
- It promises that no call reaches the protected function while the circuit is OPEN (line 27). A call that
  started before may still be running: the promise is kept if and only if there is at most one worker
  (`FastFailIff`).
- `successes` never expires, so fewer probes than configured can close the circuit: for one worker the exact
  number is in `ProbesToClose`, a run where it happens in `LeftoverSuccessClosesEarly`.
- The documented state diagram is kept by all schedules if and only if there is at most one worker
  (`DiagramKeptIff`); with two or more, under every configuration, both transitions that it lacks take place
  (`MissingTransitionsHappen`).
- With one worker the blackout after an opening is up to a second shorter than `recovery_timeout`, since the
  stored stamp is a whole second, and ends after an hour at the latest (`RejectedIffBlackedOut`,
  `BlackoutLength`). With several it can be nil: a worker gets past an open circuit before the time is over,
  in some schedule, if and only if there are at least two workers (`BlackoutKeptIff`).
- The limiter's class comment says that clients are told apart by user (`api/middleware/rate_limit.py:18`).
  The code keys them by the first 32 characters of the token: two requests share a key if and only if these
  agree, or both are anonymous and come from one address (`KeySharedIff`). Under the default
  algorithm all access tokens of the service begin with the same 36 characters, the encoded header (`api/auth/token_service.py:42-46`,
  `api/config.py:46`), so all signed-in users share one key and one limit (`SignedInUsersShareAKey`), and one
  is refused when the others' requests fill the window (`OneBucketForAll`, `RefusedForOthers`). Rejected
  attempts count too: `AdmittedIff` is the exact rule.
- The limit is one on timestamps, not on requests: any number of requests with one timestamp are admitted
  (`OneStampAllAdmitted`). An interval admits as many requests as distinct timestamps if and only if no two of
  them share one (`AttemptsAreStampsIff`).
- With timestamps that lag by up to `d`, intervals of a given length up to the window keep the limit if and
  only if the length is at most the window less `d`, or the limit is at most one (`RateBoundIff`).
- A refresh token is single-use in serial runs (`RefreshedOnce`). When refreshes interleave it is single-use
  if and only if no refresh of it is written between another's read and write (`SingleUseIff`; a run in
  which one token yields two is in `TwoForOne`). Likewise a logout ends its session, and a user's sessions
  are conserved, if and only if no exchange of a token or logout with it falls between another refresh's read
  and write of it (`ExchangedAfterLogoutIff`, `SessionsConservedIff`; a logout overtaken is in
  `LogoutOvertaken`).
- The upsert converges if and only if no two contents tie for the newest of an id (`MergeConverges`,
  `TiesDivide`).
- After every run the copy in the serving schema is right if and only if every day of the window passes a
  check that can be made before the load (`CopyRightIff`). It always passes while no event changes its UTC
  day (`FreshCopy`). When one moves, `MoveIsCopiedIff` says exactly when each following copy is right: a move
  off a day of the window left empty is never repaired; a move to an earlier day spoils the first copy and is
  repaired by the second; a move into the window is copied unless the serving table holds the event under a
  day outside.
- A negative `--hours-limit` is not "no limit": it lets one window through (`CoveredUntil` in `Backfill.dfy`).

## Model

| member | source | states |
|---|---|---|
| CircuitBreaker.Breaker.constructor | api/middleware/circuit_breaker.py:31-48 | keeps the thresholds and timeout and leaves the four keys as Redis holds them |
| CircuitBreaker.Breaker.Guard | api/middleware/circuit_breaker.py:52-68 | one call changes the four keys, and is rejected, returned or raised, exactly as the step that the lemmas below are about |
| CircuitBreaker.Breaker.ReadState | api/middleware/circuit_breaker.py:72-80 | a missing or expired state key reads as CLOSED |
| CircuitBreaker.Breaker.WriteState | api/middleware/circuit_breaker.py:82-86 | sets the state for an hour and touches no other key |
| CircuitBreaker.Breaker.RecordSuccess | api/middleware/circuit_breaker.py:88-99 | the keys after a success, in each of the three states |
| CircuitBreaker.Breaker.RecordFailure | api/middleware/circuit_breaker.py:101-120 | the keys after a failure, in each of the three states; the trip decision uses the reply of INCR |
| CircuitBreaker.Breaker.ResetDue | api/middleware/circuit_breaker.py:122-129 | due when the failure stamp is gone or at least the recovery timeout old |
| BreakerReference.BreakerRefinesCircuit | api/middleware/circuit_breaker.py:52-129 | in every run of one worker, every call is answered as by a circuit with a phase, a history of outcomes and a probe count, without keys or deadlines |
| BreakerReference.RunKeeps | api/middleware/circuit_breaker.py:82-120 | in every run the four keys and all their deadlines represent that circuit; in particular a failures key outside the closed phase is dead before the state key is |
| BreakerReference.CounterIsFailureRun | api/middleware/circuit_breaker.py:98-109 | while the state reads CLOSED, also off an expired key, the live failures counter is the length of the longest run of failures with all gaps, and the gap to now, under a minute; it is below the threshold |
| BreakerReference.KeyInvariants | api/middleware/circuit_breaker.py:82-129 | at every moment of every run of one worker: OPEN has a live failure stamp, so the missing-stamp branch is dead; CLOSED has fewer live failures than the threshold; live successes are below theirs |
| BreakerReference.TripsExactlyAtThreshold | api/middleware/circuit_breaker.py:109-116 | a call that finishes while the state is CLOSED leaves it OPEN if and only if it fails and its run of failures reaches the threshold |
| BreakerReference.OpeningTracksPhase | api/middleware/circuit_breaker.py:52-60 | the open phase dates from the last call that opened the circuit, and it is left only once its blackout is over |
| BreakerReference.RejectedIffBlackedOut | api/middleware/circuit_breaker.py:52-60 | with one worker, a call of a run is rejected if and only if it starts within an hour of the last opening and before that opening's whole second plus the recovery timeout |
| BreakerReference.BlackoutLength | api/middleware/circuit_breaker.py:106-129 | the blackout is shorter than the timeout, by less than a second unless the hour of the state key cuts it off |
| BreakerProbes.ClosesExactlyAtThreshold | api/middleware/circuit_breaker.py:88-96 | a call that finishes in HALF_OPEN closes the circuit if and only if it succeeds and the probe successes since the circuit last closed or failed a probe reach the threshold |
| BreakerProbes.ProbesToClose | api/middleware/circuit_breaker.py:88-96 | in every run, successful probes after an opening, all within the hour of the first, turn the stored state CLOSED on the one that, with the leftover count, reaches the threshold; before that it stays HALF_OPEN with every success counted |
| BreakerProbes.StaysHalfOpenIff | api/middleware/circuit_breaker.py:52-68 | an admitted call leaves the state HALF_OPEN if and only if it finds it so when it finishes, succeeds, and does not reach the threshold |
| BreakerProbes.TwoProbesGoThrough | api/middleware/circuit_breaker.py:52-68 | for every configuration with a success threshold of two or more and a timeout up to an hour, a run in which one half-open period lets two calls through |
| BreakerProbes.OneProbeIff | api/middleware/circuit_breaker.py:22-29 | the documented promise that a half-open period lets one call through is kept in all runs of one worker if and only if the success threshold is at most one or the timeout is over an hour |
| BreakerProbes.LeftoverSuccessClosesEarly | api/middleware/circuit_breaker.py:91-95 | a run in which one probe closes a circuit that asks for two |
| BreakerInterleaved.EveryScheduleAccounted | api/middleware/circuit_breaker.py:88-120 | in every interleaving of N workers, every failure beyond threshold less one in CLOSED is matched by a distinct worker that still owes the OPEN write (unless one is about to delete the counters), likewise successes by workers that owe the recovery; and OPEN without a stamp has a worker that owes it |
| BreakerInterleaved.ExcessNamesAWorker | api/middleware/circuit_breaker.py:88-120 | a counter at or above its threshold names a worker between its INCR and the write that clears the counter |
| BreakerInterleaved.QuietSystemIsSound | api/middleware/circuit_breaker.py:88-120 | with all workers at rest the counters are below their thresholds and OPEN is stamped |
| BreakerInterleaved.OvershootBounded | api/middleware/circuit_breaker.py:91-109 | with N workers no counter ever exceeds its threshold by N or more (failures: while CLOSED, with no worker about to delete them) |
| BreakerInterleaved.LoneWorkerKept | api/middleware/circuit_breaker.py:52-120 | with one worker, at every point of a call the stored state is still the one the worker read, or the one it has just written |
| BreakerInterleaved.OneWorkerKeepsDiagram | api/middleware/circuit_breaker.py:22-29 | with one worker, every step of every run follows the documented state diagram |
| BreakerRaces.MissingTransitionsHappen | api/middleware/circuit_breaker.py:52-120 | under every configuration, two or more workers reach, from rest, each transition that the documented diagram leaves out: CLOSED to HALF_OPEN and OPEN to CLOSED |
| BreakerRaces.DiagramKeptIff | api/middleware/circuit_breaker.py:22-29 | under every configuration, all schedules of N workers keep to the documented diagram if and only if N is at most one |
| BreakerRaces.OneProbeAmongWorkersIff | api/middleware/circuit_breaker.py:22-29 | under every configuration, over all schedules of N workers, no call starts while the circuit is half-open if and only if N is zero, or N is one and one success closes the circuit |
| BreakerRaces.ProbesRunTogether | api/middleware/circuit_breaker.py:52-68 | under every configuration two workers reach the protected function together in HALF_OPEN |
| BreakerRaces.BlackoutKeptIff | api/middleware/circuit_breaker.py:111-129 | over all schedules of N workers, no worker gets past an open circuit before the recovery time is over if and only if N is at most one; in between lies the gap from the OPEN write to the stored failure time |
| BreakerRaces.FastFailIff | api/middleware/circuit_breaker.py:22-29 | over all schedules of N workers, the protected function never runs while the circuit is open if and only if N is at most one |
| BreakerBridge.CommandMatchesAct | api/middleware/circuit_breaker.py:72-129 | each Redis command does the same to the timed keys and to the interleaved system |
| BreakerBridge.CallIsItsCommands | api/middleware/circuit_breaker.py:52-68 | the commands of a call, some at its start and the others at its finish, add up to the call of the timed model |
| BreakerBridge.LoneCallMatchesBreaker | api/middleware/circuit_breaker.py:52-68 | a call of any length that no worker disturbs, and during whose protected function no key expires, leaves the same state in the timed and in the interleaved model |
| RateLimitKeys.Middleware.CheckRateLimit | api/middleware/rate_limit.py:104-141 | one check replaces the set of its key only, and answers from the size of the new set |
| RateLimitKeys.Middleware.Handle | api/middleware/rate_limit.py:37-62 | a request on an excluded path bypasses the limiter; any other is checked under its own key and limit |
| RateLimitKeys.Middleware.constructor | api/middleware/rate_limit.py:21-35 | keeps the limits and the window and leaves the keys as Redis holds them |
| RateLimit.Retained | api/middleware/rate_limit.py:119-134 | with skew under a window, a recorded attempt stays until an attempt a whole window ahead arrives; expiry of the key never drops it |
| RateLimit.WindowBound | api/middleware/rate_limit.py:116-141 | in every run with skew at most d, no half-open interval of length window less d holds more than limit distinct admitted timestamps of a key |
| RateLimitSkew.AloneWhenAdmitted | api/middleware/rate_limit.py:116-134 | under a limit of one, whatever the skew below a window, an admitted attempt is a whole window after every earlier one with another stamp |
| RateLimitSkew.CrowdExceeds | api/middleware/rate_limit.py:116-134 | for every limit of two or more, a run whose interval, longer than the window less the skew, holds one admitted attempt too many |
| RateLimitSkew.RateBoundIff | api/middleware/rate_limit.py:116-141 | all runs with skew d keep the limit in all half-open intervals of a given length, up to a window, if and only if the length is at most the window less d or the limit is at most one |
| RateLimit.SetIsRecentHistory | api/middleware/rate_limit.py:119-132 | with a monotone clock the stored set is exactly the distinct attempt times, admitted or not, of the last window of the whole history |
| RateLimit.AdmittedIff | api/middleware/rate_limit.py:134-139 | with such a clock an attempt is admitted if and only if at most limit distinct attempt times lie in the window that ends with it; remaining is what is left |
| RateLimit.OneStampAllAdmitted | api/middleware/rate_limit.py:125-135 | attempts with one timestamp are all admitted, however many, under every limit of at least one |
| RateLimit.AttemptsAreStampsIff | api/middleware/rate_limit.py:125-135 | an interval admits as many attempts as distinct timestamps, which the bound is about, if and only if no two admitted ones share a timestamp |
| RateLimit.RemainingIsKept | api/middleware/rate_limit.py:137-141 | after an answer with remaining r the next r attempts on the key are admitted whenever they come, whatever the clocks do |
| RateLimit.SilenceResets | api/middleware/rate_limit.py:139-141 | a client silent until its reset time, plus the skew, is admitted with remaining limit less one |
| RateLimit.CountsUntilReset | api/middleware/rate_limit.py:116-141 | with a monotone clock an attempt is counted against a later one exactly while that one comes before its reset time, which is therefore exact |
| RateLimit.KeyLivesTwoWindows | api/middleware/rate_limit.py:131-132 | a key lives until two windows after the last attempt on it, and no longer |
| RateLimitKeys.KeySharedIff | api/middleware/rate_limit.py:46-57 | two requests share a key if and only if both carry bearer tokens that agree in their first 32 characters, or neither does and they come from one address |
| RateLimitKeys.KeyFixesLimit | api/middleware/rate_limit.py:46-57 | requests that share a key share a limit |
| RateLimitKeys.BypassedIff | api/middleware/rate_limit.py:42-44 | a request bypasses the limiter if and only if its path begins with one of the configured ones |
| RateLimitKeys.SameClientSharesKey | api/middleware/rate_limit.py:46-57 | the same in terms of the raw header and address: a missing address is one client, "unknown" |
| RateLimitKeys.AnonymousAdmittedIff | api/middleware/rate_limit.py:37-141 | with a monotone clock a request without a token is admitted if and only if the requests without one from its address came at no more than the anonymous limit of distinct times in its window |
| RateLimitKeys.TokenAdmittedIff | api/middleware/rate_limit.py:37-141 | a request with a token is admitted if and only if the requests whose tokens begin alike came at no more than the authenticated limit of distinct times in its window |
| RateLimitKeys.HeaderFillsKey | api/middleware/rate_limit.py:49-53 | a request shares the key of a token with a given beginning of 32 characters or more if and only if its token has the same first 32 |
| RateLimitKeys.SignedInUsersShareAKey | api/auth/token_service.py:28-46 | any two requests with access tokens of the service, for whatever users, share one key |
| RateLimitKeys.AdmittedOnKeyIff | api/middleware/rate_limit.py:37-141 | with a monotone clock, a request of the service is admitted if and only if the requests under its key, admitted or not, came at no more than its limit of distinct times in its window |
| RateLimitKeys.OneBucketForAll | api/middleware/rate_limit.py:49-54 | a signed-in user is admitted if and only if all signed-in users together stayed within the limit in the window |
| RateLimitKeys.RefusedForOthers | api/middleware/rate_limit.py:49-54 | a user is refused when requests of others alone fill the window, whatever the user did before |
| RateLimitKeys.KeysAreIsolated | api/middleware/rate_limit.py:46-64 | what is stored under a key after any request history depends on the requests of that key alone |
| RateLimitKeys.DispatchAnswersByKey | api/middleware/rate_limit.py:37-66 | every request is answered as its place in its own key's run demands |
| RateLimitKeys.MiddlewareBound | api/middleware/rate_limit.py:37-141 | the rate bound for every request history of the whole service and every key; clients that share the key share the bound |
| Auth.FindToken | api/auth/auth_service.py:122-132 | finds a row with the digest if there is one |
| Auth.FindEmail | api/auth/auth_service.py:84-92 | finds a user with the address if there is one |
| Auth.FindReset | api/auth/auth_service.py:221-230 | finds an active user with this unexpired reset digest if there is one |
| Auth.AuthService.Register | api/auth/auth_service.py:50-76 | a taken address is refused and changes nothing; else one user row and one token row are added |
| Auth.AuthService.Login | api/auth/auth_service.py:78-112 | each refusal in its order and without effect; else last_login is set and one token row added |
| Auth.AuthService.RefreshToken | api/auth/auth_service.py:114-171 | each refusal in its order and without effect; else the row is revoked and linked to the one row added |
| Auth.AuthService.Logout | api/auth/auth_service.py:173-182 | revokes the presented token's row if it is unrevoked; nothing else changes |
| Auth.AuthService.ForgotPassword | api/auth/auth_service.py:184-214 | stores digest and deadline for an active user, mails the link, and hands it back in development and test only; otherwise silent |
| Auth.AuthService.ResetPassword | api/auth/auth_service.py:216-246 | sets the new password hash and clears both reset columns of the user found; otherwise refused |
| Auth.AuthService.InsertToken | api/auth/auth_service.py:250-260 | appends one unrevoked row that expires after the configured time |
| AuthUsers.RegisterVerdict | api/auth/auth_service.py:50-76 | in every serial run, from history alone: an address already registered is refused, any other gets the next user number |
| AuthUsers.LoginVerdict | api/auth/auth_service.py:78-112 | from history alone: credentials are refused if no user registered the address or the password does not fit the hash last set for that user; then a disabled account is refused; else the login succeeds, for that user |
| AuthUsers.ForgotVerdict | api/auth/auth_service.py:184-214 | from history alone: the user of the address is mailed if and only if there is one and the account is active; the link is handed back in development and test only |
| AuthUsers.RowTold | api/auth/auth_service.py:50-246 | password hash, activity and last login of every user row are those that the requests and answers so far tell |
| AuthUsers.AddressKept | api/auth/auth_service.py:56-58 | an address, once registered, keeps its user |
| AuthUsers.PasswordKept | api/auth/auth_service.py:234-246 | a password changes by a successful reset for that user and by nothing else |
| AuthUsers.LoginAfterReset | api/auth/auth_service.py:234-246 | after a successful reset, until the next for that user, a login on the active account succeeds if and only if the password fits the new hash |
| AuthTokens.TableInvariants | api/auth/auth_service.py:50-182 | in every serial run digests are unique, every token row has a user, and every stored token was drawn by an earlier request |
| AuthTokens.TableMatchesHistory | api/auth/auth_service.py:114-182 | for every token and run, the table says what the requests and answers so far say: unissued, usable by a user until a time, or spent |
| AuthTokens.RefreshVerdict | api/auth/auth_service.py:134-143 | from history alone: which error a refresh gets, in every case, and for which user it succeeds |
| AuthTokens.SpentStays | api/auth/auth_service.py:152-159 | a spent token never becomes usable again |
| AuthTokens.RefreshedOnce | api/auth/auth_service.py:147-159 | after one successful refresh every later refresh with that token is refused as revoked |
| AuthTokens.RowsAreFinal | api/auth/auth_service.py:147-182 | owner, digest and expiry of a row never change, and a revoked row never changes at all: revoked_at is written at most once |
| AuthTokens.SessionsConserved | api/auth/auth_service.py:50-182 | for every user and run, unrevoked rows number successful registers and logins less effective logouts; refreshing keeps the number |
| AuthChains.LinksFormChains | api/auth/auth_service.py:147-164 | in every run the rows form disjoint finite chains, one per successful register or login; each row is linked to the next of its chain and the last to none |
| AuthChains.AlongAChain | api/auth/auth_service.py:147-164 | along a chain row ids strictly grow, expiry never falls, the user never changes, and all rows but the last are revoked |
| AuthChains.LinkIsNextInChain | api/auth/auth_service.py:152-159 | a row names another as its replacement if and only if that one comes next in the same chain |
| AuthChains.LogoutEndsChain | api/auth/auth_service.py:173-182 | logging out with a usable token leaves no unrevoked row in its chain |
| AuthChains.EndedForGood | api/auth/auth_service.py:114-182 | in serial runs such a chain never gets a new row and none of its rows revives, whatever follows |
| AuthReset.TableStoresPending | api/auth/auth_service.py:198-205 | the reset columns of a user hold the last link mailed and its deadline, unless the password was reset since |
| AuthReset.OneHolder | api/auth/auth_service.py:184-214 | a link is pending for one user at most |
| AuthReset.ResetVerdict | api/auth/auth_service.py:216-233 | a reset succeeds for a user if and only if the link is that user's latest, unused and under an hour old, and the user is active |
| AuthReset.ResetOnce | api/auth/auth_service.py:216-246 | a link resets a password at most once |
| AuthOverlap.RefreshIsReadThenWrite | api/auth/auth_service.py:114-164 | a refresh served without interruption is its read followed at once by its write, in result and in every refusal |
| AuthOverlap.ExchangedAgainIff | api/auth/auth_service.py:134-164 | after one exchange of a token a later request exchanges it again if and only if it has read the row before the first wrote it |
| AuthOverlap.SingleUseIff | api/auth/auth_service.py:152-159 | over every interleaving of requests and halves of refreshes, tokens are single-use if and only if no token is exchanged between another refresh's read and write of it |
| AuthOverlap.TwoForOne | api/auth/auth_service.py:152-159 | an interleaving in which one token yields two |
| AuthOverlap.RevokedExchangedIff | api/auth/auth_service.py:134-164 | once a token is revoked, a later action exchanges it if and only if it is the next write of a refresh that had read the row before |
| AuthSessions.ExchangedAfterLogoutIff | api/auth/auth_service.py:173-182 | after a logout its token yields another one if and only if a refresh had read the row before the logout and writes next |
| AuthSessions.SessionsAccounted | api/auth/auth_service.py:50-182 | over every interleaving a user's unrevoked rows number the sessions started, less the sessions ended, plus one for each write to a row revoked since it was read |
| AuthSessions.SessionsConservedIff | api/auth/auth_service.py:50-182 | over every interleaving a user's unrevoked rows number the sessions started less the sessions ended if and only if no token of the user is exchanged, or logged out with, between another refresh's read and write of it |
| AuthSessions.LogoutOvertaken | api/auth/auth_service.py:152-182 | an interleaving in which a logged-out token still yields a new one |
| IsoTime.TailOrder | pipeline/jobs/write_silver_job.py:82-83 | the optional fraction keeps the order, and is injective, because the plus sign sorts before the point |
| IsoTime.IsoOrder | pipeline/jobs/write_silver_job.py:82-83 | for all UTC times with years 1 to 9999, byte order of the ISO text is time order, and the text is injective |
| IsoTime.IsoOrderIsInstantOrder | pipeline/jobs/write_silver_job.py:119-128 | silver's comparison of texts and the warehouse's comparison of timestamps decide alike |
| IsoTime.TomorrowIsNextDay | pipeline/utils/date_utils.py:18-21 | instants run through the calendar without gaps, over month ends, leap days and years |
| IsoTime.StampOrder | pipeline/jobs/build_gold_job.py:41 | partition stamps sort like the whole seconds they name, and are equal only within one second |
| IsoTime.LaterStampSortsLast | pipeline/jobs/load_bi_to_serving_layer_job.py:58 | the sorted keys end with the latest build, or with one of the same second |
| IsoText.IsoReadsBack | pipeline/jobs/write_silver_job.py:82-83 | every field of the time reads back from its place in the ISO text, with the separators, the six-digit fraction if there is one, and the UTC offset |
| IsoText.StampReadsBack | pipeline/jobs/build_gold_job.py:41 | every field down to the second reads back from its place in the stamp |
| Dedup.TextOrderKeepsNewest | pipeline/jobs/write_silver_job.py:119-128 | an answer of the query, which compares texts, is an answer by time, and the other way round |
| Dedup.BestIsFirstNewest | pipeline/jobs/_transform_silver_job.py:17-24 | the loop keeps for every id the first row among those with the greatest updated |
| Dedup.ClearDuplicates | pipeline/jobs/_transform_silver_job.py:17-24 | one row per id in order of first appearance, each the one that the loop keeps |
| Dedup.LoopRefinesQuery | pipeline/jobs/_transform_silver_job.py:17-24 | the loop's result is a possible answer of the query, with no id twice |
| Dedup.LoopKeepsOrder | pipeline/jobs/_transform_silver_job.py:17-24 | of two ids, the one that comes first in the input comes first in the result |
| Ods.Repository.UpsertEarthquakes | pipeline/warehouse/pg.py:81-140 | all pages or none: on success the number of input rows, on refusal nothing is kept |
| Ods.RefusedIff | pipeline/warehouse/pg.py:103-138 | a page is refused if and only if some row meets an id that an earlier row of the page has written |
| Ods.UpsertMerges | pipeline/warehouse/pg.py:103-138 | a call that succeeds is the row by row merge guarded by updated, whatever the pages |
| Ods.DistinctUpsertSucceeds | pipeline/warehouse/pg.py:103-138 | a call without repeated ids always succeeds |
| Ods.MergeHoldsNewest | pipeline/warehouse/pg.py:106-133 | after any arrivals the table holds, for exactly the ids supplied, a supplied content with the greatest updated |
| Ods.NewestAgree | pipeline/warehouse/pg.py:106-133 | tables that hold the newest of a supply and of a part that represents it hold the same contents |
| Ods.MergeConverges | pipeline/warehouse/pg.py:106-133 | order, overlap, repetition and paging of arrivals do not change the final contents, unless contents tie for the newest of an id |
| Ods.TiesDivide | pipeline/warehouse/pg.py:133 | whenever contents do tie, two orders of one supply end in different tables |
| Ods.SilverToWarehouse | pipeline/jobs/write_silver_job.py:119-128 | deduplicating every batch by text and loading it never fails, and ends with the contents that merging every raw row would give |
| Ods.PipelinesAgree | pipeline/warehouse/pg.py:81-140 | two pipelines that received the same contents, in any batches and order, end with the same contents |
| OdsRows.UpsertStores | pipeline/warehouse/pg.py:91-133 | a call that succeeds leaves for each id what was stored, if no row of it is newer, else every column of the first of its newest rows and the time of the call |
| OdsRows.WarehouseHoldsNewestRows | pipeline/warehouse/pg.py:91-133 | after any deduplicated batches the table holds one row for every id ever received and no other: time, updated, details, country, risk class and source window of a raw row with the greatest updated of all raw rows of the id, from the first batch that had one as new, stamped with the time of its load |
| OdsRows.CallRefusedIff | pipeline/warehouse/pg.py:135-138 | a call is refused as a whole if and only if, in some page of 2000 rows, a row repeats the id of an earlier one that was written |
| Dates.DateRange | pipeline/utils/date_utils.py:10-21 | every day from start up to the end, once, in order |
| Gold.InDayView | pipeline/jobs/build_gold_job.py:66-81 | the half-open time filter selects exactly the events of the UTC day |
| Gold.ViewColumns | pipeline/jobs/build_gold_job.py:69-92 | the columns of an event in a day's feed are those of the warehouse, and its three buckets are the ones whose edges hold its magnitude and depth |
| Calendar.DayOfIsCalendarDay | pipeline/jobs/build_gold_job.py:66-67 | the UTC day of the instant of any valid time is the calendar day of its date |
| Calendar.ViewHoldsDate | pipeline/jobs/build_gold_job.py:66-81 | an event is selected for a day if and only if that day is its calendar date in UTC |
| Calendar.SameViewIffSameDate | pipeline/jobs/build_gold_job.py:66-81 | two events share a day's partition if and only if their year, month and day agree |
| Calendar.DeletesDate | pipeline/jobs/load_bi_to_serving_layer_job.py:86-90 | deleting a day from the serving table removes a row if and only if its date is that day |
| Calendar.DayNumberIsDate | pipeline/utils/date_utils.py:18-21 | two times have one day number if and only if they have one date |
| Calendar.TickIsNextInstant | pipeline/jobs/build_gold_job.py:66-67 | one microsecond later on the clock, with all carries up to the year, is the next instant |
| Calendar.HourIsClockHour | pipeline/cli/_backfill_pipeline_hours.py:34 | the hour of the backfill and of reset links is one hour on the clock, and a day is 24 of them |
| Gold.LatestExists | pipeline/jobs/load_bi_to_serving_layer_job.py:53-58 | a day with partitions has a last one |
| Gold.LatestUnique | pipeline/jobs/load_bi_to_serving_layer_job.py:58 | and only one |
| Gold.BuildAt | pipeline/jobs/build_gold_job.py:57-84 | a build adds one partition, of the current view, to each day of its window that has events, and changes no other day |
| Gold.DaysPartitionWindow | pipeline/jobs/build_gold_job.py:94 | the feed rows exported over the days of a window are its warehouse rows, each once |
| Gold.HealthPerDay | pipeline/jobs/build_gold_job.py:104-129 | one health row is written for each day of the window that has events |
| Gold.HealthCounts | pipeline/jobs/build_gold_job.py:104-129 | the three counts of a day's health row, told from the warehouse rows of that day |
| Gold.TopCountBounds | pipeline/jobs/build_gold_job.py:96-102 | the top rows written number at least one and at most ten for each day with events, and no more than the feed rows |
| Gold.TopListIsBest | pipeline/jobs/build_gold_job.py:96-102 | for any order of ties: min(10, n) ranks, no event twice, best first, no omitted event better than a listed one |
| Gold.TopListOrder | pipeline/jobs/build_gold_job.py:96 | down the list magnitudes do not rise and missing ones come last; among equal ones times do not rise |
| Gold.GoldStorage.ProcessDay | pipeline/jobs/build_gold_job.py:65-129 | one partition of the three tables is added for the day, or none if it is empty; the counts are the rows written |
| Gold.GoldStorage.Run | pipeline/jobs/build_gold_job.py:32-63 | refuses a window that is not positive; else the partitions of the whole window, and the three counts of rows written |
| BiLoad.ServingLayer.DeleteFeedDay | pipeline/jobs/load_bi_to_serving_layer_job.py:86-90 | the rows of one UTC day go, all others stay |
| BiLoad.ServingLayer.InsertFeed | pipeline/warehouse/pg.py:142-165 | rows with a new event id are added, rows with a stored one are skipped |
| BiLoad.ServingLayer.LatestKey | pipeline/jobs/load_bi_to_serving_layer_job.py:58 | the key that sorts last |
| BiLoad.ServingLayer.ReadLatest | pipeline/jobs/load_bi_to_serving_layer_job.py:53-66 | the latest partition of a day, if it has one |
| BiLoad.ServingLayer.SyncFeed | pipeline/jobs/load_bi_to_serving_layer_job.py:49-83 | one day of the feed is replaced by its latest partition, or emptied |
| BiLoad.ServingLayer.SyncTop | pipeline/jobs/load_bi_to_serving_layer_job.py:49-83 | the same for the top table, where no conflict can arise |
| BiLoad.ServingLayer.SyncHealth | pipeline/jobs/load_bi_to_serving_layer_job.py:49-83 | the same for the health table |
| BiLoad.ServingLayer.SyncFeeds | pipeline/jobs/load_bi_to_serving_layer_job.py:44-47 | the days of the window, in ascending order |
| BiLoad.ServingLayer.SyncTops | pipeline/jobs/load_bi_to_serving_layer_job.py:44-47 | the same for the top table |
| BiLoad.ServingLayer.SyncHealths | pipeline/jobs/load_bi_to_serving_layer_job.py:44-47 | the same for the health table |
| BiLoad.ServingLayer.Run | pipeline/jobs/load_bi_to_serving_layer_job.py:33-47 | refuses a window that is not positive and changes nothing; else all three tables are loaded for it |
| BiLoad.AgreeIsSameWindow | pipeline/jobs/load_bi_to_serving_layer_job.py:44-47 | agreeing day by day is holding the same rows in the window |
| BiLoad.GoodDaysLoad | pipeline/jobs/load_bi_to_serving_layer_job.py:46-83 | while every day so far passes the check, each event is settled half way: its current row, its old row, or none |
| BiLoad.BadDayShows | pipeline/jobs/load_bi_to_serving_layer_job.py:74-83 | the first day that fails the check makes the final table wrong on that day |
| BiLoad.CopyIsRightIff | pipeline/jobs/load_bi_to_serving_layer_job.py:43-90 | on any serving table and any latest partitions as a build leaves them, the loaded window equals the warehouse view row for row if and only if every day passes the check made before the load |
| BiLoad.OutsideUntouched | pipeline/jobs/load_bi_to_serving_layer_job.py:86-90 | a load changes no row of a day outside its window |
| BiLoad.LaterDaysKeep | pipeline/jobs/load_bi_to_serving_layer_job.py:46-47 | loading later days leaves a loaded day alone |
| MartRuns.RunOwnsDays | pipeline/jobs/build_gold_job.py:66-81 | in every run, whatever the upserts do to the events' times, every partition holds rows of its own day |
| MartRuns.BuildTouchesLastDays | pipeline/jobs/build_gold_job.py:32-63 | a build adds one partition to each of the last days up to today, as many as were asked for, that has events, and changes nothing else |
| MartRuns.NextStampIsLast | pipeline/jobs/build_gold_job.py:41 | after any run with a monotone clock the next build's stamp sorts after all stored ones |
| MartRuns.BuiltByBuild | pipeline/jobs/load_bi_to_serving_layer_job.py:53-66 | after any run a build leaves what the exact condition of a load asks for: own days, and the current view on every day with events |
| MartRuns.CopyRightIff | pipeline/jobs/load_bi_to_serving_layer_job.py:43-90 | after every run, with no assumption on the events, a build and a load with the same window make the served window equal to the warehouse view row for row if and only if every day passes the check made before the load; other days stay as they were |
| MartFresh.RunIsGood | pipeline/jobs/build_gold_job.py:57-84 | over every run of upserts, builds and loads with fixed days, every stored partition and every served row belongs to a known event on its own day |
| MartFresh.BuildOffersView | pipeline/jobs/load_bi_to_serving_layer_job.py:53-66 | after a build each day of the window offers its current view, and an empty day offers nothing |
| MartFresh.FreshCopy | pipeline/jobs/load_bi_to_serving_layer_job.py:43-90 | over every such run, a build and a load with the same window make the served window equal to the warehouse view row for row, and leave all other days as they were |
| MartFresh.FreshTop | pipeline/jobs/build_gold_job.py:96-102 | the same for the daily top table, whatever order of ties earlier builds used |
| MartFresh.FreshHealth | pipeline/jobs/build_gold_job.py:104-129 | the same for the daily health table |
| MartMoves.MoveIsCopiedIff | pipeline/jobs/load_bi_to_serving_layer_job.py:46-83 | after such a run, when a newer version moves one event to another day, inside the window or across its edge, the n-th following build and load copy the window right if and only if the move left no day of it empty and, if the new day is in it, no row of the event outside the window, nor at first one under a later day, stands in the way |
| MartMoves.AfterRounds | pipeline/jobs/load_bi_to_serving_layer_job.py:46-83 | after any number of rounds all other events are in place and the moved one is where the exact account of its stored day says |
| MartMoves.LoadedOnce | pipeline/jobs/load_bi_to_serving_layer_job.py:46-83 | what a load does to an event that one day offers: a row outside the window stays and blocks, one under a later day blocks and is then deleted, else the offered row is stored |
| MartMoves.StuckOffers | pipeline/jobs/build_gold_job.py:83-84 | the early return on an empty day: a day left empty by the move goes on offering the event that has gone |
| Backfill.RunWindows | pipeline/cli/_backfill_pipeline_hours.py:29-58 | terminates; the windows attempted are the consecutive hours from the start, all planned ones unless a failure without continue-on-error stops at the first failing one |
| Backfill.WindowsTile | pipeline/cli/_backfill_pipeline_hours.py:33-34 | windows are adjacent, not empty, at most an hour, only the last shorter, and end where the covered span ends |
| Backfill.EachInstantOnce | pipeline/cli/_backfill_pipeline_hours.py:33-58 | an instant is covered if and only if it is in a window, and never in two |
| Backfill.CountIsCeiling | pipeline/cli/_backfill_pipeline_hours.py:53-58 | the number of windows is the covered span in hours, rounded up |

## Left out

- Failures of Redis, Postgres, S3, DuckDB and pandas, and the fail-open paths that answer them, including the breaker's default to CLOSED on an unreadable state.
- Interleavings inside auth requests other than the two halves of a refresh: a register, login, logout or reset is one step everywhere.
- Deadlines in the interleaved breaker: keys live until they are deleted there.
- The values of the statistics in the health row that pandas works out on floating-point numbers (means, an interpolated percentile, the largest magnitude, the tsunami sum) and its data-quality columns: a parameter of each build.
- The columns of the top table other than the event of each rank.
- Interleaving within one build or one load: each is one step of a run.
- Builds within one second share a stamp and overwrite each other's partition; runs of builds have strictly or equally sorted stamps, as a clock that does not go back gives.
- Parsing of features into rows, geocoding and risk classes: a silver row arrives complete and with valid times.
- The payload and signature of access tokens, cookies and all HTTP plumbing; of a token only its encoded header matters here, which the token library writes.
- The empty list of excluded paths, which falls back to the default list: settings are modelled after that choice.
- What the backfill does after its loop (marts and export once), and the jobs behind one window: its outcome is a parameter.
- Saved events, alert rules, event queries and the frontend: single statements and user interface.
