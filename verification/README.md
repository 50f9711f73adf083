# Verified models of the identity and stays services

Dafny models of the stateful protocols and text transformations at the centre of the `identity` and
`stays` backends, with proofs of what they guarantee over every run, every interleaving or every
input. `dafny verify dfyconfig.toml` checks the whole project.

| module | models | main results |
|---|---|---|
| `MoneyIdempotency` | `runInTransaction`: advisory lock, replay, stale reclaim, work, commit or rollback | every interleaving is serial; money moves at most once per key; terminal rows never change |
| `CanonicalJson` | the canonical form whose hash is a payload's identity | same form if and only if equivalent; idempotent |
| `RefreshTokens` | rotation, reuse detection, family revocation, in-process coalescing | one successor per token under every interleaving; reuse is final; device binding |
| `SumsubWebhook` | webhook ingestion and the guarded dossier write | latest event wins in any delivery order; exactly when the status converges; the snapshot never goes back |
| `CursorWalk` | keyset paging with millisecond cursors | the walk is the sorted table if and only if its page cuts are clean |
| `RateLimits` | tumbling windows | bounds over every interval of every trace, attained; when the nominal limit is kept |
| `OtpLockout`, `PinLockout` | lockouts, with attempts overlapping between check and recording | bounds for any number of overlapping attempts, attained; exactly when lockouts start one after the other |
| `AuthzVersions` | the version cache and the roles guard, interleaved at the awaits | a bump can be followed by an old answer if and only if a call holds a row at the increment, and for less than 30 seconds after it resumes |
| `ListingLifecycle` | the admin actions and their audit log | replaying the log gives the state |
| `SarCsv` | the CSV export | decoding gives the table back |
| `PhoneNumbers` | the normaliser and the lookup candidates | idempotent; spellings agree; candidates meet if and only if numbers are equal |
| `OutboundAddress` | the IPv4/IPv6 parser and block list | hextets recovered; blocked if and only if the number is in a blocked interval |

`Wrappers` holds options and table updates, `Text` the JavaScript string operations.

Conventions. Times are integers in milliseconds and are passed in. A database table is a map, a
repository call is one atomic step, and a transaction whose callback rejects leaves the table as it
was. Hashes name their inputs: a token is its hash, a request hash is a string, and the advisory lock
of a key is an arbitrary function of the key, so collisions are covered. State that the code updates
in place is a class whose methods are proved equal to a function of the old state; the theorems are
about that function and about runs of it. In the lockout modules a step is a whole service call, and
attempts interleave between calls.

Where the code and its own words differ, the model follows the code:

- The idempotency service writes FAILED and UNCERTAIN rows and then rethrows inside the transaction
  callback, so those rows are rolled back with everything else. Its message that an uncertain key must
  not be repeated until reconciliation therefore holds only for rows that were in the table before.
  `OnlyCompletedRowsAreWritten` and `FailedAttemptDoesNotBlockRetry` state this, and `WorkCommitsIff` says
  exactly when a call runs and commits its work.
- The listing walk's one-millisecond tie window does not by itself make the walk complete.
  `WalkIsExactIff` gives the exact condition and `OutOfOrderIdsLoseARow` an example.
- The verify limiter's comment promises under 10 per minute. The windows tumble, so a minute can hold
  up to one less than twice the limit; `LimiterBoundIsAttained` shows that it does. `PromiseKeptIff` gives
  the exact condition under which an interval keeps to the limit.
- The OTP lockout's comment promises a lock after five failures in the window. The check and the
  recording are separate calls with awaits in between, so attempts already let through still record:
  with `w` of them waiting at a time an interval holds up to `4 + w` failures, and more if some record
  only after the lock has run out. `PromptFailuresBound`, `FailuresBound` and the lemmas that attain them
  state this; five is the case of attempts that do not overlap.
- PIN lockouts can overlap for the same reason, if and only if more attempts than the maximum can be
  under way at a time (`LockoutsApartIff`). Their lengths are right in every order of calls.
- A bump is meant to revoke outstanding staff tokens at once. A call of `getAuthzState` that read the row
  before the bump and resumes after it answers the old version and puts it back into the cache, for
  less than 30 seconds. `OldAnswerIff` gives the exact condition, on the state at the increment, and
  `StaleReadAdmitsOldToken` the run.
- The status after an approval can depend on the delivery order, or on what is looked up, when the latest
  event may come without the issuer country and some event may bring it. `StatusConvergesIff` gives the
  exact condition.
- The phone normaliser takes digits without a plus for Moroccan ones. A foreign number without its plus
  then gets the form of the Moroccan number it ends in. `PlainReadsAsIff` says exactly which texts do.
- A member called `__proto__` does not reach the canonical form, because assigning it sets the
  prototype. The equivalence in `SameFormIffEquivalent` says so.
- An IPv6 text with a dotted tail and no `::` is read with its tail as zero.
  `LongTailRecoveredIff` gives the exact condition, and `LongTailVerdict` what the block list then says:
  too much is blocked, never too little.
- A rotation that sends an empty device id drops the binding. `SuccessorKeepsDevice` gives the exact
  condition.

## Model

| member | source | states |
|---|---|---|
| `MoneyIdempotency.IdempotencyTable.RunInTransaction` | identity/src/common/idempotency/money-movement-idempotency.service.ts:40-182 | Read off the table and the request: on a free or stale key a successful work is stored and returned and any other is rethrown as it was thrown; on any other key the row dictates the answer; only a committed work changes the table, and only its key |
| `MoneyIdempotency.StepIsAtomic` | identity/src/common/idempotency/money-movement-idempotency.service.ts:52-181 | With any number of calls under way, only the end of a transaction touches the table, and it does there what a call running alone would do |
| `MoneyIdempotency.StepKeepsInv` | identity/src/common/idempotency/money-movement-idempotency.service.ts:53-68 | Every step keeps: a call between lock and end owns its lock, and what it read is still what is stored |
| `MoneyIdempotency.EveryInterleavingIsSerial` | identity/src/common/idempotency/money-movement-idempotency.service.ts:40-182 | From any table, for any lock function, every interleaving ends with the table and the replies of running the calls one at a time in commit order |
| `MoneyIdempotency.TerminalRowsAreFrozen` | identity/src/common/idempotency/money-movement-idempotency.service.ts:70-124 | In a serial run COMPLETED, FAILED and UNCERTAIN rows are never altered or removed |
| `MoneyIdempotency.TerminalRowsSurvive` | identity/src/common/idempotency/money-movement-idempotency.service.ts:52-124 | The same from any reachable state on, for every interleaving |
| `MoneyIdempotency.LaterCallsReplay` | identity/src/common/idempotency/money-movement-idempotency.service.ts:70-87 | After a committed run no later call on the key commits; each gets the stored response, or a conflict for another payload, or a corrupt-row conflict if the response was null |
| `MoneyIdempotency.ReturnedIsStored` | identity/src/common/idempotency/money-movement-idempotency.service.ts:79-87 | A normal return leaves the key COMPLETED with that payload hash and that response |
| `MoneyIdempotency.MoneyMovesAtMostOnce` | identity/src/common/idempotency/money-movement-idempotency.service.ts:40-182 | In every interleaving from every table, each (scope, actor, key) has at most one committed run of the work, and any two normal returns agree in payload and response |
| `MoneyIdempotency.OnlyCompletedRowsAreWritten` | identity/src/common/idempotency/money-movement-idempotency.service.ts:137-180 | A row that differs from the starting table is the COMPLETED row of a committed run: FAILED and UNCERTAIN writes do not survive the rethrow |
| `MoneyIdempotency.CommittedIff` | identity/src/common/idempotency/money-movement-idempotency.service.ts:70-180 | In every log a call commits its work if and only if the work succeeds, the starting table has no row for the key or an IN_FLIGHT row of the same payload untouched for longer than the stale limit, and no earlier call on the key committed |
| `MoneyIdempotency.WorkCommitsIff` | identity/src/common/idempotency/money-movement-idempotency.service.ts:40-182 | The same for every call of every interleaving from every table |
| `MoneyIdempotency.ReplyBeforeCommit` | identity/src/common/idempotency/money-movement-idempotency.service.ts:70-180 | In every log, until a call on the key has committed: what each call gets, from the starting row and its own work alone; a work that throws is answered with what it threw and leaves the table as it was |
| `MoneyIdempotency.ReplyInEveryInterleaving` | identity/src/common/idempotency/money-movement-idempotency.service.ts:40-182 | The same replies in every interleaving from every table |
| `MoneyIdempotency.CommittedCallStores` | identity/src/common/idempotency/money-movement-idempotency.service.ts:138-150 | A committed call stores the COMPLETED row with status 200, its hash and its result, and changes no other key |
| `MoneyIdempotency.UncommittedCallLeavesTable` | identity/src/common/idempotency/money-movement-idempotency.service.ts:151-181 | A call that does not commit, or that throws, leaves the table as it was |
| `MoneyIdempotency.QueuedCallProceedsIff` | identity/src/common/idempotency/money-movement-idempotency.service.ts:246-260 | In every interleaving a waiting call can take its lock exactly if no call with that lock is between its lock and its end: locks are always freed |
| `MoneyIdempotency.LogComesFromSteps` | identity/src/common/idempotency/money-movement-idempotency.service.ts:40-68 | Every logged request has the key, hash and stale limit its call began with, and the clock readings of its read and its work |
| `MoneyIdempotency.StoredFailureRoundTrip` | identity/src/common/idempotency/money-movement-idempotency.service.ts:226-244 | A 4xx error serialised into a row is rebuilt with its status and body |
| `MoneyIdempotency.StoredUncertaintyRoundTrip` | identity/src/common/idempotency/money-movement-idempotency.service.ts:161-178 | Any other error, had it been stored, would leave the key free if deletion is allowed and uncertain with the error kept if not |
| `MoneyIdempotency.FailedAttemptDoesNotBlockRetry` | identity/src/common/idempotency/money-movement-idempotency.service.ts:151-180 | In every log, on a key that was free or stale, the first call whose work succeeds commits and returns its result, however many failed before |
| `CanonicalJson.SameFormIffEquivalent` | identity/src/common/idempotency/canonical-request-hash.ts:7-24 | Two payloads have one canonical form if and only if they differ only in member order and in ignored members, at any depth |
| `CanonicalJson.CanonIsEquivalent` | identity/src/common/idempotency/canonical-request-hash.ts:7-24 | The canonical form is a well-formed payload equivalent to the original |
| `CanonicalJson.CanonIsIdempotent` | identity/src/common/idempotency/canonical-request-hash.ts:7-24 | Canonicalising twice is canonicalising once |
| `CanonicalJson.HashIdentifiesPayload` | identity/src/common/idempotency/canonical-request-hash.ts:26-32 | With a digest under which the two canonical forms do not collide, request hashes agree if and only if the payloads are equivalent |
| `CanonicalJson.IrrelevantMemberIsDropped` | identity/src/common/idempotency/canonical-request-hash.ts:16-18 | Adding an `idempotency_key` or `__proto__` member does not change the form |
| `CanonicalJson.CanonicalizeForIdempotency` | identity/src/common/idempotency/canonical-request-hash.ts:7-24 | The recursive procedure computes the canonical form |
| `CanonicalJson.CanonicalizeMembers` | identity/src/common/idempotency/canonical-request-hash.ts:15-23 | Filling a fresh object in `sort()` order, where integer keys enumerate first, gives the canonical member list |
| `CanonicalJson.IsIndexIff` | identity/src/common/idempotency/canonical-request-hash.ts:15-23 | The integer-like keys are the numerals up to 4294967294 |
| `CanonicalJson.OutLessIff` | identity/src/common/idempotency/canonical-request-hash.ts:15-23 | The order of the result: integer-like keys first and by value, the others by text |
| `RefreshTokens.TokenTable.RotateRefreshToken` | identity/src/modules/auth/auth.service.ts:316-365 | The checks and writes on the token table amount to `Rotate`; which answer is given is read off the stored row |
| `RefreshTokens.RotatedIff` | identity/src/modules/auth/auth.service.ts:321-353 | A presented token is rotated if and only if it is stored, not revoked, not expired, its device and the one sent agree or one is absent or empty, and its user exists; and which refusal every other case gets |
| `RefreshTokens.RotationLeaves` | identity/src/modules/auth/auth.service.ts:355-365 | A rotation leaves the old token revoked, one live token of the same user with the new expiry, bound to the device sent or else the old one, and all others as they were |
| `RefreshTokens.RefusalLeaves` | identity/src/modules/auth/auth.service.ts:324-353 | A refusal other than a reuse changes nothing |
| `RefreshTokens.TokenTable.RevokeRefreshSessionByToken` | identity/src/modules/auth/auth.service.ts:440-453 | Exactly the named token is revoked, unknown and revoked ones included without effect |
| `RefreshTokens.TokenTable.RevokeRefreshTokens` | identity/src/modules/auth/auth.service.ts:485-504 | Exactly the user's tokens, or those of one device, end up revoked |
| `RefreshTokens.RevokedForever` | identity/src/modules/auth/auth.service.ts:316-365 | No run of rotations, logins and revocations un-revokes a token |
| `RefreshTokens.ReuseRevokesFamily` | identity/src/modules/auth/auth.service.ts:327-332 | Presenting a revoked token issues nothing, revokes every token of that user and changes no other |
| `RefreshTokens.ReuseIsFinal` | identity/src/modules/auth/auth.service.ts:316-365 | After a reuse, whatever happens later, presenting any token the user had then issues nothing |
| `RefreshTokens.SecondUseRevokesSuccessor` | identity/src/modules/auth/auth.service.ts:327-365 | A rotated token shown again is a reuse, and the token that replaced it is revoked with it |
| `RefreshTokens.TokensKeepTheirTerms` | identity/src/modules/auth/auth.service.ts:316-365 | No run changes a token's user, device or expiry |
| `RefreshTokens.ExpiredTokensStayExpired` | identity/src/modules/auth/auth.service.ts:333-335 | After any run, an expired token is rejected and nothing is issued for it |
| `RefreshTokens.SuccessorKeepsDevice` | identity/src/modules/auth/auth.service.ts:336-365 | A bound token's successor keeps its device if and only if the device id sent was absent or not empty |
| `RefreshTokens.DeviceBindingHolds` | identity/src/modules/auth/auth.service.ts:336-365 | In every run without empty device ids, all descendants of a bound token carry its device |
| `RefreshTokens.StepKeepsMap` | identity/src/modules/auth/auth.service.ts:300-314 | Every step keeps: a key is in the in-flight map exactly while its one rotation is unsettled |
| `RefreshTokens.StepKeepsRotation` | identity/src/modules/auth/auth.service.ts:316-365 | Every step keeps: the token of a rotation that passed its checks has no successor yet |
| `RefreshTokens.OneSuccessorPerToken` | identity/src/modules/auth/auth.service.ts:300-404 | In every interleaving at the awaits, with logins, revocations and failures around, no token has two successors and the map is exact |
| `RefreshTokens.ReuseIsFinalIff` | identity/src/modules/auth/auth.service.ts:316-365 | At the awaits: once a reuse has revoked a family, a token its user had and that was not replaced yet can still get a successor if and only if a rotation of it was already past its check |
| `RefreshTokens.OneRotationAtATime` | identity/src/common/coalescing/request-coalescing.service.ts:16-32 | Two unsettled runs for one key are the same run |
| `RefreshTokens.RevocationIsPermanent` | identity/src/modules/auth/auth.service.ts:355-356 | In every interleaving revocation is never undone and no row disappears |
| `RefreshTokens.UninterruptedRotation` | identity/src/modules/auth/auth.service.ts:316-365 | The steps of an uninterrupted rotation do to the table what the atomic rotation does and clear the map, on every path: success, reuse, rejection and missing user |
| `SumsubWebhook.KycRows.ProcessSumsubWebhook` | identity/src/modules/compliance/compliance.service.ts:1326-1366 | The transaction applies the event if and only if it is newer than the stored time, and leaves everything as it was otherwise |
| `SumsubWebhook.KycRows.ApplySumsubReviewStatus` | identity/src/modules/compliance/compliance.service.ts:682-774 | The in-place updates of both rows amount to `ApplyEvent` |
| `SumsubWebhook.KycRows.ApplyProviderIdentityToKyc` | identity/src/modules/compliance/compliance.service.ts:613-619 | Only empty country columns are filled |
| `SumsubWebhook.ApprovalSetsIssuer` | identity/src/modules/compliance/compliance.service.ts:715-728 | The issuer country after an approval: what is there stays, else the supplied one, else the user's nationality, else the profile's own or supplied one |
| `SumsubWebhook.OtherEventsSetIssuer` | identity/src/modules/compliance/compliance.service.ts:617-619 | Any other event writes only a supplied document country into an empty column |
| `SumsubWebhook.EventSetsNationality` | identity/src/modules/compliance/compliance.service.ts:768-770 | An empty profile nationality takes what was supplied and an empty user nationality follows it |
| `SumsubWebhook.FilledColumnsStay` | identity/src/modules/compliance/compliance.service.ts:605-634 | No run of deliveries changes a country column that is not empty |
| `SumsubWebhook.CopyReadsTheSame` | identity/src/modules/compliance/compliance.service.ts:768-770 | The trimmed, cut copy of a nationality counts as the same country as the original |
| `SumsubWebhook.RunTracksLatest` | identity/src/modules/compliance/compliance.service.ts:1326-1366 | After any deliveries the account shows the latest event once that has persisted, and something older until then |
| `SumsubWebhook.LatestEventWins` | identity/src/modules/compliance/compliance.service.ts:1336-1364 | Whatever the order, repeats and failed attempts, the account ends with the greatest time, that event's type and that event's decision |
| `SumsubWebhook.ApplyResolves` | identity/src/modules/compliance/compliance.service.ts:344-355 | Applying an event never loses an issuer country and brings one in exactly if its identity supplies an empty column |
| `SumsubWebhook.StatusConverges` | identity/src/modules/compliance/compliance.service.ts:711-747 | If a country was resolvable at the start, any two runs with the same latest event end with the same status on both rows |
| `SumsubWebhook.FinalStatusFromPayload` | identity/src/modules/compliance/compliance.service.ts:139-176 | With a country, any deliveries whose latest payload is p end VERIFIED, REJECTED or PENDING exactly as p's answer, review status and event type say, with p's time stored and its type cut to 100 characters |
| `SumsubWebhook.StatusConvergesIff` | identity/src/modules/compliance/compliance.service.ts:698-730 | All complete deliveries of a set of events, with any answers of the applicant lookup in each delivery, end with one status if and only if not: the latest approves and may come without a country while some applicable event may bring one |
| `SumsubWebhook.OrderShows` | identity/src/modules/compliance/compliance.service.ts:715-728 | When that condition fails, two complete deliveries of the same events that end VERIFIED and UNDER_REVIEW |
| `SumsubWebhook.SnapshotNeverGoesBack` | identity/src/modules/compliance/compliance.service.ts:1076-1094 | In every interleaving of commits and dossier writes, writes take effect in event-time order and none older than a committed event takes effect after it |
| `SumsubWebhook.DeliveryIsCommit` | identity/src/modules/compliance/compliance.service.ts:1336-1364 | A delivery is a commit of that run: applied exactly if it persists and is newer, with the same event time on both sides |
| `SumsubWebhook.CurrentSnapshotIsWritten` | identity/src/modules/compliance/compliance.service.ts:1076-1093 | The dossier write of an event takes effect exactly if that event is still the committed one; otherwise nothing is written |
| `CursorWalk.RunWalk` | stays/scripts/verify-listings-cursor-walk.js:39-80 | The loop, with its seen set, one-row look-ahead and early exits, ends with the pages of `FetchFrom` or with the first repeated listing |
| `CursorWalk.NotePage` | stays/scripts/verify-listings-cursor-walk.js:67-73 | Noting a page finds the first id seen before, or adds all of them |
| `CursorWalk.AfterComparesMillisThenId` | stays/scripts/verify-listings-cursor-walk.js:45-57 | The tie-window clause is a comparison of (millisecond, id) pairs |
| `CursorWalk.PagesShrink` | stays/scripts/verify-listings-cursor-walk.js:39-80 | Resuming after a full page leaves fewer rows, so the walk ends on every table |
| `CursorWalk.WalkIsSortedTable` | stays/scripts/verify-listings-cursor-walk.js:39-80 | With distinct ids that follow time within each millisecond, the pages are exactly the sorted table, in max(1, ceil(n/limit)) pages, for every page size |
| `CursorWalk.PageCountIsCeiling` | stays/scripts/verify-listings-cursor-walk.js:63-65 | The page count is the least number of pages that hold the rows, and at least one |
| `CursorWalk.WholeMillisecondsSuffice` | stays/scripts/verify-listings-cursor-walk.js:77-78 | Whole-millisecond timestamps meet the condition |
| `CursorWalk.WalkIsExactIff` | stays/scripts/verify-listings-cursor-walk.js:39-80 | For each page size, the walk is exactly the sorted table if and only if every page cut separates the larger from the smaller ids of its millisecond |
| `CursorWalk.WalkIsSortedTableIff` | stays/scripts/verify-listings-cursor-walk.js:39-80 | It is so for all page sizes if and only if ids follow time within each millisecond |
| `CursorWalk.OutOfOrderIdsLoseARow` | stays/scripts/verify-listings-cursor-walk.js:45-57 | For every page size, limit+1 rows of one millisecond with ids against time, of which the walk loses one |
| `RateLimits.OtpVerifyRateLimit.CheckAndIncrement` | identity/src/modules/auth/otp-verify-rate-limit.service.ts:19-34 | A request opens a window of 60 seconds if none is running, else is allowed and counted exactly if the window is not full |
| `RateLimits.OtpSendRateLimit.CheckAndIncrement` | identity/src/modules/auth/otp-send-rate-limit.service.ts:25-53 | The nested windows: the minute is charged first and keeps its charge when the day refuses |
| `RateLimits.RefusedSends` | identity/src/modules/auth/otp-send-rate-limit.service.ts:29-51 | With both windows running: a send is allowed exactly if both have room, a full minute changes nothing, and a full day leaves the minute charged |
| `RateLimits.SharedWindowIff` | identity/src/modules/auth/otp-send-rate-limit.service.ts:20-22 | Two pairs whose phones hold no colon share a window exactly if they are equal |
| `RateLimits.HitKeepsAccount` | identity/src/modules/auth/otp-verify-rate-limit.service.ts:22-33 | The accounting of one interval against one window survives every request |
| `RateLimits.LimiterBound` | identity/src/modules/auth/otp-verify-rate-limit.service.ts:19-34 | Over any trace with a monotone clock, every half-open interval of the window's length holds at most 2*max-1 allowed requests per key |
| `RateLimits.LimiterBoundIsAttained` | identity/src/modules/auth/otp-verify-rate-limit.service.ts:19-34 | For every max some trace reaches that bound |
| `RateLimits.MostAllowed` | identity/src/modules/auth/otp-verify-rate-limit.service.ts:19-34 | After any beginning, an interval holds at most max allowed requests plus what a window still running at its start had left, and some continuation reaches that |
| `RateLimits.PromiseKeptIff` | identity/src/modules/auth/otp-verify-rate-limit.service.ts:18-34 | Every continuation keeps the interval at or below max if and only if no window is running at its start or the running one is full |
| `RateLimits.PromiseAlwaysKeptIff` | identity/src/modules/auth/otp-verify-rate-limit.service.ts:18-34 | All traces keep all intervals at or below max if and only if max is at most 1 |
| `RateLimits.WindowCountsAllowed` | identity/src/modules/auth/otp-verify-rate-limit.service.ts:28-30 | A window's counter is the number of requests allowed since it opened |
| `RateLimits.RefusedOnlyWhenFull` | identity/src/modules/auth/otp-verify-rate-limit.service.ts:28-28 | A refused request lies in an interval that already had max allowed ones |
| `RateLimits.SendBounds` | identity/src/modules/auth/otp-send-rate-limit.service.ts:25-53 | Every minute holds at most 2*perMinute-1 allowed sends and every 24 hours at most 2*perDay-1 |
| `RateLimits.MinuteSendBoundIsAttained` | identity/src/modules/auth/otp-send-rate-limit.service.ts:25-53 | The minute bound is reached whenever the day limit is at least twice the minute limit |
| `RateLimits.DaySendBoundIsAttained` | identity/src/modules/auth/otp-send-rate-limit.service.ts:25-53 | The day bound is reached for every day limit up to 720 |
| `OtpLockout.OtpLockoutService.IsLockedOut` | identity/src/modules/auth/otp-lockout.service.ts:17-28 | The check answers and clears an expired lock as `Check` says |
| `OtpLockout.OtpLockoutService.RecordFailure` | identity/src/modules/auth/otp-lockout.service.ts:31-44 | A failure updates its own row as `Fail` says |
| `OtpLockout.OtpLockoutService.RecordSuccess` | identity/src/modules/auth/otp-lockout.service.ts:47-56 | A success resets an existing row and creates none |
| `OtpLockout.StepKeepsAccount` | identity/src/modules/auth/auth.service.ts:643-681 | One service call, a check or a recording of any attempt, keeps: each failure of the interval is on the counter, or was wiped by a late check, or lies behind a lock that outlasts it |
| `OtpLockout.PromptFailuresBound` | identity/src/modules/auth/auth.service.ts:643-681 | With at most w attempts waiting between check and recording, each recorded within 15 minutes of its check, every half-open 15-minute interval without a success holds at most 5 + (w - 1) recorded failures of a pair |
| `OtpLockout.PromptBoundIsAttained` | identity/src/modules/auth/auth.service.ts:643-681 | That bound is reached for every w |
| `OtpLockout.FailuresBound` | identity/src/modules/auth/auth.service.ts:643-681 | However late attempts record, the interval holds at most 5 + (w - 1) + min(4, w - 1) failures |
| `OtpLockout.LateBoundIsAttained` | identity/src/modules/auth/auth.service.ts:643-681 | That bound is reached for every w |
| `OtpLockout.AtMostFiveFailures` | identity/src/modules/auth/auth.service.ts:643-681 | If attempts of a pair do not overlap, that is five |
| `OtpLockout.FiveFailuresLock` | identity/src/modules/auth/otp-lockout.service.ts:38-42 | Five failures one after the other are recorded, and then the pair is locked for exactly fifteen minutes |
| `OtpLockout.CloseFailuresLock` | identity/src/modules/auth/otp-lockout.service.ts:34-42 | Failures at most fifteen minutes apart add up however long they take in all, and the fifth locks for fifteen minutes |
| `OtpLockout.SuccessForgives` | identity/src/modules/auth/otp-lockout.service.ts:47-56 | After a success the next attempt is let through, lock or no lock, and failures count from one |
| `OtpLockout.SpacedFailuresNeverLock` | identity/src/modules/auth/otp-lockout.service.ts:34-39 | Recordings more than fifteen minutes apart never lock a pair, however many and however attempts overlap |
| `PinLockout.PinLockoutService.GetStatus` | identity/src/modules/auth/pin-lockout.service.ts:24-44 | The check answers and clears an expired lockout as `StatusAt` says |
| `PinLockout.PinLockoutService.RecordFailure` | identity/src/modules/auth/pin-lockout.service.ts:46-90 | A failure updates its own row as `FailedRow` says; without a lockout a positive number of attempts remains |
| `PinLockout.PinLockoutService.RecordSuccess` | identity/src/modules/auth/pin-lockout.service.ts:92-103 | A success resets an existing row, level included, and creates none |
| `PinLockout.RetryAfterIsExact` | identity/src/modules/auth/pin-lockout.service.ts:39-43 | The announced wait is enough, and one second less is not |
| `PinLockout.CallKeepsInv` | identity/src/modules/auth/auth.service.ts:1068-1104 | With no more attempts under way than the maximum, every call keeps: behind a lockout too few attempts are left to start another, so lockouts do not overlap |
| `PinLockout.LockoutsEscalate` | identity/src/modules/auth/pin-lockout.service.ts:46-90 | For every order of service calls at any times: the counter stays below the maximum, the level counts the lockouts since the last success, and the k-th of them lasts min(base*2^(k-1), cap) seconds from a new row |
| `PinLockout.LockoutsDouble` | identity/src/modules/auth/pin-lockout.service.ts:62-68 | In every run each lockout is twice the one before, up to the cap, and the first after a success is the base time |
| `PinLockout.LockoutsAddUp` | identity/src/modules/auth/auth.service.ts:1068-1104 | With at most as many attempts under way as the maximum, and PIN resets at any time, lockout n+1 starts no earlier than the sum of the first n durations after the first one |
| `PinLockout.OverlappingLockouts` | identity/src/modules/auth/auth.service.ts:1068-1104 | With one attempt more under way, a run that starts a second lockout at the moment of the first |
| `PinLockout.LockoutsApartIff` | identity/src/modules/auth/auth.service.ts:1068-1104 | For positive durations, all runs with at most w attempts under way have lockouts one after the other if and only if w is at most the maximum |
| `PinLockout.MaxAttemptsLock` | identity/src/modules/auth/pin-lockout.service.ts:51-71 | For calls in any order with all failures within the window of the first, a new account is locked by its maximum-th wrong PIN, for the base time, and by no earlier one |
| `PinLockout.NextLockoutNeedsFullCount` | identity/src/modules/auth/pin-lockout.service.ts:31-38 | After a lockout has run out, the next check lets through and another lockout takes a full count of failures |
| `PinLockout.SuccessForgives` | identity/src/modules/auth/pin-lockout.service.ts:92-103 | After a success or a new PIN the next attempt is let through and the next lockout takes a full count and lasts the base time |
| `PinLockout.SpacedFailuresNeverLock` | identity/src/modules/auth/pin-lockout.service.ts:51-60 | Wrong PINs further apart than the window never lock an account, however many and whatever the other calls |
| `AuthzVersions.AuthzVersionService.Bump` | identity/src/modules/auth/authz-version.service.ts:33-41 | One version goes up by one, its cache entry goes, nothing else changes, and the new version is returned |
| `AuthzVersions.AuthzVersionService.GetAuthzState` | identity/src/modules/auth/authz-version.service.ts:43-86 | A live entry is answered as it is; else the row's fields, cached for 30 seconds, with ADMIN for a missing staff role; else the unknown user, not cached |
| `AuthzVersions.AuthzVersionService.CanActivate` | identity/src/common/guards/roles.guard.ts:30-80 | The guard admits exactly who may pass, spelled out on claims and state, and touches the cache only in a staff context |
| `AuthzVersions.AdmitsIff` | identity/src/common/guards/roles.guard.ts:11-80 | Admitted if and only if no role is required, or a required role is held and, if a required or held role is ADMIN or SUPPORT_AGENT, the account is an ADMIN in good standing and the token has its version |
| `AuthzVersions.UninterruptedLookup` | identity/src/modules/auth/authz-version.service.ts:43-86 | A call that nothing interrupts answers and caches what the one-step lookup does |
| `AuthzVersions.AnswersAreFresh` | identity/src/modules/auth/authz-version.service.ts:43-86 | In every interleaving, each answer was the stored row when some call read it, and is given when that call resumes or less than 30 seconds later |
| `AuthzVersions.FloorHolds` | identity/src/modules/auth/authz-version.service.ts:33-41 | No run brings the stored version below a floor it has reached |
| `AuthzVersions.OldAnswerNeedsOldRead` | identity/src/modules/auth/authz-version.service.ts:33-86 | An old version answered after a bump comes from a call that read it before the increment and resumed after the invalidation, and is given then or less than 30 seconds later |
| `AuthzVersions.OldAnswerInRunIff` | identity/src/modules/auth/authz-version.service.ts:33-86 | In a given run an old version is answered after the bump if and only if such a call resumes after it |
| `AuthzVersions.OldAnswerIff` | identity/src/modules/auth/authz-version.service.ts:33-86 | At any moment of any run, a bump that starts now can still be followed by an answer with an older version if and only if a call about the user holds a row it has read |
| `AuthzVersions.BumpedVersionsStayBumped` | identity/src/modules/auth/authz-version.service.ts:33-86 | If no call about the user holds a row at the increment, no older version is ever answered in that process |
| `AuthzVersions.BumpRevokesStaffTokens` | identity/src/common/guards/roles.guard.ts:56-77 | A staff token of an older version passes the guard after the bump only on a read begun before it, or less than 30 seconds after such a read resumed |
| `AuthzVersions.StaleReadAdmitsOldToken` | identity/src/modules/auth/authz-version.service.ts:59-79 | The run in which it does: read, increment, invalidate, fill, ask |
| `AuthzVersions.SuspensionTakesEffect` | identity/src/common/guards/roles.guard.ts:58-69 | An account frozen, suspended, banned or no administrator for 30 seconds and the time of a read passes no staff check, whatever its token |
| `AuthzVersions.FreshStaffTokenPasses` | identity/src/common/guards/roles.guard.ts:56-77 | A token of the stored version passes for an admin in good standing |
| `ListingLifecycle.AdminStays.ApproveListing` | stays/src/modules/admin/admin-stays.service.ts:1244-1271 | Accepted exactly if SUBMITTED; then APPROVED with a LISTING_APPROVED row; otherwise nothing is written |
| `ListingLifecycle.AdminStays.RejectListing` | stays/src/modules/admin/admin-stays.service.ts:1273-1301 | Accepted exactly if SUBMITTED; then REJECTED with a LISTING_REJECTED row and its reason; otherwise nothing is written |
| `ListingLifecycle.AdminStays.SetListingLive` | stays/src/modules/admin/admin-stays.service.ts:1303-1335 | Accepted exactly if APPROVED; then LIVE with a LISTING_SET_LIVE row; otherwise nothing is written |
| `ListingLifecycle.AdminStays.PauseListing` | stays/src/modules/admin/admin-stays.service.ts:1342-1379 | Accepted exactly if LIVE or APPROVED; then PAUSED with the previous status remembered and audited; otherwise nothing is written |
| `ListingLifecycle.AdminStays.UnpauseListing` | stays/src/modules/admin/admin-stays.service.ts:1386-1437 | Accepted exactly if PAUSED and the host is not frozen; then back to the remembered status, audited; otherwise nothing is written |
| `ListingLifecycle.ActKeepsConsistent` | stays/src/modules/admin/admin-stays.service.ts:1244-1437 | Each of the five actions keeps the listing consistent with its audit rows |
| `ListingLifecycle.RunIsConsistent` | stays/src/modules/admin/admin-stays.service.ts:1244-1437 | For every run from SUBMITTED: replaying the audit gives the status, the remembered status is set exactly while PAUSED, LIVE means an approval followed by a set-live, and the listing is decided on at most once |
| `ListingLifecycle.ActKeepsDecided` | stays/src/modules/admin/admin-stays.service.ts:1244-1301 | Each action keeps: at most one approval or rejection per listing, and SUBMITTED exactly while nothing was audited |
| `ListingLifecycle.RejectedIsFinal` | stays/src/modules/admin/admin-stays.service.ts:1244-1437 | No run changes a rejected listing or audits anything more on it |
| `ListingLifecycle.PauseThenResume` | stays/src/modules/admin/admin-stays.service.ts:1342-1437 | Pause then resume restores all listings |
| `SarCsv.ReadEscaped` | identity/src/modules/compliance/sar.service.ts:209-216 | An escaped field, followed by a separator or the end, reads back as its text |
| `SarCsv.DecodeLines` | identity/src/modules/compliance/sar.service.ts:180-183 | Any non-empty table of texts decodes to itself |
| `SarCsv.ExportRoundTrip` | identity/src/modules/compliance/sar.service.ts:152-184 | Decoding the export gives exactly the header and every row's field texts |
| `SarCsv.ExportIsInjective` | identity/src/modules/compliance/sar.service.ts:152-184 | Different tables never print alike |
| `SarCsv.SameExportIff` | identity/src/modules/compliance/sar.service.ts:165-184 | Two report lists print alike if and only if they agree report by report in all nine columns, absent entries counting as their stand-in texts |
| `SarCsv.ColumnsHoldFields` | identity/src/modules/compliance/sar.service.ts:152-184 | In a decoded export each report's field stands under the header of its name |
| `PhoneNumbers.NormalizedShape` | identity/src/common/phone/phone-normalizer.ts:40-68 | Every accepted number comes out as E.164 with 10 to 15 digits and no trunk zero left to strip |
| `PhoneNumbers.NormalizeIsIdempotent` | identity/src/common/phone/phone-normalizer.ts:40-68 | Normalising an accepted number again changes nothing |
| `PhoneNumbers.AcceptedIff` | identity/src/common/phone/phone-normalizer.ts:40-68 | A text is accepted if and only if it has nine digits or more and is not 212 with fewer than eight after it, or has a plus and 10 to 15 digits not starting with zero |
| `PhoneNumbers.TrunkZeroTwice` | identity/src/common/phone/phone-normalizer.ts:24-32 | Stripping the trunk zero twice is stripping it once |
| `PhoneNumbers.SpellingsAgree` | identity/src/common/phone/phone-normalizer.ts:40-68 | All spellings of a national number, with any punctuation, normalise to its one form, except a bare number starting 212, which is rejected |
| `PhoneNumbers.PlainReadsAsIff` | identity/src/common/phone/phone-normalizer.ts:24-68 | A text without a plus normalises to the form of a national number n if and only if its digits start with 2120n, 212n, 0n, or n starting with 6, or start otherwise and end in n |
| `PhoneNumbers.BareForeignMerges` | identity/src/common/phone/phone-normalizer.ts:61-63 | Without its plus, a foreign number is read as the Moroccan number it ends in |
| `PhoneNumbers.PlusTellsForeignApart` | identity/src/common/phone/phone-normalizer.ts:44-48 | With its plus it is kept, and differs from that number |
| `PhoneNumbers.ForeignPassesThrough` | identity/src/common/phone/phone-normalizer.ts:44-48 | An international number with its plus comes back unchanged |
| `PhoneNumbers.PhoneLookupCandidates` | identity/src/common/phone/phone-normalizer.ts:150-176 | The set filled step by step is the candidate set |
| `PhoneNumbers.CandidateIff` | identity/src/common/phone/phone-normalizer.ts:123-176 | Exactly what the candidates are: the trimmed text, its digits, the normal form with and without plus, and the local spellings of the last nine digits unless the text is a number of another country |
| `PhoneNumbers.SpellingsAreCandidates` | identity/src/common/phone/phone-normalizer.ts:123-176 | Each spelling of a national number yields all four stored spellings |
| `PhoneNumbers.CandidatesMeetIffEqual` | identity/src/common/phone/phone-normalizer.ts:123-176 | The candidate sets of two canonical numbers meet if and only if the numbers are equal |
| `OutboundAddress.ExpandIpv6Hextets` | stays/src/common/security/outbound-url.ts:46-93 | The procedure with its reassigned locals and overwritten slots computes `Expand` |
| `OutboundAddress.ExpandRecoversHextets` | stays/src/common/security/outbound-url.ts:46-93 | Full, compressed and compressed dotted-tail texts give the eight hextets they stand for |
| `OutboundAddress.LongTailIsDropped` | stays/src/common/security/outbound-url.ts:88-92 | Six groups and a dotted tail without `::` are read with the tail as zero |
| `OutboundAddress.LongTailRecoveredIff` | stays/src/common/security/outbound-url.ts:88-92 | Such a text is recovered if and only if its tail is 0.0.0.0 |
| `OutboundAddress.LongTailLosesEights` | stays/src/common/security/outbound-url.ts:88-92 | `0:0:0:0:0:0:8.8.8.8` is read as `::` |
| `OutboundAddress.LongTailVerdict` | stays/src/common/security/outbound-url.ts:88-141 | Such a text is blocked if and only if its number is in a blocked interval, or its six groups are zero and the tail is above 1, or they are the mapped prefix and the tail is not blocked |
| `OutboundAddress.SpellingIsStripped` | stays/src/common/security/outbound-url.ts:11-16 | Brackets, letter case and a zone do not change which address is read |
| `OutboundAddress.QuadBlockedIff` | stays/src/common/security/outbound-url.ts:18-40 | A dotted text is blocked if and only if its 32-bit number lies in a blocked interval |
| `OutboundAddress.Ipv4BlockedIff` | stays/src/common/security/outbound-url.ts:18-40 | For any text: blocked unless it is a dotted quad whose number is outside the blocked intervals |
| `OutboundAddress.HextetsBlockedIff` | stays/src/common/security/outbound-url.ts:100-141 | The checks on hextets, masks and the printed mapped address included, decide membership of the 128-bit number in the blocked intervals |
| `OutboundAddress.AddressBlockedIff` | stays/src/common/security/outbound-url.ts:96-141 | Any spelling of a valid address text is blocked if and only if its number lies in a blocked interval, mapped addresses being decided by the IPv4 intervals |
| `OutboundAddress.UnreadableIsBlocked` | stays/src/common/security/outbound-url.ts:88-97 | Parts joined by colons are blocked if there are not eight or one is no number up to 0xffff |
| `OutboundAddress.HexIsReadableIff` | stays/src/common/security/outbound-url.ts:90-91 | Hexadecimal digits of any number are one hextet exactly if their value is at most 0xffff |
| `OutboundAddress.TooManyGroupsAreBlocked` | stays/src/common/security/outbound-url.ts:71-73 | More than eight groups around `::` are blocked |
| `OutboundAddress.NoColonIsBlocked` | stays/src/common/security/outbound-url.ts:48-48 | A text without a colon is blocked as an IPv6 address |

## Left out

- The stays copies of the idempotency service, canonical hash, coalescing service and phone normaliser: they repeat the identity files.
- Cryptography (SHA-256, HMAC, Argon2, JWT): hashes are abstract; `CanonicalJson.HashIdentifiesPayload` takes as its hypothesis that the two forms do not collide.
- Effects of the idempotent work outside its transaction: the model counts committed runs, and says nothing of a side effect that a rollback does not undo.
- `expires_at`, the response contract version and the ledger columns of idempotency rows: written, never read by this code.
- CanonicalJson: `undefined`, functions, dates and other values that no JSON text parses to; keys are ordered by code point, not by UTF-16 unit.
- Several processes sharing the refresh-token table: the in-flight map is per process, so the one-successor result is too.
- User agent, address and identity lookups during a rotation, and the access token it mints: no guarantee above depends on them; a failure there settles the rotation.
- Overlap inside one lockout service call: attempts interleave between calls, but each call is one atomic step. The code reads and saves the row without a lock, so two recordings that overlap inside the service can lose a count, and the lockout bounds do not cover that.
- Other writers of the users table: assumed not to lower a version, and ids not to be reused.
- PinLockout: `2 ** level` is exact, without the rounding of very large doubles, and configured limits are integers.
- OTP code rows, their attempt counter and the demo code: only whether an attempt records a failure, a success or neither matters to the lockout.
- RateLimits: phone and IP are joined to one key string as in the code; the bounds are per key string.
- Webhook signature checks, payload parsing, provider lookups, rejection reasons, personal data columns and the unified-identity update: not part of the status guarantees. `syncSumsubStatus`, `submitKyc` and the admin re-sync write status without the time check and are not among the modelled writers.
- Image files the dossier sync writes to disk: not covered by the event-time guard, so not by the snapshot result.
- Host profile lookup, domain events and search refresh around the admin listing actions: the frozen flag is a parameter, the rest has no effect on the listing.
- SarCsv: numbers, dates and JSON documents enter as the texts they print to.
- PhoneNumbers: the order in which candidates are listed; `validatePhoneNumber` and its length checks.
- Text: case mapping is ASCII only.
- Host names, URL parsing, redirects and the `isIP` dispatch around the address checks: single-branch checks.
- Controllers, modules, DTOs, configuration, logging, metrics, health checks, fraud rules, media storage and seed scripts: plumbing, or provable but much easier than the above.
