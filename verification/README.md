# Verified model of the employee-app backend

The backend keeps nail-salon stores, employees, positions and sessions in PostgreSQL and
synchronises stores and employees from Odoo. This project models its stateful core in Dafny and
proves what that core is for. SQL statements are atomic steps on tables. Where several calls can
overlap, a protocol is a state machine whose actions are single statements (READ COMMITTED, row
and advisory locks held to the end of the transaction, rollback possible anywhere) and the theorems
speak about every run; where one call is one transaction or one sequence of statements, it is a
method on a class that holds the tables, proved against functions that the theorems are about.

| modules | subject |
|---|---|
| `ResetThrottle`, `ThrottleBounds`, `ResetRequests` | the password-reset throttle, interleaved, with its exact bounds, and as one call |
| `ResetTokens`, `PasswordReset`, `KeyedMutex` | issuing and redeeming reset tokens, interleaved and as single calls, and the in-process lock around issuing |
| `StoreModel`, `Whitelist`, `StoreVersions`, `StoreListings`, `StoreService`, `StoreSync` | the store aggregate: optimistic concurrency, its writers, the store sync |
| `AuthModel`, `AuthService`, `Presence`, `SessionHistory`, `HeartbeatHistory`, `LoginMeaning`, `Lockout`, `SessionRaces`, `SessionFaults`, `ResetRaces` | login, lockout, sessions, heartbeats, and the store matcher |
| `EmployeeSync`, `PairTable`, `Positions`, `SyncGuard` | the employee sync, whole-set replaces and listings of the pair tables, the single-flight guard |
| `LikeSearch` | search-pattern escaping |
| `Results`, `Lists` | optional values, outcomes, lists without repetitions |

`dafny verify dfyconfig.toml` checks everything.

## Where code and design notes differ

- ADR 0017 calls 3 requests per email and 10 per IP in 15 minutes an exact ceiling. The window is
  measured from `since`, read before the locks are won, against `created_at`, the begin of the
  transaction that wrote the row. The ceiling therefore holds on the oldest row
  (`OldestOfThreeIsOutside`). Between a first and an allowed fourth decision for one address, and
  between the first one's row and that decision, exactly the longest wait between begin and count is
  missing: with waits of at most w microseconds the distance is at least 15 min + 1 µs - w in every run,
  and some run attains that (`DecisionSpacingIsExact`, `RowSpacingIsExact`). So both promises hold
  if and only if nobody waits (`CeilingIffNoWait`); at a wait past the window four requests are
  allowed at one instant (`FourAllowedAtOneInstant`, `FirstRowMayBeRecent`).
- ADR 0016 counts on one redeemable token per employee. `KeyedMutex` lives in one process, so this
  holds in every run if and only if no employee's issuances are spread over processes
  (`OneUnusedIffOneProcess`). That a token is redeemed once needs no such condition.
- ADR 0014 ends a session after two failed checks in a row. When the DELETE that should do so fails,
  the session stays and a later passing check clears it (`UndeletedSessionGoesOn`); `OpenIsHistory`
  states exactly when a session is open for every pattern of failing statements. Statement by
  statement, with any calls around it, a session with two failed checks can outlive all calls if and
  only if that DELETE may fail or the reply to the second check's UPDATE may be lost
  (`SweptOutIffNoFault`, with a run for either fault).
- CompleteActivation deletes the session so that nothing from before the reset stays in the way. Its
  DELETE locks the session only if there is one. After the reset commits, a session that rests on an
  older password can come up if and only if, at the commit, a Login that found a password right has
  not saved yet, or the employee has a session that the DELETE did not hit
  (`OldPasswordComesUpIff`); such a session was saved between the DELETE and the commit
  (`EscapedWasSavedSince`).

## Assumptions

One clock that never runs backwards, in microseconds; no two store transactions share a `now()`. A
transaction aborted by the database is a rollback. SHA-256 is injective on issued tokens and random
tokens do not repeat, so tokens are numbered in order of issue and only issued tokens are presented;
a password hash accepts exactly the password it was made from. `strconv.Itoa` and `Atoi` invert each
other, so an Odoo store id is its number. Odoo answers each asked id at most once. Per-character
case folding neither moves nor creates `%`, `_` or the backslash. Great-circle distance is an
uninterpreted function of the device. A statement that fails has had no effect, except in
`SessionRaces`, where an UPDATE or DELETE may take effect and lose its reply. A foreign-key check does
not wait for an open update of other columns of the row it refers to.

## Model

| member | source | states |
|---|---|---|
| `ResetThrottle.StepKeepsInv` | internal/employees/ratelimit.go:63-108 | every statement, commit and rollback of any request keeps the invariant of rows, purges, locks, counts and commit order |
| `ResetThrottle.VerdictMeaning` | internal/employees/ratelimit.go:53-113 | in every interleaving an allowed request saw fewer than 3 earlier committed requests of its lowercased email (10 of its IP) in the 15 minutes before its count, and a refused one 3 (or 10) in the 15 minutes before its arrival |
| `ResetThrottle.PromptVerdictIsExact` | internal/employees/ratelimit.go:61-107 | if no time passes between arrival and counts, allowed if and only if under both limits |
| `ResetThrottle.OldestOfThreeIsOutside` | internal/employees/ratelimit.go:78-107 | of any three earlier requests for an allowed one's address, in any casing, the oldest row is more than 15 minutes older than the decision |
| `ThrottleBounds.CommitsFollowDecisions` | internal/employees/ratelimit.go:63-108 | for one address, and for one IP, the order of commits is the order of the counts, in every interleaving |
| `ThrottleBounds.DecisionsSpread` | internal/employees/ratelimit.go:61-107 | if the three earlier requests waited at most w between begin and count, the first decision and the first row are at least 15 min + 1 µs - w before an allowed fourth decision |
| `ThrottleBounds.IpCountsSpread` | internal/adapters/postgresql/sqlc/queries.sql.go:93-97 | the same for ten earlier requests of one IP and an allowed eleventh |
| `ThrottleBounds.CountsSpread` | internal/employees/ratelimit.go:17-30 | the common statement for either kind of key and its limit |
| `ThrottleBounds.TightDecisions` | internal/employees/ratelimit.go:61-107 | for every wait up to the window there is a run of four allowed requests in which the first waits that long and the first and fourth decisions are exactly that much closer |
| `ThrottleBounds.TightRows` | internal/employees/ratelimit.go:61-76 | the same for the first row, with a request that overtakes the waiting one |
| `ThrottleBounds.DecisionSpacingIsExact` | internal/employees/ratelimit.go:53-113 | all runs with waits of at most w keep first and allowed fourth decisions d apart if and only if d is at most 15 min + 1 µs - w |
| `ThrottleBounds.RowSpacingIsExact` | internal/adapters/postgresql/sqlc/queries.sql.go:75-97 | the same bound, exactly, for the age of the first row |
| `ThrottleBounds.CeilingIffNoWait` | internal/employees/ratelimit.go:17-30 | the documented ceiling on decisions, and its form on the first row, hold in all runs if and only if no request waits |
| `ThrottleBounds.FourAllowedAtOneInstant` | internal/adapters/postgresql/sqlc/queries.sql.go:75-97 | a reachable run in which four requests for one address are allowed at the same instant |
| `ThrottleBounds.FirstRowMayBeRecent` | internal/employees/ratelimit.go:61-76 | a reachable run with four allowed requests whose first committed row is as young as the fourth decision |
| `ResetThrottle.WaitChainsAreShort` | internal/employees/ratelimit.go:27-30 | no chain of requests waiting for each other's advisory locks closes or exceeds three, hash collisions included |
| `ResetThrottle.SomebodyCanStep` | internal/adapters/postgresql/sqlc/queries.sql.go:1392-1394 | while a request is unfinished, some request can take its next step |
| `ResetThrottle.RunsAreBounded` | internal/employees/ratelimit.go:63-108 | the statements of a run never exceed the work left at its start, so all requests finish |
| `ResetRequests.Requests.Allow` | internal/employees/ratelimit.go:53-113 | one call: verdict by both limits on the rows before it, old rows purged, own row added whatever the verdict, nothing changed on failure |
| `ResetRequests.SerialIsAllow` | internal/employees/ratelimit.go:63-108 | a request that nobody overlaps decides and writes in the protocol exactly as the single call does |
| `ResetTokens.OneUnusedIffOneProcess` | internal/employees/service.go:833-866 | at most one unused token per employee in every run, with redemptions and rollbacks anywhere, if and only if each employee's issuances run in one process |
| `ResetTokens.TwoProcessesLeaveTwoTokens` | internal/employees/service.go:844-860 | the run that leaves two redeemable tokens when two processes issue for one employee |
| `ResetTokens.UnusedIsLatestUnredeemed` | internal/adapters/postgresql/sqlc/queries.sql.go:825-830 | while each employee's issuances run in one process, a token is unused exactly when it is its employee's last committed one and nobody redeemed it |
| `ResetTokens.RedeemedIsLatest` | internal/adapters/postgresql/sqlc/queries.sql.go:1530-1537 | while each employee's issuances run in one process, a redemption that commits takes the token of its own secret, unused and not expired when it began, and that is the employee's latest |
| `ResetTokens.LatestIffOneProcess` | internal/employees/service.go:833-866 | unused means latest and unredeemed in every run, and, if every issued token may be presented, redemptions take the latest token in every run, both if and only if each employee's issuances run in one process |
| `ResetTokens.RedeemedOnce` | internal/employees/service.go:419-452 | no two committed redemptions used one secret |
| `ResetTokens.TokenLivesUntilSettled` | internal/employees/service.go:847-862 | however many processes issue, no failed issuance, failed redemption or other employee's traffic changes a token: only a committed issuance for its employee or a committed redemption of it does |
| `ResetTokens.FailedIssueLeavesNoToken` | internal/employees/service.go:849-864 | an issuance that has not committed left no row |
| `PasswordReset.Service.IssuePasswordResetToken` | internal/employees/service.go:833-866 | one call: earlier unused tokens are used up and the new one is added, or nothing changes |
| `PasswordReset.Service.CompleteActivation` | internal/employees/service.go:419-452 | one call: the redeemable token of the secret is used up, its employee gets the new password, a zero failure count, no lock and no session, with active flag and admin position kept, and every other token, employee and session is as before; or nothing changes |
| `PasswordReset.IssuedLeavesOneUnused` | internal/adapters/postgresql/sqlc/queries.sql.go:825-830 | after an issuance the new token is the employee's only unused one and other employees' unused tokens are the same |
| `PasswordReset.CommitIsIssued` | internal/employees/service.go:850-862 | while each employee's issuances run in one process, an issuance commits in the protocol exactly what the single call would do at that moment |
| `PasswordReset.CommitIsRedeemed` | internal/adapters/postgresql/sqlc/queries.sql.go:1530-1537 | likewise for a redemption, of a token that was redeemable when it began |
| `LoginMeaning.OtherPasswordIsRefused` | internal/employees/service.go:431-441 | right after a reset, any other password is refused |
| `LoginMeaning.NewPasswordReachesPresence` | internal/employees/service.go:419-452 | right after a reset, the new password brings an active employee to the presence check, which alone decides |
| `KeyedMutex.OneHolderPerKey` | internal/syncx/syncx.go:45-67 | at most one goroutine holds a key in every interleaving |
| `KeyedMutex.MutexesAreFixed` | internal/syncx/syncx.go:52-60 | a key's mutex never changes and distinct keys never share one |
| `KeyedMutex.OnlyOwnKeyBlocks` | internal/syncx/syncx.go:45-67 | a caller can step, or the short map section is occupied by a goroutine that can, or its own key is held |
| `KeyedMutex.RefinesLockPerKey` | internal/syncx/syncx.go:52-67 | the two-level lock refines one abstract lock per key |
| `KeyedMutex.HeldMeansHolding` | internal/syncx/syncx.go:61-67 | the abstract holder of a key is exactly the goroutine inside its critical section |
| `SyncGuard.Guard.TryStart` | internal/syncx/syncx.go:17-25 | claims the guard exactly when it was free |
| `SyncGuard.OneRunAtATime` | internal/syncx/syncx.go:10-33 | in every interleaving a caller starts exactly when no run is in flight, and no two runs ever are |
| `StoreVersions.StepKeepsInv` | internal/stores/service.go:84-431 | every statement of the four admin writers, the sync and the reader keeps the invariant of locks, versions and uncommitted writes |
| `StoreVersions.UpdateTakesEffectAtToken` | internal/stores/service.go:84-170 | a committed PATCH meets the store at its token and has exactly the sequential effect on row, IPs and MACs |
| `StoreVersions.RemoveTakesEffectAtToken` | internal/stores/service.go:232-312 | a committed entry deletion meets the store at its token and removes exactly the listed values, or nothing at all changes |
| `StoreVersions.ToggleTakesEffectAtToken` | internal/stores/service.go:333-366 | a committed toggle meets the store at its token |
| `StoreVersions.BulkTakesEffectAtTokens` | internal/adapters/postgresql/sqlc/queries.sql.go:692-696 | a committed bulk toggle meets every listed store at its own token and changes these stores only |
| `StoreVersions.SyncKeepsAdminData` | internal/stores/service.go:544-599 | the blind sync never changes fence, flag or whitelists of a store it keeps, and a change moves the version |
| `StoreVersions.AcceptedWriteOverwritesWhatWasSeen` | internal/stores/service.go:64-73 | whoever writes with the version of a three-statement read overwrites exactly the aggregate that read returned |
| `StoreVersions.VersionNamesAggregate` | internal/stores/service.go:176-191 | a store at the same version before and after any run has not changed in between |
| `StoreListings.CommittedPatchListsSubmitted` | internal/stores/service.go:121-161 | a PATCH that commits in any interleaving leaves each submitted list with exactly the submitted values, none twice, and each absent list as it was |
| `StoreListings.ListingsStayOrdered` | internal/adapters/postgresql/sqlc/queries.sql.go:1142-1146 | every interleaving keeps each listing in row order without repeated values |
| `StoreService.Stores.UpdateStore` | internal/stores/service.go:84-170 | not found exactly for a missing store, conflict exactly for a stale token, bad address exactly if one does not parse and nothing failed before it; no change on any error, and the full new aggregate otherwise |
| `StoreService.PatchedLists` | internal/stores/service.go:121-161 | an accepted PATCH leaves each submitted list with exactly the addresses that the submitted texts parse to, and each absent list as it was |
| `StoreService.PatchErrorIff` | internal/stores/service.go:121-164 | the lists of a PATCH stop it with a bad address exactly if one does not parse and no earlier statement failed, and with nothing exactly if all parse and all statements work |
| `StoreService.RemovalErrorIff` | internal/stores/service.go:246-309 | the same for an entry deletion, where the version bump is reached only if something was listed |
| `StoreService.RemoveEntries` | internal/stores/service.go:246-309 | both lists' deletions and the version bump that only a deletion causes, with the first error that stops them |
| `StoreService.Stores.DeleteWifiWhitelistEntries` | internal/stores/service.go:232-312 | listed values and only they go, the version moves only if something went, each submitted entry is reported as listed or not; not found, conflict and bad address are given exactly in their cases, and any error undoes it all |
| `StoreService.Stores.SetWifiWhitelistEnabled` | internal/stores/service.go:333-366 | the toggle, or not found exactly for a missing store, or conflict exactly for a stale token, or a database error, the last three without effect |
| `StoreService.Stores.BulkSetWifiWhitelistEnabled` | internal/stores/service.go:378-431 | fails exactly if some id is missing or stale, reporting all such ids without repeats and changing nothing; otherwise, unless a statement fails, all listed stores and no others change; rows are reported in the order the update returns them |
| `StoreService.SubmittedDistinct` | internal/stores/service.go:379-385 | for distinct submitted ids, every id is checked against its own token |
| `StoreService.FailedIds` | internal/stores/service.go:393-415 | the reported ids are exactly the missing and the stale ones, once each |
| `StoreService.ReportRemovals` | internal/stores/service.go:255-305 | an entry succeeds exactly when its value was listed |
| `StoreService.Stores.RunSync` | internal/stores/service.go:544-599 | after commit the table is synchronised with the answer and the counters count inserted, updated and deleted rows; it is rolled back without effect exactly if a reached statement fails or the answer repeats an id |
| `StoreService.SyncFailsIff` | internal/stores/service.go:552-596 | the condition of the rollback: a repeated id, a failing statement that every sync reaches, or a failing DELETE while some linked store is missing from the answer |
| `StoreModel.PatchMeaning` | internal/adapters/postgresql/sqlc/queries.sql.go:1716-1725 | a PATCH replaces the submitted fence fields and lists, keeps the absent ones, and leaves identity, name and switch alone |
| `StoreModel.RemovalMeaning` | internal/adapters/postgresql/sqlc/queries.sql.go:384-389 | an entry deletion drops exactly the listed entries of either list, and the version moves exactly if there was one |
| `StoreModel.ToggleMeaning` | internal/adapters/postgresql/sqlc/queries.sql.go:1613-1620 | a toggle sets switch and version and keeps identity, name, fence and both lists |
| `StoreSync.Converges` | internal/adapters/postgresql/sqlc/queries.sql.go:1877-1888 | the linked stores carry exactly Odoo's ids, each once, with Odoo's names |
| `StoreSync.NewStoreIsBare` | internal/adapters/postgresql/sqlc/queries.sql.go:1877-1888 | a store that appears is one that Odoo names and had no row; no fence, switch on, empty lists |
| `StoreSync.KeepsWhatOdooDoesNotOwn` | internal/adapters/postgresql/sqlc/queries.sql.go:1877-1888 | unlinked stores and stores whose name is confirmed keep every column, updated_at included; a renamed one changes name and version only |
| `StoreSync.LinkedCount` | internal/adapters/postgresql/sqlc/queries.sql.go:496-516 | linked rows after = before + inserted - deleted |
| `StoreSync.SecondRunChangesNothing` | internal/stores/service.go:552-596 | a second run on the same answer changes no store |
| `Whitelist.ReplaceIsExactAndMinimal` | internal/stores/service.go:121-161 | after a replace the listing is the kept rows in their old order with their old ids, then new rows for the missing values; exactly the submitted values, none twice |
| `Whitelist.ReplaceBySelf` | internal/dbx/dbx.go:13-18 | submitting the current listing again changes no row |
| `Whitelist.RowsByValue` | internal/adapters/postgresql/sqlc/queries.sql.go:425-429 | deleting by value keeps exactly the other entries in order |
| `Presence.BestIsLeast` | internal/auth/service.go:309-354 | the chosen store is that of the least qualifying pair of tier (IP, geofence, MAC) and list position; none exactly if no pair qualifies |
| `Presence.PresentIff` | internal/auth/service.go:309-354 | the whitelist switch gates IP and MAC and not the fence, a fence needs all three fields, and a device without a MAC matches by none |
| `Presence.IsBestIff` | internal/auth/service.go:309-354 | the least pair in columns: first by IP, else no IP anywhere and first by fence, else neither and first by MAC |
| `Presence.MatchStore` | internal/auth/service.go:309-354 | the three passes with early return compute that choice |
| `Presence.ChosenStoreMatchesAgain` | internal/auth/service.go:241-255 | the store Login chose, checked alone with the same device, matches |
| `HeartbeatHistory.LoginStorePassesHeartbeat` | internal/auth/service.go:241-255 | a timely first heartbeat from the same device on an unchanged store is answered Active |
| `HeartbeatHistory.OpenIffEveryBeatPasses` | internal/auth/service.go:214-274 | a Store-bound session is open after any heartbeats exactly if every gap is at most 90 s, none came past its expiry and no two neighbouring checks failed |
| `HeartbeatHistory.OpenIsHistory` | internal/auth/service.go:217-273 | the same for every pattern of failing statements: open exactly if no call ended it; clock and failure count say what the history says |
| `HeartbeatHistory.RepliesAreHistory` | internal/auth/service.go:229-273 | the ending call says session_expired before left_premises, later calls logged_out_elsewhere, and none answers Active past the cap |
| `HeartbeatHistory.UndeletedSessionGoesOn` | internal/auth/service.go:265-273 | the history in which a failed DELETE lets a session survive two failed checks |
| `HeartbeatHistory.RunIsItsBeats` | internal/adapters/postgresql/sqlc/queries.sql.go:1472-1507 | within any run of calls, a session that nobody logs over, logs out or resets is what its own heartbeats make of it |
| `SessionHistory.TableIsHistory` | internal/adapters/postgresql/sqlc/queries.sql.go:1827-1838 | a row (employee, token) is in the table exactly if a Login issued it and no later Login, Logout, ending Heartbeat or completed activation ended it |
| `SessionHistory.RowRestsOnPassword` | internal/auth/service.go:138-190 | every row rests on a standing Login that sent the password the employee had then |
| `SessionHistory.ValidatedIsHistory` | internal/auth/service.go:281-298 | ValidateSession accepts a token exactly in that case and not past the expiry set by that Login, names its employee, and says admin exactly if that employee is one then |
| `SessionHistory.OneSessionEach` | internal/auth/service.go:182-190 | at most one issued token per employee stands |
| `SessionHistory.TokensAreFresh` | internal/auth/service.go:177-180 | no token is issued twice in a run |
| `SessionRaces.SupersededTokenIsHarmless` | internal/auth/service.go:205-273 | statement by statement: once a session has passed to another token, calls in flight on the old one change nothing, in every continuation |
| `SessionRaces.OnlyOwnToken` | internal/adapters/postgresql/sqlc/queries.sql.go:366-369 | a Heartbeat or Logout step changes no session but the one under its own token |
| `SessionRaces.TwoFailuresHaveDeleter` | internal/auth/service.go:261-273 | a stored session with two failures has a Heartbeat on its own token that is about to delete it, whose DELETE failed, or that lost the reply to the UPDATE of an absent check |
| `SessionFaults.QuietTableHasNoAbsentee` | internal/auth/service.go:261-273 | when all calls have finished and none was cut short in this way, no session with two failures is left |
| `SessionFaults.AbsenteeStays` | internal/auth/service.go:261-273 | from any start with a Login and two Heartbeats on its token, either fault has a run that ends with such a session |
| `SessionFaults.SweptOutIffNoFault` | internal/auth/service.go:217-273 | from any such start, all finished runs leave no such session if and only if neither fault is allowed |
| `ResetRaces.OldPasswordComesUpIff` | internal/employees/service.go:419-452 | in every interleaving, a session resting on an older password can come up after a reset's commit if and only if then a Login that found a password right is unsaved or a session was not hit by the reset's DELETE |
| `ResetRaces.EscapedWasSavedSince` | internal/adapters/postgresql/sqlc/queries.sql.go:348-351 | a session that the DELETE did not hit was saved between the DELETE and the commit, by a Login unfinished at the DELETE |
| `ResetRaces.SaverIsUnfinished` | internal/adapters/postgresql/sqlc/queries.sql.go:1827-1838 | a session of an employee who had none was saved by a Login that was unfinished then |
| `Lockout.FailureRateIsBounded` | internal/auth/service.go:131-151 | among non-overlapping Logins in an interval of length T without a right password or reset, at most 5 * (1 + floor(T / 15 min)) failures are recorded, from any consistent state |
| `Lockout.BoundIsReached` | internal/auth/service.go:20-26 | for every number of lock periods some run records exactly that many |
| `Lockout.TraceKeepsLocks` | internal/adapters/postgresql/sqlc/queries.sql.go:1557-1562 | the same for all employees in every run of calls |
| `AuthService.Auth.Login` | internal/auth/service.go:91-193 | a token is given exactly to an active, unlocked employee with the right password who is an admin or in one of their stores, when every statement works; every other path leaves tables and reply as the model says, which the `LoginMeaning` rows spell out |
| `LoginMeaning.LoggedInIff` | internal/auth/service.go:91-193 | the exact condition for a token: right password, active, not locked, statements work, admin or present in some store |
| `LoginMeaning.InvalidCredentialsIff` | internal/auth/service.go:118-147 | the one answer for an unknown, deactivated or locked employee and a recorded wrong password, and for nobody else |
| `LoginMeaning.NotActivatedIff` | internal/auth/service.go:116-128 | given exactly to an employee who has no password yet |
| `LoginMeaning.NoStoreMatchIff` | internal/auth/service.go:167-174 | given exactly to a non-admin with the right password who is in none of their stores |
| `LoginMeaning.LoginErrorIff` | internal/auth/service.go:91-193 | given exactly if a statement that the call reaches fails |
| `LoginMeaning.WrongPasswordCounts` | internal/adapters/postgresql/sqlc/queries.sql.go:1415-1433 | a compared wrong password is counted, from one again after a lock that has passed, locks for 15 minutes from the fifth on, and leaves sessions and tokens alone |
| `LoginMeaning.RightPasswordClears` | internal/adapters/postgresql/sqlc/queries.sql.go:1557-1562 | a right password clears count and lock whatever the presence check says |
| `LoginMeaning.UncomparedChangesNothing` | internal/auth/service.go:121-136 | a call that does not compare passwords changes nothing |
| `LoginMeaning.SessionOfLogin` | internal/auth/service.go:158-190 | only a token touches the sessions, and only the own one; admins get 8 hours and no store, others 12 hours and the store of the least tier and position |
| `AuthService.Auth.Heartbeat` | internal/auth/service.go:214-274 | expiry, presence, record and end leave the tables as the model says, which the heartbeat rows of `LoginMeaning` and `HeartbeatHistory` spell out |
| `LoginMeaning.StorelessBeatDoesNothing` | internal/auth/service.go:225-227 | a session without a store is neither ended nor touched by a heartbeat |
| `LoginMeaning.UnknownBeat` | internal/auth/service.go:214-223 | a token without a session is told so and nothing changes |
| `LoginMeaning.LateBeat` | internal/auth/service.go:232-239 | past the expiry or after 90 s of silence the session ends, wherever the device is |
| `LoginMeaning.TimelyBeat` | internal/auth/service.go:241-273 | a timely heartbeat clears or adds a failure by presence alone, and the second failure ends the session |
| `AuthService.Auth.Logout` | internal/auth/service.go:205-208 | exactly the session of the token goes, or nothing if the DELETE fails |
| `AuthService.Auth.ValidateSession` | internal/auth/service.go:281-298 | an accepted token is that of a session not past its expiry, of the employee named, and the admin flag is that employee's; refused ones have no such session; fails exactly if a lookup it needs fails |
| `AuthService.Auth.CompleteActivation` | internal/employees/service.go:419-452 | the employee has the new password, a zero count, no lock and no session; everything else is as before |
| `EmployeeSync.Service.RunSync` | internal/employees/service.go:629-698 | exactly the asked employees in batches before the first failing one that Odoo knows carry Odoo's name and email, all other rows are as before; memberships follow the looked-up batches; the missing ids are reported in order and the unresolvable stores as a set |
| `EmployeeSync.EffectSpelledOut` | internal/employees/service.go:629-796 | what such an outcome is in rows: name, email and id of every employee, and every membership pair |
| `EmployeeSync.ResolvedIff` | internal/employees/service.go:719-740 | memberships are dealt with exactly for the ids of a batch before the failing one whose store lookup works or has nothing to look up |
| `EmployeeSync.MissingPositions` | internal/employees/service.go:658-662 | the reported missing ids are exactly those at the positions of ids that Odoo does not know, in order |
| `EmployeeSync.Service.RunSyncWithoutFaults` | internal/employees/service.go:629-698 | without failures every asked employee that Odoo knows has Odoo's name and email and exactly the stores Odoo lists for it that have a row; all other rows and pairs stay; exactly the unresolvable store ids are reported |
| `EmployeeSync.BatchSizeDoesNotMatter` | internal/employees/service.go:629-698 | two runs over the same ids with different batch sizes and no failure leave the same tables, the same missing ids in order and the same set of unresolvable stores |
| `EmployeeSync.Service.SyncEmployees` | internal/employees/service.go:594-613 | refused without effect while a run is in flight; given up if the id lookup fails; otherwise names, emails and memberships end as the batches before the first failing one leave them, column by column, and for exactly the requested local employees when nothing fails; the guard is free again in every case |
| `EmployeeSync.Service.SyncEmployeeStores` | internal/employees/service.go:710-796 | each found local employee has exactly its resolvable stores, nobody else's pairs change, and exactly the unresolvable ids are reported |
| `EmployeeSync.Service.UpsertEmployees` | internal/adapters/postgresql/sqlc/queries.sql.go:1774-1786 | known employees of the batch take name and email each from its own column and keep their id, all other rows stay, nobody is inserted |
| `EmployeeSync.NotFound` | internal/employees/service.go:658-662 | the ids missing from an answer are those Odoo does not know, in request order |
| `PairTable.OthersReplaced` | internal/employees/service.go:291-309 | the employee-first replace gives the employee exactly the submitted ids and keeps all other pairs |
| `PairTable.EmployeesReplaced` | internal/positions/service.go:152-172 | the position-first replace gives the position exactly the submitted employees and keeps all other pairs |
| `PairTable.SliceIsOwnListing` | internal/adapters/postgresql/sqlc/queries.sql.go:1001-1031 | an employee's rows of the bulk listing are what the query for that employee alone returns, in order |
| `Positions.GroupedListing` | internal/employees/service.go:204-220 | grouping a bulk listing gives each employee the per-employee query's answer, empty where there is none |
| `Positions.BuildDetails` | internal/positions/service.go:196-233 | each entry is its employee with exactly the positions and stores of their pairs, in increasing order |
| `Positions.CountDecides` | internal/positions/service.go:240-252 | the count equals the number of submitted ids exactly if all exist and none is repeated |
| `Positions.Tables.ValidateEmployeeIds` | internal/positions/service.go:240-252 | accepts exactly distinct existing ids, and the empty list without asking |
| `Positions.Tables.SetPositionEmployees` | internal/positions/service.go:137-187 | goes through exactly if position and employees exist, none repeated, no statement fails; then exactly that slice is replaced and its holders are listed in id order with their positions and stores; otherwise nothing changes, and each error has its exact case |
| `Positions.Tables.UpdateEmployee` | internal/employees/service.go:237-335 | the same for the employee-first replace together with the employee's row; missing employee, unconfirmed Odoo id, unknown position and taken unique column are each reported in exactly their case |
| `Positions.Tables.BulkDeletePositions` | internal/positions/service.go:100-112 | all ids exist and none is repeated, or nothing is deleted and the error says so, or a statement failed |
| `LikeSearch.ThreePassesAreOne` | internal/adapters/postgresql/sqlc/queries.sql.go:892-892 | the three nested replaces equal one per-character escape |
| `LikeSearch.SearchIsSubstring` | internal/adapters/postgresql/sqlc/queries.sql.go:1210-1211 | for all texts, LIKE with the escaped pattern holds exactly if the query occurs in the text up to case folding |
| `LikeSearch.EmployeeSearchIsLiteral` | internal/adapters/postgresql/sqlc/queries.sql.go:890-893 | the employee search keeps a row exactly if the typed text occurs in name or email |

## Left out

- HTTP handlers, request decoding, validator tags, middleware, configuration and the mailer: their guarantees (required coordinates, well-formed addresses) are preconditions or parameters.
- The Odoo HTTP client: Odoo is a value or a function that answers, or fails.
- Bcrypt, SHA-256, token generation, timing equalisation, the haversine formula and pgtype conversions: abstract, see Assumptions.
- What deleting a store or an employee does to rows that refer to it in sessions and store memberships.
- Exact failed-attempt counts when Logins of one employee overlap: only the agreement of lock and count is stated for those.
- Foreign-key violations in the race between a validation and its insert: they roll back like any failing statement, and their translation is not modelled.
- ThrottleBounds.IpCountsSpread: that some run attains the bound is shown for addresses only, since eleven requests of one IP also need several addresses.
- Row-lock deadlocks between purges or whitelist writers: a transaction the database aborts is a rollback.
- SyncStatus, single-row create and delete of employees and positions, renaming a position, activating an employee, bulk e-mailing: single statements without interplay.
- employees.updated_at and the inserted/updated counters of the employee sync, which are only logged.
- The other facets of the list filters (by id, active flag): plain conjunctions.
- ResetTokens.Enabled: an invalidation waits for all of its rows at once and reads them at the end; PostgreSQL fixes the candidate rows at its start, which is the same while one process issues for an employee.
- StoreVersions.Do: deletes and inserts on whitelist rows take no row locks, which only adds interleavings to those the theorems cover.
- StoreService.Stores.UpdateStore: what its transaction has written so far is a local value until the commit, since a single call cannot observe the difference.
