# talentKru-server: verified models of its state machines

The server is a recruiting back end. Most of it stores and lists rows; this project models the parts
that are real algorithms or protocols and proves what they are for: refresh-token rotation and the
theft response, the nested transaction wrapper, login lock-out, password reset and invitations, the
sliding-window rate limiter and the auth lock-out on top of it, interview journeys under optimistic
locking, the domain-event outbox, the allowed-origins cache, the template renderer, questionnaire
saves and the cache of revoked token identifiers.

`dafny verify dfyconfig.toml` checks the whole project.

## Layout

| file | models |
|---|---|
| Transactions.dfy, NestedTransactions.dfy | the session and `atomic_transaction`; what any nesting of transactional calls makes durable |
| TokenFamilies.dfy, AuthData.dfy, AuthService.dfy | token rows and their links, the shared rows, the service |
| TokenRuns.dfy, RefreshProtocol.dfy | serial runs of issue/refresh/revoke; any interleaving of refreshes |
| LoginRuns.dfy, LoginProtocol.dfy | serial runs of logins; any interleaving of logins |
| Credentials.dfy, CredentialRuns.dfy, CredentialLaws.dfy | password reset and invitations: one call with faults, whole runs, and when a call takes effect |
| SlidingWindow.dfy, RateLimiter.dfy, AuthLockout.dfy | the counter, the table of counters, the lock-out machine |
| Journeys.dfy, JourneyProtocol.dfy | the stage graph and service; any interleaving of sessions |
| DomainEvents.dfy, EventRuns.dfy | registry, dispatch, retry; any interleaving of publishers, background tasks and retry runs |
| OriginsCache.dfy | cache fills that interleave at the database read |
| Questionnaires.dfy, QuestionnaireProtocol.dfy | the service and serial saves; any interleaving of saves |
| TemplateRenderer.dfy, RevocationCache.dfy | the remaining services |
| Options.dfy | the optional value all modules share |

Services that assign fields are classes over a session whose `committed` and `working` states are
values; each method is proved equal to a function of the old committed state, and the run theorems
are about those functions. A method takes the set of its awaits that raise (`Await` in Transactions.dfy,
`Place` in Credentials.dfy).

## Assumptions

- The clock does not decrease; one clock stands for `time.time` and `time.monotonic`; times are reals.
- SHA-256 is injective on issued tokens, so a raw token and its digest are one value; new UUIDs and
  tokens have not been issued before.
- `bcrypt.checkpw` is equality of passwords; a stored hash is modelled as the password.
- An UPDATE of a versioned row succeeds only if the stored version is the loaded one, and holds the
  row until its transaction ends.
- Such an UPDATE is issued only if a column differs from the loaded row; `updated_by`, which a flush
  listener sets on every assigned row, counts as a column (app/base_model.py:78-106). A query sees what
  was committed before it.
- Sessions expire their rows on commit (app/database.py:16), so reading a user row after a nested
  commit is another query. It is one of the places that may raise (`ReadUser` in Credentials.dfy); if it
  always does, every committed reset lacks its audit entry, by `CredentialRuns.AuditEntryCanBeLost`.
- The regex class `\w` is a parameter; only "a brace is not in it" is used. The password policy is a
  parameter.

## Where the code and its documentation differ

- publisher.py says that an event that could not be dispatched stays PENDING for the retry job, but
  `retry_failed_events` selects FAILED rows only. A PENDING event is never dispatched again exactly if
  it was published without background tasks, its task was lost, its attempt was cut off before the
  commit (the process stopped, or a handler was cancelled), or the status commit of its attempt raised
  (`EventRuns.OrphanExactly`, `EventRuns.OrphanIsStuck`); every other one still can be
  (`EventRuns.TaskCanFinish`). `candidate_expired` events are published without background tasks
  (`EventRuns.PublishedWithoutTask`).
- PROCESSED is final only while retry runs do not overlap (`EventRuns.ProcessedIsFinal`). Event rows have
  no version, so a retry run can still visit an event another one has processed; it leaves PROCESSED
  exactly if a handler then raises and the commit returns (`EventRuns.LeftExactly`).
- "Cannot modify a submitted response" holds for the response row in every interleaving
  (`QuestionnaireProtocol.SubmittedRowIsFinal`), for its answers only while saves do not overlap. A draft
  save that loaded the response as INCOMPLETE and last updated by the same user changes nothing on the
  versioned row, so it commits after the submission and overwrites answers
  (`QuestionnaireProtocol.SubmittedChangesExactly`, `QuestionnaireProtocol.DraftOverwritesSubmitted`).
- `retry_failed_events` counts a dispatch whose handler raised as retried; `errors` counts only status
  commits that raised (`DomainEvents.Dispatcher.RetryFailedEvents`).
- A transactional method that raises is not always undone: writes up to the last nested call that
  returned stay (`NestedTransactions.DurableAfter`). The theft response and failed-login counting
  rely on it; the audit entry of a password reset can be lost by it
  (`CredentialRuns.AuditEntryCanBeLost`).
- A handler list that was called in full does not mean PROCESSED: the last handler may be the one
  that raised (`EventRuns.WholeListExactly`). PROCESSED does mean that the whole list was called
  (`EventRuns.ProcessedWasDelivered`).
- "Locked after five failures" counts the failures that were committed: a wrong login that overlaps
  another write to the user row ends in a stale-data error and is not counted
  (`LoginProtocol.CountedExactly`, `LoginProtocol.OverlappingWrongCountOnce`). A login that finds nothing
  to reset checks no version, so one that loaded the row before it was locked still succeeds
  (`LoginProtocol.SucceedsExactly`, `LoginProtocol.SilentLoginPassesLock`).
- A refresh token can be exchanged once, and a reuse revokes its family, while refreshes do not overlap
  (`TokenRuns.ExchangedOnce`, `TokenRuns.NoExchangeAfterTheft`). Token rows have no version, so a call
  that loaded the token while it was live still exchanges it after another one has, or after the theft
  response (`RefreshProtocol.ExchangedTwice`, `RefreshProtocol.ExchangedAfterRevocation`); the response is
  final exactly if no such call is open (`RefreshProtocol.ClosedStays`, `RefreshProtocol.ClosedBreaks`).
- `refresh` accepts a token that expires at this very instant while the revoking query skips it, so a
  revocation misses exactly those tokens at that instant (`CredentialRuns.ExchangeAtTheInstant`).
- The Retry-After of a locked-out client is one second more than needed exactly when the lock-out ends a
  whole number of seconds away (`AuthLockout.LockoutRetryAfter`, `AuthLockout.ShorterWaitSuffices`).

## Model

| member | source | states |
|---|---|---|
| Transactions.Session.Leave | app/service_base.py:42-57 | leaving the wrapper commits exactly if the body returned and the commit did not raise; otherwise the session is back at the committed state and the exception goes on |
| NestedTransactions.ExecIsFinal | app/decorators.py:42-49 | executing any nesting of transactional calls equals the flat trace: durable is what was written up to the last normal return |
| NestedTransactions.DurableAfter | app/service_base.py:42-57 | after a call that raises, nothing is left behind if and only if no nested call returned after a write |
| TokenFamilies.NoCycles | app/modules/auth/models.py:38-42 | no path along `replaced_by_token_id` ever revisits a token |
| TokenFamilies.MaximalIsFamily | app/modules/auth/service.py:367-397 | a path extendable at neither end holds exactly the tokens reachable forwards or backwards from any member |
| TokenFamilies.FamilyIsPath | app/modules/auth/service.py:367-397 | every family is one duplicate-free path of one user's tokens, all revoked but possibly the last |
| TokenFamilies.WalkForward | app/modules/auth/service.py:369-382 | the forward walk ends, at the newest token of the family |
| TokenFamilies.WalkBackward | app/modules/auth/service.py:384-397 | the backward walk ends; the list then holds each member of the family once and nothing else |
| TokenFamilies.FamilyUnaffected | app/modules/auth/service.py:331-349 | adding tokens or linking elsewhere leaves a family as it was |
| AuthService.Service.IssueRefreshToken | app/modules/auth/service.py:199-227 | the new live token, and whatever the caller had pending, is committed unless the commit raises |
| AuthService.Service.HandleFailedAttempt | app/modules/auth/service.py:229-250 | the count, the time and from the fifth failure LOCKED are committed, or nothing if the commit raises, as a stale row makes it |
| AuthService.Service.Authenticate | app/modules/auth/service.py:131-172 | committed state and answer for every user row, password and set of raising awaits; a failed login is counted durably although the call raises |
| AuthService.Service.RevokeTokenFamily | app/modules/auth/service.py:353-403 | the family of the token, and no other token, is revoked in the committed state; nothing if the call raises |
| AuthService.Service.Refresh | app/modules/auth/service.py:273-351 | committed state and answer for unknown, expired, revoked, orphaned and live tokens and every set of raising awaits; only a theft response whose nested commit returned survives a raise |
| AuthService.Service.RevokeAllUserTokens | app/modules/auth/service.py:411-438 | exactly the user's unrevoked, unexpired tokens are revoked, committed unless the commit raises |
| TokenRuns.RunKeepsInv | app/modules/auth/service.py:199-227 | in every serial run links stay injective, acyclic and within one user, and no row loses its revocation, owner or digest |
| TokenRuns.ExchangesExactly | app/modules/auth/service.py:299-351 | a refresh is an exchange if and only if the token is known, unrevoked, unexpired and of an existing user and nothing fails; it revokes and links that token, adds one, and changes no other row |
| TokenRuns.RefusedExactly | app/modules/auth/service.py:303-320 | a refresh that is no exchange ends in an authentication error, unless an await on its way raised |
| TokenRuns.AnswerIsExchangeable | app/modules/auth/service.py:331-351 | what a refresh answers is exchanged in its turn, in any later state of a run, exactly within 604800 seconds and while it is not revoked |
| TokenRuns.RevokesExactly | app/modules/auth/service.py:426-438 | revoking a user's tokens marks that user's unexpired tokens and no other row |
| TokenRuns.ReachableFamilies | app/modules/auth/service.py:273-351 | in every reachable state each family is a simple path in which only the last token can be live |
| TokenRuns.ExchangedOnce | app/modules/auth/service.py:311-349 | in any serial run no refresh token is exchanged successfully twice |
| TokenRuns.TheftRevokesExactlyTheFamily | app/modules/auth/service.py:311-315 | presenting a revoked unexpired token raises; its family is revoked and every other row unchanged exactly if neither the query nor the nested call raises, else nothing changes |
| TokenRuns.TheftClosesFamily | app/modules/auth/service.py:353-403 | in any serial run, after a committed theft response the family stays wholly revoked and never gains a member |
| TokenRuns.NoExchangeAfterTheft | app/modules/auth/service.py:311-315 | in any serial run, after a committed theft response no token of the family is ever exchanged |
| RefreshProtocol.RunKeepsInv | app/modules/auth/service.py:331-349 | in every interleaving links stay injective, acyclic and within one user, so every family is still one simple path |
| RefreshProtocol.RunAges | app/modules/auth/models.py:36-42 | in every interleaving rows are never lost and a revoked token stays revoked |
| RefreshProtocol.ExchangedTwice | app/modules/auth/service.py:299-349 | two exchanges of one token overlap: the later had loaded it before the earlier committed |
| RefreshProtocol.ExchangedAfterRevocation | app/modules/auth/service.py:299-349 | a token exchanged though it was revoked had been loaded live before the revocation |
| RefreshProtocol.TheftRevokes | app/modules/auth/service.py:399-403 | in every interleaving a committed theft response leaves all it collected revoked for good |
| RefreshProtocol.ClosedStays | app/modules/auth/service.py:311-315 | a closed family stays closed if no call that loaded a member live is open |
| RefreshProtocol.ClosedBreaks | app/modules/auth/service.py:346-349 | and only if: the commit of such a call opens the family |
| RefreshProtocol.OverlappingExchanges | app/modules/auth/service.py:346-349 | a run in which a token is exchanged twice and one new token is outside its family |
| RefreshProtocol.ExchangeSurvivesTheft | app/modules/auth/service.py:311-349 | a run in which an exchange loaded before the theft response leaves a live token in the family |
| RefreshProtocol.UninterruptedIsRefreshed | app/modules/auth/service.py:273-351 | the steps of a refresh nothing comes between end in the tokens of Refresh |
| LoginRuns.LockedAfterFiveWrong | app/modules/auth/service.py:244-248 | in a serial run of logins LOCKED after and only after five consecutive wrong passwords; until then the counter is the current streak |
| LoginRuns.CounterIsFailuresSinceSuccess | app/modules/auth/service.py:164-167 | in a serial run the counter is the number of failed logins since the last success |
| LoginRuns.NoLoginWhenLocked | app/modules/auth/service.py:153-158 | in a serial run, once LOCKED no login succeeds, right password or not |
| LoginRuns.CommittedRow | app/modules/auth/service.py:131-172 | the committed row after every call of a serial run in which nothing fails is the described one, and a token was committed exactly on success |
| LoginRuns.LoginExactly | app/modules/auth/service.py:151-172 | a login succeeds if and only if the user exists and is neither locked nor inactive, the password is right and nothing fails |
| LoginRuns.LoginLeaves | app/modules/auth/service.py:151-172 | what a login leaves of the user row, of everybody else's and of the tokens |
| LoginRuns.LoginFails | app/modules/auth/service.py:151-172 | the error of a login that does not succeed, and exactly when it has left something: a counted rejection, or an acceptance whose own commit raised after the nested one |
| LoginRuns.LoginAnswerIsExchangeable | app/modules/auth/service.py:199-227 | what a login answers is exchanged exactly within 604800 seconds |
| LoginProtocol.CountedExactly | app/modules/auth/service.py:241-250 | in every interleaving a wrong login is counted if and only if nobody wrote the row since it loaded it; else the row is left alone |
| LoginProtocol.OneWriterPerVersion | app/base_model.py:63-70 | of the logins that loaded one version of a row at most one writes it |
| LoginProtocol.SucceedsExactly | app/modules/auth/service.py:164-172 | in every interleaving a right login succeeds if and only if it found nothing to reset or nobody wrote the row since; on a row locked by then only if it found nothing to reset |
| LoginProtocol.SilentExactly | app/base_model.py:100-105 | it found nothing to reset exactly if the loaded row was active, without failures and last updated by the same user |
| LoginProtocol.RowIsSerial | app/base_model.py:63-70 | in every interleaving the row is the one the logins that wrote it leave, run one after the other in commit order |
| LoginProtocol.LockedExactly | app/modules/auth/service.py:244-248 | in every interleaving LOCKED exactly after five consecutive counted wrong logins |
| LoginProtocol.OverlappingWrongCountOnce | app/modules/auth/service.py:244-250 | a run in which any number of overlapping wrong logins count once |
| LoginProtocol.SilentLoginPassesLock | app/modules/auth/service.py:164-170 | a run in which a login succeeds on a LOCKED row |
| LoginProtocol.UninterruptedIsLoggedIn | app/modules/auth/service.py:131-172 | the steps of a login nothing comes between end in the state of Authenticate |
| Credentials.PasswordResetService.RequestReset | app/modules/password_reset/service.py:55-102 | a fresh 15-minute token for a user neither locked nor inactive if nothing fails, mail included, otherwise nothing; exactly when the call returns |
| Credentials.PasswordResetService.ConfirmReset | app/modules/password_reset/service.py:175-264 | committed state for every combination of failing awaits, the read of the expired user row included, and exactly when the call returns |
| Credentials.CheckPasswordHistory | app/modules/auth/service.py:565-596 | true exactly if the password is one of the newest five |
| Credentials.InvitationService.GenerateInvitation | app/modules/invitations/service.py:48-74 | the new token, and what the caller had pending, is committed unless the commit raises |
| Credentials.InvitationService.AcceptInvitation | app/modules/invitations/service.py:169-232 | password, history, ACTIVE, used flag and audit entry are committed together, and nothing if the call raises; exactly when it returns |
| Credentials.InvitationService.ResendInvitation | app/modules/invitations/service.py:254-302 | committed state for every combination of failing awaits: old tokens used up and the new one issued together; exactly when the call returns |
| CredentialRuns.ResetIsAllOrNothing | app/modules/password_reset/service.py:233-251 | password, history row, used flag and revocation are committed all together exactly when the reset is acceptable and nothing fails up to the nested commit, else none is; other rows untouched |
| CredentialRuns.AuditEntryCanBeLost | app/modules/password_reset/service.py:253-264 | a committed reset lacks its audit entry exactly when something fails after the nested commit |
| CredentialRuns.ResetEndsSessions | app/modules/password_reset/service.py:249-251 | after a committed reset no refresh token of the user from before is exchanged at a later instant, in any run |
| CredentialRuns.ExchangeAtTheInstant | app/modules/auth/service.py:427-435 | at the instant of a revocation a token can still be exchanged if and only if it was live and expires at that instant |
| CredentialRuns.ResetTokenConsumedOnce | app/modules/password_reset/service.py:207-247 | in any run a reset token changes a password at most once |
| CredentialRuns.InvitationConsumedOnce | app/modules/invitations/service.py:182-219 | in any run an invitation activates an account at most once |
| CredentialRuns.HistoryDistinct | app/modules/password_reset/service.py:226-243 | from one acceptance on, any six consecutive passwords of a user are pairwise distinct |
| CredentialRuns.ResendLeavesOne | app/modules/invitations/service.py:268-284 | after a resend exactly the new invitation is usable at any later instant while unused and unexpired, else none, in any run without another invitation |
| CredentialLaws.ResetExactly | app/modules/password_reset/service.py:197-251 | a reset changes anything if and only if the token is known, unused, unexpired and of an existing user, the policy admits the password, it is none of the newest five, and no await up to the nested commit raises |
| CredentialLaws.ResetLeaves | app/modules/password_reset/service.py:233-262 | what it changes, row by row, audit entry included |
| CredentialLaws.RequestExactly | app/modules/password_reset/service.py:71-102 | a request creates a token, for 900 seconds, if and only if the user is active or invited and nothing fails |
| CredentialLaws.RequestedTokenWorks | app/modules/password_reset/service.py:212-214 | over runs a token requested at t resets its user's password, while unused, exactly up to t + 900 |
| CredentialLaws.AcceptExactly | app/modules/invitations/service.py:169-232 | an acceptance changes anything if and only if the invitation is known, unused, unexpired and of an existing user, the policy admits the password and nothing fails |
| CredentialLaws.AcceptLeaves | app/modules/invitations/service.py:204-230 | what it changes, all together: password, history row, ACTIVE, used flag and audit entry |
| CredentialLaws.ResendExactly | app/modules/invitations/service.py:254-300 | a resend changes anything if and only if the user is an invited one of the organization and nothing up to the nested commit raises; what it then changes, row by row |
| CredentialLaws.InvitationWorks | app/modules/invitations/service.py:186-189 | over runs an invitation issued at t activates its user, while unused, exactly up to t + 259200 |
| SlidingWindow.SlidingWindowCounter.IsAllowed | app/middleware/rate_limit.py:38-64 | the evicting deque decides as counting the full admission log does, and keeps every closed window within the limit |
| SlidingWindow.SlidingWindowCounter.Evict | app/middleware/rate_limit.py:51-53 | eviction leaves exactly the admissions not older than the cutoff |
| SlidingWindow.SlidingWindowCounter.DequeIsWindow | app/middleware/rate_limit.py:51-53 | the deque equals the full log restricted to the current window |
| SlidingWindow.AdmitKeepsBounded | app/middleware/rate_limit.py:55-64 | admitting keeps every closed interval of the window's length within the limit |
| SlidingWindow.RetryAfterIsLeast | app/middleware/rate_limit.py:56-59 | after a denial a call k whole seconds later is admitted if and only if k reaches retry_after, which lies between 1 and window + 1 |
| SlidingWindow.RaisesOnlyWithoutLimit | app/middleware/rate_limit.py:55-59 | indexing the empty deque raises if and only if the limit is not positive |
| RateLimiter.Limiter.GetCounter | app/middleware/rate_limit.py:81-100 | a key keeps the counter, and so the parameters, of its first call |
| RateLimiter.Limiter.Check | app/middleware/rate_limit.py:102-120 | the table of counters moves at this key alone, by the full-log decision |
| RateLimiter.ZeroMeansAdmitted | app/middleware/rate_limit.py:112-120 | check answers 0 if and only if the request was admitted, for a positive limit |
| RateLimiter.ReplyExactly | app/middleware/rate_limit.py:113-120 | an admitted caller is told the room left in the window; a refused one 0 of it and the least whole wait after which it is admitted |
| RateLimiter.KeysAreIndependent | app/middleware/rate_limit.py:81-120 | in any interleaved trace a key is answered as if alone on a counter with its first call's parameters |
| RateLimiter.EveryWindowIsBounded | app/middleware/rate_limit.py:102-120 | over any trace at nondecreasing times every closed window of every key is within its limit |
| AuthLockout.RateLimitMiddleware.CheckLockout | app/middleware/rate_limit.py:276-298 | remaining seconds while the lock-out stands, otherwise 0 and the entry is gone |
| AuthLockout.RateLimitMiddleware.DispatchAuth | app/middleware/rate_limit.py:161-186 | response, whether the handler ran and the IP's new state; other IPs keep theirs |
| AuthLockout.Leaves401Exactly | app/middleware/rate_limit.py:173-186 | a 401 of the handler leaves as such if and only if fewer than five did in the 300 seconds up to it, else a lock-out of 900 is set; any other answer passes |
| AuthLockout.FailuresAreBounded | app/middleware/rate_limit.py:173-184 | over serial requests of an IP, in any closed 300 seconds at most 5 responses leave as 401 and at most 6 handler runs fail |
| AuthLockout.LockoutHolds | app/middleware/rate_limit.py:162-168 | over serial requests of an IP, after a lock-out set at T none that arrives before T + 900 reaches the handler |
| AuthLockout.LockoutRetryAfter | app/middleware/rate_limit.py:293-298 | a client is let through after k whole seconds if and only if k reaches the announced wait, or one less when the lock-out ends a whole number of seconds away |
| AuthLockout.ShorterWaitSuffices | app/middleware/rate_limit.py:293-298 | some shorter wait is enough exactly in that case |
| Journeys.InterviewJourneyService.CreateJourney | app/modules/journeys/service.py:141-206 | the journey at SOURCED, its join record and its event are committed together, or nothing if a flush or the commit raises |
| Journeys.InterviewJourneyService.TransitionStage | app/modules/journeys/service.py:208-328 | committed state, answer and background tasks for permitted, refused, over-long and stale transitions and every set of raising awaits |
| Journeys.InterviewJourneyService.EncryptJoinRecord | app/modules/journeys/service.py:330-352 | the encrypted columns hold the candidate and the journey and the flag is set, if there is a record |
| Journeys.TransitionExactly | app/modules/journeys/service.py:236-250 | a transition returns if and only if it goes one step up the ladder of stages (or withdraws, rejects before an offer, answers the offer), the comment has at most 2000 characters, the row is current and nothing fails; when 400 and when 422 |
| JourneyProtocol.HistoryClimbsTheLadder | app/modules/journeys/service.py:85-125 | in every interleaving row i of a history leaves the i-th stage: none is skipped, and an offer is answered after exactly seven rows |
| JourneyProtocol.FlushThenCommit | app/modules/journeys/service.py:283-297 | the protocol's flush and commit are the service's transition on the committed state |
| JourneyProtocol.LoadFlushCommit | app/modules/journeys/service.py:208-328 | a session can load, flush and commit or abort; uninterrupted it ends in the service's transition of the stored row |
| JourneyProtocol.RanksGrow | app/modules/journeys/service.py:85-125 | along a legal path the stage rank grows strictly |
| JourneyProtocol.CommittedHistoryIsLegal | app/modules/journeys/service.py:208-328 | in every interleaving a journey's committed history is a contiguous legal path from SOURCED to its stage, at most 7 rows, one event each; COMPLETED, response time, encryption and extension time match the path |
| JourneyProtocol.TerminalIsFinal | app/modules/journeys/service.py:121-124 | in every interleaving a journey in a terminal stage never changes again |
| JourneyProtocol.OneWinnerPerVersion | app/base_model.py:63-70 | two committed transitions of a journey never come from the same loaded version |
| JourneyProtocol.LoserLeavesNothing | app/base_model.py:63-70 | a session whose journey moved on after it loaded it changes no row, event or task |
| JourneyProtocol.SurveyQueuedOnce | app/modules/journeys/service.py:299-319 | a survey is queued exactly once if the journey left LOOP_INTERVIEW with background tasks, else never |
| DomainEvents.Dispatcher.DispatchEvent | app/domain_events/handlers.py:30-46 | handlers are called in order up to the first that raises |
| DomainEvents.Dispatcher.DispatchWithStatusUpdate | app/domain_events/publisher.py:67-101 | row and calls after an attempt; raises only if the status commit does |
| DomainEvents.RetriedOnce | app/domain_events/retry.py:43-59 | each listed event ends with the row one attempt makes of its earlier row; no other row changes |
| DomainEvents.CalledOnce | app/domain_events/retry.py:43-45 | the calls of a retry run for a listed event are those of one attempt, in one piece |
| DomainEvents.OthersNotCalled | app/domain_events/retry.py:43-45 | attempts at other events call no handler for an event |
| DomainEvents.HandlersInOrder | app/domain_events/handlers.py:25-27 | the handlers of a type are those registered for it, in order |
| DomainEvents.Dispatcher.RetryFailedEvents | app/domain_events/retry.py:21-61 | exactly the FAILED events are visited, each once; rows and handler calls after the run; errors is the number of visits whose status commit raises |
| EventRuns.RunKeepsInv | app/domain_events/publisher.py:79-101 | in every interleaving only its own task works on a PENDING event, PROCESSED rows have a processing time, and handlers run only for committed events |
| EventRuns.OrphanExactly | app/domain_events/publisher.py:51-101 | a committed event is PENDING without a task or attempt if and only if it was published without background tasks, its task was lost, its attempt was cut off, or the status commit of its attempt raised |
| EventRuns.PublishedWithoutTask | app/domain_events/publisher.py:54-63 | the one-step run of the first kind |
| EventRuns.PendingCanBeStranded | app/domain_events/publisher.py:79-101 | the other causes can befall any PENDING event that has a task or an attempt |
| EventRuns.OrphanIsStuck | app/domain_events/retry.py:36-38 | such an event stays PENDING and no handler is called for it again |
| EventRuns.TaskCanFinish | app/domain_events/publisher.py:79-101 | every other PENDING event can still be dispatched and leave PENDING |
| EventRuns.CallsExactly | app/domain_events/handlers.py:30-46 | an attempt calls the handlers in order up to the raising one, and no other step calls any |
| EventRuns.WholeListExactly | app/domain_events/publisher.py:88-101 | of a row not PROCESSED, an attempt that commits calls the whole list if and only if none but the last handler raises, and makes it PROCESSED if and only if none does |
| EventRuns.ReachedExactly | app/domain_events/publisher.py:88-101 | a row becomes PROCESSED exactly when an attempt commits that loaded it otherwise and in which no handler raised |
| EventRuns.ProcessedWasDelivered | app/domain_events/publisher.py:88-91 | in every interleaving all handlers of a PROCESSED event were called in order by one attempt |
| EventRuns.LeftExactly | app/domain_events/publisher.py:92-101 | PROCESSED is left exactly when an attempt commits that began while the row was PROCESSED and in which a handler raised |
| EventRuns.ListedSince | app/domain_events/retry.py:36-45 | an event a retry run still visits was FAILED when the run began |
| EventRuns.ProcessedIsFinal | app/domain_events/retry.py:36-46 | if retry runs do not overlap, a PROCESSED row never changes and no handler is called for it again |
| EventRuns.SerialKeepsInv | app/domain_events/publisher.py:90-93 | if retry runs do not overlap, processed_at is set exactly for PROCESSED rows |
| EventRuns.ConcurrentRetriesCanUndo | app/domain_events/retry.py:36-46 | a run with two retry runs in which a PROCESSED event becomes FAILED again, so the proviso is needed |
| EventRuns.RetryRunIsRetried | app/domain_events/retry.py:43-59 | a retry run nothing comes between does, step by step, what RetryFailedEvents promises |
| OriginsCache.ServedListsAreFresh | app/middleware/cors.py:158-180 | a list served from the cache was the database's answer less than 60 seconds earlier, in every interleaving |
| OriginsCache.FetchedListsAreFresh | app/middleware/cors.py:178-180 | a fetched list was the database's answer while the request ran |
| OriginsCache.StoredListIsServed | app/middleware/cors.py:168-179 | a list stored by a request started at t is served exactly before t + 60, until it is replaced or deleted |
| OriginsCache.FillExactly | app/middleware/cors.py:178-180 | a request that finds no list stores the database's answer, counted from its own start |
| TemplateRenderer.NameAtIsRegex | app/modules/notifications/service.py:257 | the longest-word matcher finds a name if and only if the regex matches there |
| TemplateRenderer.KnownNameIsReplaced | app/modules/notifications/service.py:253-257 | a placeholder of a known name becomes its value and the rest is rendered on its own |
| TemplateRenderer.UnknownNameStands | app/modules/notifications/service.py:255 | a placeholder of an unknown name stands |
| TemplateRenderer.OtherCharacterStays | app/modules/notifications/service.py:257 | a character at which no placeholder starts stays |
| TemplateRenderer.SegmentationExists | app/modules/notifications/service.py:253-257 | every template splits into placeholders and characters at which no match starts |
| TemplateRenderer.SegmentationIsUnique | app/modules/notifications/service.py:253-257 | no template splits in two ways |
| TemplateRenderer.RenderSubstitutesSegments | app/modules/notifications/service.py:238-257 | rendering is the concatenation of the substituted segments; substituted text is not scanned again |
| TemplateRenderer.UnknownPayloadIsIdentity | app/modules/notifications/service.py:253-257 | a payload knowing none of the names leaves the template as it is |
| TemplateRenderer.OnlyOccurringNamesMatter | app/modules/notifications/service.py:253-257 | payloads agreeing on the occurring names render alike |
| Questionnaires.QuestionnaireService.SaveAnswers | app/modules/questionnaires/service.py:301-390 | a save is ignored, refused with its error, fails at a raising await, or merges all its answers into the live rows; nothing in between |
| Questionnaires.AcceptedExactly | app/modules/questionnaires/service.py:301-350 | a save is accepted if and only if the caller is authorized, the response is a live one of the caller's organization, not SUBMITTED and with its questionnaire, a final save has every required answer, and no deleted row is in the way |
| Questionnaires.RefusedExactly | app/modules/questionnaires/service.py:301-350 | when a save is ignored, and when it is refused with 409, 404 or 422 |
| Questionnaires.SavedLeaves | app/modules/questionnaires/service.py:351-380 | what an accepted save leaves of the responses and of the answers it gives |
| Questionnaires.OthersSavesChangeNothing | app/modules/questionnaires/service.py:301-327 | in a serial run a save for another organization, of a deleted response or by an unauthorized caller changes nothing |
| Questionnaires.LiveRowsAreTheMerge | app/modules/questionnaires/service.py:358-380 | in any serial run of saves the live rows of a response are one map, the right-biased merge of the successful ones |
| Questionnaires.SubmittedIsFinal | app/modules/questionnaires/service.py:323-328 | if saves do not overlap, neither the row nor the answers of a SUBMITTED response change again |
| Questionnaires.SubmittedIsComplete | app/modules/questionnaires/service.py:344-350 | in any serial run a SUBMITTED response answers every question required when it was submitted |
| QuestionnaireProtocol.SubmittedRowIsFinal | app/base_model.py:63-70 | in every interleaving the row of a SUBMITTED response never changes and no answer to it is lost |
| QuestionnaireProtocol.ChangesAreOwn | app/modules/questionnaires/service.py:301-327 | in every interleaving a response or its answers change only by the commit of an authorized save for the response's own organization, and never when deleted |
| QuestionnaireProtocol.SubmittedIsComplete | app/modules/questionnaires/service.py:344-350 | in every interleaving a committed final save leaves the response SUBMITTED for good, with an answer to every question required when the save began |
| QuestionnaireProtocol.SubmittedChangesExactly | app/modules/questionnaires/service.py:351-378 | an answer to a SUBMITTED response changes exactly when a draft save commits that loaded it INCOMPLETE, last updated by the same user, and writes another answer |
| QuestionnaireProtocol.DraftOverwritesSubmitted | app/modules/questionnaires/service.py:351-378 | a run in which that happens |
| QuestionnaireProtocol.LiveRowsAreTheMerge | app/modules/questionnaires/service.py:358-380 | in every interleaving there is one row per question, and the live rows are what the committed saves wrote, merged in commit order |
| QuestionnaireProtocol.MergedExactly | app/modules/questionnaires/service.py:358-380 | a committed save is merged whole if and only if no answer it had read as already given was changed meanwhile |
| QuestionnaireProtocol.UninterruptedIsSave | app/modules/questionnaires/service.py:301-390 | the steps of a save nothing comes between end in the verdict and state of SaveAnswers |
| Questionnaires.QuestionnaireService.AutoCreateResponses | app/modules/questionnaires/service.py:408-453 | every linked questionnaire gets its response, existing ones untouched; a deleted response in the way, a raising await or, if something was created, a raising portal call undoes it all; exactly when it returns |
| Questionnaires.RepeatCreatesNothing | app/modules/questionnaires/service.py:417-426 | repeating the call creates nothing |
| RevocationCache.Cache.IsRevoked | app/modules/auth/service.py:69-94 | lazy eviction answers as a map that never evicts: recorded, and last recorded at most the TTL ago |
| RevocationCache.Cache.Revoke | app/modules/auth/service.py:59-67 | the identifier is recorded now |
| RevocationCache.WarmedExactly | app/modules/auth/service.py:103-110 | warming records exactly the identifiers of unexpired rows, each at the time of its last one, beside those recorded before |
| RevocationCache.Cache.WarmFromDb | app/modules/auth/service.py:96-110 | the store answers as if it had recorded just these |

## Left out

- TokenRuns.ExchangedOnce: refreshes that do not overlap; RefreshProtocol says what holds if they do.
- RefreshProtocol.TheftRevokes: the queries of the family walk see one state; the commit comes at any later time.
- LoginRuns.LockedAfterFiveWrong: logins that do not overlap and in which nothing fails; `LoginProtocol.LockedExactly` says what holds in every interleaving.
- LoginRuns.NoLoginWhenLocked: logins that do not overlap; `LoginProtocol.SucceedsExactly` says what holds if they do.
- LoginProtocol.RowIsSerial: while only logins write the row; Change stands for every other write.
- CredentialRuns.ResetTokenConsumedOnce: calls that do not overlap, as in the other rows of CredentialRuns.
- AuthLockout.FailuresAreBounded: requests of an IP that do not overlap; more handlers of overlapping ones can fail before the lock-out is set.
- AuthService.Service.Authenticate: the e-mail lookup is the parameter `user`, and JWT encoding is left out.
- EventRuns.ProcessedIsFinal: retry runs that do not overlap; `EventRuns.LeftExactly` says when PROCESSED is left if they do.
- Questionnaires.SubmittedIsFinal: saves that do not overlap; `QuestionnaireProtocol.SubmittedChangesExactly` says when an answer changes if they do.
- DomainEvents.Dispatcher.RetryFailedEvents: loading an event row succeeds here; in EventRuns a load that raises is a step of its own (Lose, Skip).
- Credentials.PasswordResetService.ConfirmReset: the password policy is a parameter, because its character classes are Python's Unicode tables.
- RateLimiter.Limiter.Check: keys are an endpoint group and a client number instead of strings; locks are left out, each call being atomic.
- Journeys.InterviewJourneyService.EncryptJoinRecord: encryption is an abstract value that decrypts to its plain text; the plain id columns stay as they are.
- OriginsCache.ServedListsAreFresh: parsing the organization from the path and setting headers are left out.
- Questionnaires.QuestionnaireService.SaveAnswers: the role check is the parameter `authorized`, and the YAML schema is its set of required questions.
- Questionnaires.QuestionnaireService.AutoCreateResponses: what the portal service stores is not part of this model, only whether it raises.
- The middleware's other branches (invitation, reset, agent and tenant limits) call the same `check` and add nothing new.
- `_attempt_delivery`, template resolution and e-mail, storage, tracing, metrics and the routers: outcomes of foreign calls.
- Candidate status transitions and the expiry job: guards and a filtered query that would add only easy members.
- The notification handlers after `dispatch_event`: what they do in their own sessions is not modelled.
- Requisitions, portal, privacy, roles, availability, skills, feedback and e-mail configuration: simple guarded queries.
