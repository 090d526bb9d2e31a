# Models of the platform's stateful protocols and decision functions

This project restates the parts of the platform whose correctness spans several functions or a
whole run, and proves what they are for. It is a Dafny project: `dafny verify dfyconfig.toml` checks
all of it.

| file | models |
|---|---|
| `TokenBucket.dfy` | the two-window token limiter and the daily budget, with the whole grant history as ghost state |
| `TriageBatch.dfy` | the concurrent triage batch, as steps from one `await` to the next over that limiter |
| `SchedulerLease.dfy` | N workers competing for one lock row with a staleness threshold |
| `Sessions.dfy` | tokens with a version counter: logins, sliding re-mints and logouts, interleaved |
| `ScanAuthz.dfy`, `DomainVerification.dfy`, `ScanScope.dfy` | a scan decision, its encoding as a basis string, and the guard in front of every connection |
| `AbacPolicy.dfy`, `BusinessHours.dfy` | the attribute-policy evaluator and its weekly windows |
| `LicenseKey.dfy`, `Base64Url.dfy` | printing and reading license keys, with the encoding of section 5 of RFC 4648 |
| `SocketRegistry.dfy` | live sockets indexed by scan and by user |
| `RateTracker.dfy` | the request counter that forgets the least recently touched IPs |
| `IocCorrelation.dfy`, `IocScoring.dfy` | clustering, linking, scoring and ranking of indicators |
| `ScanAssignment.dfy` | dealing scan types to federation nodes |
| `Text.dfy`, `Prelude.dfy` | string operations and the option type used above |

Time and scores are `real`; the clock is an input. Where a lemma about a limiter, a batch, a lease
or a counter asks for readings that do not go back, it says so in its `requires`. Cryptography, JSON,
DNS, address parsing and time zones are function values (`Crypto`, `Net`, `World`) about which only
the stated laws are used: a signature is 64 hexadecimal characters, JSON reads back what it wrote, and the host name `urlparse`
finds in a text is as `LawfulParse` says.
Python's own classes that change in place are classes here; each of their methods equates the new
state with a specification function of the old one, and the lemmas speak about those functions.

## What the proofs brought out

- **Seeding reads the clock before it takes the lock.** A grant made while `seed_real_tpd_usage` waits
  for the lock carries a later time than the seeding and is forgotten, so the promise "the real usage
  and everything granted since the 429's clock reading fit the limit until the reset" fails
  (`StaleSeedForgetsGrants` gives a run in which it does). It is kept in every run up to the next
  seeding exactly if, when the seeding takes effect, the reset is past, or nothing can be granted
  before it, or the most that can be granted leaves room for what was lost (`SeedPromiseIff`). Counted
  from when the seeding takes effect the bound always holds (`SeededGrantsFit`).
- **A wake-up exactly on the deadline makes no progress.** The pruning test is strict, so `acquire`
  goes round once more with a sleep of zero (`WakeUp`); strictly later wake-ups always free something,
  and one reading past the newest entry plus the window ends the call whatever came before
  (`AcquireTerminates`).
- **Overlapping logouts of one user can leave a token alive.** `logout` reads the version, adds one and
  writes it back. A logout that read an old version can write a version that is already printed on a
  token (`OverlappingLogoutsKeepAToken`). It revokes everything that goes back to an earlier login
  exactly when no unexpired token of the user, and no login or cookie read still on its way to
  minting one, carries the version it writes (`LogoutRevokesEverythingIff`); reading the highest version
  so far is enough for that, and ends an exception an earlier logout left (`CleanLogoutRestores`). Runs
  whose logouts do not overlap have no exception (`NoOverlapNoException`).
- **A transient failure moves a pending record to failed.** The docstring of `run_check` says that a
  transient failure records only `last_error`. That is so exactly if the record was not pending
  (`TransientChangesOnlyErrorIff`); `PendingFailsOnTransient` gives a record for which it is not. It
  never revokes and never grants (`VerifiedIffLastVerdictMatched`).
- **A network scope without an active check.** A training host whose table permits none of the
  requested active checks still gets a scope (`NoScopeIff` states exactly when).
- **Domain texts with a blank or bracket in front.** `_normalize` strips them from a bare domain but not
  from the middle of a longer name, so a suffix with such a front would miss the names under it
  (`SuffixReachesEverySubdomainIff`). No scan meets this: a record's domain was normalized when it was
  added and is normalized again when it is used, which leaves no such front (`StorableReadsClean`), so
  the target of an allowed active scan is always let through (`GuardReachesTarget`,
  `AuthorizedTargetIsReached`). For scopes given by any other text `GuardReachesTargetIff` says exactly
  when it is, and `BlankFrontBlocksTarget` gives a text, which no record can hold, for which it is not.
- **Severity bands are taken before rounding.** A cluster can be shown with the threshold of a band it
  was not put in, exactly in the half tenth below the threshold (`SeverityFitsShownScoreIff`).
- **A caller-supplied narrower window forgets.** `requests_in_window` undercounts a later, wider window
  (`NarrowerWindowForgets`), exactly if a call in it had already fallen out of the window of a call
  in between (`NeverOvercounts`).
- **A captured error that is not a daily-quota 429 counts as succeeded** in a batch, since
  `classify_finding` then returns its fallback like any answer.

## Model

| member | source | states |
|---|---|---|
| TokenBucket.DropKeepsExactlyRecent | modules/ai/rate_limiter.py:165-175 | Pruning an ordered deque keeps exactly the entries not older than the cutoff, in order |
| TokenBucket.KeepsPruned | modules/ai/rate_limiter.py:165-175 | A deque that was pruned before gives, pruned later, what pruning the whole history would give |
| TokenBucket.AttemptKeepsInv | modules/ai/rate_limiter.py:221-237 | One pass of the loop keeps both deques equal to the pruned history, and every entry fitted when it was admitted |
| TokenBucket.ReseedKeepsInv | modules/ai/rate_limiter.py:182-211 | So does seeding, whatever was reported and however old its clock reading is |
| TokenBucket.AcquireKeepsInv | modules/ai/rate_limiter.py:213-237 | So does a whole call of acquire over any readings that do not go back |
| TokenBucket.RunKeepsInv | modules/ai/rate_limiter.py:165-237 | So does every run of acquires and seedings |
| TokenBucket.WindowBound | modules/ai/rate_limiter.py:138-147 | Any closed interval no longer than the window that holds two grants or more stays within the limit |
| TokenBucket.RunsStayWithinBothWindows | modules/ai/rate_limiter.py:135-237 | In every run from a fresh limiter both windows obey that bound, the daily one over the seeded usage and the grants since |
| TokenBucket.AttemptIsExact | modules/ai/rate_limiter.py:221-237 | A pass grants exactly when both windows of the full history have room or are empty, and fails fast exactly when the daily one has none |
| TokenBucket.SeededGrantsFit | modules/ai/rate_limiter.py:182-211 | Until the reported reset every grant fits on top of the real usage and all grants since the seeding |
| TokenBucket.NoGrantWhileUsedUp | modules/ai/rate_limiter.py:182-232 | With the real usage at the limit or above there is no grant before the reset |
| TokenBucket.SeededAttempt | modules/ai/rate_limiter.py:177-226 | Until the reset a pass fails fast exactly when the request does not fit, and reports that same reset |
| TokenBucket.StaleSeedForgetsGrants | modules/ai/rate_limiter.py:203-211 | A run in which a seeding queues behind a sleeping acquire and the usage since its clock reading then exceeds the limit before the reset |
| TokenBucket.BoundWithoutLoss | modules/ai/rate_limiter.py:203-232 | Without a lost grant, at every grant up to the reset the real usage and everything granted since the clock reading fit the limit |
| TokenBucket.ClockCount | modules/ai/rate_limiter.py:203-232 | By the clock the usage is what the limiter counts plus the tokens lost while the seeding waited |
| TokenBucket.GrantsWithinRoom | modules/ai/rate_limiter.py:221-232 | All grants from the seeding to its reset stay within what the seeded budget and the minute window at the reset leave |
| TokenBucket.RoomKeepsPromise | modules/ai/rate_limiter.py:182-232 | With room for what was lost the bound by the clock holds in every run up to the next seeding |
| TokenBucket.NoRoomBreaksPromise | modules/ai/rate_limiter.py:182-232 | Without it some run exceeds the limit |
| TokenBucket.SeedPromiseIff | modules/ai/rate_limiter.py:182-232 | So the promise by the clock is kept exactly if there is that room; always without loss, and with a reset beyond the minute window only without loss or with nothing left to grant |
| TokenBucket.SleepEndsWithOldest | modules/ai/rate_limiter.py:234-237 | A sleep ends when the oldest entry ages out, never later than the newest entry plus the window |
| TokenBucket.NoWaitPastNewest | modules/ai/rate_limiter.py:228-237 | Past the newest entry plus the window nothing waits any more |
| TokenBucket.WakeUp | modules/ai/rate_limiter.py:221-237 | Waking strictly after the deadline drops an entry, waking exactly on it drops none; no wake-up ever finds the daily quota exhausted |
| TokenBucket.AcquireTerminates | modules/ai/rate_limiter.py:213-237 | acquire ends once some reading is past the newest entry plus the window, whatever wake-ups came before |
| TokenBucket.AcquireLooks | modules/ai/rate_limiter.py:213-237 | With wake-ups past their deadlines it ends after at most one look at the clock more than there are entries |
| TokenBucket.GrantIsDated | modules/ai/rate_limiter.py:222-232 | A grant is dated by the reading at which the call stopped waiting; nothing is granted otherwise |
| TokenBucket.AtLeastOne | modules/ai/rate_limiter.py:220 | The larger of one and the estimate |
| TokenBucket.ExhaustedBeforeAnySleep | modules/ai/rate_limiter.py:213-226 | The daily-quota exception is raised only at the first look at the clock |
| TokenBucket.TokenBucketLimiter.constructor | modules/ai/rate_limiter.py:150-163 | A new limiter has an empty history |
| TokenBucket.TokenBucketLimiter.Prune | modules/ai/rate_limiter.py:165-169 | Pops the outdated front of the minute deque and returns the sum of the rest |
| TokenBucket.TokenBucketLimiter.PruneTpd | modules/ai/rate_limiter.py:171-175 | The same for the daily deque |
| TokenBucket.TokenBucketLimiter.TryOnce | modules/ai/rate_limiter.py:223-235 | One pass in place does to the fields and the history what the specification says, and keeps Valid |
| TokenBucket.TokenBucketLimiter.AcquireTokens | modules/ai/rate_limiter.py:213-237 | The whole loop in place, for any sequence of clock readings |
| TokenBucket.TokenBucketLimiter.SeedRealTpdUsage | modules/ai/rate_limiter.py:182-211 | Seeding in place, and the reset time it returns |
| TokenBucket.DailyTokenBudget.WouldExceed | modules/ai/rate_limiter.py:292-301 | True exactly when the recent part of everything ever recorded leaves no room for the request |
| TokenBucket.DailyTokenBudget.Record | modules/ai/rate_limiter.py:303-309 | Adds one entry to the history |
| TriageBatch.StepKeepsInv | modules/ai/triage_engine.py:183-234 | Every step of every task keeps counters, semaphore slots, latch and payments consistent |
| TriageBatch.TallyKept | modules/ai/triage_engine.py:183-234 | The counters are the numbers of tasks answered, deferred and failed, and free slots plus holders make the limit |
| TriageBatch.LatchKept | modules/ai/triage_engine.py:187-222 | The latch goes with exactly one stored time, carried by every deferred result |
| TriageBatch.AcquireAddsOneGrant | modules/ai/triage_engine.py:203-206 | An acquire adds to the history one entry for what was asked if it granted, nothing otherwise |
| TriageBatch.PaymentKept | modules/ai/triage_engine.py:196-212 | Each model call started is paid for by its own grant of its own finding's estimate |
| TriageBatch.RunKeepsInv | modules/ai/triage_engine.py:183-234 | All of that in every interleaving |
| TriageBatch.EveryInterleaving | modules/ai/triage_engine.py:183-234 | Latch set iff one reset time stored, deferred results carry it, fewer calls than slots start after the latch, counters equal finished tasks, grants stay within the minute limit and, with the reported usage, the daily one |
| TriageBatch.ResultBelongsToItsFinding | modules/ai/triage_engine.py:191-234 | Result i is what the thread of finding i returned and no other task's step touches it |
| TriageBatch.RunsAreShort | modules/ai/triage_engine.py:191-234 | No interleaving has more than four steps for each finding |
| TriageBatch.NeverStuck | modules/ai/triage_engine.py:191-234 | With at least one slot some step is possible until every finding has its result |
| TriageBatch.NoCallWhileUsedUp | modules/ai/triage_engine.py:196-222 | After a real 429 with the quota used up, a finding that reaches the limiter is deferred without a call |
| TriageBatch.SeedTakesEffect | modules/ai/triage_engine.py:213-222 | After seeding the limiter counts the reported usage against the reported limit until the reported reset |
| TriageBatch.NoCallsUntilReset | modules/ai/triage_engine.py:183-234 | In every interleaving from such a 429 until its reset no model call starts |
| TriageBatch.NoCallsAfter429 | modules/ai/triage_engine.py:183-234 | So from the moment a 429 that reports a used-up quota takes effect, no model call starts until its reset |
| TriageBatch.ThreadOutcome | modules/ai/triage_engine.py:208-222 | A thread's answer becomes the result, its 429 goes to seeding as reported, its exception is the task's |
| TriageBatch.NoEntryBehindLatch | modules/ai/triage_engine.py:191-202 | With the latch set a finding that enters is deferred at once, without a slot or the limiter; otherwise it goes to the limiter |
| TriageBatch.StoredReset | modules/ai/triage_engine.py:203-222 | The stored reset is what the limiter or the 429 said at that moment, and nothing later changes it |
| TriageBatch.LateStarts | modules/ai/triage_engine.py:196-212 | A late start is a model call that starts with the latch set |
| TriageBatch.AllDone | modules/ai/triage_engine.py:183-234 | When all are finished every slot is free and succeeded, deferred and raised add up to the number of findings |
| SchedulerLease.StepKeepsInv | modules/darkweb/scheduler.py:93-126 | Every step of every worker keeps the row consistent with the claims made |
| SchedulerLease.RunKeepsInv | modules/darkweb/scheduler.py:93-198 | So does every run |
| SchedulerLease.ClaimWinsIff | modules/darkweb/scheduler.py:93-113 | A claim wins exactly when the row is free or the reading is later than locked_at plus the threshold, and then owns the row |
| SchedulerLease.ReleaseOnlyOwnClaim | modules/darkweb/scheduler.py:115-126 | A release clears the row exactly if it is still the claim the releaser made, so never a lock another worker has reclaimed |
| SchedulerLease.NoTwoSweepers | modules/darkweb/scheduler.py:131-198 | While every sweep ends within the threshold of its own claim's reading, no two workers sweep together |
| SchedulerLease.RunKeepsOwnership | modules/darkweb/scheduler.py:93-198 | In such runs whoever sweeps owns the row |
| SchedulerLease.OvertakenExactlyWhenLate | modules/darkweb/scheduler.py:93-113 | A worker that still owns the row is overtaken exactly by readings past its own plus the threshold, which is when it is late |
| SchedulerLease.LateSweepOverlaps | modules/darkweb/scheduler.py:93-198 | From every state with a late owner in the sweep, an idle worker that tries undisturbed sweeps together with it |
| SchedulerLease.OverstayedSweepOverlaps | modules/darkweb/scheduler.py:93-198 | A concrete run without the assumption in which two workers sweep together |
| SchedulerLease.NeverWedged | modules/darkweb/scheduler.py:93-113 | From every reachable state an idle worker that waits past the threshold gets the lock |
| SchedulerLease.SchedulerLock.AcquireLock | modules/darkweb/scheduler.py:93-113 | The conditional update in place is the claim step of the protocol around it, and its row count says whether the worker sweeps |
| SchedulerLease.SchedulerLock.ReleaseLock | modules/darkweb/scheduler.py:115-126 | The owner-checked update in place is the release step of the protocol around it |
| SchedulerLease.RunScheduledScan | modules/darkweb/scheduler.py:131-198 | Undisturbed, one run sweeps exactly if the row was claimable at its reading and then leaves the row free |
| Sessions.AcceptedExactlyIfLoggedInSinceLogout | web/auth.py:293-327 | In every interleaving an unexpired token of an active user is accepted if the login at the root of its chain of re-mints read the row after the latest logout, and only then unless that logout wrote a version already carried |
| Sessions.LoginReadAtStable | web/app.py:707-735 | The login at the root of a token never changes as more tokens are issued |
| Sessions.MintedFrom | web/app.py:707-735 | A minted token has the user, version and root login of what its request had read |
| Sessions.MintedDecodesUntil | web/auth.py:195-201 | A minted token decodes for exactly the minutes it was minted for |
| Sessions.AcceptedForItsMinutes | web/auth.py:195-201 | Over every run it is accepted for exactly those minutes, while its user is active and has not logged out since the login behind it |
| Sessions.SlidingRemint | web/app.py:707-735 | A request with an accepted cookie is verified, and the token it is given is accepted for its minutes from then on |
| Sessions.StepKeepsDates | web/auth.py:195-201 | Every step keeps versions among those the row has had, and current ones for logins since the latest logout |
| Sessions.CommitSettles | web/app.py:1256-1286 | A logout that writes an uncarried version leaves nothing older acceptable, whatever happened before |
| Sessions.StepKeepsSettled | web/auth.py:293-327 | No other step makes anything older acceptable again |
| Sessions.RunKeepsInv | web/app.py:707-735 | So does every run |
| Sessions.RemintAcrossLogoutIsRejected | web/app.py:707-735 | A request verified before a logout and re-minted after it, with any events in between, gets a token that is rejected |
| Sessions.LogoutIsFinal | web/app.py:1256-1286 | After a logout and any events no token going back behind it is accepted, while the latest logout wrote an uncarried version |
| Sessions.UncarriedRevokes | web/app.py:1256-1286 | A logout that writes an uncarried version revokes all issued tokens and all that pending requests will mint, up to the next logout |
| Sessions.CarriedSurvives | web/app.py:1256-1286 | Otherwise some continuation accepts one of them |
| Sessions.LogoutRevokesEverythingIff | web/app.py:1256-1286 | So in every reachable state a logout revokes everything older exactly if the version it writes is uncarried, and always if it read the highest one |
| Sessions.OverlappingLogoutsKeepAToken | web/app.py:1256-1286 | A logout about to write the version the row has already, with a login in between, leaves that login's token accepted |
| Sessions.CleanLogoutRestores | web/app.py:1256-1286 | A logout that read the highest version leaves no exception for its user |
| Sessions.OverlapIsReached | web/app.py:1256-1286 | From every start a run of two overlapping logouts and a login gets there |
| Sessions.NoOverlapNoException | web/app.py:1256-1286 | Runs whose logouts commit on the version they read have no exceptional user |
| Sessions.OrderlyRunsAcceptExactly | web/auth.py:293-327 | In such runs every unexpired token of an active user is accepted exactly if its root login read the row after the latest logout |
| ScanAuthz.FirstCovering | web/scan_authz.py:152-168 | The result is a scope that covers the host, None exactly when none does |
| ScanAuthz.LabelsOkMeans | web/scan_authz.py:122-126 | The codec accepts an ASCII name exactly if every part between its dots has between 1 and 63 characters |
| ScanAuthz.PlainTextReads | web/scan_authz.py:106-126 | A bare text is read as itself in lower case, blanks around it, dots at its end and a port aside, if it is an address or has good labels |
| ScanAuthz.NormalNameIsKept | web/scan_authz.py:106-126 | Reading a name that has been read already changes nothing |
| ScanAuthz.HostInVerifiedScope | web/scan_authz.py:152-168 | The loop finds the first covering scope |
| ScanAuthz.CoversMeans | web/scan_authz.py:152-168 | A TXT scope covers the domain and every name under it, a file scope the domain alone, any other nothing, and none an address |
| ScanAuthz.DistinctKeepsFirsts | web/scan_authz.py:137-149 | Expansion neither loses nor repeats a check |
| ScanAuthz.ExpandChecks | web/scan_authz.py:137-149 | The loop computes the expansion |
| ScanAuthz.AllowedAndDeniedPartition | web/scan_authz.py:171-226 | Every expanded check is allowed or denied, never both |
| ScanAuthz.ActiveAllowedIff | web/scan_authz.py:171-226 | An active check is allowed exactly through a covering scope or the training table |
| ScanAuthz.PassiveAllowedIff | web/scan_authz.py:181-196 | A passive check that was asked for is allowed exactly if there is a host |
| ScanAuthz.OthersNeverAllowed | web/scan_authz.py:181-226 | A check that is unknown or was not asked for is never allowed |
| ScanAuthz.DecideIsMonotone | web/scan_authz.py:171-226 | More scopes and more requested checks never take an allowed check away |
| ScanAuthz.VerifiedBasisRoundTrip | web/scan_authz.py:229-251 | Decoding a verified basis gives back its method and whole domain |
| ScanAuthz.OtherBasesRoundTrip | web/scan_authz.py:229-251 | The training and passive bases decode to their host and to nothing |
| ScanAuthz.UnknownBasisReachesNothing | web/scan_authz.py:229-251 | A basis or method that is not known fails closed: a scope that reaches nothing, not no scope |
| ScanAuthz.NoScopeIff | web/scan_authz.py:171-251 | Exactly when no network scope results, that no active check was then allowed, and exactly when a scope exists without one |
| ScanScope.BuildScope | modules/scan_scope.py:129-140 | The loop over the candidate names, in any order, builds the specified hosts, suffixes and addresses |
| ScanScope.ScopeGuard.Connect | modules/scan_scope.py:163-177 | A guarded connection goes ahead exactly when the guard passes, and is recorded otherwise |
| ScanScope.ScopeGuard.RecordBlock | modules/scan_scope.py:88-94 | The record holds the first hundred different blocked attempts in order |
| ScanScope.RecordOneMore | modules/scan_scope.py:88-94 | One more attempt is appended exactly if it is new and there is room |
| ScanScope.NormUnderCleanDomain | modules/scan_scope.py:63-65 | Normalizing a name under a clean domain keeps the dot and the whole normalized domain |
| ScanScope.SuffixReachesEverySubdomainIff | modules/scan_scope.py:63-86 | A verified domain's scope admits every name under it exactly when the domain has no blank or bracket in front |
| ScanScope.UncleanDomainMissesAName | modules/scan_scope.py:63-86 | Otherwise the name with "a." in front is missed |
| ScanScope.UncleanDomainMissesEveryName | modules/scan_scope.py:63-86 | Normalized, no name under such a domain ends in the normalized domain behind a dot |
| ScanScope.SuffixAdmitsHostIff | modules/scan_scope.py:63-86 | Exactly which hosts covered by a domain its suffix admits |
| DomainVerification.VerificationRecord.RunCheck | web/domain_verification.py:217-246 | The record's fields change as the status machine says |
| DomainVerification.VerifiedIffLastVerdictMatched | web/domain_verification.py:217-246 | After any checks a record is verified exactly when the last one that reached a verdict matched; transient failures never revoke |
| DomainVerification.StatusAfter | web/domain_verification.py:217-246 | Exactly how each status is reached: revoked only from verified by a definitive failure, failed from the others |
| DomainVerification.VerifiedSince | web/domain_verification.py:230-236 | While a record is verified, verified_at is the time of the match that made it so |
| DomainVerification.LastChecked | web/domain_verification.py:230-245 | last_checked_at is the time of the last verdict, last_error what the last failure said |
| DomainVerification.CheckKeepsIdentity | web/domain_verification.py:217-246 | A check touches neither owner nor domain nor method |
| DomainVerification.ValidatedMeans | web/domain_verification.py:76-89 | Validation accepts a text exactly if it is read as a name with a dot, of at most 253 characters, not local; and stores that name |
| DomainVerification.TransientChangesOnlyErrorIff | web/domain_verification.py:217-246 | A transient failure changes only last_error exactly if the record was not pending; a pending one fails |
| DomainVerification.PendingFailsOnTransient | web/domain_verification.py:237-240 | A pending record that a timeout moves to failed |
| DomainVerification.AuthorizeScan | web/domain_verification.py:249-296 | The decision rests on this call's live matches alone, and exactly the re-checked records change |
| DomainVerification.LiveScopesAreLive | web/domain_verification.py:249-296 | The scopes collected are those of the user's verified records that cover the host and matched just now |
| DomainVerification.ActiveNeedsLiveRecord | web/domain_verification.py:249-296 | Beyond the training table an active check is allowed exactly when one of those records is live in this call |
| DomainVerification.PassiveNeedsNoRecord | web/domain_verification.py:249-296 | A passive check is allowed exactly if there is a host, whatever the records |
| DomainVerification.GateWithinPreview | web/domain_verification.py:320-342 | The real gate never allows more than the preview over the same records |
| DomainVerification.LoadedScopesAreOwn | web/domain_verification.py:320-327 | The preview's scopes are exactly those of the user's own verified records |
| DomainVerification.PreviewMeans | web/domain_verification.py:330-342 | The preview allows an active check exactly by an own verified record that covers the host, or the training table |
| DomainVerification.ScopeNamesAreEntitled | web/domain_verification.py:345-354 | The scope admits by name exactly the names under or equal to what the decision rests on |
| DomainVerification.GuardPassesIff | web/domain_verification.py:345-354 | End to end: the guard lets a connection through if and only if it goes to an entitled name, or to an address to which one of the scope's own entries or the target resolves, itself entitled |
| DomainVerification.GuardConfines | web/domain_verification.py:345-354 | So nothing outside what the decision covers is let through |
| DomainVerification.GuardReachesTargetAddress | modules/scan_scope.py:129-140 | And the addresses of an entitled target are |
| DomainVerification.StorableReadsClean | web/domain_verification.py:76-89 | A domain that validation lets into a record has, normalized again, no blank or bracket in front |
| DomainVerification.GuardReachesTarget | web/domain_verification.py:345-354 | For every target, check list and list of scopes whose domains records can hold: when an active check was allowed there is a scope and it lets the target through |
| DomainVerification.AuthorizedTargetIsReached | web/domain_verification.py:249-296 | So over any table of records, for what authorize_scan allows |
| DomainVerification.GuardReachesTargetIff | web/domain_verification.py:345-354 | For scopes given by any text: exactly when the scope lets the target through, by name and at all |
| DomainVerification.BlankFrontBlocksTarget | modules/scan_scope.py:63-86 | A domain text that no record can hold, under which the guard blocks a target whose scan was allowed |
| BusinessHours.DayWindow | auth/dependencies.py:148-156 | One day's window, same-day or overnight, is an interval modulo the week |
| BusinessHours.LoadedHours | auth/dependencies.py:119-145 | Which hours the loader accepts, and that start, end and days are those written |
| BusinessHours.WithinIsModular | auth/dependencies.py:119-156 | For every hours value the loader accepts, within means that less than the time from start to end has passed since the start on some listed day, round the week |
| AbacPolicy.Evaluate | auth/dependencies.py:325-362 | The loop with its early exits computes the specified decision |
| AbacPolicy.TestAllMeans | auth/dependencies.py:350-353 | A rule matches exactly if all its conditions hold, and errs exactly if one errs after all before it held |
| AbacPolicy.FoldAllows | auth/dependencies.py:337-362 | The loop's verdict without an order: no rule blocks and some rule admits |
| AbacPolicy.AllowedIffPermitted | auth/dependencies.py:316-362 | Allowed exactly when the role is there, the time is not naive, no applicable rule errs, no applicable deny rule is incomplete or matches, and some complete allow rule matches |
| AbacPolicy.DecisionNamesRule | auth/dependencies.py:337-362 | Which rule a decision names and why: the first applicable one that blocks, else the first that admits, else the first that lacked an attribute, else none |
| AbacPolicy.NoRuleWithoutRoleOrTime | auth/dependencies.py:325-336 | Without a role, or with a naive time, no rule is looked at |
| AbacPolicy.FirstMissingIsFirst | auth/dependencies.py:343-346 | The attribute named as missing is the first one that is |
| AbacPolicy.ApplicableInOrder | auth/dependencies.py:337 | The applicable rules are taken in the policy's order |
| AbacPolicy.OrderDoesNotMatter | auth/dependencies.py:325-362 | The order of rules and repeating one never change the verdict |
| AbacPolicy.PermutedRulesSameVerdict | auth/dependencies.py:325-362 | Any permutation of the rules gives the same verdict |
| AbacPolicy.AddingADenyNeverAllows | auth/dependencies.py:325-362 | A deny rule added anywhere never turns a denial into an allow |
| AbacPolicy.HoursConditions | auth/dependencies.py:192-193 | within_hours is the modular window of the policy's wall clock and outside_hours its exact complement |
| AbacPolicy.EqualityOperator | auth/dependencies.py:184-185 | Equality ignores case exactly when the condition says so |
| AbacPolicy.ListOperators | auth/dependencies.py:184-188 | in holds exactly if equality with some listed value does, and not_in is its complement |
| AbacPolicy.NetworkOperators | auth/dependencies.py:190-191 | The network operators err on a text that is no address and are otherwise complementary; a list of networks is their union |
| AbacPolicy.OneNetwork | auth/dependencies.py:190-191 | A network holds the addresses of its family between its ends |
| AbacPolicy.SubsetOperator | auth/dependencies.py:171-174 | subset_of wants a list, not empty, with every item allowed |
| AbacPolicy.RemovalAllowsIff | auth/dependencies.py:316-362 | Exactly when taking an attribute away turns a denial into an allow: a naive time removed, or an applicable rule that reads it erred |
| AbacPolicy.RemovalNeverAllows | auth/dependencies.py:316-362 | With an aware time and no erring condition it never does |
| AbacPolicy.MissingMeans | auth/dependencies.py:316-317 | An attribute is missing exactly if it is absent or a text of blanks |
| AbacPolicy.LocalizedMeans | auth/dependencies.py:330-335 | Conditions see the request's moment in the policy's zone, and every other attribute as given |
| AbacPolicy.UnconditionalRule | auth/dependencies.py:325-362 | A policy of one allow rule without conditions allows exactly its resource to its roles |
| AbacPolicy.ConditionalRule | auth/dependencies.py:325-362 | With one condition, exactly if the attribute is there and the condition holds as well |
| AbacPolicy.LoadRules | auth/dependencies.py:250-287 | Rules load exactly when all are well formed with different ids, in order |
| AbacPolicy.IllFormedMeans | auth/dependencies.py:262-282 | What makes a rule of the file unacceptable |
| AbacPolicy.RawRule.ToRule | auth/dependencies.py:283-286 | A loaded rule has the id, roles, resource, effect and conditions of the file |
| Base64Url.DecodeEncode | web/license.py:185-213 | Decoding undoes encoding for every payload |
| Base64Url.StripThenRestore | web/license.py:217-279 | Restoring the stripped padding gives back the encoding for every length, and it holds no dot |
| Base64Url.ForeignIsSkipped | web/license.py:254 | The decoder skips characters outside the alphabet, and padding at the start of a group |
| Base64Url.StandardAlphabetToo | web/license.py:254 | It reads the two symbols of the standard alphabet like their URL-safe counterparts |
| Base64Url.LastGroup | web/license.py:254 | An unpadded or half padded last group is an error, and nothing after its padding is read |
| LicenseKey.VerifyTakesApart | web/license.py:217-279 | Splitting on the first two dashes and the last dot recovers the parts although a dash is in the alphabet |
| LicenseKey.GeneratedKeyVerifies | web/license.py:185-279 | A generated key reads back with the tier, holder, email, times, features and limits it was issued with, valid until its expiry and expired afterwards |
| LicenseKey.ShortKeyAcceptedIff | web/license.py:217-279 | A key with the short signature is accepted exactly unless full ones are required |
| LicenseKey.TierSegmentIsNotTrusted | web/license.py:217-279 | Replacing the printed tier changes neither verdict nor license |
| LicenseKey.PrintedTiers | web/license.py:212 | The tiers are printed in capitals |
| LicenseKey.RejectedForItsShape | web/license.py:222-236 | Exactly which texts are refused as no key, as badly formed and as lacking a signature |
| LicenseKey.NonAsciiIsRejected | web/license.py:254 | A payload part that is not ASCII is never read |
| LicenseKey.AcceptedCarriesSignature | web/license.py:217-279 | Whatever is read as a license carries the signature of the bytes it was read from |
| SocketRegistry.AppendFiles | web/websocket_manager.py:18-21 | Connecting lists exactly one socket more and keeps an index well filed |
| SocketRegistry.RemoveFiles | web/websocket_manager.py:23-38 | Removing unlists exactly that socket and leaves no empty list |
| SocketRegistry.ConnectKeepsInv | web/websocket_manager.py:18-21 | Connecting a new socket keeps both indexes in agreement |
| SocketRegistry.DisconnectKeepsInv | web/websocket_manager.py:23-38 | So does disconnecting |
| SocketRegistry.DroppedIsDisconnected | web/websocket_manager.py:51-65 | Dropping a dead socket without knowing its user is the same as disconnecting it |
| SocketRegistry.DisconnectAfterDrop | web/websocket_manager.py:23-65 | Disconnecting or dropping again after a drop changes nothing |
| SocketRegistry.RunKeepsInv | web/websocket_manager.py:18-65 | Every run of connects, disconnects and late drops keeps the two indexes in agreement |
| SocketRegistry.IndexesAgree | web/websocket_manager.py:18-65 | Agreement means equal multisets of sockets and no empty list |
| SocketRegistry.EveryRunAgrees | web/websocket_manager.py:18-65 | In every run both indexes hold the same multiset of sockets and neither keeps an empty list |
| SocketRegistry.DropEachEffect | web/websocket_manager.py:40-49 | After a broadcast exactly the failing sockets of that scan are gone, from both indexes |
| SocketRegistry.FindKey | web/websocket_manager.py:60-65 | The scan of the user lists finds a list with the socket, or there is none |
| SocketRegistry.ConnectionManager.ConnectSocket | web/websocket_manager.py:18-21 | Connecting in place |
| SocketRegistry.ConnectionManager.DisconnectSocket | web/websocket_manager.py:23-38 | Disconnecting in place |
| SocketRegistry.ConnectionManager.DisconnectDead | web/websocket_manager.py:51-65 | Dropping in place, the user found by searching |
| SocketRegistry.ConnectionManager.StartBroadcast | web/websocket_manager.py:40-41 | The list a broadcast copies holds every socket of that scan, once, and no other |
| SocketRegistry.ConnectionManager.FinishBroadcast | web/websocket_manager.py:48-49 | Whatever happened during the sends, the failed sockets are dropped one after the other |
| SocketRegistry.ConnectionManager.Broadcast | web/websocket_manager.py:40-49 | With nothing in between, the failing sockets of the scan's list are dropped |
| RateTracker.SurvivorsAfter | modules/firewall/ai_firewall.py:1023-1026 | Pruning what survived so far is what survives the new window as well |
| RateTracker.StoredAfter | modules/firewall/ai_firewall.py:1023-1027 | Pruning the stored times and adding the call gives what the history alone says should be stored |
| RateTracker.CallKeepsInv | modules/firewall/ai_firewall.py:1022-1030 | A call keeps keys in the order of their last call, the size within the cap and every entry equal to its history |
| RateTracker.KeptExactlyWhileTracked | modules/firewall/ai_firewall.py:1022-1030 | An IP has an entry exactly if it has called and fewer than cap other IPs have called since |
| RateTracker.OldestIsUntracked | modules/firewall/ai_firewall.py:1029-1030 | The entry dropped is the one crowded out, never the one being counted |
| RateTracker.NeverOvercounts | modules/firewall/ai_firewall.py:1024-1033 | Nothing outside the window is counted, and everything inside exactly if each call in it was inside the window of every call after it |
| RateTracker.CountsTheWindow | modules/firewall/ai_firewall.py:1024-1033 | Of calls in time order with no narrower earlier window exactly those in the last window survive |
| RateTracker.ResidencyIsInTime | modules/firewall/ai_firewall.py:1024-1030 | The calls since the last eviction are the IP's own, in time order |
| RateTracker.CountedSinceEviction | modules/firewall/ai_firewall.py:1022-1033 | For any number of IPs, what is stored and counted is every call of the IP in the window since its last eviction |
| RateTracker.NarrowerWindowForgets | modules/firewall/ai_firewall.py:1022-1026 | Three calls of which a narrower window in the middle forgets the first |
| RateTracker.FewIpsForgetNothing | modules/firewall/ai_firewall.py:1018-1030 | With at most cap different IPs nothing is ever evicted |
| RateTracker.WholeHistoryCounted | modules/firewall/ai_firewall.py:1022-1033 | With few IPs that is the IP's calls in the window over the whole history |
| RateTracker.Tracker.CheckRateLimit | modules/firewall/ai_firewall.py:1018-1041 | The call in place: the count follows from the history alone, the caller's IP is the newest key, exactly the tracked IPs have entries |
| IocScoring.ComputeScore | modules/ioc_correlation.py:144-169 | The loop computes the specified score |
| IocScoring.BaseBetween | modules/ioc_correlation.py:150-158 | The weighted base lies between the least and the greatest member score |
| IocScoring.ScoreBetween | modules/ioc_correlation.py:144-169 | The score is at least the least member score and at most 26 above the greatest, both capped at 100 |
| IocScoring.ScoreInRange | modules/ioc_correlation.py:144-169 | Every score is within 0 and 100 when the inputs are not negative |
| IocScoring.ScoreIsMonotone | modules/ioc_correlation.py:144-169 | Rating members higher never lowers the score |
| IocScoring.ScoreOfPermutation | modules/ioc_correlation.py:144-169 | The order of the members does not matter |
| IocScoring.ActorPickMovesLittle | modules/ioc_correlation.py:163-164 | Which of several actors is picked moves the score by at most four points |
| IocScoring.HighRiskScoresMost | modules/ioc_correlation.py:163-164 | A high-risk actor never scores below another one, nor any actor below none |
| IocScoring.ActorPoints | modules/ioc_correlation.py:163-169 | Below the cap, eight points for a high-risk actor and four for any other |
| IocScoring.BonusSteps | modules/ioc_correlation.py:160-167 | Three points for each further kind up to ten, one and a half for each further member up to eight |
| IocScoring.SmallClusters | modules/ioc_correlation.py:150-169 | One indicator scores what it is rated, two of a kind their mean and a member's bonus |
| IocScoring.WeightsRank | modules/ioc_correlation.py:27-41 | How the kinds rank by weight |
| IocScoring.RatingPrefers | modules/ioc_correlation.py:145-156 | An indicator is rated by threat score, else confidence, else 70, and an empty cluster scores nothing |
| IocScoring.BandsMean | modules/ioc_correlation.py:68-72 | Each severity from its threshold up to the next |
| IocScoring.ShownScore | modules/ioc_correlation.py:235-236 | Rounding moves a score by at most half a tenth and never swaps two |
| IocScoring.SeverityFitsShownScoreIff | modules/ioc_correlation.py:235-236 | The severity fits the shown score exactly outside the half tenths below the bands |
| IocCorrelation.GroupBy | modules/ioc_correlation.py:179-199 | Grouping into a dictionary gives for each key the members with that key in order, and no empty group |
| IocCorrelation.MembersInOrder | modules/ioc_correlation.py:179-199 | The members of a group come in the order of the input |
| IocCorrelation.FamilyMeans | modules/ioc_correlation.py:179-182 | The family key is the stripped name, or "Unknown" |
| IocCorrelation.OtherKeys | modules/ioc_correlation.py:186-199 | Attributed indicators group by actor, addresses by subnet, nothing else by either |
| IocCorrelation.SubnetMeans | modules/ioc_correlation.py:84-89 | Four parts between dots give the first three as a /24 |
| IocCorrelation.SubnetOnlyOfFour | modules/ioc_correlation.py:84-89 | Any other number of parts gives nothing |
| IocCorrelation.RelationMeans | modules/ioc_correlation.py:313-319 | The names of the relations between addresses, domains and URLs, whichever side comes first |
| IocCorrelation.OtherRelationsMean | modules/ioc_correlation.py:320-327 | The names of all other relations |
| IocCorrelation.SortedKeys | modules/ioc_correlation.py:211 | The keys in ascending order, each once |
| IocCorrelation.PairsAreExact | modules/ioc_correlation.py:291-297 | The reference list of links holds exactly the cross-kind pairs i<j, each once, in index order |
| IocCorrelation.BuildLinks | modules/ioc_correlation.py:291-310 | The nested loops with their early return give the first fifty of those pairs |
| IocCorrelation.CountKinds | modules/ioc_correlation.py:217-219 | How many members there are of each kind |
| IocCorrelation.OfKindCounts | modules/ioc_correlation.py:217-219 | The count of a kind is how often it occurs among the members |
| IocCorrelation.AttributionMeans | modules/ioc_correlation.py:213-214 | A cluster takes an actor from its members, and has none exactly if none of them has one |
| IocCorrelation.BuildCluster | modules/ioc_correlation.py:211-240 | A cluster with its members, attribution, score, severity and links |
| IocCorrelation.ClusterScoreInRange | modules/ioc_correlation.py:224-235 | Every shown cluster score is within 0 and 100 when the inputs are not negative |
| IocCorrelation.BuildClusters | modules/ioc_correlation.py:211-283 | One cluster for each key with enough members, in key order |
| IocCorrelation.ClusteredIffGroupIsLarge | modules/ioc_correlation.py:242-283 | Exactly the indicators whose group is large enough are in a strategy's clusters, as often as they came in |
| IocCorrelation.MalwareClustersPartition | modules/ioc_correlation.py:178-240 | The malware clusters partition the input |
| IocCorrelation.SortDownSorts | modules/ioc_correlation.py:286-287 | The result is in descending order of score and has the same clusters |
| IocCorrelation.SortDownKeeps | modules/ioc_correlation.py:286-287 | Clusters with the same score stay in their order |
| IocCorrelation.SortedListPartition | modules/ioc_correlation.py:172-288 | After sorting, the malware clusters still partition the input and the other strategies still pick their part |
| IocCorrelation.Correlate | modules/ioc_correlation.py:172-288 | The whole function: the three strategies' clusters, sorted, with the partition |
| ScanAssignment.CanHandleIff | modules/federation/federated_scan.py:227-238 | A node can handle a type exactly if one of its capabilities is that type or stands for it |
| ScanAssignment.CoveredByOwner | modules/federation/federated_scan.py:229-234 | Every scan type of the table belongs to exactly one capability |
| ScanAssignment.RoundRobin | modules/federation/federated_scan.py:211-224 | Every type goes to the node whose turn it is, in order; none lost or given twice; one assignment for each node id |
| ScanAssignment.FindAssignment | modules/federation/federated_scan.py:214 | The first assignment of a node id, or there is none |
| ScanAssignment.GivenIsEveryNth | modules/federation/federated_scan.py:213-224 | Over distinct nodes, node j gets exactly the types at positions j, j+n, j+2n and so on |
| ScanAssignment.DealtEveryNth | modules/federation/federated_scan.py:211-224 | Assignment j is node j's and holds exactly those types |
| ScanAssignment.LoadsDifferByAtMostOne | modules/federation/federated_scan.py:211-224 | No two loads differ by more than one, and earlier nodes never get less |
| ScanAssignment.HandledTypes | modules/federation/federated_scan.py:202 | The requested types a node can handle, in order |
| ScanAssignment.HandledInOrder | modules/federation/federated_scan.py:202 | They come in the order asked for |
| ScanAssignment.OffersInOrder | modules/federation/federated_scan.py:199-210 | Offers come in the order of the nodes |
| ScanAssignment.Parallel | modules/federation/federated_scan.py:195-210 | Each able node gets all it can handle, in node order, and a type is run exactly if some node can handle it |
| ScanAssignment.DroppedIffUnhandled | modules/federation/federated_scan.py:195-210 | Parallel dispatch drops a type exactly if no node can handle it |

## Left out

- AbacPolicy.LoadRules: conditions arrive compiled or not at all; how a condition's value and parameters are compiled is not modelled.
- RateTracker.CountedSinceEviction: asks for a clock that does not go back, which the wall clock used by the source does not promise, and for one window for the IP; `NeverOvercounts` is exact for any.
- TriageBatch.ResultBelongsToItsFinding: speaks of the text a thread returns; what the model answers and how it is parsed are an input.
- IocCorrelation.BuildCluster: the actor is any one of the members' actors, since the source takes the first element of an unordered set.
- Parsing of 429 messages, the token estimators, prompts and model answers.
- Rounding of floating-point numbers in timestamps, sleeps and score sums.
- The summary, alerts and globals that `run_scheduled_scan` fills in, and losing the race to insert the first lock row, which ends the run.
- The role claim of tokens, cookies' attributes, CSRF, API keys and the login rate limiter; the sliding-window argument of the limiter is made for the token bucket.
- The internals of HMAC, JWT, JSON, bcrypt and DNS.
- IDNA and names outside ASCII, and URL parsing, of which only the laws in `LawfulParse` are used. A text that `urlparse` refuses counts as having no host; the source lets that exception through.
- Reading condition values and parameters of a policy file, and choosing its time zone: rules reach the evaluator with compiled conditions, and a time zone is an opaque value.
- The human-readable reasons and messages of decisions.
- Saving, loading, activating and deactivating a license.
- The cap on sockets of one user: the check and the append are separated by an await, so the source does not keep it.
- Fetching indicators, recognising actor names (the vetted name is an input), cluster ids, sources and pattern labels. The map of domains that the source fills but never reads.
- Choosing online nodes by region, the local fallback without nodes, and sending tasks to nodes.
