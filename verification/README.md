# VPSGuard verification

A Dafny model of the parts of VPSGuard that keep state over time, with proofs of what every
run of them keeps. `dafny verify dfyconfig.toml` checks the whole project.

| modules | what they model |
|---|---|
| `SessionTable`, `SessionHistory` | the SQLite session, account and recovery-code tables as atomic transactions, and the session table against the history of what was issued and withdrawn |
| `Cookies`, `SessionStore`, `AuthRuns`, `AuthExecution`, `AuthSessions`, `LoginCodes`, `LoginLimiter`, `IssueRate` | cookie printing and parsing, the three entry points that read a cookie, local-mode authentication as interleaved steps, the one-slot login code, the sliding-window limiter and what it means for sessions |
| `RecoveryCodes`, `PamMfa`, `PamRuns`, `PamCrashes` | PAM recovery codes from random bytes to any typed spelling, the credential manager, concurrent verification with write faults and crashes, and what a failed sync leaves |
| `FileSystem`, `BuildArtifacts`, `CargoLocks`, `BuildCleanup` | hard-link-aware accounting of build outputs on a file system with names, inodes and link counts |
| `NotificationQueue`, `NotificationDelivery` | the bounded queue with its atomic depth counter, and the retry loop over persisted attempts |
| `ServiceHistory`, `ServiceCpu`, `CpuUsage` | the in-place merge folded over all polls, and CPU arithmetic in 64 bits and in unbounded integers |
| `Availability`, `ProbeTimeline`, `ModeTimeline`, `FirewallPlans` | outage bookkeeping, the health wait, the mode search and the pending-plan queue |

Classes and loops stand where the source updates fields or loops; each method is proved
against a function or predicate, and the theorems are about those.

## Assumptions

- Digests are functions of context and text. Where two texts must not be confused,
  `CollisionFree` or distinctness of digests is a stated premise. A new session token whose
  digest is already in the table is modelled as the storage error it would be.
- Random tokens are fresh. Where that matters it is a premise: `TokensFresh` says that no
  request presents a cookie before its token is drawn.
- A request reads the wall clock some time after the limiter admitted it. `Timely` says that the
  requests that read one second were admitted within two minutes of each other.
- Clocks are parameters. Theorems that need a clock that does not run backwards say so.
- Storage errors, write faults, crashes and what a webhook or probe returns are parameters
  of the operation or of the step. Failures of digests, of the clock and of the random
  source count as an error of the call they stop.

## Where the code differs from what one would expect

- `merge_service_history`: the percentages are not always within rounding of the usage
  growth. When two collected samples share a timestamp the growth between them is dropped.
  `RoundingBoundExactlyWhenTimesIncrease` gives the exact condition.
- The merge forgets a service that is missing from one round (`ServesOwnPolls`).
- `trim_sessions` drops the rows with the earliest issue time, which may be the row just
  inserted. Behind the login limiter, whose limit is at most 60 a minute, and under a clock
  that does not run backwards it never is (`LimitedLoginKeepsSession`), so an enrolment stores
  account, codes and session together (`LimitedEnrolmentIsTogether`). The wall clock can be
  set back, though: when the table is full of rows from later seconds the new session is
  surely lost (`RowLostExactlyWhenAllLater`, `ClockSetBackLosesSession`).
- When the directory sync fails after the rename, `verify` reports an error and the code is no
  longer listed. It is not used up for good: a crash may bring the old file back, and then the
  code can succeed (`FailedSyncThenSuccess`), unless a sync succeeded first
  (`FailedSyncNeedsCrash`, `CanSucceedExactlyWhileDurable`).
- `queue_depth` can exceed the capacity for a moment (`DepthCanExceedCapacity`), by a bounded
  number (`DepthTracksChannel`).
- When a hundred times the busy time does not fit 64 bits the collector understates CPU usage
  (`AgreeExactlyWhileProductFits`, `SaturationUnderstates`); it never overstates it.

## Model

| member | source | states |
|---|---|---|
| `FileSystem.UnlinksArePermutedNames` | tools/vpsguard_harness/build_artifacts.py:353-357 | Deleting a tree unlinks exactly the names scanning it visits, each as often |
| `FileSystem.NamesAreAllPaths` | tools/vpsguard_harness/build_artifacts.py:276-315 | The names a scan visits are those of all paths in the tree, the top included |
| `FileSystem.RemovalFrees` | tools/vpsguard_harness/build_artifacts.py:231-237 | Removing names lowers disk usage by exactly the bytes of the inodes whose last name went |
| `BuildArtifacts.AutomaticIsRegenerable` | tools/vpsguard_harness/build_artifacts.py:264-273 | What automatic cleanup takes, full cleanup takes too; a preserved entry is taken by neither |
| `BuildArtifacts.TripleIsJoinedWords` | tools/vpsguard_harness/build_artifacts.py:264-269 | A target triple is three or more words of letters, digits and underscores joined by single dashes |
| `BuildArtifacts.FullCleanupTakes` | tools/vpsguard_harness/build_artifacts.py:264-269 | Full cleanup takes exactly the ten listed names, run directories and target triples |
| `BuildArtifacts.AutomaticCleanupTakes` | tools/vpsguard_harness/build_artifacts.py:272-273 | Automatic cleanup takes exactly the five listed names and run directories |
| `BuildArtifacts.CleanupPreserves` | tools/vpsguard_harness/build_artifacts.py:207-230 | Either cleanup preserves exactly the three listed entries |
| `BuildArtifacts.Scan.Record` | tools/vpsguard_harness/build_artifacts.py:291-301 | One more name of an inode raises its occurrence count and adds the category, and its metadata is read once; all other inodes stay as they were |
| `BuildArtifacts.Scan.ScanPath` | tools/vpsguard_harness/build_artifacts.py:276-315 | A scan adds every name below the tree under the given category, and fails exactly when some part of the tree cannot be read |
| `BuildArtifacts.ScanExtends` | tools/vpsguard_harness/build_artifacts.py:221-230 | Scanning one more entry turns the table of the earlier entries into the table of all of them |
| `BuildArtifacts.CategoriesPartitionNames` | tools/vpsguard_harness/build_artifacts.py:208-230 | Every scanned name is counted in exactly one of the three categories |
| `BuildArtifacts.ReclaimableLosesLastName` | tools/vpsguard_harness/build_artifacts.py:231-237 | An inode is counted as reclaimable if and only if deleting the candidates removes its last name anywhere on the file system |
| `BuildArtifacts.PredictionExact` | tools/vpsguard_harness/build_artifacts.py:231-237 | `reclaimable_bytes` is what deleting the candidates frees, and `target_bytes` less it is the allocation of the scanned inodes that survive, for any hard links inside and outside `target` |
| `BuildArtifacts.PartialDeletion` | tools/vpsguard_harness/build_artifacts.py:239-251 | However early deletion stops, it frees no more than predicted and leaves every name of a preserved or skipped entry |
| `BuildArtifacts.AutomaticFreesNoMore` | tools/vpsguard_harness/build_artifacts.py:156-183 | Automatic cleanup never frees more than full cleanup of the same tree |
| `BuildCleanup.BytesOf` | tools/vpsguard_harness/build_artifacts.py:231-237 | The summing loop computes the allocation of the chosen inodes |
| `BuildCleanup.Repository.ScanEntries` | tools/vpsguard_harness/build_artifacts.py:221-230 | The scan of all entries succeeds exactly when all are readable, and its table counts every name |
| `BuildCleanup.Repository.Remove` | tools/vpsguard_harness/build_artifacts.py:353-357 | Removing a tree unlinks its names in order, or the longest prefix the operating system allows |
| `BuildCleanup.Repository.RemoveCandidates` | tools/vpsguard_harness/build_artifacts.py:239-251 | Removal unlinks candidate names only, in order, and succeeds exactly when it reaches the last |
| `BuildCleanup.Repository.Plan` | tools/vpsguard_harness/build_artifacts.py:207-237 | The summary computed from the table is accurate about the file system before and after |
| `BuildCleanup.Repository.Clean` | tools/vpsguard_harness/build_artifacts.py:186-261 | Every outcome of a cleanup: absent, not a real directory, unreadable, locked, stopped half-way, done; no lock stays held, and a finished one reports true byte counts |
| `BuildCleanup.Repository.AutoClean` | tools/vpsguard_harness/build_artifacts.py:156-183 | Every outcome: an error for the threshold exactly when it is not positive, otherwise the outcome of the automatic cleanup; `projected_bytes` is what survives on disk and the warning compares exactly that |
| `CargoLocks.Locks.Hold` | tools/vpsguard_harness/build_artifacts.py:323-350 | Takes all locks or none; on failure nothing stays locked, and the result says why the first obstacle could not be locked |
| `CargoLocks.Locks.Release` | tools/vpsguard_harness/build_artifacts.py:346-350 | Releasing leaves nothing locked |
| `SessionTable.OldestExists` | crates/guard-control/src/auth_store.rs:338-354 | A table over the limit has a row no younger than any other |
| `SessionTable.TrimSessions` | crates/guard-control/src/auth_store.rs:338-354 | Trimming leaves at most 128 rows and drops none younger than a row it keeps |
| `SessionTable.RowStaysExactlyWithRoom` | crates/guard-control/src/auth_store.rs:338-354 | An inserted row is sure to survive trimming if and only if there are fewer than 128 rows or one was issued in an earlier second; otherwise the table may be left as it was |
| `SessionTable.RowLostExactlyWhenAllLater` | crates/guard-control/src/auth_store.rs:338-354 | An inserted row is sure to be dropped if and only if the table holds 128 rows, all issued in later seconds |
| `SessionTable.StoreCodes` | crates/guard-control/src/auth_store.rs:153-160 | The insertion loop stores all codes unused, or fails exactly when a key repeats |
| `SessionTable.AuthRepository.IsConfigured` | crates/guard-control/src/auth_store.rs:97-104 | Reports whether there is an account, or a storage error |
| `SessionTable.AuthRepository.CreateInitialAdminAndSession` | crates/guard-control/src/auth_store.rs:123-165 | Commits account, codes and first session together, or changes nothing, with the reason |
| `SessionTable.AuthRepository.ConsumeRecoveryCodeAndInsertSession` | crates/guard-control/src/auth_store.rs:193-219 | Uses one unused code and inserts the session it pays for, or changes nothing |
| `SessionTable.AuthRepository.InsertSession` | crates/guard-control/src/auth_store.rs:222-236 | Expired rows go, the new row comes, the limit holds; a storage error changes nothing |
| `SessionTable.AuthRepository.FindSession` | crates/guard-control/src/auth_store.rs:239-264 | Returns the unexpired row of a digest, deleting expired rows; an error may come before or after the deletion |
| `SessionTable.AuthRepository.DeleteSession` | crates/guard-control/src/auth_store.rs:267-272 | Removes that row only and says whether it was there; an error changes nothing |
| `SessionTable.AuthRepository.DeleteActorSessions` | crates/guard-control/src/auth_store.rs:275-281 | Removes the rows of that actor only and counts them; an error changes nothing |
| `SessionHistory.TableRefinesHistory` | crates/guard-control/src/auth_store.rs:222-281 | For every run under a clock that does not run backwards, an unexpired row is in the table if and only if it was issued and since then neither logged out, revoked nor evicted |
| `SessionHistory.FoundExactlyWhenAlive` | crates/guard-control/src/auth_store.rs:239-264 | A lookup finds a session if and only if the history says it is good |
| `SessionHistory.TableBounded` | crates/guard-control/src/auth_store.rs:338-354 | No run takes the table above 128 rows |
| `SessionHistory.EvictsAtMostOne` | crates/guard-control/src/auth_store.rs:338-375 | Each insertion evicts at most one row, and none younger than a survivor |
| `Cookies.EntryValue` | crates/guard-control/src/auth.rs:1132-1137 | A printed cookie pair, with or without a leading blank, yields its own value exactly for the two session names |
| `Cookies.HeaderYieldsFirstSession` | crates/guard-control/src/auth.rs:1132-1137 | Parsing a cookie string yields the first session cookie in it and nothing else |
| `Cookies.CookieRoundTrip` | crates/guard-control/src/auth.rs:1103-1137 | The cookie printed at issue is parsed back to the same token among any cookies of other names before it and any cookies after it |
| `Cookies.CookieAttributes` | crates/guard-control/src/auth.rs:1103-1123 | The name and attributes of both cookies: twelve hours or none, every path, hidden from scripts, kept to the site, and bound to host and TLS when secure |
| `Cookies.ExpiredCookieReplacesIssued` | crates/guard-control/src/auth.rs:1103-1123 | The cookie printed at logout overwrites the one printed at issue and holds no token |
| `SessionStore.Store.IssueSession` | crates/guard-control/src/auth.rs:832-880 | Inserts one row for a fresh token and returns its cookie text and CSRF token; a storage error changes nothing |
| `SessionStore.Store.AuthenticateRequest` | crates/guard-control/src/auth.rs:733-753 | Answers as the specification function does on the state before, or a storage error, and says what is left of the table |
| `SessionStore.Store.AuthorizeRequest` | crates/guard-control/src/auth.rs:756-782 | Answers as the specification function does, or a storage error; a missing cookie or CSRF header does not touch the table |
| `SessionStore.Store.ResumeRequest` | crates/guard-control/src/auth.rs:785-806 | Answers as the specification function does, with the CSRF token derived from the cookie, or a storage error |
| `SessionStore.Store.Logout` | crates/guard-control/src/auth.rs:809-820 | Removes the row of the cookie and no other and returns the text that expires the cookie; an error changes nothing |
| `SessionStore.Store.RevokeAll` | crates/guard-control/src/auth.rs:823-830 | Removes every row of the cookie's actor and no other, and counts them; a refused or failing request removes expired rows at most |
| `SessionStore.CsrfAcceptedExactlyFromResume` | crates/guard-control/src/auth.rs:756-806 | `authorize` accepts the CSRF token that `resume` returns and no other |
| `SessionStore.CsrfTokensDiffer` | crates/guard-control/src/auth.rs:1081-1101 | `authorize` refuses the CSRF token of one session with the cookie of any other |
| `SessionStore.IssuedCookieWorks` | crates/guard-control/src/auth.rs:832-880 | From issue to use: the printed cookie, sent back among others, resumes and authorizes its own session while the row lives |
| `AuthRuns.StepKeepsAccount` | crates/guard-control/src/auth.rs:543-626 | Every step keeps: no account means no codes and break-glass sessions only |
| `AuthRuns.StepKeepsCodes` | crates/guard-control/src/auth_store.rs:193-219 | Every step keeps the account of used and unused codes |
| `AuthRuns.RowOrigin` | crates/guard-control/src/auth_store.rs:222-281 | Every row after a step was there before or is the one the step issued |
| `AuthRuns.StepKeepsGenuine` | crates/guard-control/src/auth.rs:858-880 | Every step keeps each row's CSRF digest derived from that row's own token |
| `AuthRuns.RunKeepsInv` | crates/guard-control/src/auth.rs:543-806 | The invariant holds in every state of every interleaved run |
| `AuthExecution.Perform` | crates/guard-control/src/auth_store.rs:97-281 | Every step of the interleaved runs is what the repository call it stands for does |
| `AuthRuns.EnrolsAtMostOnce` | crates/guard-control/src/auth_store.rs:123-165 | Over every interleaving the initial administrator commits at most once, and before it there are no codes and no sessions but break-glass ones |
| `AuthRuns.RecoveryCodesConserved` | crates/guard-control/src/auth_store.rs:193-219 | Unused codes plus committed recovery logins is always the number of codes stored, and no code pays twice |
| `AuthSessions.StepIsTableChange` | crates/guard-control/src/auth.rs:543-830 | Each step changes the session table as its own history entry says |
| `AuthSessions.RunIsSessionHistory` | crates/guard-control/src/auth.rs:543-830 | Step by step, the tables of an interleaved run are the run of the issues, lookups, logouts and revocations its steps make |
| `AuthSessions.SessionsBounded` | crates/guard-control/src/auth_store.rs:338-354 | No interleaved run holds more than 128 sessions |
| `AuthSessions.GoodIsFound` | crates/guard-control/src/auth_store.rs:239-264 | A session issued by a step and undisturbed since is found |
| `AuthSessions.FoundIsGood` | crates/guard-control/src/auth_store.rs:239-264 | A session that is found was issued by some step and is undisturbed since |
| `AuthSessions.ResumesExactlyWhileGood` | crates/guard-control/src/auth.rs:785-880 | Over every interleaving, the printed cookie of a token, sent among others, resumes a session if and only if some step committed that token under twelve hours ago and since then no logout of it, no revocation of its actor and no eviction; and it resumes that actor and method with the time left of the twelve hours |
| `AuthSessions.GrantedStaysExactlyWithRoom` | crates/guard-control/src/auth_store.rs:123-236 | In every reachable state the session of a committed login or enrolment is sure to stay if and only if the table has fewer than 128 rows or one of an earlier second |
| `AuthSessions.EnrolsAllOrNothing` | crates/guard-control/src/auth_store.rs:123-165 | An enrolment changes nothing or commits account and exactly the given codes, and is sure to commit the session with them if and only if the table has room |
| `AuthSessions.RowIssuedBy` | crates/guard-control/src/auth_store.rs:356-375 | Every row goes back to a step that issued it at the time it says |
| `AuthSessions.GrantedStays` | crates/guard-control/src/auth_store.rs:123-236 | Over every interleaving under a clock that does not run backwards, a committed login or enrolment leaves its session in the table unless 128 others set out to issue in the same second |
| `AuthSessions.EnrolsTogetherOrNothing` | crates/guard-control/src/auth_store.rs:123-165 | Under the same premises an enrolment stores account, codes and session all together or nothing |
| `AuthSessions.ClockSetBackLosesSession` | crates/guard-control/src/auth_store.rs:338-354 | A run of one break-glass login a minute after which the clock is set back: the enrolment commits and in every outcome its session is gone |
| `IssueRate.SecondWithinTwoWindows` | crates/guard-control/src/auth.rs:340-375 | When every issuing request was admitted by the limiter, a second sees at most twice the limit of them |
| `IssueRate.LimitedLoginKeepsSession` | crates/guard-control/src/api.rs:1331-1372 | Behind the limiter and under a clock that does not run backwards, every committed login and enrolment leaves its session in the table |
| `IssueRate.LimitedEnrolmentIsTogether` | crates/guard-control/src/api.rs:1292-1329 | Behind the limiter an enrolment stores account, codes and session all together or nothing |
| `AuthSessions.EntryPointsAgree` | crates/guard-control/src/auth.rs:733-806 | In every reachable state `authenticate`, `resume` and `authorize` with a CSRF token agree on the identity, and exactly one CSRF token is accepted |
| `AuthSessions.ReadingExists` | crates/guard-control/src/auth.rs:733-742 | A pending `authenticate` goes back to the last reading of `setup_required` its thread made |
| `AuthSessions.SplitDiffersOnlyIfGuessed` | crates/guard-control/src/auth.rs:733-753 | An `authenticate` whose answer is not that of `resume` was given a cookie before its session was drawn, with the enrolment in between |
| `AuthSessions.SplitAuthenticateAgrees` | crates/guard-control/src/auth.rs:733-753 | With any requests between its two calls `authenticate` answers as `resume` would for the same cookie header at the second, given that no cookie is presented before its token is drawn |
| `AuthSessions.HeldCookieIsNotRefused` | crates/guard-control/src/auth.rs:733-753 | A cookie whose session existed at the first call gets the answer of `resume` at the second, fresh tokens or not |
| `AuthSessions.GuessedTokenIsRefused` | crates/guard-control/src/auth.rs:733-753 | A run that shows what fresh tokens are needed for: a cookie presented before its token is drawn is refused |
| `LoginCodes.BootstrapStore.IssueCode` | crates/guard-control/src/auth.rs:121-131 | A new code replaces the old one |
| `LoginCodes.BootstrapStore.ConsumeAt` | crates/guard-control/src/auth.rs:139-158 | Accepts what the slot accepts, which under a clock that does not run backwards is exactly the pending code of the history, once |
| `LoginCodes.OccupiedMeansPending` | crates/guard-control/src/auth.rs:121-158 | What the slot holds was issued and has been neither replaced nor presented since |
| `LoginCodes.PendingIsHeld` | crates/guard-control/src/auth.rs:121-158 | A pending code survives any number of wrong guesses |
| `LoginCodes.AcceptsExactlyPending` | crates/guard-control/src/auth.rs:121-158 | A candidate is accepted if and only if it is the last code issued, unexpired and not presented since |
| `LoginCodes.AcceptedWithinIssued` | crates/guard-control/src/auth.rs:121-158 | Under any clock, acceptances plus the waiting code never exceed the codes issued |
| `LoginLimiter.LoginRateLimiter.AllowAt` | crates/guard-control/src/auth.rs:359-375 | One call pops expired admissions and decides by the deque left |
| `LoginLimiter.LoginRateLimiter.Serve` | crates/guard-control/src/auth.rs:355-375 | A sequence of calls yields the decisions of the deque function |
| `LoginLimiter.DequeDecidesAsCount` | crates/guard-control/src/auth.rs:359-375 | For every nondecreasing call sequence the deque decides as counting all admissions under sixty seconds old |
| `LoginLimiter.RefusesOnlyWhenFull` | crates/guard-control/src/auth.rs:359-375 | A refusal means `limit` admissions are under sixty seconds old |
| `LoginLimiter.NoWindowExceedsLimit` | crates/guard-control/src/auth.rs:340-375 | No half-open sixty-second window holds more than `limit` admissions |
| `RecoveryCodes.NormalizesExactlySpellings` | crates/guard-control/src/pam_mfa.rs:431-440 | A text is accepted as a code if and only if it spells that code: each digit itself or its lower-case letter, with dashes and ASCII white space skipped |
| `RecoveryCodes.DisplaySpells` | crates/guard-control/src/pam_mfa.rs:412-429 | The grouped display spells the code |
| `RecoveryCodes.HexInjective` | crates/guard-control/src/pam_mfa.rs:412-429 | Different random bytes print different codes |
| `RecoveryCodes.HexSpellsBytes` | crates/guard-control/src/pam_mfa.rs:412-429 | Each byte is printed as its high and then its low hexadecimal digit |
| `RecoveryCodes.DisplayShape` | crates/guard-control/src/pam_mfa.rs:412-429 | A shown code is four groups of eight digits with single dashes between them |
| `RecoveryCodes.PrintedCodeReadsBack` | crates/guard-control/src/pam_mfa.rs:412-440 | A printed code is read back as itself from every spelling |
| `PamMfa.WithoutRemovesOne` | crates/guard-control/src/pam_mfa.rs:260-302 | Taking a code out leaves every other code as often as before |
| `PamMfa.ShownCodesAreStored` | crates/guard-control/src/pam_mfa.rs:197-257 | The stored digests are those of the shown codes, in order |
| `PamMfa.TotpShapeExactly` | crates/guard-control/src/pam_mfa.rs:442-444 | A TOTP is six decimal digits |
| `PamMfa.ValidUsernameExactly` | crates/guard-control/src/pam_mfa.rs:446-456 | A user name is 3 to 32 letters, digits, dots, underscores and dashes that begins with a letter or digit |
| `PamMfa.ConfirmsForTenMinutes` | crates/guard-control/src/pam_mfa.rs:163-220 | A started enrolment can be confirmed for ten minutes |
| `PamMfa.PamMfaManager.StartEnrollment` | crates/guard-control/src/pam_mfa.rs:163-194 | Refuses an enrolled user and replaces any pending enrolment otherwise; every error leaves the pending enrolment, and the file is untouched |
| `PamMfa.PamMfaManager.ConfirmEnrollment` | crates/guard-control/src/pam_mfa.rs:197-257 | Shows the codes exactly when the request confirms in time and the credential is durably stored; says what file and pending slot hold on every error |
| `PamMfa.PamMfaManager.Verify` | crates/guard-control/src/pam_mfa.rs:260-302 | Accepts a TOTP without writing, accepts a listed recovery code exactly when its removal is durable, and says what the file holds in every case |
| `PamMfa.EverySpellingUsesTheCode` | crates/guard-control/src/pam_mfa.rs:260-302 | Any spelling of a shown code is accepted while the code is unused and the write succeeds, and refused after |
| `PamMfa.UsingACodeLeavesTheOthers` | crates/guard-control/src/pam_mfa.rs:260-302 | A used code is gone; every other code and the sealed seed are as before |
| `PamRuns.RenameTakesOne` | crates/guard-control/src/pam_mfa.rs:537-565 | The rename takes exactly one code out of the file |
| `PamRuns.StepKeepsInv` | crates/guard-control/src/pam_mfa.rs:260-302 | Every step of every thread keeps the gate, the files, the count of codes and the trace of what was typed |
| `PamRuns.RunKeepsInv` | crates/guard-control/src/pam_mfa.rs:260-302 | The invariant holds over every interleaving, write fault and crash |
| `PamRuns.SoloCallIsVerify` | crates/guard-control/src/pam_mfa.rs:260-302 | A call that meets no other does what the sequential `verify` does, for any text |
| `PamRuns.SucceedsAtMostAsEnrolled` | crates/guard-control/src/pam_mfa.rs:260-302 | A code succeeds no more often than it was enrolled, whatever interleaves or fails |
| `PamRuns.CodesFallOnlyByTheirOwnUse` | crates/guard-control/src/pam_mfa.rs:260-302 | A code is listed as often as enrolled except for renames that used that very code, each of which goes back to a call that typed it; no run changes a seed |
| `PamRuns.UnusedCodeIsTaken` | crates/guard-control/src/pam_mfa.rs:260-302 | Over every interleaving, fault and crash, a shown code not yet taken out of the file is taken by the next call that reads a spelling of it |
| `PamRuns.ShownCodeSucceedsAtMostOnce` | crates/guard-control/src/pam_mfa.rs:197-302 | Of all successful answers over any interleaving, write faults and crashes, at most one typed a spelling of a given shown code |
| `PamCrashes.GoneCannotSucceed` | crates/guard-control/src/pam_mfa.rs:537-565 | From a state where a code is not durably listed no run accepts it again |
| `PamCrashes.CanSucceedExactlyWhileDurable` | crates/guard-control/src/pam_mfa.rs:537-565 | In every reachable state a code can still succeed if and only if it is durably listed |
| `PamCrashes.FailedSyncNeedsCrash` | crates/guard-control/src/pam_mfa.rs:537-565 | A code whose directory sync failed succeeds later only if a crash restores the old file before any sync succeeds |
| `PamCrashes.RestoredCodeCanSucceed` | crates/guard-control/src/pam_mfa.rs:537-565 | After such a crash it can |
| `PamCrashes.FailedSyncThenSuccess` | crates/guard-control/src/pam_mfa.rs:537-565 | A run in which the sync fails, a crash follows and the same code then succeeds |
| `NotificationQueue.TrySendKeepsInv` | crates/guard-control/src/notification.rs:140-174 | Trying the channel keeps depth, drops, order and capacity accounted for |
| `NotificationQueue.TaskStepKeepsInv` | crates/guard-control/src/notification.rs:394-399 | Replay and worker steps keep them too |
| `NotificationQueue.ReachableInv` | crates/guard-control/src/notification.rs:126-174 | The invariant holds in every reachable state, with `queue_depth` exact |
| `NotificationQueue.LoweringNeverSaturates` | crates/guard-control/src/notification.rs:516-520 | The saturating decrement never meets zero |
| `NotificationQueue.DepthTracksChannel` | crates/guard-control/src/notification.rs:126-174 | `queue_depth` is the channel length plus everyone between a counter change and its channel operation, so it can pass the capacity only by these |
| `NotificationQueue.DepthCanExceedCapacity` | crates/guard-control/src/notification.rs:140-174 | A reachable state in which `queue_depth` is above the capacity |
| `NotificationQueue.RunFillsSlots` | crates/guard-control/src/notification.rs:140-174 | Over every run the events put in the channel are those of settled calls and the replayed prefix |
| `NotificationQueue.RunOffers` | crates/guard-control/src/notification.rs:126-174 | The offers are the notifying calls whose registration does not decline |
| `NotificationQueue.RunDrops` | crates/guard-control/src/notification.rs:126-174 | A call whose registration fails, or that has no channel, is a counted drop |
| `NotificationQueue.EveryOfferSettledOnce` | crates/guard-control/src/notification.rs:126-174 | Each eligible `enqueue` of the run ends in exactly one channel slot or one counted drop: received, waiting and abandoned events are the offers without the drops plus the replayed ones |
| `NotificationQueue.ReceivedInOrder` | crates/guard-control/src/notification.rs:522-545 | Events are received in the order they were accepted and none is lost in the channel |
| `NotificationDelivery.NotificationStore.Register` | crates/guard-control/src/storage.rs:1264-1288 | Creates a pending row unless there is one, and reports whether it may still be sent; an error may come before or after the insertion |
| `NotificationDelivery.NotificationStore.Begin` | crates/guard-control/src/storage.rs:1291-1309 | Counts the attempt in the row and returns its number |
| `NotificationDelivery.NotificationStore.Record` | crates/guard-control/src/storage.rs:1312-1346 | Stores the outcome of an attempt in that row and no other |
| `NotificationDelivery.NotificationWorker.Attempt` | crates/guard-control/src/notification.rs:414-488 | One turn of the loop: the row, send and sleep it adds, and whether another turn follows |
| `NotificationDelivery.NotificationWorker.Deliver` | crates/guard-control/src/notification.rs:401-490 | The retry loop terminates and leaves the row, sends and sleep of the recursive specification; other rows are untouched |
| `NotificationDelivery.MultiplierSumClosedForm` | crates/guard-control/src/notification.rs:462-463 | The multipliers sum to 2^n - 1 up to eleven attempts and 2047 + 1024 (n - 11) beyond |
| `NotificationDelivery.SendsWithinRemainingAttempts` | crates/guard-control/src/notification.rs:401-490 | At most one send per remaining attempt, each of them persisted |
| `NotificationDelivery.EndsAfterFirst` | crates/guard-control/src/notification.rs:415-488 | The loop ends with the first turn that faults, fails to record, is accepted, is the last attempt or is refused for good; HTTP 408, 429 and 500 to 599 are retried |
| `NotificationDelivery.AttemptsExactly` | crates/guard-control/src/notification.rs:415-488 | Exactly how often the loop sends, how long it sleeps and what row it leaves |
| `NotificationDelivery.FaultlessDeliveryFinishes` | crates/guard-control/src/notification.rs:401-490 | Without storage faults an open event is sent until it is delivered or given up |
| `NotificationDelivery.DeliversExactlyWhenOpen` | crates/guard-control/src/notification.rs:401-414 | A delivery runs the loop exactly for an event that is registered, not finished and has attempts left |
| `NotificationDelivery.StatusTellsLastSend` | crates/guard-control/src/notification.rs:372-381 | The row is delivered if and only if the last send was accepted and recorded, and failed if and only if it was refused, recorded and out of attempts or not retryable |
| `NotificationDelivery.SleepBounded` | crates/guard-control/src/notification.rs:462-463 | The sleep fits the attempts still to come |
| `NotificationDelivery.DeliveryBounded` | crates/guard-control/src/notification.rs:401-490 | At most `max_attempts` sends, and total sleep at most the closed form times the initial backoff |
| `NotificationDelivery.TotalSendsBounded` | crates/guard-control/src/notification.rs:401-490 | Across any number of restarts an event is sent at most once per attempt left to it |
| `NotificationDelivery.FinishedIsNeverSentAgain` | crates/guard-control/src/storage.rs:1264-1288 | A delivered or given-up event is never sent again |
| `ServiceHistory.ByName` | crates/guard-agent/src/services.rs:280-289 | The lookup table finds the last entry of each name |
| `ServiceHistory.NamedIsLast` | crates/guard-agent/src/services.rs:286-289 | The lookup finds the last entry of a name, if there is one |
| `ServiceHistory.MergeOne` | crates/guard-agent/src/services.rs:290-326 | One entry updated field by field is the specified merge |
| `ServiceHistory.MergeServiceHistory` | crates/guard-agent/src/services.rs:280-326 | Every entry is merged in place with its namesake |
| `ServiceHistory.ServesPollItself` | crates/guard-agent/src/services.rs:290-326 | Name, error, unit and partial states served are the last poll's own, and a live poll is served as it is but for the usage |
| `ServiceHistory.UsageOnNumbers` | crates/guard-agent/src/services.rs:294-305 | The usage on the numbers, with both saturations |
| `ServiceHistory.ServesOwnPolls` | crates/guard-agent/src/services.rs:280-326 | A service is served as the fold of its own polls since it was last missing from a round |
| `ServiceHistory.KeepsAnchorTimes` | crates/guard-agent/src/services.rs:306-326 | Collection and success times are those of the last live poll, or the first poll if none |
| `ServiceHistory.StaleExactlyByAge` | crates/guard-agent/src/services.rs:306-326 | A service that is not live is Stale exactly when `stale_after` has passed since that time, or it is zero; without a time always |
| `ServiceHistory.StalePersists` | crates/guard-agent/src/services.rs:306-326 | Under a nondecreasing clock Stale lasts until the next live poll |
| `ServiceHistory.KeepsLastSemantic` | crates/guard-agent/src/services.rs:306-326 | Semantic values are those of the last poll that had any or was live |
| `ServiceHistory.KeepsLastResources` | crates/guard-agent/src/services.rs:306-326 | Resource counters are those of the last poll that had any or was live |
| `ServiceHistory.UsageAgainstLastCollected` | crates/guard-agent/src/services.rs:290-305 | Each usage is measured against the last sample actually collected; a live poll without a sample starts afresh |
| `ServiceCpu.Telescopes` | crates/guard-agent/src/services.rs:290-305 | Percentages times elapsed time add up to a hundred times the usage growth seen, short by less than the elapsed time |
| `ServiceCpu.RepeatedTimeLosesUsage` | crates/guard-agent/src/services.rs:290-305 | For any times with a repetition there is a run that breaks the lower bound |
| `ServiceCpu.RoundingBoundExactlyWhenTimesIncrease` | crates/guard-agent/src/services.rs:290-305 | The lower bound holds for every counter run at given times if and only if no two consecutive times are equal |
| `ServiceCpu.ServedUsageTelescopes` | crates/guard-agent/src/services.rs:280-326 | The bound holds of the percentages served over any polls with gaps |
| `CpuUsage.SaturatingSumIsMin` | crates/guard-agent/src/os.rs:135-156 | Folding saturating additions is the true sum cut off at 64 bits |
| `CpuUsage.TimesAreCutOff` | crates/guard-agent/src/os.rs:135-156 | The collector's totals are the probe's cut off at 64 bits, and idle is part of total |
| `CpuUsage.TimesOnFields` | tools/vm/host_pressure_support.py:383-389 | Total and idle time on the first eight fields |
| `CpuUsage.TimesOnFewFields` | tools/vm/host_pressure_support.py:383-389 | Total and idle time on four fields, and no reading on fewer |
| `CpuUsage.PercentOnNumbers` | tools/vm/host_pressure_support.py:171-180 | The percentage is the floor of the busy share |
| `CpuUsage.CollectorNeverOverstates` | crates/guard-agent/src/os.rs:177-187 | Whatever saturates, the collector reports at most the true percentage and at most 100 |
| `CpuUsage.CollectorAgreesWithProbe` | tools/vm/host_pressure_support.py:171-180 | Where nothing saturates collector and probe return the same optional percentage |
| `CpuUsage.SaturationUnderstates` | crates/guard-agent/src/os.rs:177-187 | For every busy time beyond the bound, two readings where the probe reports 100 and the collector less |
| `CpuUsage.AgreeExactlyWhileProductFits` | crates/guard-agent/src/os.rs:177-187 | Among readings whose sums fit 64 bits, collector and probe agree on every interval with a given busy time if and only if a hundred times it fits |
| `ModeTimeline.IndexFrom` | tools/vm/host_pressure_support.py:216-224 | The search loop finds the first match at or after a position |
| `ModeTimeline.GreedySound` | tools/vm/host_pressure_support.py:216-224 | What the greedy search finds carries the pattern at increasing positions |
| `ModeTimeline.GreedyEarliest` | tools/vm/host_pressure_support.py:216-224 | If any positions carry the pattern, the greedy search finds some no later |
| `ModeTimeline.CollapseKeepsSubsequences` | tools/vm/host_pressure_support.py:268-271 | Collapsing repeats keeps exactly the subsequences without equal neighbours |
| `ModeTimeline.SearchDecides` | tools/vm/host_pressure_support.py:214-224 | The search succeeds if and only if the pattern occurs, before and after collapsing |
| `ModeTimeline.Transitions` | tools/vm/host_pressure_support.py:268-271 | The loop computes the collapsed timeline |
| `ModeTimeline.SummarizeModes` | tools/vm/host_pressure_support.py:214-277 | The mode search succeeds exactly when the five modes occur in order; the reported transitions have no equal neighbours and still contain them |
| `Availability.ProbeAvailability.Observe` | tools/vpsguard_harness/release_endurance_model.py:43-61 | One sample takes the fields to the fold of the longer history |
| `Availability.ProbeAvailability.Finish` | tools/vpsguard_harness/release_endurance_model.py:63-81 | Reports the summary and changes no field |
| `Availability.CountsPartition` | tools/vpsguard_harness/release_endurance_model.py:43-61 | Successes and failures partition the samples, and the status table counts each status |
| `Availability.OpenOutage` | tools/vpsguard_harness/release_endurance_model.py:43-61 | The open outage is the failing run at the end of the history |
| `Availability.ClosedOutages` | tools/vpsguard_harness/release_endurance_model.py:43-61 | The recorded maximum is the longest closed failing run |
| `Availability.FinishReportsLongestOutage` | tools/vpsguard_harness/release_endurance_model.py:63-81 | The report is the maximum over all maximal failing runs, from first failure start to next success or the finish time |
| `Availability.NoFailureNoOutage` | tools/vpsguard_harness/release_endurance_model.py:63-81 | Without failures the outage is zero |
| `ProbeTimeline.HealthySuffixCounts` | tools/vpsguard_harness/release_endurance_probe.py:174-191 | The all-success suffix is at least n long exactly when the last n samples succeeded |
| `ProbeTimeline.Timeline.Record` | tools/vpsguard_harness/release_endurance_probe.py:174-191 | The counter stays the length of the all-success suffix |
| `ProbeTimeline.Timeline.Check` | tools/vpsguard_harness/release_endurance_probe.py:96-100 | Says whether the last three samples succeeded and came after the mark |
| `ProbeTimeline.Timeline.Turn` | tools/vpsguard_harness/release_endurance_probe.py:88-102 | Deadline first, then the probe's error, then the check |
| `ProbeTimeline.Timeline.WaitHealthy` | tools/vpsguard_harness/release_endurance_probe.py:88-102 | Returns ready only in a healthy state and at the first turn that finds one, and otherwise says why it stopped |
| `ProbeTimeline.Timeline.CurrentMaxOutageMs` | tools/vpsguard_harness/release_endurance_probe.py:104-109 | Reading mid-run gives the longest outage so far and changes nothing |
| `ProbeTimeline.PositiveExactlyWhenNoOpenOutage` | tools/vpsguard_harness/release_endurance_model.py:43-61 | The counter is positive exactly when samples exist and no outage is open |
| `FirewallPlans.FirewallManager.MakePlan` | crates/guard-control/src/firewall.rs:120-134 | Appends one plan with a new id, dropping the oldest of 32 |
| `FirewallPlans.FirewallManager.Apply` | crates/guard-control/src/firewall.rs:136-151 | Takes the plan off the queue before handing it over; refused ids and modes change nothing |
| `FirewallPlans.PendingBounded` | crates/guard-control/src/firewall.rs:120-134 | No run holds more than 32 plans |
| `FirewallPlans.SentAndPendingWithinPrepared` | crates/guard-control/src/firewall.rs:120-151 | A plan is sent or waits no more often than it was prepared |
| `FirewallPlans.SentAtMostOnce` | crates/guard-control/src/firewall.rs:136-151 | Each operation reaches the controller at most once even if applying fails |
| `FirewallPlans.RunSendsThePlan` | crates/guard-control/src/firewall.rs:136-151 | Running the id of a waiting plan hands that very plan to the controller next; running another id leaves it waiting |
| `FirewallPlans.SentExactlyWhenRunWaiting` | crates/guard-control/src/firewall.rs:136-151 | A plan reaches the controller if and only if its id is run while it waits |
| `FirewallPlans.StaysAvailable` | crates/guard-control/src/firewall.rs:120-151 | An unapplied plan stays available while fewer than 32 came after it |
| `FirewallPlans.RunInTimeIsSentOnce` | crates/guard-control/src/firewall.rs:120-151 | A plan whose id is run before 32 others were prepared after it is sent exactly once |
| `FirewallPlans.AvailableExactlyWithin32` | crates/guard-control/src/firewall.rs:120-134 | If nothing is applied it is available exactly that long |

## Left out

- Cryptography, TOTP arithmetic, random generation and base64: opaque functions or parameters.
- HTTP handlers, routing, event streams and idempotency in `api.rs`: plumbing around the operations modelled here.
- Password and username rules of local enrolment, and its pending slot in memory: single-branch checks; an enrolment step here is the committed transaction.
- PAM mode of `SessionStore`: the entry points are modelled in local mode, the PAM credential on its own.
- Interleavings of starting and confirming PAM enrolment: those two are serialized calls; concurrency is modelled for `verify`.
- `privileged.rs`, `pam_auth.rs`, `admin_socket.rs`: socket framing, peer credentials and foreign calls.
- The rest of `storage.rs`, including the notification summary shown in the status: only the notification rows are modelled.
- Restarts of the process in `IssueRate`: the limiter keeps its admissions in memory, so its bound is for one life of the process. `GrantedStays` needs no limiter.
- Overflow of the 64-bit depth and drop counters: they are unbounded here.
- Text parsing of `/proc/stat`, cgroup files and service status output: the models start from the numbers.
- ModeTimeline.SummarizeModes: the CPU and memory conditions that also decide success, because they are independent guards beside the mode search.
- Finding lock files by walking `target`: the paths are a parameter.
- Directory traversal races with other processes during a cleanup: the tree is fixed from scan to removal.
- VM orchestration, manifest loaders, path and URL validation, governance gates, `guard-cli` and `web/`.
