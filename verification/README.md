# Verification of the governance back end

A Dafny model of the parts of the back end whose behaviour is a guarantee rather than a form, and proofs of
those guarantees. Each module is one component; `Basics` holds what they share.

| module | component |
|---|---|
| `AuditChain`, `AuditProtocol` | the per-organization audit hash chain: how rows are signed, the verification walk, and any number of concurrent writers |
| `PiiTokens`, `PiiOverlap`, `PiiMapping`, `PiiRoundTrip` | reversible anonymisation: choosing among overlapping detections, numbering placeholders, putting values back |
| `TenantModules`, `Provisioning` | tier rules and module sets, and creating a tenant in six steps with rollback and an idempotency key |
| `BackupRetention`, `Calendar` | the daily/weekly/monthly policy applied again and again to its own output; weekdays and firsts of a month against the calendar |
| `Mfa`, `PasswordLockout` | second factor and password: lockout, replay protection, backup codes |
| `RateLimiter`, `SupportRequests` | the two sliding windows and their fallback; the limits on support requests with their Retry-After |
| `ProductionGate` | the three copies of the decision to go into production |

Conventions. Times are integers: microseconds, except in the rate limiter, where any unit does. A table is a sequence
of rows in the order of their ids, or a map or set where only the key counts. A request runs without interruption,
except where interleaving is the point: `AuditProtocol` and `Provisioning` are state machines over the steps of any
number of calls. What the database guarantees and the code relies on is part of the state machine, not proved: the row
lock on an organization, unique keys, and that a transaction that fails leaves no row. Operations that change state are
class methods; each is proved equal to a function on values, and the theorems about runs are about that function. No proof
relies on automatic induction.

The MAC is an arbitrary function of the signed text whose result is 64 hexadecimal digits. No injectivity is assumed:
a theorem that needs it says that the rows at hand would otherwise show two signed texts with one MAC.

## What turned out

The source and its own description, or the natural reading of it, part in these places. The model follows the code.

- Restoring an anonymised text does not always give the original: a placeholder-shaped token in the text that was kept
  is lost, and two entity types with one placeholder name (`PHONE_NUMBER` and `NL_PHONE`) overwrite each other's value.
  `PiiRoundTrip.RoundTripIff` and `PiiRoundTrip.RoundTripIffNamesAgree` give the exact conditions for each,
  `PiiRoundTrip.SharedNameLosesValue` a whole failing family.
- Putting values back can make a new placeholder-shaped token. Whether a mapping can ever do so is seen from each of its
  values alone (`PiiTokens.RestoresCleanIffApart`); an empty value or one of capital letters suffices
  (`PiiTokens.ValuesCanBuildTokens`).
- A failed provisioning call can leave its demo file behind: when writing the file fails after the file was created,
  the call has not noted it yet and does not remove it. `Provisioning.OrphanCause` says exactly when a file of a call
  that created nothing is on disk.
- Waiting out the Retry-After of a refused support request gets past the window that refused only when less than a
  second was left; otherwise the retry is refused again (`SupportRequests.RetryAfterPointsThere`).
- The report on readiness looks at the last approval row, the deployment check at the latest one. They agree for every
  user exactly when both rows are by one person or something else stands in the way (`ProductionGate.DeployAgreesIff`).
- A system can lose its conformity while it stays in production, by an update that withdraws it without naming a stage
  (`ProductionGate.ConformityWithdrawnIff`). The function that would roll such systems back for their risks is not
  called from anywhere (app/core/governance.py:5-60).
- The exported chain hash pins signed texts, not fields, because the fields are joined without separators
  (`AuditChain.FieldsAreNotPinned`).
- Adding the newest date to the backups to keep, on its own line, never changes the result (`BackupRetention.KeepBounds`).
- The overlap resolver returns spans in text order exactly when no empty candidate stands at the start of a kept one that
  ranks before it (`PiiOverlap.OrderedUnlessEmptyAtStart`, with `PiiOverlap.EmptySpansBreakOrder` as the smallest
  instance); whether a detector ever reports an empty span is outside the
  model.

## Model

| member | source | states |
|---|---|---|
| AuditChain.VerifyAuditChain | app/api/audit.py:86-155 | the walk answers "valid" when no row is at fault; otherwise it names the first faulty row in id order and why; its counters account for exactly the rows before it, split into hashed legacy, unhashed legacy and chain rows |
| AuditChain.VerdictUnique | app/api/audit.py:92-155 | the description of the right verdict leaves one answer for each log, counters included |
| AuditChain.ValidIffSound | app/api/audit.py:102-148 | "valid" is answered exactly for logs whose hashed legacy rows match and whose rows from the marker on link and match |
| AuditChain.UnverifiableCounted | app/api/audit.py:102-116 | the counters are the number of rows without a hash, and with one, among the rows read before the marker, and the number of chain rows read |
| AuditChain.MonthlyMismatches | scripts/monthly_report_data.py:193-197 | the monthly report counts no mismatch exactly when every row that carries a hash carries its own |
| AuditChain.SoundIsMonthlyPlusLinks | app/api/audit.py:121-146 | verification is the monthly report's check plus unbroken links and no missing hash from the marker on, so "valid" implies the report's "valid" |
| AuditChain.EditChangesText | app/core/audit.py:45-48 | changing any one of organization, entity type, entity id, action, details, actor and time of a row changes the text it is signed over; an absent text prints as "None" |
| AuditChain.EditDetected | app/api/audit.py:102-143 | in a log that verifies, editing one of these fields of one hashed row is answered "compromised" at that row with a mismatch of its hash, or a broken chain when the edit makes a legacy row with a predecessor the marker, unless the MAC gives both texts one signature |
| AuditChain.PreviousRecovered | app/core/audit.py:47 | the end of a signed text determines the previous hash it was made with: 64 hexadecimal digits cannot be mistaken for "None" |
| AuditChain.PinnedChain | app/api/audit.py:118-146 | two chains that verify and end in one hash have equal length and equal signed texts in every row, or exhibit a MAC collision |
| AuditChain.ExportPinsHistory | app/api/audit.py:158-188 | two logs that verify and export the same chain hash agree in every signed text from the marker on, or exhibit a collision |
| AuditChain.DeletionDetected | app/api/audit.py:118-146 | removing any rows strictly between the marker and the last row makes verification fail, short of a collision |
| AuditChain.NoFork | app/core/audit.py:75-79 | along a chain that verifies no two rows name one predecessor, short of a collision |
| AuditChain.FieldsAreNotPinned | app/core/audit.py:47 | for every MAC there are two marker rows with different details and actors, both verifying, with one hash |
| AuditProtocol.EveryRunVerifies | app/core/audit.py:66-122 | for every interleaving of any number of writers over any organizations, with aborts anywhere and gaps in ids, every organization's log is in id order, verifies, and is one chain without forks from its marker on |
| AuditProtocol.NextKeepsInv | app/core/audit.py:75-122 | lock, look, mark, read, write, commit and abort each keep what the run theorem rests on: one lock holder per organization, and pending rows that fit the committed ones |
| AuditProtocol.LegacyTable | app/core/audit.py:13-21 | a table of old rows without a marker, each unhashed or individually signed, is a correct start |
| AuditProtocol.CommitAppends | app/core/audit.py:111-122 | a commit appends the requested row, preceded at most by this organization's marker with no predecessor; an abort appends nothing |
| AuditProtocol.TableOnlyGrows | app/core/audit.py:61-62 | no step ever changes or removes a committed row |
| AuditProtocol.AuditSession.InsertLogRow | app/core/audit.py:45-63 | one more flushed row, signed over its own fields, nothing committed |
| AuditProtocol.AuditSession.CreateAuditLog | app/core/audit.py:66-122 | one call appends exactly the batch for the rows it finds: the marker when missing, then the request's row naming the last hash |
| AuditProtocol.BatchInFull | app/core/audit.py:45-122 | what a call writes, field by field: the marker first exactly when there was none, naming no predecessor; then the request's own texts and time, naming the hash of the row before it |
| AuditProtocol.LoneCall | app/core/audit.py:66-122 | the step model refines the call: a writer left alone takes the table to the same batch and gives the lock back |
| PiiTokens.TokenLengthUnique | app/core/pii_anonymizer.py:602 | at most one match starts at a position, so leftmost matching has no choice to make |
| PiiTokens.TokensAre | app/core/pii_anonymizer.py:602 | a text is a token exactly when it is a name of capitals and hyphens, a capital first, in angle brackets, with or without an underscore and digits after it |
| PiiTokens.RestoreTokenFree | app/core/pii_anonymizer.py:636-638 | text without a token comes through unchanged |
| PiiTokens.RestoreSplit | app/core/pii_anonymizer.py:636-638 | around any token the text before and after is restored on its own and the token becomes its mapped value or the filler; nothing straddles |
| PiiTokens.FirstTokenRestored | app/core/pii_anonymizer.py:607-638 | the first token of a text becomes its value, or the filler when it has none, the text before it stays, and the rest is restored in the same way |
| PiiTokens.RestoreLeavesNoToken | app/core/pii_anonymizer.py:602-638 | no token is left when each mapped value has no angle bracket and a character outside the token alphabet |
| PiiTokens.RestoreTwice | app/core/pii_anonymizer.py:633-638 | after a restore with an empty mapping, a second restore with any mapping changes nothing |
| PiiTokens.RestoresCleanIff | app/core/pii_anonymizer.py:602-638 | a mapping leaves no token in any text exactly when no value it holds for a token can be completed to one by token-free texts on its two sides |
| PiiTokens.RestoresCleanIffApart | app/core/pii_anonymizer.py:602-638 | the same read off each value: no token in it, no beginning of one at its end, no end of one at its start, and not itself a stretch inside one |
| PiiOverlap.ResolveOverlaps | app/core/pii_anonymizer.py:397-413 | the result lists, by start and equal starts by rank, a choice in which a candidate is chosen exactly when no chosen candidate that ranks before it overlaps it |
| PiiOverlap.SelectionUnique | app/core/pii_anonymizer.py:405-412 | there is exactly one such choice |
| PiiOverlap.OverlapIsShared | app/core/pii_anonymizer.py:409 | nonempty spans overlap exactly when they share a position of the text |
| PiiOverlap.ResolvedUnique | app/core/pii_anonymizer.py:405-413 | the output list itself is determined by the candidates, whatever spans they are |
| PiiOverlap.ResolvedIsDisjoint | app/core/pii_anonymizer.py:408-413 | for nonempty spans the output is disjoint and in text order |
| PiiOverlap.DroppedWasBeaten | app/core/pii_anonymizer.py:405-410 | every dropped span overlaps a kept one that beats it: by its score, at equal scores by an earlier start, at equal starts by having been reported first |
| PiiOverlap.ResolveTwice | app/core/pii_anonymizer.py:397-413 | resolving a result again changes nothing, for any candidates |
| PiiOverlap.OrderedUnlessEmptyAtStart | app/core/pii_anonymizer.py:405-413 | the output is disjoint and in text order exactly when no empty candidate stands at the start of a kept nonempty one that ranks before it |
| PiiMapping.PlaceholderIsToken | app/core/pii_anonymizer.py:572-577 | every placeholder made is a token that restoring recognises |
| PiiMapping.PlaceholderInjective | app/core/pii_anonymizer.py:572-577 | equal placeholders have equal names and equal numbers |
| PiiMapping.NamesAre | app/core/pii_anonymizer.py:168-178 | the name each entity type gets, with one name for both kinds of telephone number and one for every other type |
| PiiMapping.AnonymizeWithMapping | app/core/pii_anonymizer.py:561-592 | the text with each span replaced by the placeholder numbered by its value's first appearance in its entity type, and the mapping that later entries overwrite |
| PiiMapping.CacheKeyInjective | app/core/pii_anonymizer.py:569 | two detections share a cache key only if type and value are equal |
| PiiRoundTrip.RestoreByPieces | app/core/pii_anonymizer.py:636-638 | a text joined from kept stretches and placeholders is restored stretch by stretch |
| PiiRoundTrip.ResolvedIsRegular | app/core/pii_anonymizer.py:413 | what the resolver returns is what the replacement needs, ordered, disjoint and inside the text, exactly when no empty candidate stands at the start of a kept one, and so always without empty candidates |
| PiiRoundTrip.OwnValuesIffNamesAgree | app/core/pii_anonymizer.py:567-579 | the mapping gives every span its own value back exactly when entity types that share a name carry the same values in the same order |
| PiiRoundTrip.RoundTrip | app/core/pii_anonymizer.py:611-638 | restoring an anonymised text with its own mapping gives the original, if no token lay in kept text and shared names agree |
| PiiRoundTrip.RoundTripIff | app/core/pii_anonymizer.py:611-638 | with values that do not begin with an angle bracket and shared names that agree, the round trip succeeds exactly when no token lay in kept text |
| PiiRoundTrip.RoundTripIffNamesAgree | app/core/pii_anonymizer.py:567-583 | for any number of spans, without a token in kept text and with values put back of the right lengths, the round trip succeeds exactly when entity types that share a name agree |
| PiiRoundTrip.SharedNameLosesValue | app/core/pii_anonymizer.py:171-172 | two spans of different types with one name and different values, of any lengths: the first comes back as the second |
| TenantModules.ValidIffMeets | app/services/tenant_modules.py:46-75 | no problem is reported exactly for a list without repetition, within the catalog, with core, enough workflows and the required ones |
| TenantModules.RulesInFull | app/services/tenant_modules.py:7-31 | the rules written out: the core and two, five or seven workflows of the catalog, from the middle tier on with the compliance monitor |
| TenantModules.MoreModulesStillMeet | app/services/tenant_modules.py:7-13 | adding catalog modules never breaks a tier's rules |
| TenantModules.CatalogMeets | app/services/tenant_modules.py:25-31 | every tier can be met: the whole catalog does |
| TenantModules.ReplacedIsWanted | app/services/tenant_modules.py:108-133 | replacement makes the active set exactly the wanted one, deletes no row, leaves other tenants alone and is idempotent |
| TenantModules.TenantTable.ReplaceModules | app/services/tenant_modules.py:115-133 | the two loops yield that table; the set before, plus added, minus removed, is the wanted set |
| TenantModules.TenantTable.EnsureModules | app/services/tenant_modules.py:87-105 | inserts exactly the missing rows, changes none, and counts both kinds |
| TenantModules.TenantTable.PutTenantModules | app/api/ops.py:113-150 | tier and set change together or not at all, with the answer and the change flag that go with it; afterwards the tenant has the tier asked for, or its own when none is, and exactly the modules asked for |
| TenantModules.PutTwice | app/api/ops.py:112-150 | an accepted request sent again answers "unchanged", adds and removes nothing |
| TenantModules.NextKeepsConsistent | app/services/provisioning.py:144-171 | each writer of tiers and modules keeps every tenant within its tier's rules, provisioning included |
| TenantModules.EveryTenantMeetsItsTier | scripts/setup_hq_tenant.py:43-61 | over any run of put, provisioning, seeding, HQ setup and creation of organizations, every tenant with a tier meets it, and no module row is deleted |
| Provisioning.EveryRun | app/services/provisioning.py:311-351 | for any number of concurrent calls and any failures: a tenant is created with exactly the rows that belong to it and modules that meet its tier, or not at all, calls on one key create at most one and all that succeed name it, and a finished call that created nothing leaves no row, and no file unless orphaned |
| Provisioning.TenantRowsAre | app/services/provisioning.py:144-241 | the six steps insert exactly: one organization with the call's name and tier, its user, one row for each module asked for, one policy, a system and a risk for each workflow, a document if asked for, and the request with its key and fingerprint |
| Provisioning.LoneCallAnswers | app/services/provisioning.py:311-351 | the step machine refines the call: left alone, whatever goes wrong at each step, it ends with the answer, the rows and the files that the call as a whole must give: which of invalid, replayed, key conflict, conflict, created and failed, and when the file stays |
| Provisioning.LoneCallCreates | app/services/provisioning.py:311-351 | among them: a valid call on a new key with free names and no mishap ends as created, with exactly the rows that belong to the tenant added |
| Provisioning.CreatedExactly | app/services/provisioning.py:311-346 | the right answer is "created" exactly when the call passes, no step and no commit fails, and key, name and username are free at both looks |
| Provisioning.NoFalseConflict | app/services/provisioning.py:123-129 | a call whose key and fingerprint equal those of a successful one is never told that its parameters differ |
| Provisioning.OrphanCause | app/services/provisioning.py:195-250 | after every run, a file of a finished call that created nothing is on disk exactly when, during the run, writing the demo file failed after creating it or removing it failed |
| Provisioning.NextKeepsInv | app/services/provisioning.py:144-250 | every step of every call keeps unique keys, each call's own rows and file in step with how far it got, and calls apart |
| Provisioning.Server.ProvisionTenant | app/services/provisioning.py:311-346 | one right answer for each course of a call, with modules that must meet the tier and rows that others commit between its checks and its inserts: created with exactly the rows that belong to the tenant, or the tables as others left them; and the file stays exactly when created, or when writing or removing it failed |
| Provisioning.Server.RunSteps | app/services/provisioning.py:331-334 | the loop over the six steps completes exactly without faults and taken keys, with exactly the rows of the tenant pending; otherwise whether a taken key stopped it, and whether the file was made and noted |
| Provisioning.Server.InsertTenant | app/services/provisioning.py:329-346 | the transaction: created, or undone with the answer of the idempotency table when a unique key was taken meanwhile, else the call's own error |
| Provisioning.Server.Replay | app/services/provisioning.py:123-129 | an absent key, a replay of the recorded organization, or a conflict of fingerprints |
| BackupRetention.ComputeKeepSet | scripts/backup_lib.py:39-55 | the dates kept are those with fewer than 14 newer ones, the Sundays with fewer than 8 newer Sundays, and the firsts of a month with fewer than 6 newer firsts |
| BackupRetention.KeepOfKept | scripts/backup_lib.py:39-55 | deciding on what was kept plus new dates equals deciding on the whole history, for all sets of dates |
| BackupRetention.KeepTwice | scripts/backup_lib.py:39-55 | the policy keeps everything it kept |
| BackupRetention.PrunedForGood | scripts/backup_lib.py:39-55 | a date pruned once is not wanted again, whatever dates are added, older ones included |
| BackupRetention.DiskHoldsWanted | scripts/backup_lib.py:58-62 | over any run of adding and pruning, the disk holds every file ever made whose date is still wanted, and pruning decides on it as on the full history |
| BackupRetention.DiskAfterPrune | scripts/backup_lib.py:58-62 | after a prune the disk is exactly the files ever made whose date the policy keeps for all dates ever seen |
| BackupRetention.BackupDirectory.FilesToDelete | scripts/backup_lib.py:58-62 | the names, in listing order, of all files whose date is not kept |
| BackupRetention.BackupDirectory.PruneDirectory | scripts/backup_lib.py:58-62 | deleting those names is the prune of the run theorems when a name belongs to one date |
| BackupRetention.KeepBounds | scripts/backup_lib.py:45-54 | between min(n, 14) and 28 dates are kept, always the newest |
| BackupRetention.NoGapOfAWeek | scripts/backup_lib.py:49-51 | for a daily history of eight weeks, every seven days ending within the last fifty hold a kept date |
| BackupRetention.FirstsOfSixMonthsKept | scripts/backup_lib.py:52-53 | of any history, the first of each of its last six months is kept if there is a backup of it |
| Calendar.DayOfMonthIs | scripts/backup_lib.py:52 | the formula gives day k of every month of every year the number k, against month lengths and leap years |
| Calendar.FirstsAre | scripts/backup_lib.py:52 | a date counts as a first exactly when it is day 1 of some month of some year of that calendar |
| Calendar.WeekdaysAre | scripts/backup_lib.py:50 | the weekdays run on from 1 January 1970, a Thursday; Sundays are the dates a multiple of seven days from 4 January 1970 |
| Mfa.VerifyTotp | app/core/mfa.py:85-101 | the newest step within one of the clock whose code matches and that is newer than the last accepted, if any |
| Mfa.ConsumeBackupCode | app/core/mfa.py:117-135 | the first stored hash the code verifies against is taken away, and none otherwise |
| Mfa.ConsumeTakesOne | app/core/mfa.py:127-135 | a code passes exactly when it matches a stored hash; then one fewer is stored, one fewer matches and nothing is added |
| Mfa.MfaUser.RegisterFailure | app/api/mfa.py:64-75 | the fifth failure in a row locks for fifteen minutes and clears the counter |
| Mfa.MfaUser.Check | app/api/mfa.py:83-101 | a time-based or backup code that passes leaves its trace in the row; one that fails changes nothing |
| Mfa.MfaUser.MfaSetup | app/api/mfa.py:113-131 | a new secret forgets the last step and leaves counters and lock |
| Mfa.MfaUser.MfaEnable | app/api/mfa.py:134-164 | turned away, unavailable, counted as wrong, or enabled with new backup codes and cleared counters |
| Mfa.MfaUser.MfaDisable | app/api/mfa.py:167-201 | a wrong password counts as a failure without looking at the code; success wipes every field |
| Mfa.MfaUser.LoginMfa | app/api/mfa.py:226-239 | the login step, with no code looked at while locked |
| Mfa.LoginExactly | app/api/mfa.py:226-239 | which logins are turned away, unavailable, wrong or passed: six digits count as a time-based code that must fit a step within one of the clock and newer than the last, anything else as a backup code |
| Mfa.EnableExactly | app/api/mfa.py:134-164 | the same for enabling, where only a time-based code will do, and what it leaves |
| Mfa.DisableExactly | app/api/mfa.py:167-201 | the same for disabling, where a wrong password is a failure whatever the code, and what it leaves |
| Mfa.SetupAndReset | app/api/mfa.py:113-131 | setup is refused while the factor is on and else takes a new secret; a reset wipes everything |
| Mfa.LockoutBound | app/api/mfa.py:60-80 | in any run across login, enable and disable without success or reset, from any state, any interval of length T holds at most 5 (T div 15 min + 1) failed checks |
| Mfa.FifthLocks | app/api/mfa.py:64-80 | after wrong codes in a row the next login is turned away exactly when there were five and fifteen minutes since the last have not passed |
| Mfa.PassStartsOver | app/api/mfa.py:78-80 | a check that passes, of whichever request, clears counter and lock |
| Mfa.StepsRise | app/core/mfa.py:97-100 | within one enrolment accepted steps strictly increase and lie within one step of the clock, so none is accepted twice (section 5.2 of RFC 6238) |
| Mfa.StepsBound | app/core/mfa.py:73-101 | at most step(t2) - step(t1) + 3 time-based codes pass between t1 and t2 |
| Mfa.BackupCodesAddUp | app/api/mfa.py:97-101 | while the factor stays enabled, stored backup codes plus those used stay the same number |
| Mfa.TenBackupCodes | app/api/mfa.py:157-162 | from enabling on, stored plus used backup codes total ten |
| PasswordLockout.UserAccount.SignIn | app/api/auth.py:37-53 | the password step of login, with nothing evaluated while locked or inactive |
| PasswordLockout.UserAccount.Change | app/api/auth.py:131-148 | the same counter and lock on the current password; an unchanged password changes nothing |
| PasswordLockout.LockoutBound | app/api/auth.py:40-49 | in any run across login and password change that does not reset the counter, any interval of length T holds at most 5 + T div 15 min evaluated failures |
| PasswordLockout.FifthLocks | app/api/auth.py:40-49 | after wrong passwords in a row the right one is turned away exactly when there were at least five and fifteen minutes since the last have not passed |
| PasswordLockout.AcceptedStartsOver | app/api/auth.py:50-53 | an accepted password clears counter and lock, and a login changes nothing else |
| PasswordLockout.NewPasswordCounts | app/api/auth.py:141-148 | after an accepted change the new password and no other lets the user in, at once |
| RateLimiter.Limiter.CheckMemory | app/core/rate_limiter.py:32-37 | lets in exactly when fewer than max of the times stored for this key are recent; the list becomes those times, plus this one when let in; other keys stay |
| RateLimiter.Limiter.CheckRedis | app/core/rate_limiter.py:44-60 | the sorted set of this key becomes its recent entries plus this attempt, let in or not, with a new expiry |
| RateLimiter.Limiter.Check | app/core/rate_limiter.py:107-123 | Redis decides when it answers; when it fails, with or without having recorded the attempt, memory decides |
| RateLimiter.Serve | app/core/rate_limiter.py:32-123 | a limiter that starts empty and serves any calls in order of time: each answer is right by a count of the earlier answers alone, and for every key each side lets in at most max calls in every window |
| RateLimiter.JointBound | app/core/rate_limiter.py:107-123 | with any mix of answers and failures, each side accepts at most max requests in every window-long interval and both together at most twice that |
| RateLimiter.RedisIsStricter | app/core/rate_limiter.py:32-60 | on the same arrivals, whatever the Redis form lets in the memory form lets in |
| RateLimiter.ExpiryIsInvisible | app/core/rate_limiter.py:52-59 | the expiry of the key never changes an answer: the decision is that on all attempts ever recorded |
| SupportRequests.SupportTable.CheckLimits | app/services/support_requests.py:40-49 | the first window that refuses and the wait it reports, or none |
| SupportRequests.SupportTable.CreateSupportRequest | app/services/support_requests.py:52-73 | one row for the user with its own reference, or the refusal and nothing stored |
| SupportRequests.StoredRow | app/services/support_requests.py:52-73 | a stored request adds one row at the end, with the user, the organization, the time it was made and the reference of its own id |
| SupportRequests.EveryRunWithinLimits | app/services/support_requests.py:40-55 | over every serial run, even on a clock that runs back between requests, each user has at most 5 requests in any closed hour and 20 in any closed day |
| SupportRequests.LimitsInNumbers | app/services/support_requests.py:40-49 | the same in numbers: 5 in 3600 seconds and 20 in 86400, for every user and interval |
| SupportRequests.OpensExactlyAfter | app/services/support_requests.py:43-49 | without new requests, a window that refuses now refuses later exactly until its oldest request plus its length |
| SupportRequests.RefusedUntilThen | app/services/support_requests.py:43-55 | until that instant nothing is stored for the user, whatever is asked and whatever other users do |
| SupportRequests.RefusalEndsExactly | app/services/support_requests.py:43-55 | on every run from the empty table a refusing window opens right after exactly that instant |
| SupportRequests.AdmittedExactly | app/services/support_requests.py:40-73 | on every run from the empty table, a refused user's next request after the refusals is stored exactly when each window that refused then has come to its end; a window open then stays open |
| SupportRequests.RetryAfterPointsThere | app/services/support_requests.py:46-49 | the reported wait lies within a second of that instant, and waiting it out gets past the window exactly when less than a second was left |
| SupportRequests.RefusalReports | app/services/support_requests.py:40-49 | a refused request stores nothing and is told a wait of at least a second, within one of the end of the first window that refuses, the hour before the day |
| SupportRequests.ReferenceInjective | app/services/support_requests.py:70 | two ids never share a reference, padded to six digits or longer |
| SupportRequests.NextKeepsReferencesDistinct | app/models/support_request.py:34 | with fresh ids the unique key on references is never violated |
| ProductionGate.Governance.ProductionReadinessCheck | app/api/governance.py:463-521 | counts of approvals, open and aged high risks, the separation flag, and the permission they amount to |
| ProductionGate.Governance.DeployAiSystem | app/api/governance.py:524-551 | the role, the tenant and the deployment check in this order; production on success and no change otherwise |
| ProductionGate.Governance.MayGoToProduction | app/api/governance.py:345-416 | the update's own gate and which refusal comes first: role, separation, risks in order, conformity, organization, approvals |
| ProductionGate.Governance.UpdateAiSystemGovernance | app/api/governance.py:328-440 | the new row of an update and no change on refusal; a system is left "restricted", never reviewed, or with a review that has not run out |
| ProductionGate.Governance.UpdateGovernanceConfig | app/api/governance.py:88-112 | an organization's two settings change together or not at all; values below one are refused |
| ProductionGate.Governance.ApproveProduction | app/api/governance.py:861-880 | one more approval row, of this system, by the actor and at the time of the request, for admins of the tenant only |
| ProductionGate.DeployPassesIff | app/core/deployment_service.py:14-86 | the check passes exactly for a restricted system with every high risk closed and at most 30 days old, conformity, enough approvals and a latest approver other than the actor |
| ProductionGate.PatchPassesIff | app/api/governance.py:339-416 | the same for the update, with the role and the conformity sent along in place of stage and stored conformity |
| ProductionGate.AllowedByCounts | app/api/governance.py:502-508 | both counters are zero and the rest holds exactly when every high risk is settled and the rest holds |
| ProductionGate.DeployAgreesIff | app/core/deployment_service.py:76-84 | check and report agree for every actor exactly when the latest approval is by the author of the last one, or there is none, or something else refuses |
| ProductionGate.PatchAgrees | app/api/governance.py:348-416 | with approvals in order of time, the update is let through exactly when an admin gives a reason and sends conformity and the report would allow the system with conformity set |
| ProductionGate.GatesAgreeOnEveryRun | app/api/governance.py:498-508 | in every state reached on a rising clock the deployment check passes exactly when the report allows it and the stage is "restricted" |
| ProductionGate.RunAsksForSome | app/api/governance.py:101-104 | no run of requests takes an organization to asking for less than one approval |
| ProductionGate.EntersEarned | app/api/governance.py:524-534 | a step that moves a system into production is a deployment or an update, by an admin, with risks settled, enough approvals, a latest approval that exists and is by someone else, and conformity afterwards |
| ProductionGate.ProductionWasEarned | app/api/governance.py:328-551 | on every run, whatever happens to risks, actions and organizations in between, a system in production was moved there by such a step and has been there since |
| ProductionGate.ConformityWithdrawnIff | app/api/governance.py:418-432 | a step leaves a conforming system in production without conformity exactly when it is an update that withdraws it, names no stage, and finds the review current |
| ProductionGate.ConformsUntilWithdrawn | app/api/governance.py:339-432 | on every run without such a withdrawal, a system in production conforms |
| ProductionGate.ApprovalIsByActor | app/api/governance.py:868-873 | an approval that is carried out adds one row to its system, naming the actor and the time, and none to any other |
| ProductionGate.ApproverIsRefused | app/core/deployment_service.py:76-84 | on every run on a rising clock: who has approved a system is refused production for it, by deployment and by update, until someone else approves it |
| ProductionGate.DeployInFull | app/core/deployment_service.py:20-86 | the whole condition for a deployment over the rows themselves: role, organization, stage, no high risk without a closed action or over thirty days old, the number of approvals, the approver; and that nothing else changes |
| ProductionGate.PatchInFull | app/api/governance.py:339-416 | the same for an update, with and without production in it |
| ProductionGate.UpdateWrites | app/api/governance.py:418-432 | what an update leaves in each field, and that an overdue review makes it "restricted" whatever was asked |
| ProductionGate.ConfigureInFull | app/api/governance.py:88-112 | which configurations are taken, and that what is not given stays |
| ProductionGate.OpenIsCounted | app/api/governance.py:478-498 | the report's figure of open risks is the number of high risks of the system without a closed action |
| ProductionGate.AgedIsCounted | app/api/governance.py:478-500 | the report's figure of aged risks is the number of high risks of the system over thirty days old |
| ProductionGate.ArchivedForGood | app/api/governance.py:312-333 | whatever follows, an archived system stays as it was left and every request about it is refused |

## Left out

- AuditChain.VerifyAuditChain: does not model the error that comparing a stored hash with characters outside ASCII raises; such a hash counts as a mismatch.
- AuditChain.EditDetected: is about one edited row; several edits at once are the matter of the theorems on whole chains.
- AuditProtocol.EveryRunVerifies: takes the row lock and increasing ids as given; SQLite, where the lock does nothing, is not part of the model.
- PiiMapping.AnonymizeWithMapping: takes the resolved spans as input; blank text is the case of no spans, and entity types are taken to have no colon in their names, as all types of the detectors.
- PiiRoundTrip.RoundTripIffNamesAgree: values of different lengths under one name can, with the text around them, give the original back by chance; only the case of equal lengths is exact.
- PiiRoundTrip.RoundTripIff: the converse is stated for values that do not begin with an angle bracket; a value that does could make a lost token reappear by chance.
- PiiTokens.RestoreSplit: which digits outside ASCII the pattern accepts is left open.
- PiiOverlap.ResolveOverlaps: scores are integers, because only their order counts.
- TenantModules.TenantTable.ReplaceModules: the lists of added and removed keys are sets; their sorted order is not modelled, nor are the texts of the problems reported.
- TenantModules.EveryTenantMeetsItsTier: a change of rows by hand is outside the model, and seeding an organization that does not exist inserts nothing because of its foreign key.
- Provisioning.EveryRun: a commit that fails is taken as not applied; the name of an organization has no unique key, so that two calls with different keys and one name can both succeed; an empty upload directory that stays behind is not modelled.
- Provisioning.Server.ProvisionTenant: does not model that the summary is queried again after the commit: when that query fails the call ends with an error although its tenant exists, where the model answers that the tenant was created. The rules for names, usernames and addresses are one flag; tenants' texts, the contents of the summary, the dry run, the audit lines after the commit and the demo run are not modelled.
- BackupRetention.ComputeKeepSet: dates are day numbers, counted from 1 January of year 1; the names of backup files and their parsing are not modelled.
- Mfa.VerifyTotp: digits outside ASCII, and the normalisation of codes before the check, are not modelled.
- PasswordLockout.NewPasswordCounts: takes a hash to verify the password it was made of and no other; passwords that bcrypt does not tell apart are outside the model.
- Mfa.LockoutBound: parallel requests on one user are serial, by the row lock the code takes.
- PasswordLockout.LockoutBound: parallel requests on one user are serial, although the code takes no lock there.
- RateLimiter.JointBound: members of the sorted set are distinct, Redis and server share one clock and Redis loses no data; the bypass in test mode is not modelled.
- SupportRequests.EveryRunWithinLimits: requests of one user are serial; two at the same time can both pass the check.
- SupportRequests.SupportTable.CreateSupportRequest: subject, message, category and notification are not modelled.
- ProductionGate.ProductionWasEarned: starts from organizations whose required number of approvals is absent or not negative, as the endpoints leave it; a negative number written by hand is outside the model.
- ProductionGate.GatesAgreeOnEveryRun: a request reads the clock once, where the code reads it once per risk.
- ProductionGate.Governance.UpdateAiSystemGovernance: whether a reason is blank is a flag, and audit lines are not modelled.
- Everything around these parts: HTTP, schemas, tokens, sessions and migrations; language models and detectors; mail, PDF and Microsoft synchronisation; invoice and quote arithmetic; onboarding, agenda, score and dashboard figures.
