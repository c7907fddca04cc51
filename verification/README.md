# What the API's small protocols guarantee

The API keeps a handful of stateful protocols whose promises are made in comments: a code can be resent so often
and no oftener, a ticket is admitted once however many staff scan it, a link makes one account, a workspace always
has an Admin. This project models those protocols, and the exact byte and text algorithms beside them, and proves
what they guarantee: over every run, every interleaving of concurrent callers, or every input.

The code that changes state step by step is a class whose methods change its fields and are proved equal to a
specification function on values. The same functions drive the state machines, so a theorem about runs is a theorem
about what the methods do. What each function itself answers and leaves behind is stated beside it without naming its
body: whom the door lets in, when a call is refused and what it changes, what a refused claim is told.

| module | models |
|---|---|
| `Redis` | keys, the seven commands used, a clock, and what can happen to a command: answered, applied but unanswered, or lost |
| `WindowCounter` | a counter with a window (INCR, then EXPIRE), and the quota it enforces over any interval |
| `ResendThrottle`, `ResendRuns`, `ResendReleases`, `ResendStalls`, `ResendSerial` | the resend throttle: its commands, all interleavings and crashes, by when codes are counted and by when they are let go, and serial runs |
| `LoginThrottle`, `LoginRuns` | the sign-in and reset lockout, one attempt after another and side by side |
| `CheckIn`, `DoorRuns`, `DoorRules` | the door: scans, manual admissions, undo, ledger, projection, counts |
| `Access`, `AccessRuns`, `AccessRules` | roles, grants, memberships, and the audit trail |
| `Calendar`, `CalendarRuns` | connecting a workspace calendar through a consent screen |
| `BookingClaim`, `ClaimRuns` | turning a booking into an account with a single-use link |
| `Sessions` | sign-in sessions and their revocation |
| `Bits`, `Base32`, `Decimal`, `Totp` | 32-bit words, RFC 4648 base32, decimal numerals, RFC 4226 and RFC 6238 codes |
| `Csv` | the CSV printer, against a reader after RFC 4180 section 2 |
| `Slug` | the search for a free workspace slug |
| `Migrator` | applying migrations one transaction at a time |

## What differs from the comments

- The configuration speaks of ten codes across a window boundary for a budget of five. By when their budget was
  counted at most nine are possible, `2 * max - 1`, and `ResendSerial.BoundIsReached` shows a run with a budget of two
  that meets the bound. By when codes are let go the same bound holds exactly while no claim takes a whole window from
  its INCR to its acceptance (`ResendStalls.PromptEnoughIsUnderAWindow`): claims that stall between their INCR and their
  EXPIRE for one window can let `2 * max` codes go in one (`ResendStalls.LongDelaysBreakTheBound`).
- The cool-off spaces the moments codes take it, not those they are let go: these are apart by the cool-off less the
  time a claim may take, and by nothing once that is a whole cool-off (`ResendStalls.ReleasesKeepTheirDistance`).
- Admissions in another order give the same arrival time and the same ticket, but not always the same row: who
  admitted, where and how stay those of the first writer. `DoorRuns.OrderOfAdmissions` says exactly when the whole
  row agrees and `DoorRuns.FirstWriterSignsTheRow` gives a case where it does not.
- A claim verifies the link's token before it asks the ledger. A used link works once more when no proven account has
  the address and the answer comes after the ledger entry lapsed; it may then even take over an account that a stranger
  has signed up on the address and not confirmed (`ClaimRuns.UsedLinkReopens`). A run from an empty ledger shows one
  link make two accounts that way (`ClaimRuns.OneLinkTwoAccounts`).
- The login throttle never repairs a failure counter left without an expiry. After any run of wrong attempts the whole
  allowance comes back if and only if no failure that opened a count lost its INCR's reply or its EXPIRE
  (`LoginThrottle.AllowanceReturnsIffNoneLeavesBare`). One lost EXPIRE is enough (`LoginThrottle.OneLostExpireSticks`):
  once the count has come to one short of the limit, every wrong attempt ends in a lock, until a successful sign-in
  clears the counter; nothing clears the reset form's.
- One attempt after another, no more than `2 * max - 2` failures fit in an interval of the lock's length, one fewer than
  the idiom alone allows, because the last count of a life locks out the next one (`LoginThrottle.FailuresAreBounded`).
  Side by side each further attempt in flight adds one failure: with `p` in flight the most is `2 * max - 3 + p`, and
  that is reached (`LoginRuns.MostFailuresIsExact`).
- In the first thirty seconds of 1970 checking a code throws instead of answering (`Totp.NearbyCodesAreAccepted`).
- The slug search could hand out a slug in use for a base with a backslash, which the query reads as an escape. No
  caller passes one: bases are slugified (`Slug.FreeExactlyWhenFound`).
- A table with a line of no columns does not read back to the same shape (`Csv.ExportReadsBack`).
- Revoking the other sessions counts lapsed ones too, which setting a password does not
  (`Sessions.BulkCountIsTheOthersShown`).
- Migrations with timestamps that do not strictly increase cannot be resumed from every stopping point
  (`Migrator.ResumableIffIncreasing`).

## Model

| member | source | states |
|---|---|---|
| Redis.RenderIsInjective | src/common/throttle/resend-throttle.service.ts:348-354 | two rendered keys are equal exactly when service, form and identity are: no identity makes two services share a key |
| Redis.Client.SendIncr | src/common/throttle/resend-throttle.service.ts:296-296 | INCR creates at 1 or adds 1 keeping the expiry; the new database and the reply for each fate of the command |
| Redis.Client.SendSetNxEx | src/common/throttle/resend-throttle.service.ts:252-270 | SET NX EX takes only a key nobody holds; the new database and the reply for each fate of the command |
| Redis.KeysLiveTheirTime | src/modules/auth-booking-signup/booking-claim-link.service.ts:111-120 | a key set with a time to live is held, and TTL and EXISTS say so, exactly until that time is over |
| Redis.OnlyTheFirstTakes | src/common/throttle/resend-throttle.service.ts:252-270 | SET NX EX takes a free key as SET EX does, and changes nothing on one that is held |
| Redis.CountsGoUpByOne | src/common/throttle/resend-throttle.service.ts:286-312 | each INCR is told one more than the last; TTL stays what it was, or there is none on a new counter |
| Redis.ExpireStartsTheClock | src/common/throttle/resend-throttle.service.ts:286-333 | EXPIRE gives a held key exactly that long and keeps its count; it does nothing for any other |
| Redis.OtherKeysStand | src/common/throttle/resend-throttle.service.ts:194-346 | a command changes no key but its own, and a read changes none |
| Redis.DeletedKeysAreGone | src/modules/auth/login-throttle.service.ts:106-118 | after DEL exactly the keys named are gone |
| Redis.RepliesMayBeLost | src/common/throttle/resend-throttle.service.ts:229-312 | a lost reply leaves the effect, a lost command none, and either way the caller learns nothing |
| WindowCounter.IdiomaticKeepsOrder | src/common/throttle/resend-throttle.service.ts:286-312 | every command the throttles send keeps the record of counts ordered by the counter's lives |
| WindowCounter.CountJoinsInOrder | src/common/throttle/resend-throttle.service.ts:286-312 | an answered INCR joins that record with a fresh count of a known life |
| WindowCounter.IdiomaticKeepsLasting | src/common/throttle/resend-throttle.service.ts:286-333 | no command brings a counter's lapse forward |
| WindowCounter.TwoLivesPerWindow | src/common/throttle/resend-throttle.service.ts:286-312 | counts within one window come from at most two lives of the counter |
| WindowCounter.EarlierLifeIsCutShort | src/common/throttle/resend-throttle.service.ts:286-312 | when two lives meet in a window, the first count of the earlier one lies outside it |
| WindowCounter.OrderlyIsSpread | src/common/throttle/resend-throttle.service.ts:286-312 | an ordered record meets what the quota needs |
| WindowCounter.QuotaOverAnyWindow | src/config/env.validation.ts:85-87 | any half-open interval one window long holds at most 2·max − 1 counts up to max |
| ResendThrottle.Service.Claim | src/common/throttle/resend-throttle.service.ts:194-202 | the whole call equals playing the request's commands to the end: verdict and database; `ResendSerial.AnsweredClaimIsDecided` and `RefusalTellsTheTimeLeft` say what that verdict is |
| ResendThrottle.Service.ClaimWindow | src/common/throttle/resend-throttle.service.ts:252-270 | the cool-off is won, lost, or the kind's failure rule applies |
| ResendThrottle.Service.SpendFromBudget | src/common/throttle/resend-throttle.service.ts:286-312 | count, anchor on the first, refuse over budget with the seconds TTL says, repair a counter without expiry |
| ResendThrottle.Service.RemainingWindow | src/common/throttle/resend-throttle.service.ts:321-333 | what TTL says, with a bare counter given its window again |
| ResendThrottle.Service.AssertAllowed | src/common/throttle/resend-throttle.service.ts:214-226 | reads only: refused exactly when the cool-off stands, or Redis fails and the kind fails closed |
| ResendThrottle.Service.Remember | src/common/throttle/resend-throttle.service.ts:229-243 | the cool-off is restarted in full, and a failure is swallowed |
| ResendRuns.RationedKeepsSpacing | src/common/throttle/resend-throttle.service.ts:229-270 | no command but a win disturbs the spacing of wins |
| ResendRuns.WinJoinsSpaced | src/common/throttle/resend-throttle.service.ts:252-270 | a won SET NX comes a full cool-off after every earlier win |
| ResendRuns.WinHistory | src/common/throttle/resend-throttle.service.ts:252-270 | a claim's step extends the record of wins exactly when its SET NX was told it won |
| ResendRuns.SpendHistory | src/common/throttle/resend-throttle.service.ts:286-312 | and the record of counts exactly when its INCR was answered |
| ResendRuns.RunKeepsInvariant | src/common/throttle/resend-throttle.service.ts:194-346 | spacing, order of counts and each claim's account survive every interleaving, lost reply and crash |
| ResendRuns.AcceptedCodesAreBounded | src/common/throttle/resend-throttle.service.ts:194-346 | over every such run, any half-open interval of windowSeconds holds the counts of at most 2·max − 1 accepted codes, dated by their INCR |
| ResendRuns.AcceptedCodesAreSpaced | src/common/throttle/resend-throttle.service.ts:252-270 | two accepted codes took their cool-offs at least one cool-off apart |
| ResendReleases.AcceptanceIsReleased | src/common/throttle/resend-throttle.service.ts:286-312 | a code is accepted by its INCR, or by an EXPIRE which, less than a window after it, renews the life it counted in |
| ResendReleases.RunKeepsReleased | src/common/throttle/resend-throttle.service.ts:194-346 | that life then lasts a whole window more, over every interleaving |
| ResendReleases.PromptReleasesAreBounded | src/common/throttle/resend-throttle.service.ts:194-346 | when every code is accepted less than a window after its INCR, any interval of windowSeconds lets at most 2·max − 1 go |
| ResendReleases.RunKeepsWonFirst | src/common/throttle/resend-throttle.service.ts:194-202 | no code counts before it won its cool-off |
| ResendReleases.ReleasesAreSpaced | src/common/throttle/resend-throttle.service.ts:252-270 | with no code accepted more than `lag` after its win, any two are let go at least the cool-off less `lag` apart |
| ResendStalls.ShortDelaysKeepTheBound | src/common/throttle/resend-throttle.service.ts:194-346 | while no claim takes a whole window from its INCR on - with a window of a second, as many seconds as the budget has codes - at most 2·max − 1 are let go in any window |
| ResendStalls.LongDelaysBreakTheBound | src/common/throttle/resend-throttle.service.ts:286-312 | for every budget, window and cool-off, a run with claims just as late as that which lets more go |
| ResendStalls.PromptEnoughIsUnderAWindow | src/common/throttle/resend-throttle.service.ts:286-312 | so the bound by when codes are let go holds of all runs with claims no later than `lag` if and only if `lag` is under that |
| ResendStalls.ReleasesKeepTheirDistance | src/common/throttle/resend-throttle.service.ts:252-270 | codes are let go at least `gap` apart in all runs with claims no later than `lag` after their win if and only if gap + lag is at most the cool-off |
| ResendSerial.AdvanceSerially | src/common/throttle/resend-throttle.service.ts:286-333 | with nobody else on the identity, a claim never puts a counter's lapse off |
| ResendSerial.PlayAllSerially | src/common/throttle/resend-throttle.service.ts:286-333 | the same over any serial run of claims, whatever fails or stops |
| ResendSerial.RefusalAnchors | src/common/throttle/resend-throttle.service.ts:286-333 | a claim refused for its budget leaves a counter that has an expiry, also after an earlier crash |
| ResendSerial.LockoutIsTemporary | src/common/throttle/resend-throttle.service.ts:286-333 | the counter that refused is gone within one window of the refusal, however many claims follow |
| ResendSerial.LosersSpendNothing | src/common/throttle/resend-throttle.service.ts:194-202 | a claim that finds the cool-off standing is refused and changes no key |
| ResendSerial.OnlyWinnersSpend | src/common/throttle/resend-throttle.service.ts:194-202 | a budget changes only under a code on that identity that took a free cool-off |
| ResendSerial.OtherBudgetsUntouched | src/common/throttle/resend-throttle.service.ts:286-312 | a claim leaves every other identity's budget as it was |
| ResendSerial.WaitIsLongEnough | src/common/throttle/resend-throttle.service.ts:73-92 | the advised wait is never shorter than the time left, nor a whole unit longer |
| ResendSerial.AnsweredCode | src/common/throttle/resend-throttle.service.ts:194-312 | a free cool-off and budget left: the code is accepted, and the two keys it leaves |
| ResendSerial.RefusalTellsTheTimeLeft | src/common/throttle/resend-throttle.service.ts:286-333 | whatever is answered or lost, the seconds an over-budget refusal names are what the counter has left when it is refused; none once it is gone |
| ResendSerial.AnsweredClaimIsDecided | src/common/throttle/resend-throttle.service.ts:194-312 | with every command answered: told to wait exactly while the cool-off stands, refused for the budget exactly when the INCR passes it, and accepted otherwise |
| ResendSerial.SilenceRefusesCodesOnly | src/common/throttle/resend-throttle.service.ts:252-346 | a failure at any command refuses a code and lets a link go on |
| ResendSerial.NoBudgetNoBudgetRefusal | src/common/throttle/resend-throttle.service.ts:194-202 | a claim without a budget is accepted or told to wait |
| ResendSerial.BoundIsReached | src/config/env.validation.ts:85-87 | with a budget of two, four codes are accepted at 0, 9, 10 and 11: three in one window of ten |
| LoginThrottle.Service.AssertNotLocked | src/modules/auth/login-throttle.service.ts:58-76 | free, locked for so long, or let through when Redis fails |
| LoginThrottle.Service.RecordFailure | src/modules/auth/login-throttle.service.ts:79-103 | the three commands in order, the rest dropped after the first failure |
| LoginThrottle.Service.RecordSuccess | src/modules/auth/login-throttle.service.ts:106-118 | both sign-in keys go |
| LoginThrottle.Service.SignInOnce | src/modules/auth/auth.service.ts:127-276 | ask, authenticate, then count a wrong credential, clear on a right one, and do neither on any other outcome, as `LoginThrottle.SignInsAreCounted` spells out |
| LoginThrottle.AskedTellsTheLock | src/modules/auth/login-throttle.service.ts:58-76 | locked exactly when the lock is held and Redis answers, with the seconds it has left; asking changes nothing |
| LoginThrottle.LockedSignInsChangeNothing | src/modules/auth/auth.service.ts:127-192 | a locked identity is turned away before its credential is looked at, and no key changes |
| LoginThrottle.SignInsAreCounted | src/modules/auth/auth.service.ts:127-276 | let in and answered: a wrong credential is one failure more, a new count lives one lock from its EXPIRE, and at maxAttempts the lock is held for a whole lockSeconds; a right one deletes both keys and nothing else; any other outcome changes no key |
| LoginThrottle.WrongSignInIsAnAttempt | src/modules/auth/auth.service.ts:127-276 | a sign-in with a wrong credential is an attempt of the runs below, so their bounds are about sign-ins |
| LoginThrottle.CoverSurvivesFailure | src/modules/auth/login-throttle.service.ts:79-103 | a full counter is always under a lock that lasts at least as long as it does |
| LoginThrottle.AttemptKeepsInvariant | src/modules/auth/login-throttle.service.ts:58-103 | one attempt keeps the cover and the order of counts |
| LoginThrottle.RunKeepsInvariant | src/modules/auth/login-throttle.service.ts:58-103 | so does any run of attempts |
| LoginThrottle.AttemptKeepsLocking | src/modules/auth/login-throttle.service.ts:79-103 | a failure told the limit keeps every later one a whole lock away |
| LoginThrottle.EarlyCountsStayUnderTheLimit | src/modules/auth/login-throttle.service.ts:79-103 | of two lives within one lock's length, the earlier never reached the limit |
| LoginThrottle.FailuresAreBounded | src/modules/auth/login-throttle.service.ts:58-103 | any interval of lockSeconds holds at most 2·maxAttempts − 2 recorded failures, or one when one is the limit |
| LoginThrottle.UnlockedMeansAllowance | src/modules/auth/login-throttle.service.ts:58-103 | at any time an unlocked identity has an attempt left, and all of them when the lock lapsed |
| LoginThrottle.AllowanceReturnsIffCounterLapses | src/modules/auth/login-throttle.service.ts:58-103 | after any run, commands answered, unanswered or lost, a first count is possible again if and only if the counter was left with an expiry |
| LoginThrottle.OnlyBareCountsStayBare | src/modules/auth/login-throttle.service.ts:79-103 | one attempt leaves the counter with an expiry exactly when it had one, or none was stored, and its first count lost neither reply nor EXPIRE |
| LoginThrottle.AllowanceReturnsIffNoneLeavesBare | src/modules/auth/login-throttle.service.ts:58-103 | from a clean start the whole allowance comes back exactly when no attempt of the run did that |
| LoginThrottle.OneLostExpireSticks | src/modules/auth/login-throttle.service.ts:79-103 | from a clean start one lost EXPIRE, with nothing else amiss, leads to a counter without expiry that the next failure fills |
| LoginThrottle.UnanchoredCounterKeepsLocking | src/modules/auth/login-throttle.service.ts:79-103 | from there, over any run of wrong attempts, the counter never lapses and every answered one ends locked |
| LoginRuns.AloneIsAttempted | src/modules/auth/login-throttle.service.ts:58-103 | an attempt nothing runs beside is an attempt of the serial runs: same database, same record |
| LoginRuns.RunStaysContained | src/modules/auth/login-throttle.service.ts:58-103 | over every interleaving, those told the limit are in flight until a lock is set, and nobody new is let in after |
| LoginRuns.InterleavedFailuresAreBounded | src/modules/auth/login-throttle.service.ts:58-103 | with at most `p` attempts let in and not finished, any interval of lockSeconds holds at most 2·maxAttempts − 3 + p failures |
| LoginRuns.BoundIsReached | src/modules/auth/login-throttle.service.ts:58-103 | for all limits and every `p`, a run that records that many |
| LoginRuns.MostFailuresIsExact | src/modules/auth/login-throttle.service.ts:58-103 | so no smaller number bounds all runs with `p` in flight |
| LoginThrottle.FormsDoNotShareKeys | src/modules/auth/login-throttle.service.ts:120-126 | a failure on one form touches only that form's two keys |
| LoginThrottle.SuccessClearsSignInOnly | src/modules/auth/login-throttle.service.ts:106-118 | a success restores the sign-in allowance and not the reset form's |
| CheckIn.Station.AdmitTicket | src/modules/check-in/check-in.repository.ts:71-116 | one admission: the row keeps the earliest time, the ticket mirrors it, the ledger gains one row |
| CheckIn.Station.UndoAdmission | src/modules/check-in/check-in.repository.ts:159-196 | the row of this event goes, the ticket is issued again, one undo record; else nothing |
| CheckIn.Station.FindTicket | src/modules/check-in/check-in.repository.ts:352-388 | finds a ticket showing this pass, or there is none |
| CheckIn.Station.Present | src/modules/check-in/check-in.service.ts:67-106 | a scan or manual admission: the open door, the lookup, and the decision on what was read, which `DoorRules.TicketIsToldItsOutcome` spells out |
| DoorRules.DoorHours | src/modules/check-in/check-in-window.ts:32-39 | a planned, upcoming or live event admits from two hours before its start to one after its end, or after its start when it has no end, both moments included |
| DoorRules.GateTells | src/modules/check-in/check-in.service.ts:212-234 | an unknown event is not found, a shut door refuses, and only an open one goes on |
| DoorRules.WhatIsRead | src/modules/check-in/check-in.repository.ts:352-388 | what is read is the ticket of that code, or of that id, as it stands |
| DoorRules.NothingIsRead | src/modules/check-in/check-in.repository.ts:352-388 | nothing is read exactly when no ticket has that code, or that id |
| DoorRules.TicketIsToldItsOutcome | src/modules/check-in/check-in.service.ts:150-181 | a ticket read is let in exactly when it is this event's and issued or checked in, cancelled exactly when it is this event's and void, refunded or transferred, and the wrong event's exactly when it is another's; admitted is said exactly when no row stood |
| DoorRules.StrangersAreInvalid | src/modules/check-in/check-in.service.ts:150-157 | a pass no ticket answers to is invalid |
| DoorRules.RefusalsOnlyAddARecord | src/modules/check-in/check-in.service.ts:192-211 | every refusal leaves rows, tickets and undos as they were and adds one ledger row, with the other event on it exactly for the wrong event |
| DoorRules.AdmissionsWriteTheRow | src/modules/check-in/check-in.repository.ts:71-101 | whoever is let in has a row with the earlier of its time and now, the first writer's event, attendee, method, staff and station on it, and a ticket checked in at that time; no other row or ticket changes |
| DoorRules.AdmissionsAreRecorded | src/modules/check-in/check-in.repository.ts:102-116 | and one ledger row says what was told, of which ticket, by whom, how and when |
| DoorRules.UndoLetsOutAgain | src/modules/check-in/check-in.repository.ts:159-196 | an undo of a ticket inside at that event takes the row away, issues the ticket again and is recorded; any other changes nothing |
| DoorRules.UndoUndoesAdmission | src/modules/check-in/check-in.repository.ts:71-196 | undoing a first admission puts rows and tickets back as they were, and leaves one ledger row of each kind |
| DoorRules.NobodyDeniedIsLetIn | src/modules/check-in/check-in.service.ts:150-211 | over every interleaving, a visit that read no ticket, another event's, or one void, refunded or transferred is never told it is let in: it waits or is told what was wrong |
| DoorRules.TurningAwayWritesNoRow | src/modules/check-in/check-in.service.ts:192-211 | and telling it so changes no row and no ticket |
| DoorRules.ReadingAtTheDoor | src/modules/check-in/check-in.service.ts:67-106 | while scans interleave, a scan at a shut door is told so, and at an open one waits with what it read |
| DoorRules.UndoingAtTheDoor | src/modules/check-in/check-in.service.ts:107-121 | an undo takes effect exactly at an open door, for a ticket inside at that event |
| DoorRuns.LedgersOnlyGrow | src/modules/check-in/check-in.repository.ts:135-196 | no run changes or drops a scan or an undo once recorded |
| DoorRuns.LedgersBalance | src/modules/check-in/check-in.repository.ts:71-196 | after any run, admitted ledger rows less undo records is 1 inside and 0 outside |
| DoorRuns.RowKeepsEarliestArrival | src/modules/check-in/check-in.repository.ts:71-116 | a row stands exactly when the ticket was admitted since its last undo, with the earliest of those times |
| DoorRuns.ProjectionAgrees | src/modules/check-in/check-in.repository.ts:71-196 | in every state the door reaches, a row exists exactly when the ticket is checked in, with its time |
| DoorRuns.EarliestIsLeast | src/db/schema/checkin.ts:34-52 | LEAST over any admissions is their minimum |
| DoorRuns.AdmitEachEffect | src/modules/check-in/check-in.repository.ts:71-116 | what a sequence of admissions of one ticket adds up to |
| DoorRuns.OrderOfAdmissions | src/db/schema/checkin.ts:34-52 | any permutation reaches the same time and ticket; the same row exactly when the first writers agree |
| DoorRuns.FirstWriterSignsTheRow | src/db/schema/checkin.ts:34-52 | two orders of two admissions whose rows differ in who admitted |
| DoorRuns.SettlingIsTheDecision | src/modules/check-in/check-in.service.ts:150-211 | a visit settles as the service decides, and is told admitted exactly when it is let in and the row was new |
| DoorRuns.DecisionIsRecorded | src/modules/check-in/check-in.service.ts:150-211 | each decision writes one ledger row, with the outcome and ticket of the reply |
| DoorRuns.InterleavingsAreSerial | src/modules/check-in/check-in.service.ts:67-211 | every interleaving of reads and decisions is a serial run of transactions, and as many visits were told admitted as the ledger records: the undos, plus one when inside |
| DoorRuns.OneAdmissionBetweenUndos | src/modules/check-in/check-in.service.ts:150-181 | over a span without an undo that starts outside, exactly one visit is told admitted if the ticket ends inside, and none otherwise |
| DoorRuns.InterleavingsKeepTheProjection | src/modules/check-in/check-in.repository.ts:71-196 | the same while scans, manual admissions and undos interleave, with the ledgers kept |
| DoorRuns.OpeningIsFaithful | src/modules/check-in/check-in.repository.ts:71-116 | a door with no history is a valid start of such runs |
| DoorRuns.CountsMatchTickets | src/modules/check-in/check-in.repository.ts:259-301 | total, checked in, expected, late and on site, counted from rows, are those the tickets' own status, time and event show after any door run |
| Access.Administration.GetPermissions | src/modules/access/access.repository.ts:740-770 | exactly the keys granted by the user's Active membership's role, found by a loop over memberships |
| Access.Administration.AssertNoEscalation | src/modules/access/access.service.ts:278-291 | refused exactly when a non-Admin grants a key they do not hold |
| Access.Administration.SaveRolePermissions | src/modules/access/access.repository.ts:121-156 | every catalog key gets a row, granted or refused, and the audit row with it |
| Access.Administration.CreateCustomRole | src/modules/access/roles.service.ts:45-80 | the checks in order, the new role and its audit row, or the refusal and no change |
| Access.Administration.ReplacePermissions | src/modules/access/roles.service.ts:81-137 | the checks in order, the saved grants and the diff, or the refusal and no change |
| Access.Administration.MoveMember | src/modules/access/access.service.ts:162-213 | the checks in order, the move and its audit row, or the refusal and no change |
| Access.Administration.Suspend | src/modules/access/access.service.ts:215-224 | suspended unless missing or the last Admin |
| Access.Administration.Reactivate | src/modules/access/access.service.ts:225-234 | Active again on the role they had |
| Access.Administration.Remove | src/modules/access/access.service.ts:235-254 | suspended and deleted unless missing or the last Admin |
| AccessRules.ReadsAreTheRows | src/modules/access/access.repository.ts:740-770 | the permission read is the keys granted by the roles of the user's Active memberships, and the Admin read an Active, undeleted one on the role named Admin |
| AccessRules.LastAdminIsTheOnlyOne | src/modules/access/access.service.ts:245-254 | counting Admins refuses exactly the change to a membership beside whom no other acts as Admin |
| AccessRules.EscalatingIsHandingOutMore | src/modules/access/access.service.ts:278-291 | a grant escalates exactly when the actor is no Admin and some key of it is on no role of their Active memberships |
| AccessRules.StrandingLeavesNobodyManaging | src/modules/access/roles.service.ts:120-137 | counting roles refuses exactly the save that takes user management from the only role granting it |
| AccessRules.SuspendingSuspends | src/modules/access/access.service.ts:215-223 | exactly when it is refused, that a refusal changes nothing, and that else the membership is Suspended, gives nobody a key, and keeps its role; nothing else changes |
| AccessRules.ReactivatingRestores | src/modules/access/access.service.ts:225-232 | the membership is Active and gives exactly the keys of the role it kept |
| AccessRules.ReactivatingUndoesSuspending | src/modules/access/access.service.ts:214-232 | suspending and reactivating an Active member leaves the workspace as it was |
| AccessRules.RemovingRemoves | src/modules/access/access.service.ts:234-243 | without an error the membership is gone to every later call, reaches no key for any user, and every other membership, role and audit row is as before; exactly when it is refused |
| AccessRules.AcceptingJoins | src/modules/auth/auth.service.ts:313-323 | only an invitation is accepted, and it then gives exactly the keys of the role invited to |
| AccessRules.InvitingInvites | src/modules/access/access.service.ts:57-103 | a missing role and a joined address are refused, a standing invitation changes nothing, and else there is one more membership, Invited on that role, that gives nobody a key |
| AccessRules.MovingIsRefused | src/modules/access/access.service.ts:162-182 | not found, forbidden and conflict exactly when, in that order, and a refused move changes nothing |
| AccessRules.MovingMoves | src/modules/access/access.service.ts:184-213 | a move puts that member on that role and changes nobody else; its one audit row names both roles and is flagged exactly when a sensitive key is new |
| AccessRules.CreatingIsRefused | src/modules/access/roles.service.ts:45-60 | forbidden and conflict exactly when, in that order, and no change |
| AccessRules.CreatingCreates | src/modules/access/roles.service.ts:61-74 | the new role grants exactly the keys chosen and has decided the whole catalog; one audit row says so, flagged exactly for a sensitive key |
| AccessRules.SavingIsRefused | src/modules/access/roles.service.ts:81-137 | forbidden, conflict and not found exactly when, in that order, and no change |
| AccessRules.SavingSaves | src/modules/access/roles.service.ts:81-114 | the role grants exactly the keys chosen, every other role and member is as before, and the row, written exactly when a grant changes, names what came and what went |
| AccessRuns.AdminsSurvive | src/modules/access/access.service.ts:245-254 | a change to one member that the last-Admin check lets through leaves an Admin |
| AccessRuns.SavingSurvives | src/modules/access/roles.service.ts:120-137 | saving a role leaves a role that manages users, and an Admin |
| AccessRuns.CreatingSurvives | src/modules/access/roles.service.ts:45-80 | so does creating one |
| AccessRuns.MembersSurvive | src/modules/access/access.service.ts:162-254 | so does every change to members, invitations and acceptances included |
| AccessRuns.StaysManageable | src/modules/access/access.service.ts:162-254 | every serial run keeps an Active undeleted Admin, a role that manages users, and deleted implies not Active |
| Access.Administration.Bootstrap | src/modules/auth-signup/auth-signup.repository.ts:332-375 | sign-up's transaction: the catalog, the default roles in order, the owner Active on the owner's role |
| AccessRuns.BootstrapIsManageable | src/modules/auth-signup/auth-signup.repository.ts:332-375 | after it the owner is an Admin holding every key, and such runs can start |
| AccessRuns.BootstrapIsSound | src/modules/auth-signup/auth-signup.repository.ts:434-458 | its roles differ in name and grant only catalog keys |
| AccessRules.DefaultRolesGrant | src/modules/access/workspace-defaults.ts:54-82 | exactly which keys Admin, Organizer and Staff start with, key by key |
| AccessRules.SignUpSetsUp | src/modules/auth-signup/auth-signup.repository.ts:332-375 | the owner is the only member, the only Admin, and on the only role that manages users |
| AccessRuns.SignedUpStaysManageable | src/modules/access/access.service.ts:162-254 | so every serial run on a workspace somebody signed up keeps it manageable |
| AccessRuns.RemovedMembersReachNothing | src/modules/access/access.repository.ts:740-770 | after any such run a removed membership gives its user no key, though the read never tests deletion |
| AccessRuns.StepGivesOnlyWhatIsHeld | src/modules/access/access.service.ts:278-291 | a step by a non-Admin newly gives a role or a person only keys the actor held |
| AccessRuns.NoEscalation | src/modules/access/access.service.ts:278-291 | over any serial run by a group never holding Admin, the keys the group holds never grow |
| AccessRuns.SavingIsTold | src/modules/access/permission-change.audit.ts:56-72 | a save's diff turns the old account of the role's grants into the new one, or nothing changed |
| AccessRuns.CreatingIsTold | src/modules/access/permission-change.audit.ts:74-84 | a creation's row opens a correct account of the new role |
| AccessRuns.StepIsTold | src/modules/access/permission-change.audit.ts:56-84 | each step appends at most one row, after which the account is right again |
| AccessRuns.TrailReproducesGrants | src/modules/access/permission-change.audit.ts:56-84 | replaying the trail of any serial run onto the starting grants gives every role's current grants |
| AccessRuns.SaveDecidesEverything | src/modules/access/role-grants.ts:33-42 | a save leaves nothing never offered, writes a row exactly when grants changed, flags exactly new sensitive keys |
| Calendar.Repository.Begin | src/modules/calendar-connection/calendar-connection.repository.ts:60-87 | a start replaces any pending connect and connects nothing |
| Calendar.Repository.Take | src/modules/calendar-connection/calendar-connection.repository.ts:89-113 | a matching nonce is consumed, live or not; any other changes nothing |
| Calendar.Repository.Save | src/modules/calendar-connection/calendar-connection.repository.ts:115-141 | the grant is stored and a newer pending connect is kept |
| Calendar.Repository.Forget | src/modules/calendar-connection/calendar-connection.repository.ts:143-164 | grant and pending go; the token to revoke is handed back |
| Calendar.StartingIsPending | src/modules/calendar-connection/calendar-connection.repository.ts:60-79 | a start leaves its own connect pending, whatever was, and the grant and every other workspace's row as they were |
| Calendar.TakingTakesOnce | src/modules/calendar-connection/calendar-connection.repository.ts:81-113 | matched exactly by the pending nonce, which then names who started it and whether in time, and matches nothing ever after; else nothing changes |
| Calendar.SavingConnects | src/modules/calendar-connection/calendar-connection.repository.ts:115-141 | a saved row is connected and holds the token and account Google gave and who asked |
| Calendar.DisconnectingForgets | src/modules/calendar-connection/calendar-connection.repository.ts:143-164 | after a disconnect the workspace is not connected, no token, account or pending connect is left, and every nonce finds nothing |
| Calendar.OnlyWholeGrantsAreSaved | src/modules/calendar-connection/calendar-connect-flow.service.ts:124-147 | a grant is saved exactly with the scope granted and a refresh token; declined exactly when the user refused access or the scope |
| Calendar.OnlyTheStarterGoesOn | src/modules/calendar-connection/calendar-connect-flow.service.ts:105-122 | an attempt goes on exactly for the user of a match in time who may manage |
| CalendarRuns.StepKeepsInvariant | src/modules/calendar-connection/calendar-connect-flow.service.ts:105-147 | each step of any callback, start or disconnect keeps what ties pending, holders and connections to starts |
| CalendarRuns.RunKeepsInvariant | src/modules/calendar-connection/calendar-connect-flow.service.ts:105-147 | so does every interleaving |
| CalendarRuns.OneSavePerStart | src/modules/calendar-connection/calendar-connection.repository.ts:89-141 | one start leads to at most one save, however many callbacks present its nonce |
| CalendarRuns.ConnectionsAreEarned | src/modules/calendar-connection/calendar-connect-flow.service.ts:105-147 | a connected row holds a token and names the user whose own nonce was presented there, in time, permitted |
| CalendarRuns.VerifierBelongsToItsStart | src/modules/calendar-connection/calendar-connect-flow.service.ts:72-147 | the verifier sent with a code is the one made at that nonce's start |
| CalendarRuns.StraysChangeNothing | src/modules/calendar-connection/calendar-connection.repository.ts:89-113 | runs of nothing but callbacks with other nonces change no row |
| CalendarRuns.StraysDoNotInterfere | src/modules/calendar-connection/calendar-connection.repository.ts:60-164 | mixed in any way into real connects, such callbacks could be left out: same rows, same starts, same other callbacks |
| BookingClaim.Service.Stand | src/modules/auth-booking-signup/booking-claim.service.ts:119-133 | what a link is good for: the token, the ledger, the booking's address, the account on it |
| BookingClaim.Service.Spend | src/modules/auth-booking-signup/booking-claim-link.service.ts:111-120 | the ledger entry with the token's remaining seconds, rounded up and at least one |
| BookingClaim.Service.Claim | src/modules/auth-booking-signup/booking-claim.service.ts:89-102 | a claim by itself: accounts, ledger and reply |
| ClaimRuns.StandingTells | src/modules/auth-booking-signup/booking-claim.service.ts:119-133 | a link is dead exactly when it died, its booking does not stand, or it was found used with nobody proven on the address; asking changes no key |
| ClaimRuns.ClaimIsTold | src/modules/auth-booking-signup/booking-claim.service.ts:89-168 | invalid exactly for a dead link, to sign in exactly for a good one on a proven address; a failure changes no account and no key; what is made or taken over is the new account on a free address or the unconfirmed one on it |
| ClaimRuns.LedgerKeepsTheTimeLeft | src/modules/auth-booking-signup/booking-claim-link.service.ts:111-120 | the entry's time is the token's, rounded up by less than a second, and one second once that is past |
| ClaimRuns.StepKeepsAddressesUnique | src/db/schema/identity.ts:112-116 | no claim, sign-up, confirmation, deletion or change of address puts two live accounts on one address |
| ClaimRuns.SpendingUsesUp | src/modules/auth-booking-signup/booking-claim-link.service.ts:111-120 | what spend records outlives the token |
| ClaimRuns.UsedLinkMakesNothing | src/modules/auth-booking-signup/booking-claim.service.ts:119-133 | a used link, its ledger asked in time, makes nothing whatever became of its account |
| ClaimRuns.ClaimSucceedsExactlyWhen | src/modules/auth-booking-signup/booking-claim.service.ts:89-133 | a claim makes or takes over an account exactly when the token verifies, the booking names the address, no proven account has it and the ledger does not answer that it was used |
| ClaimRuns.UsedLinkReopens | src/modules/auth-booking-signup/booking-claim-link.service.ts:98-137 | a used link that still verifies works again exactly when no proven account has the address and its entry lapsed before it was asked |
| ClaimRuns.LateAnswerReopensALink | src/modules/auth-booking-signup/booking-claim-link.service.ts:98-137 | verified a millisecond before expiry and asked at expiry, it makes an account, or takes over a stranger's unconfirmed one |
| ClaimRuns.OneLinkTwoAccounts | src/modules/auth-booking-signup/booking-claim-link.service.ts:98-137 | from an empty ledger, all commands answered: claim, deletion, and a second claim asked about too late make two accounts |
| ClaimRuns.StepKeepsUsedUp | src/modules/auth-booking-signup/booking-claim-link.service.ts:111-137 | nothing else that happens makes a used link unused |
| ClaimRuns.UsedLinkStaysUsed | src/modules/auth-booking-signup/booking-claim.service.ts:89-133 | so it makes nothing over any run |
| ClaimRuns.OneLinkOneAccount | src/modules/auth-booking-signup/booking-claim.service.ts:89-168 | one link makes or takes over at most one account in any serial run, deletions and moves included |
| ClaimRuns.ClaimantOwnsTheAccount | src/modules/auth-signup/auth-signup.repository.ts:222-311 | after a success the address's one account has the claimant's password, is proven and holds only their session |
| ClaimRuns.ProvenAccountsAreSafe | src/modules/auth-booking-signup/booking-claim.service.ts:89-133 | an address with a proven account is never touched by a claim |
| ClaimRuns.RacesKeepAddressesUnique | src/modules/auth-booking-signup/booking-claim.service.ts:135-168 | not even when claims race |
| ClaimRuns.WriteSucceedsExactlyWhen | src/modules/auth-booking-signup/booking-claim.service.ts:135-168 | in a race a claim's write goes through exactly when what it found still holds, and otherwise changes nothing and is told to sign in |
| ClaimRuns.LoserIsToldToSignIn | src/modules/auth-booking-signup/booking-claim.service.ts:135-168 | of two racers that found the same, the second to write changes nothing and is told to sign in, whatever came between, while the first one's account stands proven |
| ClaimRuns.RacerStands | src/modules/auth-booking-signup/booking-claim.service.ts:119-133 | what a racing claim is told when it asks, and what it goes on with |
| ClaimRuns.RacerUsesUp | src/modules/auth-booking-signup/booking-claim-link.service.ts:111-120 | a racing claim that made an account uses its link up when the ledger answers, and keeps its answer |
| Sessions.Store.Open | src/modules/auth/auth.repository.ts:95-108 | the new session is found at every moment before its time to live is over and at none from then on |
| Sessions.Store.RevokeSession | src/modules/auth/auth.repository.ts:110-117 | the session is not found any more; a first revocation keeps its time |
| Sessions.Store.Find | src/modules/auth/auth.repository.ts:44-93 | the owner, exactly when the session is neither revoked nor lapsed |
| Sessions.Store.SignOutOwn | src/modules/auth-sessions/auth-sessions.repository.ts:32-52 | revokes one's own unrevoked row and says whether there was one |
| Sessions.Store.SignOutOthers | src/modules/auth-sessions/auth-sessions.repository.ts:55-75 | only the kept session stays on the page; the count is of rows revoked |
| Sessions.Store.ChangePassword | src/modules/auth-password/auth-password.repository.ts:198-250 | only the kept session stays, and the count is the other sessions the page showed |
| Sessions.Store.EndAllAccess | src/modules/access/access.repository.ts:534-605 | suspending or removing leaves the user no live session |
| Sessions.BulkCountIsTheOthersShown | src/modules/auth-sessions/auth-sessions.repository.ts:55-75 | the bulk count is the others shown exactly when no other unrevoked row has lapsed |
| Sessions.RunsOnlyAge | src/modules/auth/auth.repository.ts:95-117 | no run deletes a row, changes its owner or expiry, or undoes or restamps a revocation |
| Sessions.DeadSessionsStayDead | src/modules/auth/auth.repository.ts:44-117 | a dead session is never found again in any run on a clock that never goes back |
| Sessions.RunsKeepSame | src/modules/auth/auth.repository.ts:44-117 | two tables that agree on the unexpired rows agree for ever under the same events |
| Sessions.NarrowRevocationIsEnough | src/modules/auth-password/auth-password.repository.ts:215-245 | revoking only unexpired rows leaves, after any events, the live set revoking all of them would |
| Sessions.ResetSignsEveryoneElseOut | src/modules/auth-password/auth-password.repository.ts:198-250 | after a password change whoever is signed in is the kept device or signed in since |
| Sessions.OwnEventsTouchOwnRows | src/modules/auth-sessions/auth-sessions.repository.ts:32-75 | a member's own revocations change nobody else's row |
| Sessions.SignedInUntilItLapses | src/modules/auth/auth.repository.ts:44-108 | a new session is its owner's at every moment before now + ttl and found at none from then on; no other row changes |
| Sessions.ShownIsFound | src/modules/auth/auth.repository.ts:44-93 | the pages show, and a refresh finds, exactly the unrevoked sessions before their expiry |
| Sessions.EventsRevokeExactly | src/modules/auth/auth.repository.ts:110-117 | for every event and every row, exactly whether it is revoked then; nothing else on it changes |
| Sessions.SparedSessionsStay | src/modules/auth/auth.repository.ts:44-117 | a session no event of a run signs out is found just as if nothing had happened |
| Bits.HighBitsDoNotMatter | src/common/crypto/totp.ts:12-43 | bits above those asked for make no difference: the accumulator needs no mask |
| Bits.ShiftIn | src/common/crypto/totp.ts:17-17 | shift left and or appends bits to the pending ones, also after the word has overflowed |
| Bits.ShiftOut | src/common/crypto/totp.ts:19-22 | shift right and mask takes the first pending bits and leaves the rest |
| Base32.SymbolsAreTheAlphabet | src/common/crypto/totp.ts:3-3 | a symbol is its place in the alphabet string, and lookup inverts it |
| Base32.Base32Encode | src/common/crypto/totp.ts:12-26 | the unmasked 32-bit loop emits the encoding of RFC 4648 section 6 without padding |
| Base32.WriteGroups | src/common/crypto/totp.ts:19-22 | the inner loop leaves under five pending bits and has written all the others |
| Base32.Base32Decode | src/common/crypto/totp.ts:28-43 | the loop yields the whole octets of the characters' bits |
| Base32.EncodingSpellsTheMessage | src/common/crypto/totp.ts:12-26 | an encoding is alphabet characters spelling the message's bits and under five zeros |
| Base32.EncodingLength | src/common/crypto/totp.ts:12-26 | it has ⌈8n/5⌉ characters |
| Base32.GroupsUnique | src/common/crypto/totp.ts:12-26 | no other alphabet text spells the same bits |
| Base32.OctetsOfOctetBits | src/common/crypto/totp.ts:28-43 | octets read back from their bits, leftover bits dropped |
| Base32.DecodeOfEncode | src/common/crypto/totp.ts:12-43 | the round trip, for every byte sequence |
| Base32.DecodingIgnoresDecoration | src/common/crypto/totp.ts:32-34 | decoding depends only on the alphabet characters, in either case |
| Base32.SeparatorsAndCaseAreHarmless | src/common/crypto/totp.ts:32-34 | separators inserted anywhere and letter case make no difference |
| Base32.AnyCaseDecodes | src/common/crypto/totp.ts:28-43 | an encoding typed in small letters, or any mixture, decodes to the message |
| Base32.EncodeOfDecode | src/common/crypto/totp.ts:12-43 | a text encodes back to itself exactly when it is canonical |
| Decimal.ReadOfPrint | src/common/crypto/totp.ts:78-78 | a printed number reads back |
| Decimal.PaddedReadsTheSame | src/common/crypto/totp.ts:78-78 | padding with zeros does not change what is read |
| Totp.StepsAreDifferentMessages | src/common/crypto/totp.ts:69-70 | two steps are the same eight bytes exactly when they are the same step |
| Totp.StepsAreHalfMinutes | src/common/crypto/totp.ts:83-83 | a step is thirty seconds, and two moments use one message exactly when no half minute parts them |
| Totp.MessagesAreBigEndian | src/common/crypto/totp.ts:69-70 | the message is eight bytes that read, most significant first, as the half minutes since 1970 |
| Totp.OffsetInBounds | src/common/crypto/totp.ts:72-77 | the four bytes at the offset lie inside the digest |
| Totp.TruncationIsDynamic | src/common/crypto/totp.ts:72-77 | the truncation of RFC 4226 section 5.3: a non-negative 31-bit big-endian number |
| Totp.CodesAreSixDigits | src/common/crypto/totp.ts:68-79 | a code is six characters 0 to 9, spelling the truncation modulo a million |
| Totp.VerifyTotp | src/common/crypto/totp.ts:91-108 | the loop's verdict: six digits, and one of the three steps, or the range error |
| Totp.TriedFindsAny | src/common/crypto/totp.ts:100-107 | trying steps in turn accepts exactly when one of them matches, or fails on a negative one |
| Totp.NearbyCodesAreAccepted | src/common/crypto/totp.ts:82-108 | a code up to 30 seconds away is accepted exactly when the checking step is at least 1, else it throws |
| Totp.OnlyNearbyCodesAreAccepted | src/common/crypto/totp.ts:91-108 | accepted exactly when, from second thirty on, the digits are a code of one of the three steps; six digits before that throw, and anything else is refused |
| Totp.InsertedCharactersAreHarmless | src/common/crypto/totp.ts:96-97 | non-digits inserted anywhere do not change the verdict |
| Csv.CellReadsBack | src/common/csv/csv.ts:36-44 | each cell reads back to its neutralised text |
| Csv.RowReadsBack | src/common/csv/csv.ts:25-34 | each line reads back to its cells |
| Csv.TableReadsBack | src/common/csv/csv.ts:25-34 | lines of at least one column read back in order |
| Csv.ExportReadsAsWidened | src/common/csv/csv.ts:25-34 | whatever the widths, a table reads as if each empty line held one empty cell |
| Csv.ExportReadsBack | src/common/csv/csv.ts:25-44 | an export reads back to the same table exactly when every line has a column |
| Csv.TextIsInert | src/common/csv/csv.ts:13-44 | no text cell reads back led by one of the six formula characters: that text gains an apostrophe, and all other text reads back as it was |
| Csv.NumbersStayNumbers | src/common/csv/csv.ts:36-44 | numbers are printed as they are, a negative one too, and missing values as nothing |
| Csv.QuotedExactlyWhenNeeded | src/common/csv/csv.ts:36-44 | text is quoted exactly when it would run or holds a quote, a comma or a line break |
| Csv.ExportIsMarked | src/common/csv/csv.ts:25-34 | an export opens with U+FEFF and ends with a line feed |
| Slug.UniqueSlug | src/modules/auth-signup/auth-signup.repository.ts:314-325 | ends after at most one candidate more than there are taken slugs, with the first free name in order: the base itself when it is free, and never a slug in use when the query finds the base |
| Slug.CandidatesAreNumbered | src/modules/auth-signup/auth-signup.repository.ts:314-325 | the names tried are the base, then the base with -2 and so on in decimal |
| Slug.WildcardsOfLike | src/modules/auth-signup/auth-signup.repository.ts:318-318 | in the query's pattern `_` is any one character and an escaped `%` is itself |
| Slug.TakenCandidatesAreFew | src/modules/auth-signup/auth-signup.repository.ts:321-324 | n taken candidates need n taken slugs |
| Slug.FoundBasesAreFoundExtended | src/modules/auth-signup/auth-signup.repository.ts:315-318 | a base the LIKE query finds is found with anything after it |
| Slug.QueryFindsEveryClash | src/modules/auth-signup/auth-signup.repository.ts:315-319 | so for such a base testing the query's answer is testing the whole table |
| Slug.FreeExactlyWhenFound | src/modules/auth-signup/auth-signup.repository.ts:314-325 | no slug in use is ever returned exactly when the query finds the base itself, as it does every slugified base |
| Slug.PlainBasesAreFound | src/common/util/slugify.ts:9-18 | the query finds every base without a backslash, and so every base made of letters, digits and hyphens |
| Slug.NumbersRunOn | src/modules/auth-signup/auth-signup.repository.ts:313-325 | once one name is used the next search gives the next number |
| Migrator.Target.LastAppliedAt | src/db/migrator.ts:83-89 | the newest timestamp in the journal |
| Migrator.Target.ApplyOne | src/db/migrator.ts:90-101 | a migration's statements and its journal row, together or not at all, at whichever statement it fails |
| Migrator.Target.MigrateEach | src/db/migrator.ts:47-63 | commits the pending migrations in order up to the failure, statements and journal rows, and counts them when it finishes |
| Migrator.CommittedStatements | src/db/migrator.ts:90-101 | committing migrations executes all their statements, in order, after those before |
| Migrator.WhatIsPending | src/db/migrator.ts:54-57 | pending are exactly the listed migrations newer than the newest applied |
| Migrator.NewestIsTheMaximum | src/db/migrator.ts:83-89 | the newest timestamp is a maximum of the journal, and there is none exactly when it is empty |
| Migrator.RunExtendsThePrefix | src/db/migrator.ts:47-63 | from a prefix, a stopped run leaves a longer prefix |
| Migrator.RunsApplyAPrefix | src/db/migrator.ts:47-63 | after any stopped runs over a growing list, a prefix of it applied in order, each once: exactly its statements executed in order and one journal row each |
| Migrator.FinishedIsUninterrupted | src/db/migrator.ts:47-63 | a run that finishes leaves what one run on a fresh database leaves, every statement of the list executed once in order |
| Migrator.ResumableIffIncreasing | src/db/migrator.ts:54-57 | every stopping point can be resumed from exactly when timestamps strictly increase |
| Migrator.ResumingSkipsAStepDown | src/db/migrator.ts:54-57 | stopping before a timestamp that does not increase loses that migration |
| Migrator.NothingOlderIsEverApplied | src/db/migrator.ts:54-57 | later runs add only rows newer than all there were: a late merge is skipped for good |

## Left out

- LoginThrottle.FailuresAreBounded: for attempts run one after another with Redis answering and no success between them; `LoginRuns` covers attempts side by side and `AllowanceReturnsIffNoneLeavesBare` lost commands.
- LoginRuns.InterleavedFailuresAreBounded: with Redis answering and no success between the failures.
- LoginThrottle.UnlockedMeansAllowance: under the same conditions.
- ResendSerial.LockoutIsTemporary: for claims run one after another; with claims side by side the counter's lapse may be put off.
- AccessRuns.StaysManageable: for calls run one after another; checks and writes are separate transactions, so interleaved calls are not covered. So are `NoEscalation` and `TrailReproducesGrants`.
- ClaimRuns.OneLinkOneAccount: for serial claims, with the ledger answering the link's own claims before the token's expiry; `ClaimSucceedsExactlyWhen` is the exact condition for one claim.
- ResendStalls.ReleasesKeepTheirDistance: for budgets of two or more and cool-offs shorter than the window; a budget of one is spaced by its window.
- CalendarRuns.OneSavePerStart: with fresh nonces; and a disconnect between a callback's take and its save does not stop that save, so nothing is claimed of it.
- Csv.ExportReadsBack: recovers the neutralised text, not the original: two inputs can print to one text. Numbers are printed text.
- DoorRuns.ProjectionAgrees: about the door's own steps; refunds, voids and transfers write ticket status elsewhere and are only in the other door theorems.
- Base32.SeparatorsAndCaseAreHarmless: upper-casing of ASCII letters only.
- Slug.UniqueSlug: two registrations at once may pick one slug; the unique index that refuses the second is not modelled.
- Redis keeps whole seconds in the throttles and milliseconds in the booking claim; rounding of TTL below a second and client retries are not modelled.
- SHA-256 is free of collisions, link digests differ between links, nonces are fresh, and HMAC is any function to twenty bytes; argon2, AES-GCM, JWT signing and random bytes are inputs.
- E-mail addresses are compared as given, standing for one case of the case-insensitive column.
- One workspace per model of the door and of access; row-level security, tenants and the SQL driver are not modelled, a transaction is one step.
- Sessions revoked by suspending or removing a member are in `Sessions`, not in `Access`; device, address and order of the listing are left out.
- Attendance listing, search, paging, and tickets soft-deleted or of other types are left out.
- Audit wording and labels, role-name trimming, the order of key lists, and the exact text of error messages are left out.
- Keys outside the catalog cannot reach a save: the database's foreign key is a precondition.
- Time steps use integer division where the program divides floating-point numbers; for every instant a date can hold the floor is the same.
- The exchange with Google, the outbox and its mail, files, payments, rendering, controllers and guards are not part of this model.
