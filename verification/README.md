# Verification of the NeginAI core

A Dafny model of the stateful and algorithmic parts of the repository, with proofs of what they
are for. `dafny verify dfyconfig.toml` checks everything.

- **Command outbox** (`Outbox`, `OutboxStore`, `OutboxRuns`, `OutboxTiming`). A lease protocol for any
  number of workers: enqueue, claim, renew, succeed, fail, recover. `OutboxStore` is the store changed
  in place; `Outbox` says what each call does; `OutboxRuns` proves safety over whole runs, for every
  interleaving and every clock that never goes back, and `OutboxTiming` how much time passes in them.
- **Seller SQL rewriting** (`Query`, `Access`, `QueryCongruence`, `AccessReplace`, `AccessScope`,
  `AccessTheorems`, `AccessDecisions`, `AccessExamples`). A small query language (select, join, outer
  join, union, grouping, `IN` and `EXISTS` subqueries, common table expressions, derived tables) with
  an evaluator in three-valued logic, and the loop that replaces customer tables or refuses the
  statement. An accepted statement means on the whole database what the submitted one means on a
  database that holds the seller's customer rows and the reference tables and nothing else.
  `AccessDecisions` says in terms of the catalogue and of names which tables and rows those are.
- **Console operations** (`Control`, `ControlStore`, `ControlRuns`, `ControlSync`, `ControlEffects`,
  `ControlRefusals`, `ControlExamples`). Positions, permissions, personnel, saved views and branch
  rosters with revisions, soft deletes, receipts, an audit and the seeding step. Any run of repeated,
  reordered and failing deliveries leaves what applying each audited operation once leaves.
- **Business dates** (`Jalali`). The conversion against a day count that knows nothing of cycles.
- **Order cart** (`SaleUnits`, `UnitQuantities`, `Cart`), **one-edit matching** (`CloseToken`) and
  **route decoding** (`Polyline`) of the seller's page.
- **Identity** (`Auth`, `AuthStore`, `AuthRuns`, `AuthPasswords`). Sessions, one-time activation
  secrets, revocation, and which password opens an account.
- **Scheduled reports** (`Automation`, `AutomationStore`, `AutomationRuns`, `AutomationTiming`). When a
  schedule comes round, how rows are claimed and how far apart, and when an alert is sent.

Code that changes rows, fields or inputs step by step is modelled by classes and loops
(`EnterpriseStore`, `ControlDatabase`, `IdentityStore`, `Scheduler`, `ProductCart`, and the methods
`GregorianToJalali`, `DecodePolyline`, `WithinOneEdit`, `EnforceSqlAccess`), each proved against a
function or a property of its input; the theorems are about those functions.

What the proofs turned up, each with the exact condition and an input where it happens:

- `recover_expired_leases` returns the number of new receipts. That is the number of commands it
  released exactly when none of them had lost a lease before (`OutboxRuns.RecoveryReport`); the second
  loss of one command is released and reported as 0 (`OutboxRuns.SecondLossIsNotReported`).
- The star check of `enforce_sql_access` looks at the statement as rewritten so far, and every
  replacement holds a star. `AccessTheorems.RefusedExactlyWhen` says when a statement is refused, and
  `AccessTheorems.SameStatementTwoAnswers` shows one statement that is refused or accepted by the
  order of its tables alone.
- The customer view decides about the seller's scope even where the catalogue restricts it: restricted
  and other unreadable tables cannot be told from any answer (`AccessDecisions.UnreadableIsUnobservable`),
  except that one (`AccessExamples.ScopeFollowsRestrictedView`).
- Up to the Gregorian year 1600 the conversion is out of phase: the exact days on which two dates
  become the same Jalali date are in `Jalali.ConsecutiveDaysCollide`, the skipped day at the turn of
  1601 in `Jalali.TurnOf1601`.
- Seeding fails exactly when, in the order of the accounts, one needs a position whose code belongs
  to another position: for default permissions, or for a record that neither the tables nor an
  earlier account bring (`ControlRuns.SeedingFailsExactlyWhen`). From then on every console operation
  is refused. Two ordinary operations lead there (`ControlExamples.TwoOperationsBlockTheConsole`); an
  account may also be blocked in appearance only (`ControlExamples.BlockedInAppearance`).
- Seeding separates an account from its position's title exactly in the cases of
  `ControlSync.SeedingKeepsSyncExactlyWhen`, for instance for a role that differs only in letter case
  (`ControlExamples.LetterCaseSeparates`).
- A step of a unit in the catalogue sends the new number through the text parser, which drops its
  sign: one step down from zero would ask for one, were the button not disabled there
  (`Cart.ProductCart.ChangeListUnitQuantity`).
- `run_due_automations` counts a notification before its transaction ends. The number it reports is
  exact exactly when no transaction fails at its end that was about to notify
  (`AutomationStore.Scheduler.RunDueAutomations`); `AutomationStore.ReportedButNotSent` is a pass that
  reports one notification and sends none.
- A run compares its decision with the copy of its row that was claimed. At every moment of a history
  the owner of a conditional automation has been alerted once for each turn of the condition exactly
  when every successful run that finds the condition true agrees with its row about whether it was true
  before (`AutomationRuns.AlertsMatchExactlyWhen`); `AutomationRuns.AlertsCounted` counts the alerts
  that are repeated or missed otherwise. Runs that keep within their lock do not overlap and so agree
  (`AutomationRuns.LocksKeepRunsApart`). In `AutomationRuns.TwoAlertsForOneTurn` a run outlives its lock
  and one turn is told twice, in `AutomationRuns.OneAlertForTwoTurns` a turn is never told.
- Two claims of an automation are a whole interval apart when a run of it is recorded between them, and
  only the quarter of an hour of the lock when none is (`AutomationTiming.ClaimsComeRound`,
  `AutomationTiming.RunsAloneComeRound`); `AutomationTiming.LongRunsComeEarly` is such a history for
  every interval.

## Model

| member | source | states |
|---|---|---|
| OutboxStore.EnterpriseStore.EnqueueCommand | app/enterprise_store.py:95-151 | inserts a command once per idempotency key, returns the stored one to an equal request and refuses another request under the key |
| OutboxStore.EnterpriseStore.ClaimCommand | app/enterprise_store.py:153-187 | leases the oldest claimable row that nobody has locked, raises its attempt count and names the worker; nothing happens when there is none |
| OutboxStore.EnterpriseStore.RenewCommandLease | app/enterprise_store.py:189-206 | extends the lease of a claim that still holds, and only then |
| OutboxStore.EnterpriseStore.MarkSucceeded | app/enterprise_store.py:207-241 | settles the command and appends a commit receipt only while the claim holds |
| OutboxStore.EnterpriseStore.MarkFailed | app/enterprise_store.py:243-287 | retry with back-off below the limit, dead letter at it, with a dispatch receipt, only while the claim holds |
| OutboxStore.EnterpriseStore.RecoverExpiredLeases | app/enterprise_store.py:289-314 | releases every expired lease, appends lease receipts, returns how many receipts were new |
| OutboxRuns.RowsOnlyMoveForward | app/enterprise_store.py:153-314 | in every run rows keep key, type, subject and payload, attempts never fall, and settled rows never change |
| OutboxRuns.LaterClaimHasHigherAttempt | app/enterprise_store.py:161-187 | a later claim of the same command has a higher attempt number, which is what fences the earlier one |
| OutboxRuns.AtMostOneClaimHolds | app/enterprise_store.py:219-227 | at no clock reading do two claims of one command pass the lease guard |
| OutboxRuns.OnceLostNeverHeldAgain | app/enterprise_store.py:189-227 | a claim that has stopped passing the guard never passes it again, whoever claims next |
| OutboxRuns.SettledAtMostOnce | app/enterprise_store.py:207-287 | a command is settled by at most one call of a run: never twice, never both success and dead letter |
| OutboxRuns.SettledRowIsFrozen | app/enterprise_store.py:207-287 | after it is settled the row stays exactly as it is |
| OutboxRuns.AttemptsCountClaims | app/enterprise_store.py:161-187 | the attempt count of a command is the number of its claims |
| OutboxRuns.ClaimsAndBackoffAreBounded | app/enterprise_store.py:243-314 | with one limit m: at most m claims plus one per expired lease, and at most 2^m - 2 seconds of back-off for m up to 12 |
| OutboxRuns.BackoffWithoutExpiries | app/enterprise_store.py:243-275 | without expiries a dead letter was claimed exactly m times and waited exactly that long |
| OutboxRuns.DelayIsCapped | app/enterprise_store.py:254-256 | the delay doubles with each attempt up to 2048 seconds, so the written limit of 3600 is never reached |
| OutboxTiming.RetryWaits | app/enterprise_store.py:254-262 | a failed command is free again exactly from its delay after the failure on |
| OutboxTiming.NewAndReleasedAreFree | app/enterprise_store.py:95-151 | new commands are free at once, and so are released ones |
| OutboxTiming.LeaseLasts | app/enterprise_store.py:161-206 | a claim or renewal passes the guard exactly for the seconds asked for; after that the command is expired, and meanwhile it is not free |
| OutboxTiming.BackoffPasses | app/enterprise_store.py:243-275 | in every run the last claim of a command comes at least the scheduled back-off after its first, and a waiting one is not free before |
| OutboxTiming.DeadLetterTookItsTime | app/enterprise_store.py:243-275 | without expiries at least 2^m - 2 seconds lie between the first and the last claim of a dead letter, for m up to 12 |
| OutboxTiming.LocksAlwaysMatch | app/enterprise_store.py:161-314 | in every reachable store exactly the commands under way are locked |
| OutboxTiming.RefusedExactlyWhen | app/enterprise_store.py:153-287 | for each call on a lease exactly when it is refused, and why, and exactly when it goes through |
| OutboxTiming.HoldersAgree | app/enterprise_store.py:219-227 | only the worker and the attempt on record pass the guard |
| OutboxTiming.FailureIsOnRecord | app/enterprise_store.py:256-283 | a failure leaves the beginnings of its code and message on the row, and a receipt of it |
| OutboxRuns.OneCommandPerKey | app/enterprise_store.py:95-151 | after any run the store holds the first accepted request of every key, and each key was answered "created" exactly once |
| OutboxRuns.SameKeySameCommand | app/enterprise_store.py:113-151 | two accepted calls with one key name the same command and made the same request; the later one created nothing |
| OutboxRuns.ConflictingReuseChangesNothing | app/enterprise_store.py:135-145 | a key is refused exactly when it belongs to another request, and reuse never changes the store |
| OutboxRuns.ReceiptsAlwaysMatch | app/enterprise_store.py:207-314 | receipts tell the story of their row: a commit receipt exactly for succeeded rows, a lease receipt exactly after an expiry |
| OutboxRuns.ReceiptsNeverChange | app/enterprise_store.py:207-314 | a receipt once written stays as it is in every longer run |
| OutboxRuns.CommitReceiptIsTheSettlement | app/enterprise_store.py:207-241 | the commit receipt of a command is for ever what the call that settled it reported |
| OutboxRuns.RecoveryReport | app/enterprise_store.py:289-314 | recovery releases exactly the expired rows and leaves none; its answer counts them exactly when none had a lease receipt already |
| OutboxRuns.SecondLossIsNotReported | app/enterprise_store.py:289-314 | enqueue, claim, recover, claim, recover: the second recovery releases the command and reports 0 |
| Access.EnforceSqlAccess | app/access_control.py:507-572 | the check and the replacement loop compute the specified answer for every statement and every order of its tables |
| Access.SecureTables | app/access_control.py:534-566 | the loop body: refuse, pass or replace each physical table in turn, looking at the statement as rewritten so far |
| Access.PhysicalTablesAre | app/access_control.py:520-530 | the tables looked at are exactly those that do not name a common table expression |
| AccessScope.ScopeSubqueryMeans | app/access_control.py:464-475 | being in the scope subquery is being in the seller's set of customers, by number or by code |
| AccessScope.ScopeConditionMeans | app/access_control.py:478-504 | the condition in a replacement holds exactly for the seller's rows, on the sales views without the external dealers and supervisors |
| AccessScope.ReplacementReadsRestrictedTable | app/access_control.py:478-504 | wherever it stands, a replacement reads in the whole database what the table reads in the restricted one |
| AccessReplace.QueryTwice | app/access_control.py:534-566 | replacing one more table after others is replacing them all at once |
| AccessTheorems.LoopReplacesAtOnce | app/access_control.py:534-566 | the loop one table at a time amounts to one simultaneous replacement, and accepts when no table is refused |
| AccessTheorems.AcceptedStatement | app/access_control.py:515-566 | an accepted statement names no forbidden column, and every physical table in it was either replaced or is a whole table that it may read |
| AccessTheorems.SellerSeesRestrictedDatabase | app/access_control.py:507-572 | the returned statement on the whole database answers what the submitted one answers on the seller's database: own customers, whole reference tables, nothing of any other table |
| AccessTheorems.NothingElseIsObservable | app/access_control.py:515-566 | databases with the same rows of customers in scope and of reference tables, forbidden columns aside, give an accepted statement the same result, whatever else differs in rows out of scope, refused tables and uncatalogued ones |
| AccessTheorems.AcceptedExactlyWhen | app/access_control.py:515-566 | a statement gets through exactly when it names no forbidden column and the loop accepts its tables |
| AccessTheorems.RefusedExactlyWhen | app/access_control.py:515-566 | a statement is refused exactly when it names a forbidden column, reads a table that is not allowed, or, without a star of its own, reads a table with a forbidden column after a replaced one |
| AccessTheorems.SameStatementTwoAnswers | app/access_control.py:534-566 | one statement, refused when its tables are listed one way and accepted the other way |
| AccessTheorems.OrderDecidesStarCheck | app/access_control.py:544-566 | exactly when tables that are each allowed are refused together because of their order |
| AccessDecisions.RefusedByNames | app/access_control.py:507-566 | in terms of catalogue entries and names alone: when a statement is refused |
| AccessDecisions.AcceptedStatementObeys | app/access_control.py:515-566 | in an accepted statement no table is restricted or unlisted, each table that holds customers stands replaced by its scope column, and all else is as submitted |
| AccessDecisions.ScopeColumnIs | app/access_control.py:393-414 | the scope column is the first listed name that the table has, the last column of that name, and there is none exactly when no name fits |
| AccessDecisions.ComparedByGuid | app/access_control.py:464-475 | a customer is compared by its global identifier exactly when the scope column is one |
| AccessDecisions.RestrictedRowsAre | app/access_control.py:478-504 | which rows a seller reads: of readable tables with customers those of customers of the branch and line, by the right identifier and without outside dealers, of other readable tables all, of the rest none |
| AccessDecisions.UnreadableIsUnobservable | app/access_control.py:542-543 | whatever stands in restricted and other unreadable tables, accepted statements answer the same |
| AccessDecisions.MarkersAreFound | app/access_control.py:264-271 | a forbidden word in the name of a column is found anywhere, in capitals and through other characters |
| AccessExamples.ScopeFollowsRestrictedView | app/access_control.py:464-475 | one accepted statement with two answers on databases that differ only in a customer view that is restricted |
| QueryCongruence.QueryAgrees | app/access_control.py:507-572 | statements that differ only in tables which read alike have the same result, correlated subqueries and outer joins included |
| ControlStore.ControlDatabase.UpsertPosition | app/control_service.py:338-371 | creates, edits or restores a position at its own revision and carries a new title to the linked accounts |
| ControlStore.ControlDatabase.ReplacePermissions | app/control_service.py:374-406 | replaces the links of a live position and raises its revision |
| ControlStore.ControlDatabase.UpsertPersonnel | app/control_service.py:409-466 | creates, edits or restores a personnel record, never moving a linked account, and updates that account |
| ControlStore.ControlDatabase.UpsertView | app/control_service.py:469-585 | creates, edits or recycles a saved view, clearing other defaults |
| ControlStore.VisibleColumns | app/control_service.py:482-491 | the columns of a view in the order of their first mention, or nothing when one is unknown |
| ControlStore.ColumnFilters | app/control_service.py:492-502 | the filters with a value, or nothing when a column is unknown |
| ControlStore.RosterMembers | app/control_service.py:594-608 | the listed people each once, exactly when every number is a personnel number |
| ControlStore.ControlDatabase.ReplaceBranchRoster | app/control_service.py:588-634 | reassigns the branch in place against the shared revision |
| ControlStore.ControlDatabase.DeletePosition | app/control_service.py:656-673 | soft delete of a position without live personnel |
| ControlStore.ControlDatabase.DeletePersonnel | app/control_service.py:674-694 | soft delete of a record that is not one's own, deactivating and revoking its account |
| ControlStore.ControlDatabase.DeleteView | app/control_service.py:640-655 | soft delete of one's own view |
| ControlStore.ControlDatabase.EnsureDefaults | app/control_service.py:88-150 | the seeding loop over the accounts is the seeding function, or fails where it fails |
| ControlStore.ControlDatabase.ApplyOperation | app/control_service.py:698-773 | one transaction: applied, replayed from its receipt, or everything taken back, seeding included |
| ControlStore.ControlDatabase.SyncOperations | app/control_service.py:776-803 | between 1 and 100 operations, each answered on its own as if delivered one by one |
| ControlRuns.SeedingTwiceIsSeedingOnce | app/control_service.py:88-150 | seeding only adds rows, and seeding a seeded console adds none |
| ControlRuns.RunIsItsAudit | app/control_service.py:698-803 | after any run the seeded tables, the receipts and the audit are those of applying each audited operation once, in audit order, with seeding in between |
| ControlRuns.ReceiptsAreTheAudit | app/control_service.py:756-773 | receipts and audit list the same operations, each exactly once |
| ControlRuns.UnappliedDeliveryIsHarmless | app/control_service.py:723-733 | a delivery that is replayed, conflicting or invalid can be left out of any run without changing any later answer, the audit, the receipts or the seeded tables |
| ControlRuns.ReceiptAnswers | app/control_service.py:725-733 | a receipt on record is the answer, whatever the operation says, unless the call is refused outright |
| ControlRuns.NoUpdateIsLost | app/control_service.py:332-466 | the operations applied to one position, record or branch state started from consecutive revisions: none was the base of two |
| ControlRuns.AppliedOperationCounts | app/control_service.py:332-694 | an applied operation started from the current revision of its counter, raises it by 1 and no other |
| ControlRefusals.AppliedExactlyWhen | app/control_service.py:338-763 | a delivery is applied exactly when its identifiers are well formed, seeding succeeds, it has no receipt and it fits the seeded rows; for every kind of operation what that means |
| ControlRefusals.UpsertPersonnelExactlyWhen | app/control_service.py:409-466 | when a personnel record is written: fields that fit, a live position, an account that is there and is kept, a code and an account of its own |
| ControlRefusals.UpsertViewExactlyWhen | app/control_service.py:469-585 | when a view is written: settings that fit, new or one's own at its revision, no other live view of the name |
| ControlRefusals.ConflictMeansStale | app/control_service.py:332-337 | a conflict is reported only for another revision than the present one |
| ControlEffects.DeliveryChangesAccount | app/control_service.py:409-466 | an applied deletion of a record deactivates its account and revokes it once, a written record puts its fields on its account, and no delivery changes an account otherwise |
| ControlEffects.RevocationsCountDeletions | app/control_service.py:674-694 | after any run an account has been revoked once for each applied deletion of its records, and is active as the last deletion or writing of one has it |
| ControlEffects.DeletedAccountStaysInactive | app/control_service.py:674-694 | the account of a deleted record stays inactive until a record of it is written again |
| ControlEffects.AppliedIsAsAsked | app/control_service.py:338-694 | an applied operation leaves its row with the fields that were asked for, or deleted |
| ControlEffects.WrittenViewIsExact | app/control_service.py:513-585 | which row a view is written to, a deleted one of its name included, and that only other defaults of the user change besides |
| ControlEffects.DeletedViewIsExact | app/control_service.py:640-655 | the deleted view is no default any more, and no other view changes |
| ControlEffects.DeletedStaysDeleted | app/control_service.py:88-150 | in every run a deleted position or record stays deleted until it is written again, seeding included |
| ControlEffects.SeededAccountsHoldPermissions | app/control_service.py:100-150 | after seeding the positions of administrators and sellers hold their default permissions |
| ControlEffects.SeededPositionIsTitled | app/control_service.py:104-113 | a seeded position has the role for its title, or says that there is none |
| ControlEffects.CleanedColumns | app/control_service.py:482-491 | the columns of a view are exactly those mentioned, in the order of first mention, and are refused exactly when one is unknown |
| ControlEffects.CleanedFilters | app/control_service.py:492-502 | the filters of a view are the last values that are not blank, refused exactly for an unknown name or a value too long |
| ControlRuns.SeedingFailsExactlyWhen | app/control_service.py:100-150 | seeding fails exactly when an account, in order, needs a position whose code is taken: for its permissions, or for a record that is not there by its turn |
| ControlRuns.BlockedConsoleRefusesEverything | app/control_service.py:100-150 | seeding fails only when an account is blocked by a taken code, exactly then when accounts share no identifier, code or name, and always when it needs permissions; from then on nothing changes any more |
| ControlExamples.TwoOperationsBlockTheConsole | app/control_service.py:338-371 | a new position under a legacy code and a renamed one: both applied, and every later delivery refused |
| ControlExamples.BlockedInAppearance | app/control_service.py:100-150 | a blocked account that another account's record covers: seeding succeeds |
| ControlRuns.SeedUserFailsExactlyWhenBlocked | app/control_service.py:100-150 | when seeding one account breaks a foreign key |
| ControlSync.HandlersKeepSync | app/control_service.py:338-466 | every handler keeps live personnel on live positions, one record per account, and linked accounts equal to their record and position title |
| ControlSync.SeedingKeepsSyncExactlyWhen | app/control_service.py:100-150 | exactly when seeding an account keeps that |
| ControlExamples.LetterCaseSeparates | app/control_service.py:104-150 | an account with role "R" is seeded under the position "r" and no longer has its title |
| ControlSync.HandlersKeepLinks | app/control_service.py:409-466 | once an account is linked to a record no operation unlinks it |
| ControlSync.RunsKeepSync | app/control_service.py:698-803 | with every account linked, no run of deliveries separates accounts from their records |
| ControlSync.FirstSeedingLinksEveryAccount | app/control_service.py:88-150 | on a console without rows, with presentable accounts, the first seeding succeeds, links every account and leaves everything in step |
| ControlSync.PresentableConsolesStayInSync | app/control_service.py:698-803 | from there on no run of deliveries separates accounts from their records |
| ControlSync.RunsKeepReferences | app/control_service.py:338-694 | codes stay unique, permissions known and personnel on positions that exist, in every run |
| ControlSync.ReplacedPermissionsAreExact | app/control_service.py:374-406 | a position gets exactly the listed permissions, all others keep theirs |
| ControlSync.RunsKeepViews | app/control_service.py:513-585 | in every reachable state one live default view per user at most and no two live views of one name |
| ControlSync.ReplacedRosterIsExact | app/control_service.py:588-634 | the branch holds exactly the listed people, who leave the other branches; nobody else moves |
| Jalali.GregorianToJalali | app/business_time.py:10-43 | the step-by-step conversion computes the closed form |
| Jalali.ConversionKeepsDayNumber | app/business_time.py:10-43 | after 1600 the result is a valid date with the same day count under the 33-year rule |
| Jalali.ConversionKeepsOrder | app/business_time.py:10-43 | the order of dates is kept, in both directions |
| Jalali.ConversionKeepsSuccessor | app/business_time.py:10-43 | the next day becomes the next day, across month and year ends |
| Jalali.ConsecutiveDaysCollide | app/business_time.py:15-24 | up to 1600: exactly which days become the same date as the day after |
| Jalali.TurnOf1601 | app/business_time.py:15-24 | where the two branches meet, at the turn of 1601, one Jalali day is skipped |
| Jalali.FormattedSorts | app/business_time.py:54-56 | formatted dates compare as text as the dates do |
| Jalali.BusinessDatesSortChronologically | app/business_time.py:10-56 | the texts of two business dates sort as their days do |
| CloseToken.WithinOneEdit | assistant.js:5621-5631 | the two-pointer loop answers exactly whether the edit distance is at most 1 |
| CloseToken.CloseToken | assistant.js:5617-5632 | equality, containment, the phonetic match and the one-edit rule for tokens of at least four letters |
| CloseToken.FirstMismatchDecides | assistant.js:5621-5631 | skipping greedily at the first mismatch loses nothing |
| Polyline.DecodePolyline | assistant.js:1610-1623 | the decoding loop with 32-bit shifts computes the specified points for every input |
| Polyline.RoundTrip | assistant.js:1610-1623 | decoding an encoded list gives the list back exactly when every step fits the shifts |
| Polyline.NumberRoundTrip | assistant.js:1612-1620 | one zig-zag number in groups of five bits is read back |
| SaleUnits.SaleUnitsOf | assistant.js:3246-3264 | the listed units, each once, a base unit and a carton exactly when their factor is not listed, by size and then by name |
| SaleUnits.KeyTellsFactor | assistant.js:3346-3348 | units with equal keys have equal factors, whatever their names contain |
| SaleUnits.NamelessUnits | assistant.js:3252-3253 | a listed unit without a name is the base unit for factor 1 and some sale unit otherwise |
| UnitQuantities.SplitWeighsTheTotal | assistant.js:3389-3401 | the split after a clamp weighs exactly the total and leaves no unit that a larger one could take over |
| UnitQuantities.HealedQuantitiesMatch | assistant.js:3415-3438 | whatever is stored, the quantities read back weigh what is in the cart, touching only the base unit while that is possible |
| UnitQuantities.BreakdownRoundTrip | assistant.js:3266-3285 | breaking down and adding up are inverse, and in the other direction exactly for pieces below a carton |
| UnitQuantities.InvoiceQuantitiesWeigh | assistant.js:3330-3339 | what the invoice editor stores weighs its cartons and pieces |
| Cart.ParseOfDecimal | assistant.js:3440-3446 | a number written and read again loses its sign and nothing else |
| Cart.ParseInAnyDigits | assistant.js:3440-3446 | a number is read back whether its digits are latin, Persian or Arabic |
| Cart.ParseSkipsAnywhere | assistant.js:3440-3446 | what is not a digit is skipped, wherever it stands |
| Cart.ProductCart.Normalize | assistant.js:3389-3401 | the loop stores the split, largest unit first |
| Cart.ProductCart.ReadBack | assistant.js:3415-3438 | reading back repairs what is stored and is stable |
| Cart.NothingStoredShowsBase | assistant.js:3415-3438 | a cart for which no unit was ever typed is shown in base units |
| Cart.ProductCart.AddLine | assistant.js:3676-3737 | adds whole amounts up to the stock |
| Cart.ProductCart.SetProductQuantity | assistant.js:6361-6370 | the cart takes the quantity or the whole stock, and says which |
| Cart.ProductCart.ChangeProductQuantity | assistant.js:6372-6396 | the row follows the change, is cut at the stock and goes at zero |
| Cart.ProductCart.SetListUnitQuantity | assistant.js:3456-3466 | what is typed for a unit is shown for it and the others stay, unless the stock cuts the total |
| Cart.ProductCart.ChangeListUnitQuantity | assistant.js:3468-3472 | a step of a unit, through text without a sign |
| Cart.ProductCart.AddVoiceLine | assistant.js:5823-5852 | a spoken line is added in full or refused, and whole amounts show under the unit that was named; a missing stock is 0 |
| Cart.ProductCart.ApplyInvoiceEditors | assistant.js:3312-3344 | cartons and pieces as typed, or worked out again from the total that the stock allows |
| Cart.ProductCart.StepInvoice | assistant.js:3729-3735 | the buttons beside the invoice editors |
| Cart.StepsComeBack | assistant.js:3729-3735 | steps of an editor cancel, and stop at zero |
| Cart.ProductCart.ShownWeighsTheCart | assistant.js:3415-3438 | in every valid state the shown quantities weigh the cart, which is within the stock |
| Cart.ProductCart.PerformAll | assistant.js:3246-3472 | after any edits of any kind in any order the cart is between nothing and the stock, and the shown quantities weigh it |
| AuthStore.IdentityStore.RevokeSecurityState | app/auth_service.py:68-85 | one more generation, every grant dead, every secret used |
| AuthStore.IdentityStore.UpsertUserHash | app/auth_service.py:138-166 | writes a password and revokes the account if it was there |
| AuthStore.CheckBatch | app/auth_service.py:197-211 | the validation loop accepts exactly the batches with proper and different names and numbers |
| AuthStore.IdentityStore.ProvisionUsers | app/auth_service.py:173-321 | the whole batch or nothing, with its counts and secrets |
| AuthStore.IdentityStore.ActivateUser | app/auth_service.py:324-373 | a usable secret sets the password and revokes everything else of the account |
| AuthStore.IdentityStore.ChangeOwnPassword | app/auth_service.py:427-449 | a verified change sets the password and revokes the account |
| AuthStore.IdentityStore.CreateSession | app/auth_service.py:468-477 | a session carries the present generation and ends in eight hours |
| AuthStore.IdentityStore.SessionUsername | app/auth_service.py:480-508 | whom a session speaks for |
| AuthRuns.GenerationCountsRevocations | app/auth_service.py:68-99 | the generation of an account counts its revocations and nothing else moves it, batches included |
| AuthRuns.SessionAcceptedExactlyWhen | app/auth_service.py:468-508 | after any run a session is accepted exactly when it has not expired, no revocation of its user came since, and the account is active |
| AuthRuns.RevokedSessionIsNeverAccepted | app/auth_service.py:68-99 | a session minted before a revocation is rejected at every later time |
| AuthRuns.RevokedCredentialsStayRevoked | app/auth_service.py:68-85 | grants and secrets from before a revocation never work again, whether the account was revoked directly, by a password change, an activation, an upsert or a new provisioning |
| AuthRuns.RunIsGood | app/auth_service.py:244-311 | in every reachable state each account has at most one unused secret, and nothing revoked or used comes back |
| AuthRuns.SecretWorksAtMostOnce | app/auth_service.py:324-373 | in every run each secret succeeds at most once |
| AuthRuns.EveryIssuedSecretWorks | app/auth_service.py:293-311 | after a batch each of its secrets activates its own account, until it expires |
| AuthRuns.ProvisionedAccountHasNoPassword | app/auth_service.py:248-292 | between provisioning and activation no password logs in or can be changed |
| AuthPasswords.ChangedPasswordOpens | app/auth_service.py:427-449 | a change succeeds exactly when the old password logs in and the new one is another of 8 to 200 characters; then the new one logs in and no other |
| AuthPasswords.ActivatedPasswordOpens | app/auth_service.py:324-373 | after an activation the chosen password logs in and no other |
| AuthPasswords.UpsertedPasswordOpens | app/auth_service.py:138-166 | after an upsert its password logs in and no other, and none while the account is inactive |
| AuthPasswords.LastPasswordOpens | app/auth_service.py:138-449 | after any run an active account is opened by the password given last and by no other, and a name without an account by the configured pair only |
| AuthPasswords.BatchAccounts | app/auth_service.py:248-292 | each item of a batch becomes the account of its name with all it says, and other accounts stay as they are |
| AuthPasswords.ProvisionedExactlyWhen | app/auth_service.py:173-246 | when a batch is taken: no password in it, secrets from five minutes to a day, different names and numbers, each number free for its name |
| AuthPasswords.ValidUsernamesAre | app/auth_service.py:18 | names of 2 to 100 latin letters, digits, dots, underscores and dashes that begin with a letter |
| AuthPasswords.NumbersStayApart | app/auth_service.py:212-246 | in every reachable state a personnel number belongs to one account at most |
| AuthPasswords.NumbersAreForLife | app/auth_service.py:212-246 | no run takes an account's personnel number away or changes it |
| AuthPasswords.NumberedStayReadable | app/auth_service.py:197-211 | in every reachable state sessions can be kept under the names of provisioned accounts |
| AuthPasswords.BundleAddsUp | app/auth_service.py:248-321 | the counts of a report are the accounts added, the numbers given to old accounts, and the rest |
| AuthPasswords.BundleSecretsWork | app/auth_service.py:293-321 | each line of a report names an account and the secret that activates it until the bundle expires |
| Automation.CalculateNextRun | app/automation_service.py:65-91 | the calculation gives the instant at which the schedule comes round, or its error when it never does |
| Automation.FirstMatchIsFirst | app/automation_service.py:83-91 | the daily run is the earliest instant after the given one with the local time asked for |
| Automation.NextRunIsLater | app/automation_service.py:65-91 | the next run is later than now, or less than a minute past when the current minute is allowed |
| Automation.NextRunComesRound | app/automation_service.py:65-91 | the next run is the given minutes later, or the earliest instant after now with the local time asked for, and there is none exactly for a schedule that never comes round |
| AutomationStore.Scheduler.SelectDue | app/automation_service.py:345-351 | exactly the first due rows in order of their next run, as many as the limit allows |
| AutomationStore.Scheduler.ClaimDue | app/automation_service.py:337-360 | locks that batch for a quarter of an hour and hands over the rows as they were |
| AutomationStore.Scheduler.RecordRun | app/automation_service.py:505-606 | success or failure of one run, with the exception path and the roll-back, no trace at all when the failure cannot be recorded either, and exactly when it is counted as a notification |
| AutomationStore.Scheduler.RunDueAutomations | app/automation_service.py:486-607 | one pass: the batch is claimed and finished in order up to the first run whose failure cannot be recorded, without a report when there is one; what each counter of a report means; the notifications reported are those sent exactly when none was counted and rolled back |
| AutomationStore.StoppedBatchKeepsLocks | app/automation_service.py:584-606 | from the run that stops a pass on, claimed rows have no record and stay as they were, but locked |
| AutomationStore.ReportedButNotSent | app/automation_service.py:540-573 | a pass that reports one notification and sends none |
| AutomationStore.Scheduler.SetAutomationActive | app/automation_service.py:185-218 | switches an automation of its owner, unlocks it and works out its next run |
| AutomationStore.BatchFreesEveryRow | app/automation_service.py:505-607 | one record per claimed row, in order, and each row ends unlocked and due later than its run ended |
| AutomationRuns.AlertsAreRisingEdges | app/automation_service.py:518-521 | for runs that do not overlap, notifications are the successful true decisions whose previous successful decision was not true |
| AutomationRuns.AlertsMatchExactlyWhen | app/automation_service.py:505-574 | in every history, overlapping runs included: notifications are the turns of the condition at every moment exactly when each successful true run agrees with its row about the time before |
| AutomationRuns.AlertsCounted | app/automation_service.py:505-574 | in every history notifications and missed turns together are the turns and the repeated alerts; without a condition notifications are the successes |
| AutomationRuns.OverlappingRunsAlertTwice | app/automation_service.py:518-521 | two runs under way together that both find the condition true, on copies from before it was, alert twice for one turn at most |
| AutomationRuns.OverlappingRunsMissATurn | app/automation_service.py:518-521 | of two runs under way together on copies where the condition was true, a false one and then a true one: a turn without an alert |
| AutomationRuns.TwoAlertsForOneTurn | app/automation_service.py:337-360 | created, claimed, claimed again after the lock, both runs true: two notifications and one turn |
| AutomationRuns.OneAlertForTwoTurns | app/automation_service.py:337-360 | true, then two overlapping runs, false and true: one notification and two turns |
| AutomationRuns.EveryClaimIsRecordedOnce | app/automation_service.py:505-607 | every claim has exactly one run record, but for the runs under way and those that went down with their pass, whether or not runs overlap |
| AutomationRuns.FinishedRunFreesItsRow | app/automation_service.py:561-606 | a finished run leaves its row unlocked, due later than its end, and a failure changes neither the last decision nor the notifications |
| AutomationRuns.LocksKeepRunsApart | app/automation_service.py:337-360 | runs that end within their lock and are left alone by the owner do not overlap |
| AutomationTiming.FinishedRunIsDue | app/automation_service.py:521-606 | after a recorded run the row is due exactly from when its schedule comes round after the end of the run, or an hour later when a failed run has no valid schedule |
| AutomationTiming.RecordTellsTheRun | app/automation_service.py:525-606 | record and row say the same about a run, and what they say |
| AutomationTiming.QuietIsNotClaimed | app/automation_service.py:345-351 | no history claims an automation between its owner's pause and resumption, or after its deletion |
| AutomationTiming.OwnerSilences | app/automation_service.py:185-230 | what its owner pauses or deletes is quiet at once |
| AutomationTiming.OnlyOwnersChange | app/automation_service.py:185-230 | only the owner pauses, resumes or deletes an automation that is not deleted, and changes no other |
| AutomationTiming.OwnerStarts | app/automation_service.py:185-218 | a new or resumed automation is due exactly from when its schedule comes round, the current minute included |
| AutomationTiming.ClaimsComeRound | app/automation_service.py:337-360 | two claims of an automation left alone are more than the lock apart, and its schedule comes round between them when a run is recorded between them |
| AutomationTiming.RunsAloneComeRound | app/automation_service.py:337-360 | runs that do not overlap and are not abandoned are claimed a whole interval apart |
| AutomationTiming.LongRunsComeEarly | app/automation_service.py:337-360 | for every interval, a run that outlives its lock and a claim just after the lock |
| AutomationTiming.NoticesAreAddressed | app/automation_service.py:537-556 | in every history each notification goes to the owner of its automation under its title |
| AutomationTiming.NoticeTellsTheAnswer | app/automation_service.py:537-552 | a notification holds the answer, after the reason when there is a condition |

## Left out

- SQL text: parsing, printing and the order in which the parser lists tables are not modelled; a statement is a tree, the list of its tables is any list of exactly those tables, and the report of sources beside the result is left out.
- Query evaluation: `TOP`, ordering and the T-SQL functions are not in the language; results are sequences of rows, so equal results are equal as bags; a common table expression hides a table of the same unqualified name everywhere in a statement, as the code treats it.
- Table functions, pivots and other refusals of `authorize_catalogued_sql` that happen before seller access is enforced are not modelled.
- Text scope: the storage variants of branch and line names are a parameter of the policy.
- PostgreSQL and SQLite: engines, pools, crashes and isolation are not modelled; each outbox call and each console, identity or scheduler transaction is one atomic step with one clock reading, and a claim may skip any rows that others have locked.
- JSON payloads are compared as values; hashes and digests stand for what they are taken from.
- Letter case: `casefold` and the database's `NOCASE` are both the folding of latin letters, so they are not told apart for other alphabets.
- Console payloads whose JSON types are wrong are refused as unsupported; the catalogue of permissions is the fixed list of the source, without older rows; timestamps and the details of responses beyond the revision are not kept.
- ControlRuns.NoUpdateIsLost: not claimed for saved views, because recycling gives a row a new identifier and clearing defaults raises revisions of other rows.
- ControlRuns.RunIsItsAudit: accounts are fixed apart from what the operations do to them, because other parts of the system that write accounts are not deliveries.
- ControlStore.ControlDatabase.ApplyOperation: deleting a linked person sets up the identity tables by a script that commits what was written so far, before the receipt; a failure between the two is not modelled.
- Jalali.ConversionKeepsDayNumber: for years after 1600, because the other branch shifts by 621, which is not a multiple of 4; `ConsecutiveDaysCollide` says what that branch does.
- Time zones are constant offsets; clocks of the database and of the scheduler are parameters.
- Numbers of JavaScript are unbounded whole numbers, and reals where a spoken amount can be a fraction; loss of precision beyond 2^53 and exponent notation are not modelled.
- Cart: stock and units of a product stay fixed while it is edited; products do not share state and are modelled one at a time; the disabled state of buttons, rendering, prices and gift lines are left out.
- Cart.ProductCart.AddVoiceLine: a stock that is not a number stands for such a text only; a missing one is 0, as the source makes it.
- The collation of unit names is a parameter (`rank`); catalogue factors are whole numbers.
- CloseToken.CloseToken: the phonetic cross-script comparison is a parameter, because its transliteration tables are data.
- Polyline: coordinates stay in units of 1e-5 degree; the final division is not modelled.
- Cryptography: tokens and secrets are unforgeable records, a password hash is the password it was made from, and a placeholder matches no password.
- AuthStore.IdentityStore.UpsertUserHash: hashes of an unknown format, which the source refuses, have no counterpart.
- AuthStore.IdentityStore.ProvisionUsers: the activation sink and its failure are not modelled, because the table set-up may commit early.
- AuthStore.IdentityStore.ChangeOwnPassword: reading the account and changing it are one step, although the source uses two connections.
- AutomationRuns.AlertsAreRisingEdges: only for runs that do not overlap; `AlertsMatchExactlyWhen` and `AlertsCounted` hold for all histories.
- Reports, condition evaluators, push messages and subprocesses are parameters of a run; creating automations from chat is left out.
- Model calls, prompts, routing, chat, maps, audio, geometry, navigation, launchers and configuration: plumbing that would only add easy members.
