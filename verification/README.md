# CxCreditGuard: a verified model of its control loop

CxCreditGuard polls the AI credit consumption of a Checkmarx One tenant, compares it with budgets per
user, group, project and application, and restricts access on a breach in a way that can be undone.
This project models that loop in Dafny and proves what it promises, and where it does not keep a
promise, exactly when it does. `dafny verify dfyconfig.toml` checks everything.

## How it is built

- **Values and laws.** One enforcement step reads and writes a *site*: one target's part of the tenant
  and the mirror columns of its project row. `Enforcement` gives the steps as functions on a site and
  its row and lifts them to a whole `World`. `SiteLaws` says what one step does to tenant and mirror;
  `EnforcementLaws`, `UndoLaws` and `EnforcementRuns` prove what cycles, undos, stacks and arbitrary runs
  do; `RoundTripLaws` joins enforcing and lifting. `Evaluation` adds usage, periods and statuses, with
  `ReadingLaws`, `UsageLaws`, `StatusLaws`, `EvaluationLaws`, `ConvergenceLaws`, `RolloverLaws` and
  `LimitsService` about it.
- **The imperative code.** `Enforcer.Service` and `Evaluator.Service` are classes with the source's loops
  and branches; every method is proved to make exactly the new state those functions describe, so the
  laws hold of the methods. `Ingestion`, `Pinning`, `UserIndexing`, `Attribution`, `SubjectMatching`, `UserSync`,
  `Locking`, `Login`, `SnapshotRetention`, `Retention` and `LimitsCsv` pair loops and classes with
  specification functions in the same way.
- **The outside.** The tenant is three maps. A call either takes effect or fails without one; which calls
  fail is a parameter (`FaultPlan`, `Weather`). Looking up the identifier of the OAuth client belongs to the
  call that needs it: either failing has no effect. The order in which the database lists rows is a parameter
  wherever the source does not fix it. Clocks, password checks, the string ratio, and the notation of
  dates are parameters. Scores and credits are exact reals.

## Where the code differs from its documentation

The model follows the code. Each point is proved, most as an exact condition.

1. The docstring of `_close_stale_periods` promises that access is restored when a period ends. The next
   breached evaluation already overwrites the restricted status, and only that status is looked at, so a
   breach seen twice is never lifted by any later rollover (`RolloverLaws.RestrictionOutlivesItsPeriod`,
   `RolloverLaws.RolloverLiftsIff`, `RolloverLaws.NeverLiftedAgain`). The same happens when the rollover finds no
   connection (`RolloverLaws.ClosedWithoutAClient`).
2. When two restrictions overlap, undoing the earlier one lifts the target for both (`UndoLaws.LiftedForBoth`);
   a cycle then re-asserts the later one, and undoing that too leaves the user or project restricted for good, or
   unreadable severities at their default (`UndoLaws.OverlapUnwindsIff`). Without the cycle in between, undoing in
   any order is safe, except that severities come back only if the first restriction is undone last or the last
   one undone recorded them anyway (`UndoLaws.StackUnwinds`). So limits that share targets may need a second
   evaluation to converge, and that one suffices (`ConvergenceLaws.SecondEvaluationConverges`).
3. An undo is exact only with non-empty role ids, a non-empty auto-triage configuration and readable
   severities: an empty configuration comes back as the fallback (`UndoLaws.UndoIsExactIff`).
4. Deleting a limit promises that restrictions are lifted; without a connection they stay and no limit
   can reach them any more (`LimitsService.DeletionOrphansWithoutAClient`).
5. An exemption lifts only rows of the exempted entity's own limit, not those an application's or a group's
   limit placed on an exempted project (`LimitsService.ExemptionLiftsIff`).
6. A reading the tenant could not give still counts as zero for the baseline, after which everything ever
   reported counts as used (`UsageLaws.MissedReadingsEraseTheBaseline`).
7. A page whose rows all name nobody ends the paging of usage early (`Ingestion.FetchIsCompleteIff`); from a
   server that announces no page count, one such row on a full page does (`Ingestion.SilentFetchIsCompleteIff`).
8. Clearing a mapping shows the subject as unattributed until the next poll bills it to whomever the ladder
   finds (`Pinning.ClearNowIsClearLaterIff`); subject keys longer than the column disturb a pin
   (`Pinning.PinNowIsPinLaterIff`).
9. Custom period keys drop the time of day, so two custom windows on the same dates share their state
   (`Periods.CustomKeysNameDates`).
10. Nothing calls `heartbeat`, so a cycle longer than half an hour is joined by another one, and the
    holder id is one per process, so two runs in one process can clear each other's lock
    (`Locking.SilentHolderIsReplacedIff`, `Locking.MutualExclusionIff`).
11. Pruning a reversed row forgets that an administrator lifted the restriction, and the next breached
    cycle of a period still open puts it back (`Retention.PruningIsInvisibleIff`). Pruning the state of a
    period held until released makes that restriction permanent for the rollover
    (`Retention.PrunedHoldsAreForever`).
12. An import that updates a limit leaves out `count_existing_usage` (`LimitsCsv.UpdateTakesEffectIff`), and
    an exported limit with unused custom dates in the wrong order is refused on the way back
    (`LimitsCsv.UnorderedDatesRefuseTheExport`).
13. Automation reported among the users, such as Auto Triage, is said never to be attributed to a user limit.
    It is only left out of the review; a user with a matching name pays for it
    (`Attribution.SyntheticIsBilledToNobodyIff`, `Attribution.NamesakePaysForAutomation`).
14. Review rows are looked up under the whole subject key and stored under one cut to its column. A person with
    an over-long key who needs a review makes every poll after the first one fail
    (`Pinning.OverlongKeysStopPolling`).

## Model

| member | source | states |
|---|---|---|
| Enforcement.PlanMeans | backend/app/services/enforcement.py:131-174 | a plan holds exactly the changes a breach implies: the user itself, or every live, non-exempt project under the entity, each target once |
| SiteLaws.RefusedIff | backend/app/services/enforcement.py:398-472 | a change is refused exactly when a call it needs fails or there is no repository: reading always for roles and auto-triage, writing only when there is something to take away, severities always by a write |
| SiteLaws.ChangeMeans | backend/app/services/enforcement.py:398-472 | exactly the AI roles go, a switch goes off with its configuration kept, the severities of one repository are emptied; the snapshot holds what was taken |
| SiteLaws.RecordedSeverities | backend/app/services/enforcement.py:448-459 | the severities recorded are the ones read, else the non-empty cached ones, else the default |
| SiteLaws.ChangeIsMirrored | backend/app/services/enforcement.py:431-467 | after a change the project row says what the tenant says |
| SiteLaws.ReconcileMeans | backend/app/services/enforcement.py:480-553 | a verified restriction is left alone exactly when it is seen to hold or no repository is known, and is unverified exactly when a needed call fails |
| SiteLaws.ReassertMeans | backend/app/services/enforcement.py:480-553 | re-asserting takes away only AI roles, the switch and the severities of the one repository, and writes the configuration of the snapshot |
| SiteLaws.UndoMeans | backend/app/services/enforcement.py:663-724 | giving back adds exactly the recorded roles with id and name, switches on with the recorded or the fallback configuration, or writes the recorded severities of one repository, the default where none are recorded; the project row follows |
| SiteLaws.RepoIs | backend/app/services/enforcement.py:703-715 | a snapshot names its own repository, and the project row is asked only where it names none |
| SiteLaws.UndoneCanBeCutBlind | backend/app/services/enforcement.py:448-472 | after an undo a change that cannot read the severities records those the undo wrote, unless there were none |
| SiteLaws.AttemptsAreCounted | backend/app/services/enforcement.py:270-352 | attempts are counted exactly when something is tried, and neither the entity nor the limit of a row changes |
| EnforcementLaws.AttemptEnforces | backend/app/services/enforcement.py:238-366 | a verdict that says the restriction is in force is true of the tenant, whatever drift preceded it, and an applied row always carries a snapshot that fits its kind |
| EnforcementLaws.AttemptIsLocal | backend/app/services/enforcement.py:237-366 | one attempt moves its own row and its own target and nothing else |
| EnforcementLaws.RestoreIsLocal | backend/app/services/enforcement.py:584-660 | one restore moves its own row and its own target and nothing else |
| EnforcementLaws.AttemptKeepsInv | backend/app/services/enforcement.py:237-366 | every attempt keeps the invariant that applied rows can be undone |
| EnforcementLaws.RestoreKeepsInv | backend/app/services/enforcement.py:584-660 | every restore keeps that invariant |
| EnforcementLaws.CycleAt | backend/app/services/enforcement.py:234-366 | in a whole cycle each planned target ends exactly as one attempt on it alone would have left it |
| EnforcementLaws.CycleElsewhere | backend/app/services/enforcement.py:206-395 | a cycle never writes a target outside its plan, nor a row of another limit or period |
| EnforcementLaws.CycleKeepsInv | backend/app/services/enforcement.py:206-395 | a whole cycle keeps the invariant on rows |
| EnforcementLaws.FailuresAreIsolated | backend/app/services/enforcement.py:294-366 | failing calls on some targets leave every other target and verdict as if nothing had failed |
| EnforcementLaws.CycleIsIdempotent | backend/app/services/enforcement.py:234-395 | repeating a cycle over the same targets without drift changes no row, applies nothing and keeps everything in force whatever calls fail; when every target can be read it changes nothing at all |
| RoundTripLaws.EnforceIsIdempotent | backend/app/services/enforcement.py:206-395 | enforcing a limit again, planning anew, changes no row, role or auto-triage whatever calls fail, and nothing at all when the planned targets can be read |
| EnforcementLaws.RestingCycle | backend/app/services/enforcement.py:480-553 | a cycle over targets in force or settled, under any failures, changes no row, no roles and no auto-triage: only severities that cannot be read are written again |
| EnforcementLaws.WalkAt | backend/app/services/enforcement.py:727-751 | a restoring walk leaves each row exactly as one restore on it alone would |
| EnforcementLaws.WalkElsewhere | backend/app/services/enforcement.py:727-751 | a restoring walk leaves targets and rows it does not list alone |
| EnforcementLaws.WalkCompletes | backend/app/services/enforcement.py:727-751 | with no failing call a restoring walk never stops early and leaves none of its rows applied |
| UndoLaws.UndoIsExactIff | backend/app/services/enforcement.py:398-472 | restricting and undoing gives the tenant back exactly if and only if role ids are not empty, a switched-on auto-triage has a configuration, and the severities in the tenant are the ones read, or when they cannot be read the non-empty cached ones, or the default where none are cached |
| RoundTripLaws.EnforceThenLift | backend/app/services/enforcement.py:727-751 | enforcing a limit of any level under any failing calls and then lifting it by its own restoration query gives the tenant back, touches nothing outside the plan and leaves no row of the period in force |
| UndoLaws.FanOutRoundTrip | backend/app/services/enforcement.py:663-724 | any list of distinct changeable targets, all newly restricted and then undone in any permutation, comes back exactly with every row reversed |
| UndoLaws.SitesMakeTheTenant | backend/app/services/enforcement.py:663-724 | worlds that agree on every target agree on the whole tenant |
| UndoLaws.StackedSnapshots | backend/app/services/enforcement.py:406-472 | of several restrictions stacked on one target only the first records the original; the others record the restricted state, or the default severities where they cannot read them |
| UndoLaws.StackUnwinds | backend/app/services/enforcement.py:663-724 | roles and auto-triage come back under every order of undoing a stack; severities come back if and only if the first restriction is undone last, or the original is what the last one undone recorded: nothing when readable, the default otherwise |
| UndoLaws.OverlapLosesAccess | backend/app/services/enforcement.py:480-553 | undoing the earlier of two overlapping restrictions, a whole cycle, then undoing the later leaves what the later recorded: the target restricted with no applied row, or unreadable severities at the default |
| UndoLaws.LiftedForBoth | backend/app/services/enforcement.py:663-724 | undoing the earlier of two overlapping restrictions lifts the target although the later row still reads applied |
| UndoLaws.OverlapUnwindsIff | backend/app/services/enforcement.py:480-553 | with a whole cycle in between, two overlapping restrictions unwind to the original if and only if the later is undone first, or the original is what the later one leaves behind anyway, readable or not |
| EnforcementRuns.EveryEventMoves | backend/app/services/enforcement.py:234-366 | whatever the event, a row moves only along the coded transitions and the invariant is kept |
| EnforcementRuns.RunKeepsInv | backend/app/services/enforcement.py:206-395 | every applied row has a fitting snapshot after any interleaving of cycles, restores, foreign changes and deletions |
| EnforcementRuns.SettledForever | backend/app/services/enforcement.py:252-268 | a row reversed for any reason but an exemption is never applied again, in any run |
| EnforcementRuns.SnapshotIsWrittenOnce | backend/app/services/enforcement.py:480-553 | until it is undone an applied row keeps its status and the snapshot of its first application through any run |
| EnforcementRuns.OtherRolesUntouched | backend/app/services/enforcement.py:406-420 | no cycle, restore or deletion adds or removes a role outside the AI set for any user |
| EnforcementRuns.UndoAfterDrift | backend/app/services/enforcement.py:663-724 | after arbitrary drift, a re-asserted restriction and the original snapshot suffice to give back what was there first |
| EnforcementRuns.RecordedSnapshot | backend/app/services/enforcement.py:326-352 | at the end of any run without an undo of the row, the row still carries what its first application recorded |
| EnforcementRuns.ExactUndoOverRuns | backend/app/services/enforcement.py:237-290 | exact undo over runs: first application, any interleaving, a last enforcing cycle and a restore give back the AI roles, auto-triage or severities of just before the first application, and keep every other role as it is |
| EnforcementRuns.FirstApplication | backend/app/services/enforcement.py:326-352 | only a cycle that performs the change makes a row applied, and it records what it saw |
| IdempotencyKey.PrintIsInjective | backend/app/services/enforcement.py:89-93 | distinct limit, period, kind and target give distinct idempotency keys, so there is at most one row for each |
| Periods.KeysOfTypesDiffer | backend/app/services/periods.py:75-133 | period keys of different period types differ and never contain the separator of idempotency keys |
| Enforcer.EveryTargetLandsOnce | backend/app/services/enforcement.py:234-395 | every planned target of a cycle lands in exactly one of applied, reconciled, skipped and failed |
| Enforcer.AppliedList | backend/app/services/enforcement.py:216-232 | the applied list is non-empty exactly when some target was newly applied |
| Enforcer.ListsFollowVerdicts | backend/app/services/enforcement.py:234-395 | a target is on a list of the outcome exactly when its own verdict belongs there, skipped ones with their reason |
| Enforcer.Service.PlanTargets | backend/app/services/enforcement.py:131-174 | the target loops compute the plan |
| Enforcer.Service.Perform | backend/app/services/enforcement.py:398-472 | the tenant calls and mirror writes of one change make the world the change describes, and return its snapshot; a refused call changes nothing |
| Enforcer.Service.Reconcile | backend/app/services/enforcement.py:480-553 | verification of an applied row re-asserts it exactly when drift is seen, and never alters the row |
| Enforcer.Service.Undo | backend/app/services/enforcement.py:663-724 | replaying a snapshot makes the world the undo describes; when any of its calls fails nothing changes |
| Enforcer.Service.ChangeOne | backend/app/services/enforcement.py:270-366 | creating or reviving the row, counting the attempt, performing and recording the outcome amounts to one attempt |
| Enforcer.Service.ApplyOne | backend/app/services/enforcement.py:237-366 | one pass of the loop, in whichever branch, amounts to one attempt |
| Enforcer.Service.ApplyPlan | backend/app/services/enforcement.py:234-395 | the loop over the plan amounts to the cycle, and fills the four lists by its verdicts |
| Enforcer.Service.ApplyEnforcement | backend/app/services/enforcement.py:206-395 | an exempt entity changes nothing; otherwise the whole new state and all four lists are those of the planned cycle |
| Enforcer.Service.RestoreAction | backend/app/services/enforcement.py:584-660 | only an applied row is undone; a failing call leaves row and tenant as they were |
| Enforcer.Service.RestoreForLimit | backend/app/services/enforcement.py:727-751 | the walk over the applied rows of a limit restores them in the listed order, counts them, and stops at the first failure keeping what was done |
| EvaluationLaws.RestoreLimitClears | backend/app/services/enforcement.py:727-751 | a restoration without failing calls leaves no applied row of the limit in the given period, or in any |
| EvaluationLaws.EvaluationTouches | backend/app/services/evaluation.py:244-406 | evaluating one limit moves only its own rows, its own period states and targets in its footprint, and keeps the invariant |
| EvaluationLaws.OneConverges | backend/app/services/evaluation.py:244-406 | with a working client and an available reading in an open window, over budget puts the whole plan in force or finds it settled, and within budget leaves nothing applied |
| EvaluationLaws.OthersKeepConvergence | backend/app/services/evaluation.py:192-241 | evaluating any further limits that plan or hold no common target keeps a limit converged |
| EvaluationLaws.EvaluationConverges | backend/app/services/evaluation.py:192-406 | one failure-free evaluation of any list of limits that plan or hold no common target converges every one of them |
| ConvergenceLaws.CycleTightens | backend/app/services/enforcement.py:234-395 | no cycle, under any failures, lifts what is in force for anybody |
| ConvergenceLaws.EvaluatedIsQuiet | backend/app/services/evaluation.py:244-406 | an evaluated limit has nothing left to close or lift, so evaluating it again with the same reading only restricts |
| ConvergenceLaws.SecondEvaluationConverges | backend/app/services/evaluation.py:192-406 | limits may share targets in any way: the second of two failure-free evaluations of the same readings in the same windows converges every one of them and lifts nothing |
| EvaluationLaws.NeverRaises | backend/app/services/evaluation.py:368-394 | without failing calls an evaluation never raises |
| StatusLaws.StatusMeans | backend/app/services/evaluation.py:288-406 | the status an evaluation records, told from readings and rows: clear without a reading, over budget restricted if and only if a planned target was newly put in force, within budget restored if and only if something was given back now or before, else warned from the threshold on |
| StatusLaws.BreachStatus | backend/app/services/evaluation.py:339-366 | over budget: the first breach and restriction are stamped once, and only an enforcing limit of no exempt entity with a client touches the tenant |
| StatusLaws.BudgetStatus | backend/app/services/evaluation.py:368-406 | within budget: the warning threshold is the stated share of the budget, reached and not only passed, and warnings and restorations are stamped |
| StatusLaws.BoundsAndStampsStay | backend/app/services/evaluation.py:454-485 | a period row keeps the bounds of the window that opened it and every stamp but the last restoration |
| StatusLaws.ExpiredPeriodsAreClosed | backend/app/services/evaluation.py:488-544 | no other period of the limit stays warned or breached, nor restricted unless held: it reads restored if it was ever restricted, and clear otherwise, stamped as restored exactly when its restriction was lifted |
| StatusLaws.InactiveIsLeftAlone | backend/app/services/evaluation.py:209-241 | a limit that is inactive or has no window keeps its rows and periods whatever the other limits do |
| RolloverLaws.RolloverLiftsIff | backend/app/services/evaluation.py:488-544 | without failing undos, a restriction of an expired period is lifted if and only if there is a client, its period state says restricted and the limit is not held; the rows do not matter |
| RolloverLaws.ClosedWithoutAClient | backend/app/services/evaluation.py:524-543 | without a client the period is closed as if lifted: the restriction stays, and no later evaluation can lift it |
| RolloverLaws.SecondBreachForgets | backend/app/services/evaluation.py:336-366 | a second breached evaluation changes nothing in the tenant or the rows but overwrites the restricted status with breached |
| RolloverLaws.FirstBreachIsRestricted | backend/app/services/evaluation.py:358-366 | the evaluation that first applies rows of a period records it as restricted |
| RolloverLaws.RestrictionOutlivesItsPeriod | backend/app/services/evaluation.py:516-540 | a breach seen by two evaluations is not lifted by the rollover; seen by one, it is |
| RolloverLaws.NeverLiftedAgain | backend/app/services/evaluation.py:488-544 | a restriction whose expired period is not recorded as restricted survives every later run of evaluations under any failures |
| UsageLaws.ReportedIsSane | backend/app/services/evaluation.py:116-189 | no level of limit is ever reported a negative total, nor an unavailable one that is not zero |
| ReadingLaws.UserTotalsCount | backend/app/services/evaluation.py:121-189 | raising the stored total of a user raises a reading by that much for the limit of that user, once per listing for a group that counts its members, and not at all otherwise |
| ReadingLaws.ProjectTotalsCount | backend/app/services/evaluation.py:116-189 | raising the stored total of a project raises the reading of its own limit once, and of an application or a group not reported directly once per listing of the project |
| ReadingLaws.ApplicationTotalsCount | backend/app/services/evaluation.py:126-144 | the tenant's own figure for an application replaces the sum of its projects, and changes no other reading |
| ReadingLaws.GroupTotalsCount | backend/app/services/evaluation.py:146-178 | the tenant's own figure for a group is its reading exactly when members are not counted, and changes no other reading |
| ReadingLaws.NothingStoredIsZero | backend/app/services/evaluation.py:116-189 | with nothing stored every reading is zero |
| ReadingLaws.AvailableIff | backend/app/services/evaluation.py:116-189 | when a limit of each level has a reading at all |
| ReadingLaws.UserReadingIsBilled | backend/app/services/evaluation.py:121-124 | end to end: the reading of a user limit is what the newest records bill to its user |
| UsageLaws.BaselineIsRunningMinimum | backend/app/services/evaluation.py:267-286 | over any readings the baseline of a discounting limit is the lowest total so far and usage is the excess of the last over it; other limits use the last total whole |
| UsageLaws.UsageIsBoundedByGains | backend/app/services/evaluation.py:267-286 | over available readings usage is never negative and never more than the sum of the positive increments |
| UsageLaws.MissedReadingsEraseTheBaseline | backend/app/services/evaluation.py:273-304 | missed readings change the measured usage if and only if one occurred and no seen total was zero; then everything ever reported counts |
| UsageLaws.EvaluationsMeasureTheRun | backend/app/services/evaluation.py:244-286 | over any sequence of evaluations, of any limits in any windows, edited in between, under any failures, a period row holds exactly the measure of the readings its own evaluations took, and exists only since the first |
| Evaluator.Service.Measure | backend/app/services/evaluation.py:454-485 | opening or updating the period row gives the observed state and touches no other |
| Evaluator.Service.CloseStalePeriods | backend/app/services/evaluation.py:488-544 | the rollover loop closes exactly the stale periods, in listed order, as the specification says |
| Evaluator.Service.HandleBreach | backend/app/services/evaluation.py:336-366 | over budget: status, stamps and enforcement are those of the specified step |
| Evaluator.Service.HandleWithinBudget | backend/app/services/evaluation.py:368-406 | within budget: restoration, status and raised failures are those of the specified step |
| Evaluator.Service.EvaluateLimit | backend/app/services/evaluation.py:244-406 | one limit from rollover to verdict makes exactly the specified new state |
| Evaluator.Service.EvaluateLimits | backend/app/services/evaluation.py:192-241 | the loop over limits makes exactly the specified new state and stops at a raised failure |
| Evaluator.Service.RestoreOnLimitChange | backend/app/services/evaluation.py:620-662 | lifting what a changed limit restricted restores the rows and marks the periods as specified, only when something was restored |
| Evaluator.Service.SaveLimit | backend/app/services/limits_service.py:163-248 | an invalid change is rejected without effect; otherwise the restrictions lifted are those the change calls for |
| Evaluator.Service.RemoveLimit | backend/app/services/limits_service.py:251-274 | deletion lifts first, then clears the references of the rows that remain |
| Evaluator.Service.GrantExemption | backend/app/services/limits_service.py:311-365 | granting an exemption restores the active rows of that entity and records it |
| LimitsService.ExemptionRoundTrip | backend/app/services/limits_service.py:311-383 | granting and revoking an exemption leaves the exempt entities as they were, and the next breached cycle puts what it lifted back in force |
| LimitsService.InvalidIsRejectedIff | backend/app/services/limits_service.py:85-104 | a changed limit is rejected if and only if its threshold, its custom dates or its counting of members are not allowed |
| LimitsService.RaisedBudgetLiftsIff | backend/app/services/limits_service.py:209-231 | a raised budget lifts a row in force if and only if there is a client and some restricted or breached period of the limit has used less than the new budget; then those periods read restored, and otherwise nothing changes at all |
| LimitsService.HarmlessChangeLiftsIff | backend/app/services/limits_service.py:207-240 | a limit switched off or to monitoring lifts every row in force if and only if there is a client, and marks its restricted and breached periods restored |
| LimitsService.NothingHeldNothingMarked | backend/app/services/evaluation.py:620-662 | when the limit holds nothing no period is marked |
| LimitsService.DeletionKeepsOthers | backend/app/services/limits_service.py:251-274 | a deletion takes exactly the limit's own periods and changes no row or period of another limit |
| LimitsService.ExemptionIsRecorded | backend/app/services/limits_service.py:311-365 | an exemption is recorded for exactly that entity, with or without a client; no period changes, and an exempt user is never planned |
| LimitsService.HarmlessChangeLiftsEverything | backend/app/services/limits_service.py:207-240 | a limit disabled or switched to monitoring leaves no applied row of it in any period, and nobody else is touched |
| LimitsService.DeletionOrphansWithoutAClient | backend/app/services/limits_service.py:251-274 | deletion leaves a restriction in force if and only if there was no client, and then no later change of any limit can lift it |
| LimitsService.ExemptionLiftsIff | backend/app/services/limits_service.py:311-365 | an exemption lifts a row if and only if the exempted entity's own limit raised it; other rows on an exempted project stay and leave every plan |
| LimitsService.ExemptedRowsCanReturn | backend/app/services/enforcement.py:252-268 | a breached cycle that plans the target applies a row reversed by an exemption again, and leaves row and target alone when it was reversed otherwise |
| Periods.WindowOwnsItsMoments | backend/app/services/periods.py:44-106 | a moment lies in its window, and exactly the moments of a window share it |
| Periods.WindowsAreContiguous | backend/app/services/periods.py:44-106 | the next window starts exactly where this one ends |
| Periods.ActiveIffInside | backend/app/services/periods.py:80-131 | a window is active if and only if it is a lifetime window or the moment lies inside it |
| Periods.CustomWindowIs | backend/app/services/periods.py:114-131 | a custom window exists for ordered dates only and holds exactly the moments between them |
| Periods.LifetimeWindowIs | backend/app/services/periods.py:108-112 | a lifetime window is the same at all times, starts when the limit was made and never ends |
| Periods.RecurringStarts | backend/app/services/periods.py:44-72 | a month starts at midnight on its first day, a quarter in January, April, July or October |
| Periods.QuarterIsThreeMonths | backend/app/services/periods.py:57-72 | a quarter is exactly three consecutive months |
| Periods.KeysNameWindows | backend/app/services/periods.py:80-106 | within a recurring period type keys are equal if and only if windows are |
| Periods.CustomKeysNameDates | backend/app/services/periods.py:75-77 | custom keys are equal if and only if the dates are: the time of day is dropped |
| Periods.CustomPeriodOpensOnce | backend/app/services/periods.py:108-133 | a custom limit keeps one key for its whole life, and its window opens once: a moment between two open ones is open |
| Ingestion.ParseActions | backend/app/checkmarx/usage.py:188-207 | the counter of every action is the sum of the row's entries for that action, however often it is repeated |
| Ingestion.ActionTotalsAddUp | backend/app/checkmarx/usage.py:188-207 | no entry of a row is lost or counted twice by the counters |
| Ingestion.FetchUsage | backend/app/checkmarx/usage.py:293-330 | the page loop reads the pages the paging rule asks for, no more than the page limit |
| Ingestion.PagesInOrder | backend/app/checkmarx/usage.py:293-330 | pages come back in the server's order |
| Ingestion.FetchIsCompleteIff | backend/app/checkmarx/usage.py:319-322 | all pages of an announcing server are read, and no more, if and only if no page before the last is empty after dropping rows that name nobody |
| Ingestion.SilentFetchIsCompleteIff | backend/app/checkmarx/usage.py:323-324 | all pages of a server that announces nothing are read if and only if each before the last keeps at least the page size asked for after dropping rows that name nobody |
| Ingestion.FullPageLooksFullIff | backend/app/checkmarx/usage.py:323-324 | on pages of exactly that size, this holds if and only if every row names somebody |
| Ingestion.ParsedIffIdentified | backend/app/checkmarx/usage.py:170-186 | a row is kept if and only if it has a name, an address or an identifier |
| Text.EmailShape | backend/app/checkmarx/usage.py:137-141 | an address has exactly one @ and no space, once stripped |
| Text.LowerMeans | backend/app/services/ingestion.py:143-147 | names and addresses are compared without regard to the case of letters, and of nothing else |
| Ingestion.KeptUnder | backend/app/checkmarx/usage.py:170-207 | a row is kept under its address, else its name, else its identifier, and a name that is an address stands in for a missing one |
| Ingestion.MergingOneConserves | backend/app/services/ingestion.py:459-472 | merging a repeated subject adds its credits and every action count exactly once |
| Ingestion.MergingConserves | backend/app/services/ingestion.py:374-392 | merging any sequence of items conserves credits and counts |
| Ingestion.FirstReportNames | backend/app/services/ingestion.py:374-392 | a subject keeps the identity of its first report |
| Ingestion.OrderOfAppearance | backend/app/services/ingestion.py:374-392 | subjects are stored in the order of their first reports |
| Ingestion.MergePages | backend/app/services/ingestion.py:374-392 | the merging loops fold all pages into one item per subject, in order of first appearance |
| Ingestion.IngestDimension | backend/app/services/ingestion.py:344-456 | the stored records and total are those of the merged pages |
| Ingestion.TotalsConserve | backend/app/services/ingestion.py:624-637 | totals by entity plus unattributed credits are the snapshot's credits |
| Ingestion.CreditsAreConserved | backend/app/services/ingestion.py:365-456 | from pages to limits nothing is lost or counted twice, neither credits nor action counts |
| Ingestion.EveryIdentifiedRowIsStored | backend/app/checkmarx/usage.py:293-330 | end to end from a server that announces its pages, the stored credits and the stored count of every action are the sums over every server row with an identity on every page |
| Ingestion.SilentRowsAreStored | backend/app/checkmarx/usage.py:293-330 | the same from a server that announces nothing and ends with an empty page |
| UserIndexing.BuildNames | backend/app/services/ingestion.py:186-207 | a full name is indexed if and only if exactly one live user identity bears it |
| UserIndexing.NameIndexIgnoresOrder | backend/app/services/ingestion.py:172-207 | the name index does not depend on the order of users |
| UserIndexing.BuildUserIndex | backend/app/services/ingestion.py:172-219 | one pass builds the address, username, name and profile parts of the index |
| UserIndexing.HoldersAreIndexed | backend/app/services/ingestion.py:179-185 | addresses and usernames are indexed exactly when somebody holds them, under one of the holders |
| UserIndexing.ExactMatchIffReported | backend/app/services/ingestion.py:133-155 | the deterministic ladder finds somebody if and only if a user is reported by address, username or uncontested full name, and then it is such a user |
| UserIndexing.LadderPriority | backend/app/services/ingestion.py:133-155 | whoever stands on the highest rung is found: the reported address, then an address given as the name, then the username, then a full name only one user bears; of several holders of an address its last owner, else the first whose username it is |
| UserIndexing.LadderFindsSomebodyIff | backend/app/services/ingestion.py:133-155 | the ladder finds anybody if and only if somebody stands on its highest rung |
| UserIndexing.AddressesAreIndexed | backend/app/services/ingestion.py:179-186 | an address is indexed under the last user who owns it, or else the first whose username it is |
| UserIndexing.SubjectTokensAre | backend/app/services/ingestion.py:157-169 | a subject is compared by its key, its name and its address |
| UserIndexing.ProfileTokensAre | backend/app/services/ingestion.py:194-200 | a user is compared by full name, address, username and both names |
| UserIndexing.EverybodyIsCompared | backend/app/services/ingestion.py:194-200 | the profiles compared are those of the users who have any token |
| UserIndexing.FullNameIs | backend/app/services/ingestion.py:187-192 | a full name is both names with a space between, or the one there is |
| Pinning.PinNowIsPinLaterIff | backend/app/api/routes/dashboard.py:387-412 | mapping now equals polling again under the pin if and only if over-long subject keys do not interfere |
| Pinning.ClearNowIsClearLaterIff | backend/app/api/routes/dashboard.py:387-412 | clearing now equals polling again without the pin if and only if the ladder alone bills the subject to nobody and over-long keys do not interfere |
| Pinning.MappingMovesExactly | backend/app/api/routes/dashboard.py:387-412 | mapping moves exactly the subject's credits to the user, away from whoever had them, and keeps the total |
| Pinning.LatestTotalIsBilled | backend/app/services/ingestion.py:624-637 | a user's latest total is exactly what the records bill to them |
| Pinning.PinsSurvivePolling | backend/app/services/ingestion.py:517-600 | no poll that is stored loses or changes a mapping made by hand, whatever keys it reports |
| Pinning.PollIsRefusedIff | backend/app/services/ingestion.py:567-570 | the reviews of a poll are refused if and only if an unsettled person with an over-long key finds its cut key taken |
| Pinning.OverlongKeysStopPolling | backend/app/services/ingestion.py:524-570 | a person with an over-long key who needs a review is polled once, and every later poll is refused |
| Pinning.ReviewedIffUnsettled | backend/app/services/ingestion.py:444-451 | after a stored poll a person has a review row if and only if the ladder did not settle it, or an admin mapping (or, for an over-long key, an earlier poll) keeps the row; automation gets none and keeps what it had |
| Pinning.UnsettledAreOnRecord | backend/app/services/ingestion.py:517-612 | the review row of a person nobody settled says what this poll found |
| Pinning.MappingIsAPin | backend/app/api/routes/dashboard.py:416-462 | what a mapping stores is the pin the next poll honours, and nothing else changes |
| Pinning.PollingAgainChangesNothing | backend/app/api/routes/dashboard.py:387-462 | poll, map by hand, poll the same pages again: the second poll stores what the mapping made of the first |
| Pinning.UsageStore.PollUsers | backend/app/services/ingestion.py:344-456 | a poll is stored whole, attributed records and reviews of everybody but automation, or refused whole when two keys are stored alike or a review is refused |
| Pinning.UsageStore.MapSubject | backend/app/api/routes/dashboard.py:416-462 | an unknown subject or user changes nothing; otherwise the review row is pinned and the newest records are repointed |
| Attribution.BilledIff | backend/app/services/ingestion.py:133-169 | a poll bills an item to somebody if and only if it is pinned, or a user is reported by address, username or uncontested name, or similarity has a clear winner |
| Attribution.PinnedIsBilled | backend/app/services/ingestion.py:157-169 | a pin is honoured before anything else |
| Attribution.HighestRungIsBilled | backend/app/services/ingestion.py:133-169 | without a pin the user on the highest rung of the ladder is billed, whoever looks alike |
| Attribution.OnlyThenTheResembling | backend/app/services/ingestion.py:157-169 | when nobody stands on the ladder a user is billed if and only if the profile clearly wins and the subject is no bot |
| Attribution.PolledRecordsAreBilled | backend/app/services/ingestion.py:399-442 | each record of a poll carries the credits and counts of its subject and the user these rules name |
| Attribution.SyntheticIsBilledToNobodyIff | backend/app/services/ingestion.py:444-451 | automation is billed to nobody if and only if no pin, no reported user and no clear winner finds anybody; its review rows never change |
| Attribution.NamesakePaysForAutomation | backend/app/services/ingestion.py:53-71 | a user called like the automation is billed for it |
| Attribution.MappingSurvivesTheNextPoll | backend/app/api/routes/dashboard.py:387-462 | with the real ladder, polling the same pages again after a mapping stores what the mapping had made of them |
| Attribution.Poll | backend/app/services/ingestion.py:344-456 | the user dimension from synced users and pages to records, total and reviews, with the index built from the users |
| SubjectMatching.SplitTokens | backend/app/services/subject_matching.py:118-133 | the character loop yields the stretches in order, each of them maximal in the text |
| SubjectMatching.RunsKeepEveryCharacter | backend/app/services/subject_matching.py:118-133 | the tokens joined are exactly the alphanumeric characters, and every token is alphanumeric |
| SubjectMatching.RunsAreMaximal | backend/app/services/subject_matching.py:118-133 | every token is a maximal stretch of the text: none is cut short and no two are joined |
| SubjectMatching.Tokenize | backend/app/services/subject_matching.py:136-154 | the loops over values and tokens collect the token set |
| SubjectMatching.SimilarityIsAUnitScore | backend/app/services/subject_matching.py:173-195 | the similarity of two token sets is a score between zero and one whenever the string ratio is |
| SubjectMatching.TokenScoreIs | backend/app/services/subject_matching.py:173-195 | shared tokens weigh six tenths against the smaller set and four tenths against both together |
| SubjectMatching.SimilarityMeans | backend/app/services/subject_matching.py:173-195 | equal sets are certain, empty ones never match, and otherwise the better of token score and string ratio decides |
| SubjectMatching.TokensOfOne | backend/app/services/subject_matching.py:136-154 | the tokens of a text are its runs of two characters or more, without a leading service prefix |
| SubjectMatching.BotsAreRecognised | backend/app/services/subject_matching.py:157-170 | known bots are recognised by name and by the local part of an address, marked ones wherever the mark stands |
| SubjectMatching.ClassifyMeans | backend/app/services/subject_matching.py:212-238 | bots and empty subjects are left alone; otherwise the at most five best plausible users are suggested, and the decision is automatic with a clear winner, disputed with others only, open with none |
| SubjectMatching.SuggestionsInOrder | backend/app/services/subject_matching.py:198-209 | suggestions come by score, and by name among equals |
| SubjectMatching.FuzzyAutoIffClearWinner | backend/app/services/subject_matching.py:198-238 | a subject is matched automatically to a user if and only if that user's profile reaches the threshold and leads every other profile of the tenant by the margin, including those cut from the list |
| SubjectMatching.AttributionIgnoresOrder | backend/app/services/subject_matching.py:198-238 | whom the credits count towards does not depend on the order of profiles |
| Locking.SchedulerLock.Acquire | backend/app/services/cycle.py:77-107 | the conditional update takes the lock exactly when it is free or stale at the sampled time |
| Locking.SchedulerLock.Heartbeat | backend/app/services/cycle.py:110-116 | only the holder refreshes the heartbeat |
| Locking.SchedulerLock.Release | backend/app/services/cycle.py:119-125 | only the holder clears the lock |
| Locking.SchedulerLock.RunCycle | backend/app/services/cycle.py:131-189 | a refused run changes nothing and is skipped; any other run, however its steps end and whatever other workers do to the row meanwhile, ends without the lock and clears it only if still its holder |
| Locking.StepKeepsOwner | backend/app/services/cycle.py:77-125 | every event keeps each in-time worker the owner of the lock |
| Locking.MutualExclusionIff | backend/app/services/cycle.py:77-125 | over all interleavings, two in-time workers are never inside together if and only if no two workers share a holder id |
| Locking.OthersCannotTouch | backend/app/services/cycle.py:119-125 | nothing another worker does, however late, changes the lock of a worker that is in time |
| Locking.SilentHolderIsReplacedIff | backend/app/services/cycle.py:86-99 | a silent holder, dead or slow, is replaced by another worker if and only if the time sampled is more than half an hour after its heartbeat; a slow one is then still inside |
| UserSync.FetchUsers | backend/app/checkmarx/iam.py:111-167 | the paging loop stops because every page but the last adds somebody; it warns if and only if it paged and fewer than reported were read |
| UserSync.PagedIsSound | backend/app/checkmarx/iam.py:132-156 | whatever the server answers, nobody is invented and nobody once seen is dropped |
| UserSync.LastRecordCounts | backend/app/checkmarx/iam.py:132-156 | of several records of one user the last counts |
| UserSync.FetchIsCompleteIff | backend/app/checkmarx/iam.py:111-167 | against a faithful server the users come back in order, all of them if and only if the page limit suffices |
| UserSync.GroupList.Flatten | backend/app/checkmarx/iam.py:211-231 | the recursive walk appends the tree in order, with each group's parent |
| UserSync.ParentsAreInside | backend/app/checkmarx/iam.py:211-231 | every parent in the flat list is the outer one or a group listed earlier |
| UserSync.FlatDeterminesTree | backend/app/checkmarx/iam.py:193-231 | with distinct ids the flat list determines the tree up to malformed entries |
| SnapshotRetention.UsageHistory.PruneSnapshots | backend/app/services/retention.py:140-174 | exactly the old snapshots outside the recent tail of their view go, with exactly their records, and the counts add up |
| SnapshotRetention.TailIsNewest | backend/app/services/retention.py:140-174 | what is kept of a view is its two hundred newest snapshots, or all there are |
| SnapshotRetention.TotalsArePrunedAround | backend/app/services/retention.py:140-174 | the newest snapshot of a view, alone in its time, stays the newest with the same totals |
| SnapshotRetention.LatestStaysLatest | backend/app/services/retention.py:140-174 | no other snapshot becomes the newest |
| Retention.PolicyStore.Prune | backend/app/services/retention.py:82-123 | row by row, which notifications, rows and periods are kept after a prune; no notification refers to a missing row |
| Retention.RestrictionsSurvive | backend/app/services/retention.py:177-209 | applied rows, their snapshots and the notifications attached to them are kept, however old |
| Retention.PruningCommutesWithUndo | backend/app/services/retention.py:199-209 | restoring after a prune does to the tenant and the kept rows what it would have done before |
| Retention.PruningIsInvisibleIff | backend/app/services/retention.py:199-209 | a pruned row is invisible to the next cycle that plans its target if and only if it recorded no decision to respect; otherwise the lifted restriction is put back |
| Retention.OpenPeriodsAreKept | backend/app/services/retention.py:212-219 | an open or endless period keeps its state |
| Retention.PruningHidesTheRolloverIff | backend/app/services/retention.py:212-219 | after a prune the next evaluation lifts a restriction of an expired period as it would have before, if and only if the period is not one it would have lifted that ended before the cutoff |
| Retention.PrunedHoldsAreForever | backend/app/services/retention.py:212-219 | a restriction held past its period and pruned from the ledger is never lifted by any later evaluations |
| Login.LoginDesk.CheckRateLimit | backend/app/services/auth.py:209-244 | the counter row after an attempt and whether it is let through |
| Login.LockoutDoubles | backend/app/services/auth.py:247-251 | the delay is the base at the threshold, doubles with every further failure and stops at the cap |
| Login.LoginDesk.Authenticate | backend/app/services/auth.py:263-369 | an attempt succeeds if and only if it is let through, the account exists, is active and not locked, the password is right and so is the code where one is asked for; success clears failures and lock, a wrong password or code adds one failure, anything else changes no account |
| Login.SpanIsBounded | backend/app/services/auth.py:209-244 | of one pair's attempts at most twice the limit less one get through in any sixty seconds |
| Login.BoundIsSharp | backend/app/services/auth.py:209-244 | that bound is attained, for every limit |
| Login.FailuresLock | backend/app/services/auth.py:247-260 | every failure is counted and from the threshold on locks the account for its delay |
| Login.LockedIff | backend/app/services/auth.py:306-320 | an active account turns an attempt away if and only if the last failure's delay still runs |
| Login.GuessingIsThrottled | backend/app/services/auth.py:247-330 | without a success, each further failure comes at least the sum of the doubling, capped delays after the threshold |
| LimitsCsv.UnneutraliseUndoesIff | backend/app/services/limits_csv.py:348-358 | undoing the formula guard gives the text back if and only if it is not an apostrophe followed by a formula character |
| LimitsCsv.ExportedTextIsHarmless | backend/app/services/limits_csv.py:64-77 | no exported text starts as a formula would, and harmless text is exported as it is |
| LimitsCsv.AcceptedIsValid | backend/app/services/limits_csv.py:361-416 | an accepted row is a valid limit of a named entity with ordered dates and no empty notes |
| LimitsCsv.LevelsAreRead | backend/app/services/limits_csv.py:361-368 | levels are read by their names only |
| LimitsCsv.PeriodsAreRead | backend/app/services/limits_csv.py:378-384 | periods are read by their names only, and a missing one is monthly |
| LimitsCsv.AnswersAreRead | backend/app/services/limits_csv.py:153-161 | five words say yes, five and the empty cell say no, every other is refused |
| LimitsCsv.SignsAreRead | backend/app/services/limits_csv.py:164-170 | signs of whole numbers are read |
| LimitsCsv.RequiredColumnsSuffice | backend/app/services/limits_csv.py:361-416 | a row of the three required columns is a monthly limit that only monitors and warns at eighty percent |
| LimitsCsv.TextSurvivesIff | backend/app/services/limits_csv.py:64-77 | a text cell survives export and import if and only if it does not already look guarded and loses no surrounding space |
| LimitsCsv.LineReadsBackIff | backend/app/services/limits_csv.py:361-416 | a stored limit is read back unchanged if and only if its texts survive, its notes are not present but empty, and its dates are in order |
| LimitsCsv.ExportThenImport | backend/app/services/limits_csv.py:103-345 | importing an export where there are no limits recreates every field of every limit except activity and label |
| LimitsCsv.UnorderedDatesRefuseTheExport | backend/app/services/limits_csv.py:395-402 | one exported limit with unused dates out of order makes the whole file unimportable |
| LimitsCsv.UpdateTakesEffectIff | backend/app/services/limits_csv.py:313-334 | importing over an existing limit takes full effect if and only if both count existing usage alike; no other limit changes |
| LimitsCsv.RejectedIff | backend/app/services/limits_csv.py:217-300 | a table is rejected if and only if some row is refused, about an unknown entity, or about an entity of an earlier row |
| LimitsCsv.LimitStore.Import | backend/app/services/limits_csv.py:184-345 | a rejected table changes no limit; otherwise all rows are applied, or none when dry |

## Left out

Weaker than the source, on purpose:

- EnforcementRuns.ExactUndoOverRuns: a failing call changes nothing, and the process does not die between a tenant write and the commit of the cycle; the code does not defend against either.
- RoundTripLaws.EnforceThenLift: two projects that share one repository setting are separate settings here, because a setting is kept per project and repository.
- Evaluator.Service.SaveLimit: when an undo raises inside an administrator's request, the request does not commit, so the rows undone before it read applied again while the tenant keeps what they gave back; here they stay reversed.
- Evaluator.Service.RemoveLimit: the same holds of a deletion whose restoration raises.
- Evaluator.Service.GrantExemption: the same holds of an exemption whose restoration raises.
- Periods.WindowsAreContiguous: years are unbounded, so the overflow of the standard library after the year 9999 is not modelled.
- SubjectMatching.FuzzyAutoIffClearWinner: scores are exact reals and letters are ASCII, so floating-point rounding at the thresholds and Unicode case folding are not modelled.
- Login.SpanIsBounded: one clock value stands for the several readings of the clock within one attempt, and simultaneous attempts are taken one after the other.
- LimitsCsv.ExportThenImport: CSV quoting, the ISO notation of dates, and underscores or non-ASCII digits in whole numbers are not modelled; dates are assumed to print as plain cells that read back.
- LimitsCsv.LimitStore.Import: what an updating import restores in the tenant is that of `Evaluator.Service.SaveLimit` and is not repeated here.
- Retention.PolicyStore.Prune: audit rows, sessions, scheduler runs, login counters and credit balances are deleted by age alone and would only add easy members; subtracting days from a date is a parameter.

Not modelled:

- HTTP, JSON, SQL and migrations; `client.py` with its retries, backoff and generic paginator.
- Notifications, audit text, dashboard figures and the counters of a cycle.
- `org_sync.py`, `settings_store.py`, sessions, second-factor secrets and password hashing.
- The probe that detects a silent fallback to the user view: only fetches that complete and are not a fallback are stored here.
- Attribution of projects, applications and groups, which is one lookup by identifier or name.
- Transaction counts per row, which are added up like credits.
- The string ratio of `difflib`, an arbitrary function into the unit interval.
- Reuse of a deleted limit's identifier by the database.
- Changes of the OAuth client's identifier, which is taken to be constant.
- The frontend and the demo shop.
