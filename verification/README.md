# Protocol models

Mindwire lets AI agents work together through shared state: thread files, chatroom messages, git
clones and append-only logs. This project models the small protocols around that state and proves
what they keep.

| file | what it models |
|---|---|
| `AwaitingToggle.dfy` | two processes that read, decide, set and append with no lock between them |
| `GitModel.dfy` | a clone as commits, refs, HEAD, index, working tree and untracked files; one contract per git command |
| `CloneGuard.dfy`, `CloneRecover.dfy`, `CloneRetreat.dfy` | checking, recovering and giving up a shared clone |
| `RetreatLog.dfy` | the JSON-lines ledger, down to appends torn at any character |
| `DesignConditions.dfy` | the conditional-proceed table over a growing thread, and the PR declaration check |
| `GateAdmission.dfy` | the review gate's admission table, tick after tick |
| `SpecAudit.dfy` | the supersedes walk, V-14 and the fence scanner of the specification auditor |
| `Kappa.dfy`, `Auc.dfy` | Cohen's kappa and the Mann-Whitney area, over the reals |
| `EvalFixture.dfy`, `Corrections.dfy` | the evaluation fixture and its corrections, writer and reader |
| `ShadowExport.dfy` | the shadow export as of a point in time |
| `LabelRuns.dfy`, `ReplayRuns.dfy`, `FulltextRuns.dfy` | paid runs that are capped, stopped, crashed and resumed |
| `JoinKeys.dfy`, `Sets.dfy`, `Wrappers.dfy` | the join key, lists without repeats, counting with sets, `Option` and `Result` |

Check the whole project with `dafny verify dfyconfig.toml`.

## How the outside world is modelled

* **Git calls** answer with a `GitModel.Answer`: an exit code or no answer in time, and, apart from
  that, whether the command took effect. A call that timed out may have done its work. A command
  that exits with an error has the contract written beside it (a failed `git add -A` may have staged
  any part). What `cherry-pick --abort` and its like leave behind is left open: any clone state.
* **Concurrency** is a schedule: any finite sequence of turns of the two callers.
* **Crashes** are points at which a run's file stops growing. A write that is cut reaches the file
  as any prefix of its text.
* **Helpers that the modelled code calls** (`resolve_handoff`, the state builder, JSON, hashes, date
  parsing, Markdown patterns) are parameters: any functions of the arguments the code gives them.
  JSON is any encoder whose lines hold no newline and whose proper prefixes do not parse.
* **Time stamps** are numbers.

Functions carry the pure code, methods the loops and the updates. A method's contract equates its
result, or the new state, with a specification function, or states the property outright; the lemmas
are about these specifications.

## What the models found

* The toggle gives more than its docstring says (`awaiting_from_toggle.py:26-31` expects a lost
  update under a race). With one toggle in flight per caller there is none, and the log is the write
  history up to swaps of disjoint neighbours (`LogEqualsHistoryUpToSwaps`). The swaps do happen
  (`SwapHappens`).
* `clone_retreat` assumes that a `git commit` reported as failed committed nothing. When it timed out
  after it landed, both exports are empty and the cleanup deletes the only branch that holds the work
  (`LandedCommitCanBeLost`). The exports cover every changed path if and only if HEAD did not move or
  nothing was changed (`ExportIsExact`).
* `check_pushed` passes a branch that is behind a ref which is neither a local nor a remote-tracking
  branch, on that ref's word (`TrackingAnotherKindOfRefPasses`). When the check passes, all local work
  is on the remote if and only if that is so of the branches behind such refs
  (`PushedIffTrustedBranchesAre`), even through chains of local upstreams.
* `gate_admission.py:121-128` bounds the calls of the *model* on the self-nominated path, and that
  holds: the fresh gate opens at most once per head (`OncePerHead`). It also says that R6 stops a
  repeated invocation on a reviewed head. The empty-rollup rule R1b comes before R6 and looks at no
  verdict (`EmptyRollupInvokesTwice`), so the gate, though not the model, is invoked on a reviewed
  head again exactly there (`ReviewedHeadInvokedIff`), and on every tick, where the comment at
  `gate_admission.py:501-503` expects a single one.
* An escalation of a stuck CI is final if and only if it was on the check clock
  (`EscalationIsFinalIff`). On the commit clock the first stamp that appears takes it back, on
  whatever tick (`CommitClockEscalationCanBeTakenBack`); `EscalationStandsIff` says for which new rows.
* Rebuilding a fixture from a later harvest, cut at the first harvest's stamp, promises the original
  fixture. The stamp is taken after the last thread was fetched (`build_tierc_eval_fixture.py:753`), so
  a message posted in between is in the view but was not in the fixture (`RebuildCanDiffer`). The
  rebuild is identical if and only if no such message builds a row, or the first build was refused too
  (`RebuildIsIdenticalIff`); so always when they are all after the evaluation window
  (`RebuildAfterTheWindow`). Corrections still keep every row and exclude none; what they add are exactly
  the missed messages that belong in the fixture (`CorrectionsAfterGrowth`, `NothingToCorrectIff`).
* The corrections look a row's thread up by its id alone, and the builder accepts threads of two
  projects with one id. Then a message that is there can be reported missing at the source
  (`SharedIdGivesFalseReason`). And they call a row "not an escalation" when it is built no more, also
  when its message does go to the human but belongs to neither set
  (`UnlabelledEscalationIsCalledNone`). `ReasonIsTrueIff` says exactly when a reason is true; with
  distinct ids it always is for messages in the evaluation window (`WindowReasonsAreTrue`).
* The auditor's scanner follows section 4.5 of CommonMark only as long as it takes each line as that
  section does where it stands (`InStepIff`). A line such as a fence with an info string closes its
  fence, and not the standard's (`InfoStringCloses`).
* The shadow export on a fixed `--as-of` changes when a row is added to the log that is not marked as
  logged after it: one without `logged_at`, or with an earlier time. It changes only then
  (`ExportIsStable`).
* A labelling run with a negative batch size returns normally and labels nothing
  (`NegativeSizeLabelsNothing`); a key that stands twice in the materials can be labelled twice
  (`RepeatedMaterialIsLabelledTwice`). Coverage holds exactly otherwise (`UncappedRunCovers`).
* Repeated `--key` arguments make a full-text run pay twice for one row
  (`RepeatedKeyIsEvaluatedTwice`); distinct keys never do (`SeriesKeepsOnce`). So a plan is safe
  exactly when no key repeats (`PlanIsSafeIff`).

## Model

| member | source | states |
|---|---|---|
| AwaitingToggle.ThreadFiles.ToggleAwaitingFrom | src/spirrow_mindwire/awaiting_from_toggle.py:98-125 | one undisturbed toggle: writes the other participant and appends one event exactly when the caller holds the thread |
| AwaitingToggle.StepKeepsInv | src/spirrow_mindwire/awaiting_from_toggle.py:98-125 | every micro-step of either caller keeps the invariant: one writer at a time, current reads, a chained write history, a log that tracks it |
| AwaitingToggle.RunKeepsInv | src/spirrow_mindwire/awaiting_from_toggle.py:98-125 | the invariant holds after every schedule from every initial value |
| AwaitingToggle.OneWriterAtATime | src/spirrow_mindwire/awaiting_from_toggle.py:98-125 | in every interleaving at most one caller is between its read and its set with intent to write, from the read that decides it on |
| AwaitingToggle.NoLostUpdate | src/spirrow_mindwire/awaiting_from_toggle.py:98-125 | each write replaces what its author read and what the write before it left; authors alternate; each event tells the value its write replaced |
| AwaitingToggle.FirstWriteSawInitial | src/spirrow_mindwire/awaiting_from_toggle.py:98-107 | the first write replaced the initial value; a terminal value is never written over |
| AwaitingToggle.LogEqualsHistoryUpToSwaps | src/spirrow_mindwire/awaiting_from_toggle.py:108-125 | when both callers are idle, the log is the write history up to swaps of disjoint neighbours |
| AwaitingToggle.SwapsReportEachWriteOnce | src/spirrow_mindwire/awaiting_from_toggle.py:108-125 | such a log reports each write exactly once |
| AwaitingToggle.SwapHappens | src/spirrow_mindwire/awaiting_from_toggle.py:26-31 | a schedule whose log is not in write order |
| AwaitingToggle.UninterruptedToggle | src/spirrow_mindwire/awaiting_from_toggle.py:98-125 | the micro-steps, run without interruption, do what the method does |
| GitModel.AncestryTransitive | src/spirrow_mindwire/clone_recover.py:190-203 | an ancestor's ancestors are ancestors |
| CloneGuard.WaitForIndexLock | src/spirrow_mindwire/clone_guard.py:298-308 | answers free at the first poll without the lock; gives up only once the wait is over, after at most twenty sleeps |
| CloneGuard.Check | src/spirrow_mindwire/clone_guard.py:199-247 | with every call answered, accepts exactly the acceptable clones; for every set of answers, exactly when it accepts, and when it refuses for an operation, a dirty tree or a wrong HEAD |
| CloneGuard.CheckPushed | src/spirrow_mindwire/clone_guard.py:249-285 | returns normally only when every local branch passes; refuses as unpushed only when one does not |
| CloneGuard.ChainReachesRemote | src/spirrow_mindwire/clone_guard.py:264-279 | a passing branch that tracks other local branches leads, over strictly lower tips, to a remote-tracking ref |
| CloneGuard.PushedIffTrustedBranchesAre | src/spirrow_mindwire/clone_guard.py:249-285 | when all branches pass, every commit of any local branch is reachable from a remote-tracking ref, if and only if that holds of the branches behind an upstream of another kind |
| CloneGuard.PushedWorkIsOnRemote | src/spirrow_mindwire/clone_guard.py:249-285 | in particular when no upstream is of another kind; in any case each commit is on the remote or on such an upstream |
| CloneGuard.TrackingAnotherKindOfRefPasses | src/spirrow_mindwire/clone_guard.py:274-279 | a clone with an unpushed commit that passes, because its upstream is another kind of ref |
| CloneRecover.SwitchIsSafe | src/spirrow_mindwire/clone_recover.py:205-210 | the switch, landed or not, loses no commit and at most creates the default branch |
| CloneRecover.FastForwardIsSafe | src/spirrow_mindwire/clone_recover.py:213-215 | the fast-forward moves only the default branch, and only to a descendant |
| CloneRecover.DeleteIsSafe | src/spirrow_mindwire/clone_recover.py:216-219 | deleting the merged branch, landed or not, loses no commit |
| CloneRecover.SafeChangesCompose | src/spirrow_mindwire/clone_recover.py:144-222 | safe changes compose |
| CloneRecover.EmptyRevListIsMerged | src/spirrow_mindwire/clone_recover.py:180-203 | an empty rev-list means that the branch is merged, and so on the remote; with `develop` looked up, it is empty exactly then |
| CloneRecover.CloneRecoverer.Recover | src/spirrow_mindwire/clone_recover.py:144-222 | for every sequence of answers: nothing reachable after the fetch is lost, only the entry branch can disappear, the default branch moves only forward, an ineligible clone is untouched, RECOVERED ends on the default branch; exactly when it is RECOVERED, FAILED or neither, from the entry and the answers; the fast-forward and the branch delete are attempted; with all calls answered, recovered exactly when merged |
| GitModel.DiffIsThePatch | src/spirrow_mindwire/clone_retreat.py:371-379 | HEAD with the diff applied is what the disk holds of the tracked paths, conflicted ones included; no other patch says so without idle entries |
| CloneRetreat.AddOnlyStages | src/spirrow_mindwire/clone_retreat.py:298-299 | `add -A`, also a failing one, only stages what is on disk |
| CloneRetreat.AttemptOnlyStages | src/spirrow_mindwire/clone_retreat.py:293-321 | an abandoned attempt that left HEAD's commit has only staged |
| CloneRetreat.ExportCovers | src/spirrow_mindwire/clone_retreat.py:361-406 | while HEAD stands, every changed path is in the patch or in the untracked list, however much was staged |
| CloneRetreat.LandedCommitHidesChanges | src/spirrow_mindwire/clone_retreat.py:305-321 | after a commit that landed, both exports are empty |
| CloneRetreat.ExportIsExact | src/spirrow_mindwire/clone_retreat.py:361-406 | the exports cover the changes if and only if HEAD did not move or there were none |
| CloneRetreat.LandedCommitCanBeLost | src/spirrow_mindwire/clone_retreat.py:353-357 | a commit that times out after it landed: work that no ref, file or export holds any more |
| CloneRetreat.CommitSavesWork | src/spirrow_mindwire/clone_retreat.py:296-321 | the wip tip is a child of the entry HEAD whose tree is, path by path, what was on disk, deletions and untracked files included |
| CloneRetreat.PushAndSwitchKeepWork | src/spirrow_mindwire/clone_retreat.py:330-351 | neither the push nor the switch back, in whatever way it ends, moves that commit |
| CloneRetreat.NewCallsKeepExportsFirst | src/spirrow_mindwire/clone_retreat.py:408-439 | appending calls keeps "no destructive call before both exports" |
| CloneRetreat.CloneRetreater.Export | src/spirrow_mindwire/clone_retreat.py:361-406 | both exports are attempted; a written patch restores the tracked paths, the list file names exactly the untracked ones, or is written saying that git could not list them |
| CloneRetreat.CloneRetreater.Discard | src/spirrow_mindwire/clone_retreat.py:408-439 | exactly these calls: both exports, the five aborts, reset and clean, switch, branch delete; DISCARDED exactly when the guard accepts the result |
| CloneRetreat.CloneRetreater.TryRetreat | src/spirrow_mindwire/clone_retreat.py:293-351 | succeeds exactly when the branch, the staging and the commit all reported success, then pushes, switches back and keeps the work in progress as a commit; RETREATED exactly when the switch reported success and the guard accepts; an abandoned attempt left exactly the state of its last call, and remembers the branch it made |
| CloneRetreat.CloneRetreater.Retreat | src/spirrow_mindwire/clone_retreat.py:265-291 | which outcome, from the entry and the answers alone: committed exactly when the guard refuses only as dirty, nothing is in conflict and branch, staging and commit succeed, RETREATED exactly when also the switch back did and the guard accepts; discarded otherwise; per outcome: untouched, work committed, guard accepts; nothing destroyed before both exports were attempted; on the discard path where the attempt stopped, the clone that was exported, what the exports hold of it, and the clone that is left |
| CloneRetreat.CleanUpCleans | src/spirrow_mindwire/clone_retreat.py:418-436 | effective reset and clean leave nothing that the status shows |
| CloneRetreat.CleanUpKeepsBranches | src/spirrow_mindwire/clone_retreat.py:418-436 | after aborts that changed nothing only the attempt's own branch can go |
| CloneRetreat.DefaultForSays | src/spirrow_mindwire/clone_retreat.py:248-252 | the branch the run returns to |
| RetreatLog.AppendReads | src/spirrow_mindwire/clone_retreat_log.py:64-81 | an append cut anywhere adds the row to what is read exactly when its full text reached the file, and nothing otherwise |
| RetreatLog.HistoryReads | src/spirrow_mindwire/clone_retreat_log.py:64-81 | after any history of complete and torn appends, reading gives exactly the rows that reached the file, in order |
| RetreatLog.LogFile.Append | src/spirrow_mindwire/clone_retreat_log.py:64-69 | one append, as far as it was written |
| RetreatLog.LogFile.MarkDelivered | src/spirrow_mindwire/clone_retreat_log.py:170-182 | appends a delivered row that names the record |
| RetreatLog.LogFile.PendingRecord | src/spirrow_mindwire/clone_retreat_log.py:137-167 | the thread's last retreat row, unless a delivered row names it |
| RetreatLog.PendingIsUnique | src/spirrow_mindwire/clone_retreat_log.py:154-167 | that description has one answer |
| RetreatLog.DeliveredStaysDelivered | src/spirrow_mindwire/clone_retreat_log.py:154-167 | a delivered record never becomes pending again |
| RetreatLog.SupersededStaysSuperseded | src/spirrow_mindwire/clone_retreat_log.py:154-167 | a record with a later retreat row of its thread never becomes pending again |
| RetreatLog.DeliveryCycle | src/spirrow_mindwire/clone_retreat_log.py:154-182 | recording makes a record pending, marking it delivered clears it |
| DesignConditions.CanonicalConditions | src/spirrow_mindwire/design_conditions.py:166-213 | returns the go's canonical list, or nothing exactly when the go is unreadable |
| DesignConditions.IdLinesAre | src/spirrow_mindwire/design_conditions.py:166-213 | the ids are the unbroken run of id lines after the heading and its blank lines |
| DesignConditions.CanonicalMatchesBlocking | src/spirrow_mindwire/design_conditions.py:166-213 | the canonical ids are in bijection with the blocking objections and carry their texts |
| DesignConditions.CanonicalIsUnique | src/spirrow_mindwire/design_conditions.py:166-213 | a go has at most one canonical reading |
| DesignConditions.FindConditionalGos | src/spirrow_mindwire/design_conditions.py:231-237 | exactly the conditional gos, in order |
| DesignConditions.ScanAborts | src/spirrow_mindwire/design_conditions.py:247-268 | whether every abort line is valid, and the first valid abort |
| DesignConditions.EvaluateThread | src/spirrow_mindwire/design_conditions.py:216-300 | the seven-row table as a statement about the thread |
| DesignConditions.VerifyIff | src/spirrow_mindwire/design_conditions.py:216-300 | exactly when conditions are demanded, from the messages' own fields, and that they are the go's |
| DesignConditions.NotApplicableIff | src/spirrow_mindwire/design_conditions.py:216-300 | exactly when nothing is demanded; every other thread is held |
| DesignConditions.AmbiguityIsForever | src/spirrow_mindwire/design_conditions.py:216-300 | two conditional gos, or an invalid abort line, hold every continuation of the thread |
| DesignConditions.DroppedOnlyByAbortAndNewGo | src/spirrow_mindwire/design_conditions.py:270-286 | a thread with a conditional go is NOT_APPLICABLE only after a naysayer abort that names the go and a later valid go |
| DesignConditions.VerifyThenOneMessage | src/spirrow_mindwire/design_conditions.py:285-300 | under verification, one more message changes nothing unless it aborts or is a valid go, and then the thread is held |
| DesignConditions.CheckPrBody | src/spirrow_mindwire/design_conditions.py:324-366 | passes exactly when the section holds one well-formed row per condition and no other |
| DesignConditions.CountingIsEnough | src/spirrow_mindwire/design_conditions.py:343-366 | as many rows as conditions, one for each: no row is extra or repeated |
| DesignConditions.PassDeclaresEveryBlockingObjection | src/spirrow_mindwire/design_conditions.py:166-213 | across both functions: a passing body answers every blocking objection, and each row answers one |
| GateAdmission.CiClockStart | src/spirrow_mindwire/gate_admission.py:329-361 | the earliest stamp of any row, else the commit's date |
| GateAdmission.ComputeCiClockStart | src/spirrow_mindwire/gate_admission.py:329-361 | the collecting loop computes it |
| GateAdmission.RunAnswers | src/spirrow_mindwire/gate_admission.py:474-594 | in every run, the answer to each tick from what the run has shown: rollups, stamps, recorded verdicts and times, with no rule of the table in the statement |
| GateAdmission.ImplementerIff | src/spirrow_mindwire/gate_admission.py:551-573 | the implementer is asked exactly at the first red rollup of a head |
| GateAdmission.RoutedAreSeenRed | src/spirrow_mindwire/gate_admission.py:462-467 | the routed heads are those an earlier tick saw red |
| GateAdmission.ReviewedAreSeenGreen | src/spirrow_mindwire/gate_admission.py:458-461 | the reviewed heads are those with a recorded verdict or seen green |
| GateAdmission.OncePerHead | src/spirrow_mindwire/gate_admission.py:551-594 | in every run R4 fires at most once per head, and R7 at most once per head |
| GateAdmission.EscalationFollowsRouting | src/spirrow_mindwire/gate_admission.py:551-573 | R5 fires only after R4 fired on the same head |
| GateAdmission.RepeatedInvocationIsEmptyRollup | src/spirrow_mindwire/gate_admission.py:504-594 | a second invocation on a head is the empty-rollup rule's |
| GateAdmission.ReviewedHeadInvokedIff | src/spirrow_mindwire/gate_admission.py:504-594 | over runs: after R7 on a head, or a recorded verdict, every later tick on it finds it reviewed, and a self-nominated one invokes the gate if and only if its rollup is empty past the grace |
| GateAdmission.EmptyRollupInvokesTwice | src/spirrow_mindwire/gate_admission.py:516-524 | a run whose second tick invokes the gate on a head that has its verdict |
| GateAdmission.TickDefersNoMore | src/spirrow_mindwire/gate_admission.py:504-547 | a tick past the three caps does not defer, if its checks are stamped by a given time |
| GateAdmission.DeferralEnds | src/spirrow_mindwire/gate_admission.py:504-547 | the same for the ticks of a head in any run |
| GateAdmission.ClockOnlyMovesEarlier | src/spirrow_mindwire/gate_admission.py:329-361 | more rows never move the check clock later |
| GateAdmission.EscalationIsFinalIff | src/spirrow_mindwire/gate_admission.py:531-547 | an escalation stands under all further rows and times if and only if it is on the check clock |
| GateAdmission.EscalationStandsIff | src/spirrow_mindwire/gate_admission.py:531-547 | for given further rows and time: exactly when an escalation stands |
| GateAdmission.StuckStaysStuck | src/spirrow_mindwire/gate_admission.py:531-547 | an escalation on the check clock stands as long as its checks are listed |
| GateAdmission.CommitClockEscalationCanBeTakenBack | src/spirrow_mindwire/gate_admission.py:531-547 | every escalation on the commit clock is withdrawn by some later check |
| GateAdmission.SomeEscalationIsTakenBack | src/spirrow_mindwire/gate_admission.py:531-547 | there is such an escalation |
| SpecAudit.ClosedHoldsReachable | spec/design/verify.py:1146-1176 | a set closed under parents holds every reachable manifest |
| SpecAudit.ChainWalk.Walk | spec/design/verify.py:1146-1176 | the recursive walk ends on every graph, visits only what it reaches, completes the edges of what it visits and adds exactly their findings |
| SpecAudit.ResolveSupersedesChain | spec/design/verify.py:1123-1179 | the union of definitions and of exemptions over exactly the reachable manifests, cycles, diamonds, missing parents and duplicate ids included; exactly one finding each time a reachable manifest names a missing parent |
| SpecAudit.CheckV14 | spec/design/verify.py:1182-1209 | reports exactly the references outside that union |
| SpecAudit.UnresolvedIff | spec/design/verify.py:1182-1209 | unresolved exactly when no reachable manifest defines or exempts the reference |
| SpecAudit.EdgeAddsNoUnresolved | spec/design/verify.py:1182-1209 | an added supersedes edge to an existing manifest never adds an unresolved reference |
| SpecAudit.StripFencedBlocks | spec/design/verify.py:1045-1076 | the nested loops do what a scan of the lines with one number of state does |
| SpecAudit.InStepIff | spec/design/verify.py:198-202 | that scan has the same fence open as section 4.5 of CommonMark after every line, if and only if each line is taken as there where it stands; then the kept lines are the same |
| SpecAudit.InfoStringCloses | spec/design/verify.py:1068-1073 | three lines on which they part |
| SpecAudit.ScanConcat | spec/design/verify.py:1045-1076 | scanning may stop and go on at any line |
| SpecAudit.StrippedHasNoFences | spec/design/verify.py:1045-1076 | what is left has no opening fence; stripping again changes nothing |
| Kappa.Consensus | scripts/tierc_eval_report.py:342-352 | a key's label is the one every labeller gives it, else ambiguous |
| Kappa.SumPick | scripts/tierc_eval_report.py:364-364 | the sum over the labels does not depend on the order of the set |
| Kappa.SharesAddUp | scripts/tierc_eval_report.py:362-364 | the parts of the keys with one label each add up |
| Kappa.ExpectedBound | scripts/tierc_eval_report.py:361-364 | twice the chance agreement is at most one plus the observed agreement |
| Kappa.KappaBounds | scripts/tierc_eval_report.py:355-367 | kappa, when defined, is between -1 and 1 |
| Kappa.KappaIsOneIffAgreed | scripts/tierc_eval_report.py:355-367 | kappa is 1 exactly when the labellers agree on every shared key |
| Kappa.KappaIsSymmetric | scripts/tierc_eval_report.py:355-367 | the labellers can be swapped |
| Kappa.UndefinedIff | scripts/tierc_eval_report.py:355-367 | undefined exactly when there is no shared key, or both use one and the same label throughout |
| Kappa.KappaByCounting | scripts/tierc_eval_report.py:355-367 | the value by counting keys and pairs: with n shared keys, A agreed ones and P agreeing pairs, kappa times (n n - P) is n A - P; zero exactly when n A = P, negative exactly below |
| Kappa.ExpectedCounts | scripts/tierc_eval_report.py:362-364 | the chance agreement is the part of all pairs of shared keys that agree |
| Auc.ComputeAuc | scripts/tierc_eval_report.py:513-521 | the double loop computes the U statistic per pair, nothing for an empty side |
| Auc.AucBounds | scripts/tierc_eval_report.py:513-521 | the area is in [0, 1], and 1 exactly when every positive scores above every negative |
| Auc.AucComplement | scripts/tierc_eval_report.py:513-521 | the areas of the two directions add up to 1 |
| Auc.AucPermuted | scripts/tierc_eval_report.py:513-521 | the order of the scores does not matter |
| Auc.AucRescaled | scripts/tierc_eval_report.py:513-521 | a map that is strictly increasing on the scores changes nothing |
| Auc.RanksInSortedPool | scripts/tierc_eval_report.py:513-521 | in the sorted pool the copies of a score hold exactly the ranks whose middle is its mid-rank |
| Auc.WinsIsRankSum | scripts/tierc_eval_report.py:517-520 | the pair count is the mid-rank sum less n(n+1)/2 |
| Auc.AucIsRankSum | scripts/tierc_eval_report.py:513-521 | the area is the mid-rank form of the Mann-Whitney statistic |
| EvalFixture.HistoricalRoster | scripts/build_tierc_eval_fixture.py:166-193 | the loops compute the roster and whether today's was consulted |
| EvalFixture.LookupIsFirst | scripts/build_tierc_eval_fixture.py:158-163 | the first name that folds alike |
| EvalFixture.RosterSays | scripts/build_tierc_eval_fixture.py:166-193 | exactly the authors so far, each with the last valid role it stated, else today's |
| EvalFixture.RoutingRosterSays | scripts/build_tierc_eval_fixture.py:196-210 | every historical role, and today's roster for the names it leaves out |
| EvalFixture.RowsForThread | scripts/build_tierc_eval_fixture.py:344-376 | the loop collects the row of each escalation |
| EvalFixture.RowsAreRowAt | scripts/build_tierc_eval_fixture.py:344-376 | the rows of a thread are those its escalations build, each at its position |
| EvalFixture.RowDescribes | scripts/build_tierc_eval_fixture.py:254-330 | each column of a row from its message and the ones before it: identity, set, handoff, live entry, gate, roster source, and a state built from the historical roster and the turn |
| EvalFixture.RowIgnoresLaterMessages | scripts/build_tierc_eval_fixture.py:254-330 | the row at a position is the same in every continuation of the thread |
| EvalFixture.RowsIgnoreTheFuture | scripts/build_tierc_eval_fixture.py:254-376 | a grown thread has the rows it had, then rows at later positions |
| EvalFixture.BuildOutputs | scripts/build_tierc_eval_fixture.py:490-548 | population and fixture, sorted; refused exactly when two rows share a key |
| EvalFixture.SortOrdered | scripts/build_tierc_eval_fixture.py:518-518 | the outputs are ordered by time, thread and position |
| EvalFixture.OutputsInOrder | scripts/build_tierc_eval_fixture.py:518-521 | population and fixture are in the order of time, thread and position |
| EvalFixture.OrderIsCanonical | scripts/build_tierc_eval_fixture.py:512-518 | rows with distinct keys have one order |
| EvalFixture.DistinctIffNoClash | scripts/build_tierc_eval_fixture.py:512-517 | keys repeat only across different threads |
| EvalFixture.OutputsIgnoreThreadOrder | scripts/build_tierc_eval_fixture.py:490-548 | the outputs, or the refusal, depend on the set of threads, not on their order or on empty ones |
| EvalFixture.FixtureIff | scripts/build_tierc_eval_fixture.py:336-396 | the fixture holds exactly the rows of the messages that go to the human under the routing roster and are in the window and admitted, by the live entry check or the gate, or older and labelled; each row describing its message |
| EvalFixture.RowsOfView | scripts/build_tierc_eval_fixture.py:344-376 | in any history that only grew, the first rows are those of the view at the positions that were fetched |
| EvalFixture.ViewIsRestored | scripts/build_tierc_eval_fixture.py:556-561 | when messages were posted only after the cutoff, the as-of view of a later harvest is the first harvest, up to order and empty threads |
| EvalFixture.RebuildIsIdentical | scripts/build_tierc_eval_fixture.py:556-561 | when messages were posted only after the cutoff, rebuilding from that view gives the same outputs |
| EvalFixture.RebuildIsIdenticalIff | scripts/build_tierc_eval_fixture.py:705-753 | for every history that only grew: the same outputs, if and only if no message that was not fetched and is in the view builds a row, or the first build was refused |
| EvalFixture.RebuildAfterTheWindow | scripts/build_tierc_eval_fixture.py:336-341 | so the outputs are the same when all such messages are after the evaluation window |
| EvalFixture.RebuildCanDiffer | scripts/build_tierc_eval_fixture.py:749-753 | a message posted between the fetch of its thread and the stamp, and a different fixture |
| Corrections.CorrectionsFor | scripts/build_tierc_eval_fixture.py:568-646 | keep, exclude with reason, and added, from the rebuilt outputs; refused when the rebuild is |
| Corrections.KeptIff | scripts/build_tierc_eval_fixture.py:593-598 | for unique keys: a row is kept exactly when its key is rebuilt with the same line, excluded otherwise |
| Corrections.ExcludedIff | scripts/build_tierc_eval_fixture.py:599-631 | the reason of an excluded row, from the messages and the rebuilt outputs; RebuiltRowDiffers exactly when the message stands there and its key is rebuilt with another line |
| Corrections.MessagesOfLast | scripts/build_tierc_eval_fixture.py:591-591 | the lookup by thread id takes the last thread |
| Corrections.ReasonIsTrueIff | scripts/build_tierc_eval_fixture.py:593-636 | exactly when the reason of an excluded row is true of its message: ids shared by two projects and escalations in neither set are the two ways it fails |
| Corrections.ReasonsAreTrue | scripts/build_tierc_eval_fixture.py:593-636 | with distinct ids, exactly when an escalation the row names still belongs to a set |
| Corrections.WindowReasonsAreTrue | scripts/build_tierc_eval_fixture.py:593-636 | so always for messages in the evaluation window |
| Corrections.UnlabelledEscalationIsCalledNone | scripts/build_tierc_eval_fixture.py:614-627 | an escalation that is called none |
| Corrections.SharedIdGivesFalseReason | scripts/build_tierc_eval_fixture.py:512-517 | two accepted threads with one id, and a message that is there but reported missing |
| Corrections.NothingToCorrect | scripts/build_tierc_eval_fixture.py:586-646 | when messages were posted only after the cutoff, corrections of an unchanged build keep every row, exclude none and add none |
| Corrections.CorrectionsAfterGrowth | scripts/build_tierc_eval_fixture.py:586-646 | for every history that only grew: refused exactly when two rows of the view share a key; otherwise every row is kept, none excluded, and exactly the selected messages that were missed are added |
| Corrections.NothingToCorrectIff | scripts/build_tierc_eval_fixture.py:586-646 | so there is nothing to correct if and only if there is neither such a clash nor a missed selected message |
| Corrections.ReadKeys | scripts/tierc_eval_report.py:279-294 | accepts a list exactly when every entry names a fixture row and its message; the error names what is wrong |
| Corrections.LoadCorrections | scripts/tierc_eval_report.py:256-307 | succeeds exactly on the files that pass every check, with their keys; each error is explained |
| Corrections.ProducedCorrectionsLoad | scripts/build_tierc_eval_fixture.py:586-646 | for unique keys, the written file passes every check of the reader, and each row is in exactly one list |
| Corrections.ReportCountsRebuiltRows | scripts/tierc_eval_report.py:1119-1124 | after applying, exactly the rows and labels of fixture rows that rebuild byte for byte are counted |
| ShadowExport.Candidates | scripts/export_shadow_eval_set.py:265-281 | the candidates and the buckets of the rest; refused exactly when a message has two candidates, naming exactly these messages |
| ShadowExport.Position | scripts/export_shadow_eval_set.py:288-293 | the first message with the id |
| ShadowExport.ContinuesBounceChain | scripts/export_shadow_eval_set.py:296-316 | the backward loop answers whether a notice for the author stands before the message with no human post since |
| ShadowExport.BuildOutputs | scripts/export_shadow_eval_set.py:408-458 | the export of the cut log and the cut threads; the first error ends it |
| ShadowExport.OutcomeIsStable | scripts/export_shadow_eval_set.py:221-223 | what becomes of a row does not depend on messages and threads after the cut |
| ShadowExport.ExportIsStable | scripts/export_shadow_eval_set.py:209-223 | a successful export is the same after the threads have grown and rows were added, if and only if each added row was logged after the cut; then a failed one keeps its error, unless its thread was not fetched |
| ShadowExport.EachRowInOneBucket | scripts/export_shadow_eval_set.py:421-456 | each kept row is in exactly one bucket, and the counted ones are the exported ones |
| ShadowExport.BucketSays | scripts/export_shadow_eval_set.py:250-326 | which bucket, test by test |
| ShadowExport.BouncedIff | scripts/export_shadow_eval_set.py:296-316 | the bounce chain in the open: a relay notice that names the author's message, and no human since |
| ShadowExport.ExportedIff | scripts/export_shadow_eval_set.py:250-326 | which rows are exported, and with which messages |
| ShadowExport.LabellerSees | scripts/export_shadow_eval_set.py:316-354 | an exported row shows the logged message, nothing later than the cut, and three following messages unless the thread had ended or gone quiet |
| ShadowExport.ExportedKeysDistinct | scripts/export_shadow_eval_set.py:278-280 | no two exported rows share thread and position |
| LabelRuns.ParseAnswer | scripts/label_eval_set.py:145-177 | accepts exactly the answers with one block of valid entries, one per expected key |
| LabelRuns.WellFormedIff | scripts/label_eval_set.py:145-177 | an answer is accepted exactly when it has one block of blank lines and valid entries, with one entry per expected key and no other |
| LabelRuns.LabelFile.LabelAll | scripts/label_eval_set.py:269-346 | a run appends whole batches of its list, with the next numbers, and counts them; each is the first well-formed of at most two replies to its keys, taken in order, row by row as the reply says; it ends at the list's end, at its cap, after two ill-formed replies, or at a transport failure |
| LabelRuns.NextNumber | scripts/label_eval_set.py:288-288 | the number of distinct batch values is the next batch number |
| LabelRuns.GoodIsNumbered | scripts/label_eval_set.py:288-344 | in a file kept so, the batch numbers are exactly 0 to b - 1 |
| LabelRuns.RunKeepsGood | scripts/label_eval_set.py:269-346 | a run keeps each key at most once, batches whole and numbered from 0 without a gap |
| LabelRuns.SeriesKeepsGood | scripts/label_eval_set.py:269-346 | so does any series of runs with any answers, caps, sizes and stops |
| LabelRuns.SeriesRowsAreAnswers | scripts/label_eval_set.py:320-337 | over any series of runs, every row of the file is an entry of an accepted reply of one of the runs |
| LabelRuns.ReachedIs | scripts/label_eval_set.py:289-292 | the batches take `size` keys each, up to the end |
| LabelRuns.RemainingIsUnlabelled | scripts/label_eval_set.py:276-346 | `remaining` is the number of unlabelled material keys |
| LabelRuns.UncappedRunCovers | scripts/label_eval_set.py:414-424 | a run without a cap that returns normally covers the materials, if and only if its list does not repeat and the batch size is positive, or the list was empty |
| LabelRuns.SeriesEndsCovered | scripts/label_eval_set.py:414-424 | after any series, an uncapped run that returns makes the file ready for the lock |
| LabelRuns.RepeatedMaterialIsLabelledTwice | scripts/label_eval_set.py:275-275 | a repeated material key that is labelled twice |
| LabelRuns.NegativeSizeLabelsNothing | scripts/label_eval_set.py:289-289 | a normal return that labels nothing |
| ReplayRuns.LoadDoneKeys | scripts/decider_replay.py:337-349 | exactly the keys of records with a decision |
| ReplayRuns.OutputFile.DecideRecords | scripts/decider_replay.py:352-389 | answers the first keys that are not done, up to the cap or the crash, call n with answer n, and counts every key once |
| ReplayRuns.OutputFile.Replay | scripts/decider_replay.py:441-475 | refuses repeated keys and negative caps without touching the file; otherwise starts afresh or resumes |
| ReplayRuns.RunKeepsOnce | scripts/decider_replay.py:352-389 | no run records a second decision for a key |
| ReplayRuns.SeriesKeepsOnce | scripts/decider_replay.py:337-389 | nor does any series of capped, crashed and resumed runs, each on a fixture of its own |
| ReplayRuns.CountsAddUp | scripts/decider_replay.py:352-389 | called, skipped and not sent add up; the calls are as many as undecided keys or as the cap allows |
| ReplayRuns.RunsMakeProgress | scripts/decider_replay.py:352-389 | each completed resumed run leaves that many fewer keys undecided |
| ReplayRuns.UncappedRunFinishes | scripts/decider_replay.py:352-389 | a completed run without a cap leaves every key decided exactly once |
| FulltextRuns.Plan | scripts/tierc_fulltext_run.py:93-101 | two steps per row, in the order of the coin |
| FulltextRuns.PlanIsPaired | scripts/tierc_fulltext_run.py:93-101 | each key has exactly one step per side, whatever the coins |
| FulltextRuns.PlanKeepsOrder | scripts/tierc_fulltext_run.py:93-101 | the rows keep their order |
| FulltextRuns.CoinGoesFirst | scripts/tierc_fulltext_run.py:93-101 | the coin of a row is the side that goes first |
| FulltextRuns.Tally.RecordOutcome | scripts/tierc_fulltext_run.py:158-174 | counts the call and stops for the first reason that holds |
| FulltextRuns.StopSays | scripts/tierc_fulltext_run.py:158-174 | each reason to stop, and the order among them |
| FulltextRuns.Runner.Run | scripts/tierc_fulltext_run.py:177-203 | sends the first steps that are not evaluated, one record each, call n with answer n; ends early only at its cap, at a stop or at a crash |
| FulltextRuns.EveryCallIsRecorded | scripts/tierc_fulltext_run.py:195-198 | each call is one record at the end of its side's file, failed ones included |
| FulltextRuns.RunKeepsOnce | scripts/tierc_fulltext_run.py:177-219 | with distinct keys no run leaves a second evaluated record for a key on a side |
| FulltextRuns.SeriesKeepsOnce | scripts/tierc_fulltext_run.py:177-219 | nor does any series of capped, stopped, crashed and resumed runs |
| FulltextRuns.RepeatedKeyIsEvaluatedTwice | scripts/tierc_fulltext_run.py:243-249 | every plan with a repeated key has a run that evaluates it twice |
| FulltextRuns.PlanIsSafeIff | scripts/tierc_fulltext_run.py:177-249 | no run of a plan evaluates a key twice on a side, if and only if its keys do not repeat |
| FulltextRuns.FailedStepIsSentAgain | scripts/tierc_fulltext_run.py:206-219 | a run that ends by itself has sent exactly the steps without an `evaluated` record |
| FulltextRuns.ErrorsAreBounded | scripts/tierc_fulltext_run.py:158-174 | a run never pays for more than ten errors, or a tenth of its calls and one more; failed calls are errors, apart from one contract mismatch that ends the run |

## Left out

- The MCP clients, the GitHub and Lexora calls, the command lines, the reports' text and the PowerShell wrappers: I/O with no invariant of its own.
- The scripts whose decisions live in modules they import (`head_skip_decide.py`, `pr_review_sweep_phase*.py`, `stall_ledger_tick.py`, `guard_i_latch_census.py`, `parked_humans.py`).
- `config.py`, `exceptions.py`, `_time.py`, `_seq.py`, `cli.py`, `obligations_readback.py`, `repo_projects.py`, `decision_log_audit.py`, `identity_findings.py`: declarations, validators and partitions that would add easy members.
- Regular expressions, Markdown rendering, YAML, JSON text, hashing, date parsing: the models take parsed values; errors in parsing them are not modelled.
- Floating-point rounding: kappa, the area and the error rate are over the reals.
- The number of shared keys that `cohen_kappa` returns beside kappa.
- `set_awaiting_from` reads and rewrites the whole `meta.yaml`; the toggle's set is one atomic step on `awaiting_from`, and other writers of the file are not modelled.
- A fetch that brings tags: the model's fetch changes remote-tracking refs and origin/HEAD only. Tags would only keep more commits.
- The header of the untracked list (thread, operation in progress, state refs).
- Git itself: hooks, submodules, line endings, reflogs, garbage collection, ambiguous ref names, and what the abort commands do. Files are numbers, modes and directories are not modelled.
- The content of exported untracked files: `CloneRetreat` says which paths the list covers, not their bytes.
- Writes of a label batch are atomic, as the module's own contract says; the failure and raw-answer files, tokens and costs are not modelled.
- A crash in the middle of a replay or full-text record: the next run then refuses the file. The models crash between records, also after a call that was paid for.
- The row projections of the fixture's population and materials, and of the three export files: one row of the model stands for the lines written from it. The fixture's `following` and `prior` texts, manifests and counters by kind are not modelled.
- `build_eval_row` with other head lengths than the default, and `fulltext_for`.
- `_resolve_pin` and the other checks of the specification auditor: they are git queries or one-manifest tables.
- `mode_for`, the Markdown section finder and the fetch of the thread in `design_conditions.py`.
- EvalFixture.BuildOutputs: does not produce the labelling materials and the manifest; population and fixture are the outputs the corrections and the replay read.
- Corrections.CorrectionsFor: does not model the `detail`, `counts` and `roster` columns, which the report does not read.
- SpecAudit.ResolveSupersedesChain: states the findings with their number, not their order.
- Corrections.ProducedCorrectionsLoad: stated for fixtures with unique keys, which is what the builder writes.
- EvalFixture.RebuildIsIdenticalIff: needs the same roster, a history in which nothing was edited or deleted, and a stamp that is not before any message of the first harvest, so clocks that agree; the corrections report the other cases.
- SpecAudit.InStepIff: compares backtick fences only; the auditor knows no tilde fences and no indented or nested blocks.
