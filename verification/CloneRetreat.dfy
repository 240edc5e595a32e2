/** Retreating a dirty clone: the work in progress to a `wip/` branch, or, when that cannot be
    done, exported and then discarded. */
module CloneRetreat {
  import opened Wrappers
  import opened GitModel
  import CloneGuard

  datatype Outcome = Clean | NotEligible | Retreated | Discarded | DiscardIncomplete | Failed

  /** The git calls of a run that write, destroy or export. */
  datatype Call =
    | CallSwitchCreate | CallAdd | CallCommit | CallPush | CallSwitch
    | CallDiff | CallListUntracked
    | CallAbort(op: nat) | CallReset | CallClean | CallBranchDelete

  /** Everything the run does not decide. `aborted` is the clone the five aborts leave, which is
      not constrained at all (`None`: as it was). */
  datatype Environment = Environment(
    guardBefore: CloneGuard.GuardAnswers, guardAfter: CloneGuard.GuardAnswers,
    defaultRef: Status, unmergedList: Status,
    switchCreate: Answer, add: Answer, staged: set<Path>, commit: Answer, push: Answer, switchBack: Answer,
    diff: Status, patchWritten: bool, untrackedList: Status, listWritten: bool,
    aborted: Option<Repo>, status: Status, reset: Answer, clean: Answer, switchDefault: Answer, delete: Answer)

  /** `tree` is the work the retreat must save: path by path what is on disk, deletions included,
      apart from ignored files that git does not track. */
  ghost predicate HoldsWork(tree: Tree, r: Repo) {
    forall p :: Lookup(tree, p) == if p in r.ignored && p !in r.Tracked() then None else Lookup(r.work, p)
  }

  /** The file with the untracked paths; when git could not list them, it says only that. */
  datatype ListFile = Paths(names: set<Path>) | Unavailable

  /** The paths whose content on disk is not HEAD's, ignored untracked files aside. */
  function Changed(r: Repo): set<Path> {
    set p | p in r.work.Keys + r.HeadTree().Keys
            && Lookup(r.work, p) != Lookup(r.HeadTree(), p)
            && (p in r.Tracked() || p in r.HeadTree() || p !in r.ignored)
  }

  ghost predicate Covered(entry: Repo, patch: map<Path, Option<int>>, list: set<Path>) {
    forall p :: p in Changed(entry) ==> p in patch || p in list
  }

  predicate Destroys(c: Call) {
    c.CallAbort? || c.CallReset? || c.CallClean? || c.CallBranchDelete?
  }

  ghost predicate NonDestructive(calls: seq<Call>) {
    forall c :: c in calls ==> !Destroys(c)
  }

  ghost predicate ExportsFirst(calls: seq<Call>) {
    forall i :: 0 <= i < |calls| && Destroys(calls[i]) ==>
      CallDiff in calls[..i] && CallListUntracked in calls[..i]
  }

  /** How the retreat can be abandoned, and where it leaves the clone. */
  datatype Abandoned = NotTried | AtSwitch | AtAdd | AtCommit

  function AfterAttempt(entry: Repo, wip: string, message: string, env: Environment, at: Abandoned): Repo {
    if at == NotTried then entry
    else
      var r1 := SwitchCreate(entry, wip, env.switchCreate).0;
      if at == AtSwitch then r1
      else
        var r2 := AddAll(r1, env.staged, env.add).0;
        if at == AtAdd then r2 else CommitIndex(r2, message, env.commit).0
  }

  /** The attempt was abandoned at the call `at`, in exactly the state that call left. */
  ghost predicate AbandonedAt(entry: Repo, r: Repo, wip: string, message: string, env: Environment, at: Abandoned) {
    && at != NotTried && r == AfterAttempt(entry, wip, message, env, at)
    && (at == AtSwitch <==> !SwitchCreate(entry, wip, env.switchCreate).1.Ok())
    && (at == AtCommit ==> env.add.status.Ok())
    && (at == AtAdd ==> !env.add.status.Ok())
    && !Commits(entry, wip, message, env)
  }

  /** The guard refuses the entry only as dirty, and no path of it is in conflict: it can be committed. */
  predicate Committable(entry: Repo, env: Environment) {
    CloneGuard.FindsDirt(entry, env.guardBefore) && env.unmergedList.Ok() && entry.unmerged == {}
  }

  /** The branch, the staging and the commit all reported success. */
  predicate Commits(entry: Repo, wip: string, message: string, env: Environment) {
    && SwitchCreate(entry, wip, env.switchCreate).1.Ok()
    && env.add.status.Ok()
    && CommitIndex(AfterAttempt(entry, wip, message, env, AtAdd), message, env.commit).1.Ok()
  }

  /** The clone after the commit, the push and the switch back, and how the switch ended. */
  function AfterReturn(entry: Repo, wip: string, message: string, default: string, env: Environment): (Repo, Status) {
    Switch(Push(AfterAttempt(entry, wip, message, env, AtCommit), wip, env.push).0, default, env.switchBack)
  }

  /** The calls of an attempt that was abandoned at `at`. */
  function AttemptCalls(at: Abandoned): seq<Call> {
    match at
    case NotTried => []
    case AtSwitch => [CallSwitchCreate]
    case AtAdd => [CallSwitchCreate, CallAdd]
    case AtCommit => [CallSwitchCreate, CallAdd, CallCommit]
  }

  const RETURN_CALLS: seq<Call> := [CallSwitchCreate, CallAdd, CallCommit, CallPush, CallSwitch]
  const EXPORT_CALLS: seq<Call> := [CallDiff, CallListUntracked]
  const ABORT_CALLS: seq<Call> := [CallAbort(0), CallAbort(1), CallAbort(2), CallAbort(3), CallAbort(4)]

  /** The calls after the exports. */
  function CleanUpCalls(exported: Repo, cleanup: Option<string>, env: Environment): seq<Call> {
    var r := if env.aborted.Some? then env.aborted.value else exported;
    ABORT_CALLS
    + (if env.status.Ok() && r.StatusEmpty() then [] else [CallReset, CallClean])
    + [CallSwitch]
    + if cleanup.Some? then [CallBranchDelete] else []
  }

  /** The branch the run returns to. */
  function DefaultFor(r: Repo, env: Environment): string {
    if env.defaultRef.Ok() && r.originHead.Some? then r.originHead.value else FALLBACK_DEFAULT_BRANCH
  }

  /** The branch an abandoned attempt leaves for the clean-up to delete. */
  function Leftover(wip: string, at: Abandoned): Option<string> {
    if at in {AtAdd, AtCommit} then Some(wip) else None
  }

  function AfterDiscard(exported: Repo, default: string, cleanup: Option<string>, env: Environment): Repo {
    var r1 := if env.aborted.Some? then env.aborted.value else exported;
    var r2 := if env.status.Ok() && r1.StatusEmpty() then r1
              else CleanUntracked(ResetHard(r1, env.reset).0, env.clean).0;
    var r3 := Switch(r2, default, env.switchDefault).0;
    if cleanup.Some? then DeleteBranch(r3, cleanup.value, env.delete).0 else r3
  }

  /** What an abandoned attempt can have done before HEAD moves: stage, from the same disk. */
  ghost predicate OnlyStaged(entry: Repo, x: Repo) {
    && x.work == entry.work && x.ignored == entry.ignored && x.HeadCommit() == entry.HeadCommit()
    && (forall p :: p in x.Tracked() ==> p in entry.Tracked() || (p in entry.work && p !in entry.ignored))
    && (forall p :: p in entry.Tracked() && p !in x.Tracked() ==> p !in entry.work)
  }

  lemma AddOnlyStages(r: Repo, staged: set<Path>, a: Answer)
    ensures OnlyStaged(r, AddAll(r, staged, a).0)
  {
  }

  lemma AttemptOnlyStages(entry: Repo, wip: string, message: string, env: Environment, at: Abandoned)
    requires var x := AfterAttempt(entry, wip, message, env, at);
             x.HeadCommit() == entry.HeadCommit()
    ensures OnlyStaged(entry, AfterAttempt(entry, wip, message, env, at))
  {
    if at != NotTried {
      var r1 := SwitchCreate(entry, wip, env.switchCreate).0;
      NewBranchStagesNothing(entry, wip, env.switchCreate);
      AddOnlyStages(r1, env.staged, env.add);
      var r2 := AddAll(r1, env.staged, env.add).0;
      CommitThatMovesNothing(r2, message, env.commit);
    }
  }

  lemma NewBranchStagesNothing(r: Repo, b: string, a: Answer)
    ensures var x := SwitchCreate(r, b, a).0;
            && x.work == r.work && x.ignored == r.ignored && x.index == r.index && x.unmerged == r.unmerged
            && x.HeadCommit() == r.HeadCommit()
  {
  }

  lemma CommitThatMovesNothing(r: Repo, message: string, a: Answer)
    ensures var x := CommitIndex(r, message, a).0;
            x.work == r.work && x.ignored == r.ignored && x.index == r.index && x.unmerged == r.unmerged
  {
  }

  /** While HEAD stands, the two exports see every changed path, however much a failed `add -A`
      staged; and the patch holds the content of every changed path the index knew or knows. */
  lemma ExportCovers(entry: Repo, x: Repo)
    requires OnlyStaged(entry, x)
    ensures Covered(entry, DiffHead(x), x.Untracked())
    ensures forall p :: p in Changed(entry) && (p in entry.Tracked() || p in x.Tracked()) ==>
              p in DiffHead(x) && DiffHead(x)[p] == Lookup(entry.work, p)
  {
    forall p | p in Changed(entry)
      ensures p in DiffHead(x) || p in x.Untracked()
      ensures p in entry.Tracked() || p in x.Tracked() ==> p in DiffHead(x) && DiffHead(x)[p] == Lookup(entry.work, p)
    {
      assert x.HeadTree() == entry.HeadTree();
      if p in entry.Tracked() || p in x.Tracked() {
        assert TrackedContent(x, p) == Lookup(entry.work, p);
        assert p in x.HeadTree().Keys + x.Tracked();
      }
    }
  }

  /** After a successful `add -A` the index is the working tree. */
  lemma StagedHoldsWork(entry: Repo, wip: string, env: Environment)
    requires env.add.status.Ok()
    ensures HoldsWork(AddAll(SwitchCreate(entry, wip, env.switchCreate).0, env.staged, env.add).0.index, entry)
  {
  }

  /** Once the commit has landed, the exports see nothing at all. */
  lemma LandedCommitHidesChanges(entry: Repo, wip: string, message: string, env: Environment)
    requires SwitchCreate(entry, wip, env.switchCreate).1.Ok() && env.add.status.Ok()
    requires var x := AfterAttempt(entry, wip, message, env, AtCommit);
             x.HeadCommit() != entry.HeadCommit()
    ensures var x := AfterAttempt(entry, wip, message, env, AtCommit);
            && DiffHead(x) == map[] && x.Untracked() == {}
            && x.HeadCommit().Some? && HoldsWork(x.HeadCommit().value.tree, entry)
  {
    var r1 := SwitchCreate(entry, wip, env.switchCreate).0;
    assert r1.HeadCommit() == entry.HeadCommit();
    var r2 := AddAll(r1, env.staged, env.add).0;
    assert r2.HeadCommit() == entry.HeadCommit();
    StagedHoldsWork(entry, wip, env);
  }

  lemma NewCallsKeepExportsFirst(before: seq<Call>, added: seq<Call>)
    requires ExportsFirst(before)
    requires (CallDiff in before && CallListUntracked in before) || NonDestructive(added)
    ensures ExportsFirst(before + added)
  {
    var calls := before + added;
    forall i | 0 <= i < |calls| && Destroys(calls[i])
      ensures CallDiff in calls[..i] && CallListUntracked in calls[..i]
    {
      if i < |before| {
        assert calls[..i] == before[..i];
      } else {
        assert calls[i] in added;
        assert calls[..i] == before + added[..i - |before|];
      }
    }
  }

  /** The branch holds the entry's work in progress as one commit on top of the entry's HEAD, and
      every local branch of the entry is where it was. */
  ghost predicate WorkIsCommitted(entry: Repo, r: Repo, wip: string, message: string) {
    && wip !in entry.heads && wip in r.heads
    && HoldsWork(r.heads[wip].tree, entry)
    && r.heads[wip].parents == (if entry.HeadCommit().Some? then [entry.HeadCommit().value] else [])
    && r.heads[wip].message == message
    && (forall b :: b in entry.heads ==> b in r.heads && r.heads[b] == entry.heads[b])
  }

  lemma CommitSavesWork(entry: Repo, wip: string, message: string, env: Environment)
    requires SwitchCreate(entry, wip, env.switchCreate).1.Ok() && env.add.status.Ok()
    requires var r2 := AfterAttempt(entry, wip, message, env, AtAdd);
             CommitIndex(r2, message, env.commit).1.Ok()
    ensures WorkIsCommitted(entry, AfterAttempt(entry, wip, message, env, AtCommit), wip, message)
  {
    var r1 := SwitchCreate(entry, wip, env.switchCreate).0;
    assert r1.HeadCommit() == entry.HeadCommit();
    var r2 := AddAll(r1, env.staged, env.add).0;
    StagedHoldsWork(entry, wip, env);
    assert r2.HeadCommit() == entry.HeadCommit();
  }

  lemma PushAndSwitchKeepWork(entry: Repo, r: Repo, wip: string, message: string, d: string, push: Answer, back: Answer)
    requires WorkIsCommitted(entry, r, wip, message)
    ensures WorkIsCommitted(entry, Switch(Push(r, wip, push).0, d, back).0, wip, message)
  {
    assert Push(r, wip, push).0.heads == r.heads;
    SwitchKeepsWork(entry, Push(r, wip, push).0, wip, message, d, back);
  }

  lemma SwitchKeepsWork(entry: Repo, r: Repo, wip: string, message: string, d: string, back: Answer)
    requires WorkIsCommitted(entry, r, wip, message)
    ensures WorkIsCommitted(entry, Switch(r, d, back).0, wip, message)
  {
    var r' := Switch(r, d, back).0;
    assert forall b :: b in r.heads ==> b in r'.heads && r'.heads[b] == r.heads[b];
  }

  /** What the two export files hold of `r`: the patch restores the tracked paths, the list names
      exactly the files on disk that are neither tracked nor ignored. The list file is written even
      when git could not answer. */
  ghost predicate Exported(
    r: Repo, patch: Option<map<Path, Option<int>>>, untracked: Option<ListFile>, env: Environment) {
    && (patch.Some? <==> env.diff.Ok() && env.patchWritten)
    && (patch.Some? ==> IsPatchOf(patch.value, r))
    && (untracked.Some? <==> env.listWritten)
    && (untracked.Some? ==>
          if !env.untrackedList.Ok() then untracked.value == Unavailable
          else && untracked.value.Paths?
               && forall p :: p in untracked.value.names <==> p in r.work && p !in r.Tracked() && p !in r.ignored)
  }

  class CloneRetreater {
    var repo: Repo
    var pendingBranchCleanup: Option<string>
    var patch: Option<map<Path, Option<int>>>
    var untracked: Option<ListFile>
    ghost var calls: seq<Call>

    constructor (r: Repo)
      ensures repo == r && pendingBranchCleanup == None && patch == None && untracked == None && calls == []
    {
      repo := r;
      pendingBranchCleanup, patch, untracked, calls := None, None, None, [];
    }

    /** Two reads: the diff against HEAD and the untracked list, each written when it can be. */
    method Export(env: Environment)
      modifies this`patch, this`untracked, this`calls
      ensures calls == old(calls) + [CallDiff, CallListUntracked]
      ensures Exported(repo, patch, untracked, env)
    {
      patch, untracked := None, None;
      if env.diff.Ok() && env.patchWritten {
        patch := Some(DiffHead(repo));
      }
      var paths := if env.untrackedList.Ok() then Paths(repo.Untracked()) else Unavailable;
      if env.listWritten {
        untracked := Some(paths);
      }
      calls := calls + [CallDiff, CallListUntracked];
      DiffIsThePatch(repo, map[]);
    }

    method Discard(default: string, env: Environment) returns (outcome: Outcome)
      requires ExportsFirst(calls)
      modifies this
      ensures outcome in {Discarded, DiscardIncomplete}
      ensures outcome == Discarded ==> CloneGuard.Acceptable(repo)
      ensures repo == AfterDiscard(old(repo), default, old(pendingBranchCleanup), env)
      ensures outcome == Discarded <==> CloneGuard.Accepts(repo, env.guardAfter)
      ensures calls == old(calls) + EXPORT_CALLS + CleanUpCalls(old(repo), old(pendingBranchCleanup), env)
      ensures ExportsFirst(calls) && CallDiff in calls && CallListUntracked in calls
      ensures Exported(old(repo), patch, untracked, env)
    {
      NewCallsKeepExportsFirst(calls, [CallDiff, CallListUntracked]);
      Export(env);
      ghost var cleanUp := CleanUpCalls(repo, pendingBranchCleanup, env);
      AbortAll();
      CleanUp(default, env);
      assert cleanUp == ABORT_CALLS + cleanUp[5..];
      var left := CloneGuard.Check(repo, env.guardAfter);
      return if left.Clean? then Discarded else DiscardIncomplete;
    }

    /** After the exports: the aborts, then back to a clean default branch. */
    method CleanUp(default: string, env: Environment)
      requires ExportsFirst(calls) && CallDiff in calls && CallListUntracked in calls
      modifies this`repo, this`calls
      ensures repo == AfterDiscard(old(repo), default, pendingBranchCleanup, env)
      ensures calls == old(calls) + (CleanUpCalls(old(repo), pendingBranchCleanup, env)[5..])
      ensures ExportsFirst(calls) && CallDiff in calls && CallListUntracked in calls
    {
      ghost var before, cleanUp := calls, CleanUpCalls(repo, pendingBranchCleanup, env);
      var r := if env.aborted.Some? then env.aborted.value else repo;
      if !(env.status.Ok() && r.StatusEmpty()) {
        Logged([CallReset, CallClean]);
        r := CleanUntracked(ResetHard(r, env.reset).0, env.clean).0;
      }
      Logged([CallSwitch]);
      r := Switch(r, default, env.switchDefault).0;
      if pendingBranchCleanup.Some? {
        Logged([CallBranchDelete]);
        r := DeleteBranch(r, pendingBranchCleanup.value, env.delete).0;
      }
      assert calls == before + cleanUp[5..];
      repo := r;
    }

    /** The five abort calls, whatever each of them answers. */
    method AbortAll()
      requires ExportsFirst(calls) && CallDiff in calls && CallListUntracked in calls
      modifies this`calls
      ensures calls == old(calls) + ABORT_CALLS
      ensures ExportsFirst(calls) && CallDiff in calls && CallListUntracked in calls
    {
      for k := 0 to 5
        invariant calls == old(calls) + ABORT_CALLS[..k]
        invariant ExportsFirst(calls) && CallDiff in calls && CallListUntracked in calls
      {
        Logged([CallAbort(k)]);
        assert ABORT_CALLS[..k + 1] == ABORT_CALLS[..k] + [CallAbort(k)];
      }
      assert ABORT_CALLS[..5] == ABORT_CALLS;
    }

    ghost method Logged(more: seq<Call>)
      requires ExportsFirst(calls) && CallDiff in calls && CallListUntracked in calls
      modifies this`calls
      ensures calls == old(calls) + more
      ensures ExportsFirst(calls) && CallDiff in calls && CallListUntracked in calls
    {
      NewCallsKeepExportsFirst(calls, more);
      calls := calls + more;
    }

    /** The steps up to the commit; when one fails, the attempt is abandoned there. */
    method CommitWork(wip: string, message: string, env: Environment) returns (done: bool, ghost at: Abandoned)
      requires calls == []
      modifies this`repo, this`calls, this`pendingBranchCleanup
      ensures NonDestructive(calls) && calls == AttemptCalls(if done then AtCommit else at)
      ensures done <==> Commits(old(repo), wip, message, env)
      ensures done ==> repo == AfterAttempt(old(repo), wip, message, env, AtCommit)
      ensures done ==> WorkIsCommitted(old(repo), repo, wip, message)
      ensures !done ==> AbandonedAt(old(repo), repo, wip, message, env, at)
      ensures pendingBranchCleanup == if done || at == AtSwitch then old(pendingBranchCleanup) else Some(wip)
    {
      ghost var entry := repo;
      var created := SwitchCreate(repo, wip, env.switchCreate);
      repo, calls := created.0, [CallSwitchCreate];
      if !created.1.Ok() {
        return false, AtSwitch;
      }
      var added := AddAll(created.0, env.staged, env.add);
      repo, calls := added.0, [CallSwitchCreate, CallAdd];
      if !added.1.Ok() {
        pendingBranchCleanup := Some(wip);
        return false, AtAdd;
      }
      var committed := CommitIndex(added.0, message, env.commit);
      repo, calls := committed.0, [CallSwitchCreate, CallAdd, CallCommit];
      if !committed.1.Ok() {
        pendingBranchCleanup := Some(wip);
        return false, AtCommit;
      }
      CommitSavesWork(entry, wip, message, env);
      return true, NotTried;
    }

    /** `None`: the attempt was abandoned at `at`, which the caller answers with a discard. */
    method TryRetreat(wip: string, message: string, default: string, env: Environment)
      returns (outcome: Option<Outcome>, ghost at: Abandoned)
      requires repo.unmerged == {} && calls == []
      modifies this`repo, this`calls, this`pendingBranchCleanup
      ensures NonDestructive(calls)
      ensures calls == if outcome.Some? then RETURN_CALLS else AttemptCalls(at)
      ensures outcome.Some? <==> Commits(old(repo), wip, message, env)
      ensures outcome.Some? ==> repo == AfterReturn(old(repo), wip, message, default, env).0
      ensures outcome.Some? ==>
                (outcome.value == Retreated <==>
                   && AfterReturn(old(repo), wip, message, default, env).1.Ok()
                   && CloneGuard.Accepts(repo, env.guardAfter))
      ensures outcome.Some? ==> outcome.value in {Retreated, Failed} && WorkIsCommitted(old(repo), repo, wip, message)
      ensures outcome == Some(Retreated) ==> CloneGuard.Acceptable(repo)
      ensures outcome == None ==> AbandonedAt(old(repo), repo, wip, message, env, at)
      ensures pendingBranchCleanup == if outcome.Some? || at == AtSwitch then old(pendingBranchCleanup) else Some(wip)
    {
      ghost var entry := repo;
      var done;
      done, at := CommitWork(wip, message, env);
      if !done {
        return None, at;
      }
      PushAndSwitchKeepWork(entry, repo, wip, message, default, env.push, env.switchBack);
      var pushed := Push(repo, wip, env.push);
      var switched := Switch(pushed.0, default, env.switchBack);
      repo, calls := switched.0, calls + [CallPush, CallSwitch];
      if !switched.1.Ok() {
        return Some(Failed), at;
      }
      var left := CloneGuard.Check(repo, env.guardAfter);
      return Some(if left.Clean? then Retreated else Failed), at;
    }

    /** `exported` is the clone at the moment of the exports on the discard path. */
    method Retreat(wip: string, message: string, env: Environment)
      returns (outcome: Outcome, ghost exported: Repo, ghost at: Abandoned)
      requires calls == [] && pendingBranchCleanup == None
      modifies this
      // which outcome, from the entry and the answers
      ensures outcome == Clean <==> CloneGuard.Accepts(old(repo), env.guardBefore)
      ensures outcome == NotEligible <==>
                && !CloneGuard.Accepts(old(repo), env.guardBefore)
                && !CloneGuard.FindsOperation(old(repo), env.guardBefore)
                && !CloneGuard.FindsDirt(old(repo), env.guardBefore)
      ensures outcome in {Retreated, Failed} <==>
                Committable(old(repo), env) && Commits(old(repo), wip, message, env)
      ensures outcome in {Retreated, Failed} ==>
                && repo == AfterReturn(old(repo), wip, message, DefaultFor(old(repo), env), env).0
                && calls == RETURN_CALLS
      ensures outcome == Retreated <==>
                && Committable(old(repo), env) && Commits(old(repo), wip, message, env)
                && AfterReturn(old(repo), wip, message, DefaultFor(old(repo), env), env).1.Ok()
                && CloneGuard.Accepts(repo, env.guardAfter)
      ensures outcome in {Discarded, DiscardIncomplete} ==>
                && (at != NotTried <==> Committable(old(repo), env))
                && calls == AttemptCalls(at) + EXPORT_CALLS + CleanUpCalls(exported, Leftover(wip, at), env)
                && (outcome == Discarded <==> CloneGuard.Accepts(repo, env.guardAfter))
      // where the attempt was abandoned, what was exported, and what the clean-up left
      ensures outcome in {Discarded, DiscardIncomplete} ==>
                && exported == AfterAttempt(old(repo), wip, message, env, at)
                && (at != NotTried ==> AbandonedAt(old(repo), exported, wip, message, env, at))
                && repo == AfterDiscard(exported, DefaultFor(old(repo), env), Leftover(wip, at), env)
      ensures outcome in {Clean, NotEligible} ==> repo == old(repo) && calls == []
      ensures outcome in {Retreated, Failed} ==> WorkIsCommitted(old(repo), repo, wip, message)
      ensures outcome in {Retreated, Discarded} ==> CloneGuard.Acceptable(repo)
      // nothing is destroyed before both exports were attempted
      ensures ExportsFirst(calls)
      // what the two exports hold, once both were written
      ensures outcome in {Discarded, DiscardIncomplete} ==> Exported(exported, patch, untracked, env)
      ensures outcome in {Discarded, DiscardIncomplete} && patch.Some? && untracked.Some? && untracked.value.Paths? ==>
                (Covered(old(repo), patch.value, untracked.value.names)
                 <==> exported.HeadCommit() == old(repo).HeadCommit() || Changed(old(repo)) == {})
      ensures outcome in {Discarded, DiscardIncomplete} && patch.Some?
              && exported.HeadCommit() == old(repo).HeadCommit() ==>
                forall p :: p in Changed(old(repo)) && (p in old(repo).Tracked() || p in exported.Tracked()) ==>
                  p in patch.value && patch.value[p] == Lookup(old(repo).work, p)
    {
      exported, at := repo, NotTried;
      var verdict := CloneGuard.Check(repo, env.guardBefore);
      if verdict.Clean? {
        return Clean, exported, at;
      }
      if verdict.reason != CloneGuard.DirtyTree && verdict.reason != CloneGuard.OpInProgress {
        return NotEligible, exported, at;
      }
      var default := DefaultFor(repo, env);
      if verdict.reason == CloneGuard.DirtyTree && env.unmergedList.Ok() && repo.unmerged == {} {
        var done;
        done, at := TryRetreat(wip, message, default, env);
        if done.Some? {
          NewCallsKeepExportsFirst([], calls);
          assert [] + calls == calls;
          return done.value, exported, at;
        }
      }
      exported := repo;
      NewCallsKeepExportsFirst([], calls);
      assert [] + calls == calls;
      outcome := Discard(default, env);
      ExportedIsExact(old(repo), exported, wip, message, env, at, patch, untracked);
    }
  }

  // ------------------------------------------------------------------------- the clean-up

  /** An effective reset and clean leave nothing that `git status` shows, HEAD and the branches where they
      were, and the ignored files that git does not track. */
  lemma ResetAndCleanEmpty(r: Repo, reset: Answer, clean: Answer)
    requires reset.TakesEffect() && clean.TakesEffect()
    ensures var x := CleanUntracked(ResetHard(r, reset).0, clean).0;
            && x.StatusEmpty() && x.heads == r.heads && x.head == r.head
            && (forall p :: p in x.index <==> p in r.HeadTree())
            && (forall p :: p in r.HeadTree() ==> p in x.work && x.work[p] == r.HeadTree()[p])
            && (forall p :: p in r.work && p in r.ignored && p !in r.Tracked() && p !in r.HeadTree() ==>
                  p in x.work && x.work[p] == r.work[p])
  {
  }

  /** The clean-up after aborts that changed nothing keeps every branch but the one the attempt made, which
      goes when its deletion takes effect and HEAD is off it. */
  lemma CleanUpKeepsBranches(exported: Repo, default: string, cleanup: Option<string>, env: Environment)
    requires env.aborted == None
    ensures var end := AfterDiscard(exported, default, cleanup, env);
            && (forall b :: b in exported.heads && cleanup != Some(b) ==>
                  b in end.heads && end.heads[b] == exported.heads[b])
            && (cleanup.Some? && env.delete.TakesEffect() && end.head != OnBranch(cleanup.value) ==>
                  cleanup.value !in end.heads)
            && (default in exported.heads && env.switchDefault.TakesEffect() ==> end.head == OnBranch(default))
  {
    var r2 := if env.status.Ok() && exported.StatusEmpty() then exported
              else CleanUntracked(ResetHard(exported, env.reset).0, env.clean).0;
    ResetAndCleanKeepBranches(exported, env.reset, env.clean);
    SwitchSays(r2, default, env.switchDefault);
    if cleanup.Some? {
      DeleteSays(Switch(r2, default, env.switchDefault).0, cleanup.value, env.delete);
    }
  }

  lemma ResetAndCleanKeepBranches(r: Repo, reset: Answer, clean: Answer)
    ensures var r' := CleanUntracked(ResetHard(r, reset).0, clean).0;
            r'.heads == r.heads && r'.remotes == r.remotes
  {
  }

  lemma SwitchSays(r: Repo, d: string, a: Answer)
    ensures var r' := Switch(r, d, a).0;
            && (forall b :: b in r.heads ==> b in r'.heads && r'.heads[b] == r.heads[b])
            && (d in r.heads && a.TakesEffect() ==> r'.head == OnBranch(d))
  {
  }

  lemma DeleteSays(r: Repo, n: string, a: Answer)
    ensures var r' := DeleteBranch(r, n, a).0;
            && (forall b :: b in r.heads && b != n ==> b in r'.heads && r'.heads[b] == r.heads[b])
            && (a.TakesEffect() && r'.head != OnBranch(n) ==> n !in r'.heads)
            && r'.head == r.head
  {
  }

  /** When reset and clean take effect, the clean-up leaves nothing that `git status` shows, whether or not
      the status asked for them; only the switch can change that. */
  lemma CleanUpCleans(exported: Repo, default: string, cleanup: Option<string>, env: Environment)
    requires env.reset.TakesEffect() && env.clean.TakesEffect() && !env.switchDefault.TakesEffect()
    ensures AfterDiscard(exported, default, cleanup, env).StatusEmpty()
  {
    var r1 := if env.aborted.Some? then env.aborted.value else exported;
    ResetAndCleanEmpty(r1, env.reset, env.clean);
    var r2 := if env.status.Ok() && r1.StatusEmpty() then r1
              else CleanUntracked(ResetHard(r1, env.reset).0, env.clean).0;
    assert Switch(r2, default, env.switchDefault).0 == r2;
    if cleanup.Some? {
      DeleteKeepsStatus(r2, cleanup.value, env.delete);
    }
  }

  lemma DeleteKeepsStatus(r: Repo, b: string, a: Answer)
    requires r.StatusEmpty()
    ensures DeleteBranch(r, b, a).0.StatusEmpty()
  {
    assert DeleteBranch(r, b, a).0.HeadTree() == r.HeadTree();
  }

  /** The run returns to the branch origin/HEAD names, when git could tell, or else to `main`. */
  lemma DefaultForSays(r: Repo, env: Environment)
    ensures DefaultFor(r, env) == if env.defaultRef == Exit(0) then r.DefaultBranch() else "main"
  {
  }

  // ------------------------------------------------------------------------- a loss

  /** The file whose content the counterexample loses. */
  const LOST_PATH := "notes.txt"
  const LOST_CONTENT := 7
  const BASE := Commit(map[], [], "init")
  const SAVED := Commit(map[LOST_PATH := LOST_CONTENT], [BASE], "m")

  ghost predicate KeepsContent(r: Repo, p: Path, content: int) {
    exists c :: r.Keeps(c) && p in c.tree && c.tree[p] == content
  }

  /** One untracked file on the default branch. */
  function DirtyClone(): Repo {
    Repo(map["main" := BASE], map[], map[], OnBranch("main"), None, map[],
         map[], {}, map[LOST_PATH := LOST_CONTENT], {CloneGuard.PIN_PATH}, {})
  }

  /** Every call succeeds, except that the commit times out after it landed. */
  function LateCommit(): Environment {
    var yes := Answer(Exit(0), true, map[], map[]);
    var late := Answer(NoAnswer, true, map[], map[]);
    var guard := CloneGuard.GuardAnswers(true, true, true, true, true, true, true);
    Environment(guard, guard, Exit(0), Exit(0), yes, yes, {}, late, yes, yes,
                Exit(0), true, Exit(0), true, None, Exit(0), yes, yes, yes, yes)
  }

  lemma LateCommitLands()
    ensures AfterAttempt(DirtyClone(), "wip/t", "m", LateCommit(), AtCommit)
         == DirtyClone().(heads := map["main" := BASE, "wip/t" := SAVED], head := OnBranch("wip/t"),
                          index := map[LOST_PATH := LOST_CONTENT])
  {
    var r1 := SwitchCreate(DirtyClone(), "wip/t", LateCommit().switchCreate).0;
    assert r1.heads == map["main" := BASE, "wip/t" := BASE];
    var r2 := AddAll(r1, {}, LateCommit().add).0;
    assert |CloneGuard.PIN_PATH| != |LOST_PATH|;
    assert r2.index == map[LOST_PATH := LOST_CONTENT];
    assert r2.HeadCommit() == Some(BASE) && r2.HeadTree() == map[] && LOST_PATH in r2.index;
  }

  lemma CleanUpDropsTheCommit(x: Repo, end: Repo)
    requires x == AfterAttempt(DirtyClone(), "wip/t", "m", LateCommit(), AtCommit)
    requires end == AfterDiscard(x, "main", Some("wip/t"), LateCommit())
    requires x.StatusEmpty()
    ensures end.heads == map["main" := BASE] && end.head == OnBranch("main")
    ensures end.remotes == map[] && end.others == map[] && end.work == map[]
  {
    LateCommitLands();
    var r3 := Switch(x, "main", LateCommit().switchDefault).0;
    assert r3.heads == x.heads && r3.head == OnBranch("main") && r3.work == map[];
    assert end == DeleteBranch(r3, "wip/t", LateCommit().delete).0;
  }

  /** A commit that times out after it landed: the exports are empty, the cleanup deletes the
      branch that holds the commit, and no ref keeps the file any more. */
  lemma LandedCommitCanBeLost() returns (entry: Repo, env: Environment)
    ensures CloneGuard.PinIgnored(entry) && entry.markers == {} && !entry.StatusEmpty()
    ensures LOST_PATH in Changed(entry) && Lookup(entry.work, LOST_PATH) == Some(LOST_CONTENT)
    ensures var x := AfterAttempt(entry, "wip/t", "m", env, AtCommit);
            var end := AfterDiscard(x, "main", Some("wip/t"), env);
            && SwitchCreate(entry, "wip/t", env.switchCreate).1.Ok() && env.add.status.Ok()
            && env.commit.status == NoAnswer
            && DiffHead(x) == map[] && x.Untracked() == {}
            && !KeepsContent(end, LOST_PATH, LOST_CONTENT) && LOST_PATH !in end.work
  {
    entry, env := DirtyClone(), LateCommit();
    assert |CloneGuard.PIN_PATH| != |LOST_PATH|;
    assert LOST_PATH in entry.Untracked();
    var x := AfterAttempt(entry, "wip/t", "m", env, AtCommit);
    var end := AfterDiscard(x, "main", Some("wip/t"), env);
    LateCommitLands();
    LandedCommitHidesChanges(entry, "wip/t", "m", env);
    assert x.StatusEmpty();
    CleanUpDropsTheCommit(x, end);
    OnlyBaseIsKept(end);
  }

  lemma OnlyBaseIsKept(end: Repo)
    requires end.heads == map["main" := BASE] && end.head == OnBranch("main")
    requires end.remotes == map[] && end.others == map[]
    ensures !KeepsContent(end, LOST_PATH, LOST_CONTENT)
  {
    assert AncestorsOfAll([]) == {} && Ancestors(BASE) == {BASE};
    assert forall c :: end.Keeps(c) ==> c == BASE;
  }

  /** Covered exactly when HEAD did not move before the export. */
  lemma ExportIsExact(entry: Repo, x: Repo, wip: string, message: string, env: Environment, at: Abandoned)
    requires x == AfterAttempt(entry, wip, message, env, at)
    requires at in {AtAdd, AtCommit} ==> SwitchCreate(entry, wip, env.switchCreate).1.Ok()
    requires at == AtCommit ==> env.add.status.Ok()
    ensures Covered(entry, DiffHead(x), x.Untracked())
            <==> x.HeadCommit() == entry.HeadCommit() || Changed(entry) == {}
    ensures x.HeadCommit() == entry.HeadCommit() ==>
              forall p :: p in Changed(entry) && (p in entry.Tracked() || p in x.Tracked()) ==>
                p in DiffHead(x) && DiffHead(x)[p] == Lookup(entry.work, p)
  {
    if x.HeadCommit() == entry.HeadCommit() {
      AttemptOnlyStages(entry, wip, message, env, at);
      ExportCovers(entry, x);
    } else {
      HeadMovesOnlyAtCommit(entry, wip, message, env, at);
      LandedCommitHidesChanges(entry, wip, message, env);
      if p :| p in Changed(entry) {
        assert p !in DiffHead(x) && p !in x.Untracked();
      }
    }
  }

  /** The same of the files the exports were written to. */
  lemma ExportedIsExact(
    entry: Repo, x: Repo, wip: string, message: string, env: Environment, at: Abandoned,
    patch: Option<map<Path, Option<int>>>, untracked: Option<ListFile>)
    requires x == AfterAttempt(entry, wip, message, env, at)
    requires at in {AtAdd, AtCommit} ==> SwitchCreate(entry, wip, env.switchCreate).1.Ok()
    requires at == AtCommit ==> env.add.status.Ok()
    requires Exported(x, patch, untracked, env)
    ensures patch.Some? && untracked.Some? && untracked.value.Paths? ==>
              (Covered(entry, patch.value, untracked.value.names)
               <==> x.HeadCommit() == entry.HeadCommit() || Changed(entry) == {})
    ensures patch.Some? && x.HeadCommit() == entry.HeadCommit() ==>
              forall p :: p in Changed(entry) && (p in entry.Tracked() || p in x.Tracked()) ==>
                p in patch.value && patch.value[p] == Lookup(entry.work, p)
  {
    if patch.Some? {
      DiffIsThePatch(x, patch.value);
      assert untracked.Some? && untracked.value.Paths? ==> untracked.value.names == x.Untracked();
      ExportIsExact(entry, x, wip, message, env, at);
    }
  }

  lemma HeadMovesOnlyAtCommit(entry: Repo, wip: string, message: string, env: Environment, at: Abandoned)
    requires AfterAttempt(entry, wip, message, env, at).HeadCommit() != entry.HeadCommit()
    ensures at == AtCommit
  {
    NewBranchKeepsHead(entry, wip, env.switchCreate);
    AddKeepsHead(SwitchCreate(entry, wip, env.switchCreate).0, env.staged, env.add);
  }

  lemma NewBranchKeepsHead(r: Repo, b: string, a: Answer)
    ensures SwitchCreate(r, b, a).0.HeadCommit() == r.HeadCommit()
  {
  }

  lemma AddKeepsHead(r: Repo, staged: set<Path>, a: Answer)
    ensures AddAll(r, staged, a).0.HeadCommit() == r.HeadCommit()
  {
  }
}
