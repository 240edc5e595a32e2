/** Switching a parked clone back to its default branch, only when that loses no commit. */
module CloneRecover {
  import opened Wrappers
  import opened GitModel
  import CloneGuard

  datatype Outcome = Recovered | NotEligible | Failed

  /** Everything the run does not decide: how each call answers, whether it lands although it did
      not report success, and what the fetch brings. */
  datatype Environment = Environment(
    guard: CloneGuard.GuardAnswers,
    fetch: Answer, fetchedRemotes: map<string, Commit>, fetchedHead: Option<string>,
    symbolicRef: Status, developRef: Status, defaultRef: Status, revList: Status,
    switchTo: Answer, merge: Answer, delete: Answer)

  /** `git rev-list <tip> --not <bases>`: the commits no base reaches. */
  function NotOnBases(tip: Commit, bases: seq<Commit>): set<Commit> {
    Ancestors(tip) - AncestorsOfAll(bases)
  }

  /** Every commit a ref keeps in `before` is still kept in `after`. */
  ghost predicate NothingLost(before: Repo, after: Repo) {
    forall c :: before.Keeps(c) ==> after.Keeps(c)
  }

  /** A local branch keeps its tip, except that the default branch may have moved forward. */
  ghost predicate OnlyForward(before: Repo, after: Repo, default: string) {
    forall b :: b in before.heads && b in after.heads ==>
      after.heads[b] == before.heads[b]
      || (b == default && before.heads[b] in Ancestors(after.heads[b]))
  }

  /** The only branches that can appear or disappear. */
  ghost predicate OnlyBranches(before: Repo, after: Repo, appears: string, disappears: set<string>) {
    && (forall b :: b in before.heads && b !in after.heads ==> b in disappears)
    && (forall b :: b in after.heads && b !in before.heads ==> b == appears && b in before.remotes)
  }

  ghost predicate SafeChange(before: Repo, after: Repo, default: string, disappears: set<string>) {
    && NothingLost(before, after)
    && after.remotes == before.remotes && after.others == before.others
    && OnlyForward(before, after, default)
    && OnlyBranches(before, after, default, disappears)
  }

  /** Moving HEAD and at most creating a branch loses nothing when HEAD was on a branch. */
  lemma SwitchIsSafe(r: Repo, d: string, a: Answer)
    requires r.head.OnBranch?
    ensures SafeChange(r, Switch(r, d, a).0, d, {})
    ensures Switch(r, d, a).0.head.OnBranch?
  {
    SwitchKeepsBranches(r, d, a);
    NewBranchesLoseNothing(r, Switch(r, d, a).0);
  }

  lemma SwitchKeepsBranches(r: Repo, d: string, a: Answer)
    ensures var r' := Switch(r, d, a).0;
            && (forall b :: b in r.heads ==> b in r'.heads && r'.heads[b] == r.heads[b])
            && (forall b :: b in r'.heads ==> b in r.heads || (b == d && b in r.remotes))
            && r'.remotes == r.remotes && r'.others == r.others
  {
  }

  lemma NewBranchesLoseNothing(before: Repo, after: Repo)
    requires before.head.OnBranch?
    requires after.remotes == before.remotes && after.others == before.others
    requires forall b :: b in before.heads ==> b in after.heads && after.heads[b] == before.heads[b]
    ensures NothingLost(before, after)
  {
  }

  lemma FastForwardIsSafe(r: Repo, d: string, a: Answer)
    requires r.head == OnBranch(d) && d in r.heads
    ensures SafeChange(r, MergeFfOnly(r, d, a).0, d, {})
    ensures MergeFfOnly(r, d, a).0.head == r.head && d in MergeFfOnly(r, d, a).0.heads
    ensures forall b :: b in r.heads && b != d ==> MergeFfOnly(r, d, a).0.heads[b] == r.heads[b]
  {
    var r' := MergeFfOnly(r, d, a).0;
    if r' != r {
      AncestryTransitive(r.remotes[d], r.heads[d]);
      assert r'.heads == r.heads[d := r.remotes[d]];
      forall c | r.Keeps(c)
        ensures r'.Keeps(c)
      {
        if b :| b in r.heads && c in Ancestors(r.heads[b]) {
          assert c in Ancestors(r'.heads[b]);
        }
      }
    }
  }

  lemma DeleteIsSafe(r: Repo, d: string, b: string, a: Answer)
    requires r.head.OnBranch? && b != d
    requires b in r.heads ==> forall c :: c in Ancestors(r.heads[b]) ==> r.OnRemote(c)
    ensures SafeChange(r, DeleteBranch(r, b, a).0, d, {b})
  {
    var r' := DeleteBranch(r, b, a).0;
    assert forall n :: n in r.heads && n != b ==> n in r'.heads && r'.heads[n] == r.heads[n];
    forall c | r.Keeps(c)
      ensures r'.Keeps(c)
    {
      if b in r.heads && c in Ancestors(r.heads[b]) {
        assert r.OnRemote(c);
        assert r'.remotes == r.remotes;
      }
    }
  }

  /** The three mutating commands together. */
  lemma TailIsSafe(r: Repo, d: string, b: string, switchTo: Answer, merge: Answer, delete: Answer)
    requires r.head == OnBranch(b) && b in r.heads && b != d
    requires forall c :: c in Ancestors(r.heads[b]) ==> r.OnRemote(c)
    ensures SafeChange(r, Switch(r, d, switchTo).0, d, {})
    ensures Switch(r, d, switchTo).1.Ok() ==>
              var r1 := Switch(r, d, switchTo).0;
              var r2 := MergeFfOnly(r1, d, merge).0;
              var r3 := DeleteBranch(r2, b, delete).0;
              SafeChange(r, r3, d, {b}) && r3.head == OnBranch(d) && d in r3.heads
  {
    SwitchIsSafe(r, d, switchTo);
    var r1 := Switch(r, d, switchTo).0;
    if Switch(r, d, switchTo).1.Ok() {
      assert r1.head == OnBranch(d) && d in r1.heads;
      FastForwardIsSafe(r1, d, merge);
      var r2 := MergeFfOnly(r1, d, merge).0;
      assert r2.heads[b] == r1.heads[b] == r.heads[b];
      DeleteIsSafe(r2, d, b, delete);
      SafeChangesCompose(r, r1, r2, d, {}, {});
      SafeChangesCompose(r, r2, DeleteBranch(r2, b, delete).0, d, {}, {b});
    }
  }

  /** What the fast-forward and the branch delete do to the two tips. */
  lemma TailMovesTips(r: Repo, d: string, b: string, switchTo: Answer, merge: Answer, delete: Answer)
    requires r.head == OnBranch(b) && b in r.heads && b != d && d in r.remotes
    requires Switch(r, d, switchTo).1.Ok()
    ensures var end := DeleteBranch(MergeFfOnly(Switch(r, d, switchTo).0, d, merge).0, b, delete).0;
            TipsAfter(r, end, d, b, merge, delete)
  {
    var r1 := Switch(r, d, switchTo).0;
    assert r1.head == OnBranch(d) && r1.remotes == r.remotes && b in r1.heads;
    var r2 := MergeFfOnly(r1, d, merge).0;
    assert b in r2.heads && r2.head == OnBranch(d);
  }

  /** Branch `d` was fast-forwarded to the remote one where that is one, and branch `b` deleted. */
  predicate TipsAfter(fetched: Repo, end: Repo, d: string, b: string, merge: Answer, delete: Answer) {
    d in fetched.remotes
    && var tip := if d in fetched.heads then fetched.heads[d] else fetched.remotes[d];
    && d in end.heads
    && end.heads[d] == (if merge.TakesEffect() && tip in Ancestors(fetched.remotes[d])
                        then fetched.remotes[d] else tip)
    && (b in end.heads <==> !delete.TakesEffect())
  }

  lemma SafeChangesCompose(r: Repo, s: Repo, t: Repo, d: string, x: set<string>, y: set<string>)
    requires SafeChange(r, s, d, x) && SafeChange(s, t, d, y) && d !in x
    ensures SafeChange(r, t, d, x + y)
  {
    forall b | b in r.heads && b in t.heads
      ensures t.heads[b] == r.heads[b] || (b == d && r.heads[b] in Ancestors(t.heads[b]))
    {
      if b in s.heads {
        if t.heads[b] != s.heads[b] {
          AncestryTransitive(t.heads[b], s.heads[b]);
          assert r.heads[b] in Ancestors(r.heads[b]);
        }
      }
    }
  }

  predicate AllAnswer(env: Environment) {
    && env.guard == CloneGuard.GuardAnswers(true, true, true, true, true, true, true)
    && env.fetch.status.Ok() && env.symbolicRef in {Exit(0), Exit(1)}
    && env.developRef.Ok() && env.defaultRef.Ok() && env.revList.Ok() && env.switchTo.status.Ok()
  }

  /** Clean, on a named branch that is not the default one. */
  predicate Parked(r: Repo) {
    && r.markers !! CloneGuard.OP_MARKERS && CloneGuard.PinIgnored(r) && r.StatusEmpty()
    && r.head.OnBranch? && r.head.name != r.DefaultBranch()
  }

  /** Every commit of the current branch is on the remote default branch or on `develop`. */
  ghost predicate Merged(r: Repo) {
    && r.HeadCommit().Some? && r.DefaultBranch() in r.remotes
    && forall c :: c in Ancestors(r.HeadCommit().value) ==>
         || c in Ancestors(r.remotes[r.DefaultBranch()])
         || (DEVELOP_BRANCH in r.remotes && c in Ancestors(r.remotes[DEVELOP_BRANCH]))
  }

  /** The fetch changed origin/HEAD to the very branch the clone is on. */
  predicate CloneDefaultMoved(before: Repo, fetched: Repo) {
    before.head == OnBranch(fetched.DefaultBranch())
  }

  /** The remote branches the branch may be merged into; `develop` only when git could look it up. */
  function Bases(r: Repo, developAnswers: bool): seq<Commit>
    requires r.DefaultBranch() in r.remotes
  {
    [r.remotes[r.DefaultBranch()]]
    + if r.DefaultBranch() != DEVELOP_BRANCH && developAnswers && DEVELOP_BRANCH in r.remotes
      then [r.remotes[DEVELOP_BRANCH]] else []
  }

  /** An empty `rev-list` says that the branch is merged; and, when `develop` could be looked up, a
      merged branch gives an empty one. What is merged is on the remote. */
  lemma EmptyRevListIsMerged(r: Repo, developAnswers: bool)
    requires r.HeadCommit().Some? && r.DefaultBranch() in r.remotes
    ensures NotOnBases(r.HeadCommit().value, Bases(r, developAnswers)) == {} ==> Merged(r)
    ensures developAnswers ==> (NotOnBases(r.HeadCommit().value, Bases(r, developAnswers)) == {} <==> Merged(r))
    ensures Merged(r) ==> forall c :: c in Ancestors(r.HeadCommit().value) ==> r.OnRemote(c)
  {
    var bases, left := Bases(r, developAnswers), NotOnBases(r.HeadCommit().value, Bases(r, developAnswers));
    assert AncestorsOfAll(bases) == Ancestors(bases[0]) + AncestorsOfAll(bases[1..]);
    assert |bases| == 2 ==> AncestorsOfAll(bases[1..]) == Ancestors(bases[1]) + AncestorsOfAll(bases[1..][1..]);
    assert forall c :: c in Ancestors(r.HeadCommit().value) && c !in AncestorsOfAll(bases) ==> c in left;
  }

  /** The guard refuses the clone for its HEAD only, which is on a named branch. */
  predicate Eligible(r: Repo, env: Environment) {
    CloneGuard.FindsWrongHead(r, env.guard) && r.head.OnBranch?
  }

  /** The fetch reported success and says what the default branch is, and it is another one. */
  predicate DefaultKnown(fetched: Repo, env: Environment) {
    && env.fetch.status.Ok() && env.symbolicRef in {Exit(0), Exit(1)}
    && fetched.head != OnBranch(fetched.DefaultBranch())
    && env.defaultRef.Ok() && fetched.DefaultBranch() in fetched.remotes
  }

  /** `rev-list` reported success, and nothing. */
  predicate ListsNothing(fetched: Repo, env: Environment)
    requires fetched.DefaultBranch() in fetched.remotes
  {
    env.revList.Ok() && fetched.HeadCommit().Some?
    && NotOnBases(fetched.HeadCommit().value, Bases(fetched, env.developRef.Ok())) == {}
  }

  class CloneRecoverer {
    var repo: Repo

    constructor (r: Repo)
      ensures repo == r
    {
      repo := r;
    }

    /** `fetched` is the clone right after the fetch. No sequence of replies, timed-out steps that
        took effect included, loses a commit some ref kept at that point. */
    method Recover(env: Environment)
      returns (outcome: Outcome, branch: Option<string>, default: Option<string>, ghost fetched: Repo)
      modifies this
      ensures fetched == old(repo).(remotes := fetched.remotes, originHead := fetched.originHead)
      // which outcome, from the entry and the answers
      ensures fetched == if Eligible(old(repo), env)
                         then Fetch(old(repo), env.fetch, env.fetchedRemotes, env.fetchedHead).0 else old(repo)
      ensures outcome == Recovered <==>
                && Eligible(old(repo), env) && DefaultKnown(fetched, env) && ListsNothing(fetched, env)
                && Switch(fetched, fetched.DefaultBranch(), env.switchTo).1.Ok()
      ensures outcome == Failed <==>
                && Eligible(old(repo), env) && env.fetch.status.Ok()
                && (|| env.symbolicRef !in {Exit(0), Exit(1)}
                    || (DefaultKnown(fetched, env)
                        && if !env.revList.Ok() || fetched.HeadCommit() == None then true
                           else ListsNothing(fetched, env)
                                && !Switch(fetched, fetched.DefaultBranch(), env.switchTo).1.Ok()))
      // the fast-forward and the branch delete were both attempted
      ensures outcome == Recovered ==>
                TipsAfter(fetched, repo, fetched.DefaultBranch(), old(repo).head.name, env.merge, env.delete)
      ensures outcome == NotEligible ==> repo == fetched
      ensures outcome == Failed ==> SafeChange(fetched, repo, fetched.DefaultBranch(), {})
      ensures outcome == Recovered ==>
                && old(repo).head.OnBranch? && branch == Some(old(repo).head.name)
                && default == Some(fetched.DefaultBranch()) && branch != default
                && SafeChange(fetched, repo, default.value, {branch.value})
                && repo.head == OnBranch(default.value) && default.value in repo.heads
                && CloneGuard.PinIgnored(old(repo)) && old(repo).StatusEmpty()
      // a clone is switched only when its whole branch is merged; and when every call answers,
      // being merged is all it takes
      ensures outcome == Recovered ==> Merged(fetched)
      ensures AllAnswer(env) && Parked(old(repo)) && !CloneDefaultMoved(old(repo), fetched)
              && fetched.HeadCommit().Some? && fetched.DefaultBranch() in fetched.remotes
              ==> (outcome == Recovered <==> Merged(fetched))
    {
      fetched := repo;
      branch, default := None, None;
      var verdict := CloneGuard.Check(repo, env.guard);
      if verdict.Clean? || verdict.reason != CloneGuard.WrongHead {
        return NotEligible, branch, default, fetched;
      }
      branch := verdict.head;
      if branch == None {
        return NotEligible, branch, default, fetched;
      }
      var fetchReply := Fetch(repo, env.fetch, env.fetchedRemotes, env.fetchedHead);
      repo := fetchReply.0;
      fetched := repo;
      if !fetchReply.1.Ok() {
        return NotEligible, branch, default, fetched;
      }

      if env.symbolicRef !in {Exit(0), Exit(1)} {
        return Failed, None, default, fetched;
      }
      default := Some(repo.DefaultBranch());
      if branch == default {
        return NotEligible, branch, default, fetched;
      }

      if !env.defaultRef.Ok() || default.value !in repo.remotes {
        return NotEligible, branch, default, fetched;
      }
      var bases := Bases(repo, env.developRef.Ok());
      if !env.revList.Ok() || repo.HeadCommit() == None {
        return Failed, branch, default, fetched;
      }
      var unpushed := NotOnBases(repo.HeadCommit().value, bases);
      EmptyRevListIsMerged(repo, env.developRef.Ok());
      if unpushed != {} {
        return NotEligible, branch, default, fetched;
      }
      TailIsSafe(repo, default.value, branch.value, env.switchTo, env.merge, env.delete);
      var switched := Switch(repo, default.value, env.switchTo);
      repo := switched.0;
      if !switched.1.Ok() {
        return Failed, branch, default, fetched;
      }
      TailMovesTips(fetched, default.value, branch.value, env.switchTo, env.merge, env.delete);
      var merged := MergeFfOnly(repo, default.value, env.merge);
      repo := merged.0;
      var deleted := DeleteBranch(repo, branch.value, env.delete);
      repo := deleted.0;
      return Recovered, branch, default, fetched;
    }
  }
}
