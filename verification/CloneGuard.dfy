/** The read-only guard on a shared clone: `check` (clean and on the default branch) and
    `check_pushed` (no local branch holds a commit the remote lacks). */
module CloneGuard {
  import opened Wrappers
  import opened GitModel

  datatype Reason =
    | OpInProgress | CloneBusy | PinNotIgnored | DirtyTree | WrongHead | GitUnavailable | Unpushed

  datatype Verdict = Clean | Refused(reason: Reason, head: Option<string>)

  const PIN_PATH := ".mindwire/pin"
  const LOCK_WAIT := 5.0
  const LOCK_POLL := 0.25
  const OP_MARKERS: set<string> := {
    "MERGE_HEAD", "rebase-merge", "rebase-apply", "CHERRY_PICK_HEAD", "REVERT_HEAD",
    "BISECT_START", "BISECT_HEAD"
  }

  /** Which of the guard's git calls came back with an expected exit code. */
  datatype GuardAnswers = GuardAnswers(
    gitDir: bool, checkIgnore: bool, lsFiles: bool, status: bool, headRef: bool, originHead: bool,
    lockGone: bool)

  predicate PinIgnored(r: Repo) {
    PIN_PATH in r.ignored && PIN_PATH !in r.Tracked()
  }

  /** The guard's promise about a clone it accepts. */
  predicate Acceptable(r: Repo) {
    && r.markers !! OP_MARKERS
    && PinIgnored(r)
    && r.StatusEmpty()
    && r.head == OnBranch(r.DefaultBranch())
  }

  /** Polls `index.lock` until it is gone or the wait, begun at `start`, is over. `present(k)` is
      what poll `k` sees, `clock(k)` the time read after it; a sleep takes at least its length. */
  method WaitForIndexLock(start: real, present: nat -> bool, clock: nat -> real) returns (free: bool, last: nat)
    requires start <= clock(0)
    requires forall k: nat :: clock(k + 1) >= clock(k) + LOCK_POLL
    ensures forall k: nat :: k < last ==> present(k) && clock(k) < start + LOCK_WAIT
    ensures free == !present(last)
    ensures !free ==> clock(last) >= start + LOCK_WAIT
    ensures last <= 20
  {
    var deadline := start + LOCK_WAIT;
    last := 0;
    while present(last)
      invariant last <= 20
      invariant clock(last) >= start + LOCK_POLL * (last as real)
      invariant forall k: nat :: k < last ==> present(k) && clock(k) < deadline
      decreases 20 - last
    {
      if clock(last) >= deadline {
        return false, last;
      }
      last := last + 1;
    }
    return true, last;
  }

  /** Every call the guard makes of an acceptable clone is answered, and the lock is gone. */
  predicate Accepts(r: Repo, a: GuardAnswers) {
    Acceptable(r) && a.gitDir && a.lockGone && a.checkIgnore && a.status && a.headRef && a.originHead
  }

  /** The guard gets as far as the operation markers, and finds one. */
  predicate FindsOperation(r: Repo, a: GuardAnswers) {
    a.gitDir && !(r.markers !! OP_MARKERS)
  }

  /** The guard gets as far as the status, and it is not empty. */
  predicate FindsDirt(r: Repo, a: GuardAnswers) {
    && a.gitDir && r.markers !! OP_MARKERS && a.lockGone
    && a.checkIgnore && PinIgnored(r)
    && a.status && !r.StatusEmpty()
  }

  /** The guard gets as far as HEAD, which is not on the default branch. */
  predicate FindsWrongHead(r: Repo, a: GuardAnswers) {
    && a.gitDir && r.markers !! OP_MARKERS && a.lockGone
    && a.checkIgnore && PinIgnored(r)
    && a.status && r.StatusEmpty()
    && a.headRef && (r.head.Detached? || (a.originHead && r.head != OnBranch(r.DefaultBranch())))
  }

  /** The checks in the guard's order. Nothing is refused for a fault the clone does not have,
      and a later fault is reported only when every earlier one is absent. */
  method Check(r: Repo, a: GuardAnswers) returns (v: Verdict)
    ensures v.Clean? ==> Acceptable(r)
    ensures Acceptable(r) && a.lockGone ==> v.Clean? || v == Refused(GitUnavailable, None)
    ensures v.Refused? ==> v.reason != Unpushed
    ensures v.Refused? && v.reason == OpInProgress ==> !(r.markers !! OP_MARKERS)
    ensures v.Refused? && v.reason == CloneBusy ==> !a.lockGone
    ensures v.Refused? && v.reason == PinNotIgnored ==> r.markers !! OP_MARKERS && !PinIgnored(r)
    ensures v.Refused? && v.reason == DirtyTree ==>
              r.markers !! OP_MARKERS && PinIgnored(r) && !r.StatusEmpty()
    ensures v.Refused? && v.reason == WrongHead ==>
              && r.markers !! OP_MARKERS && PinIgnored(r) && r.StatusEmpty()
              && v.head == (if r.head.OnBranch? then Some(r.head.name) else None)
              && r.head != OnBranch(r.DefaultBranch())
    ensures a == GuardAnswers(true, true, true, true, true, true, true) ==>
              (v.Clean? <==> Acceptable(r)) && (v.Refused? ==> v.reason !in {GitUnavailable, CloneBusy})
    // exactly when it accepts, and exactly when it refuses for what a retreat or a recovery is for
    ensures v.Clean? <==> Accepts(r, a)
    ensures v.Refused? && v.reason == OpInProgress <==> FindsOperation(r, a)
    ensures v.Refused? && v.reason == DirtyTree <==> FindsDirt(r, a)
    ensures v.Refused? && v.reason == WrongHead <==> FindsWrongHead(r, a)
  {
    if !a.gitDir {
      return Refused(GitUnavailable, None);
    }
    if r.markers * OP_MARKERS != {} {
      return Refused(OpInProgress, None);
    }
    assert r.markers !! OP_MARKERS by {
      assert forall m :: m in r.markers && m in OP_MARKERS ==> m in r.markers * OP_MARKERS;
    }
    if !a.lockGone {
      return Refused(CloneBusy, None);
    }
    if !a.checkIgnore {
      return Refused(GitUnavailable, None);
    }
    if !PinIgnored(r) {
      if !a.lsFiles {
        return Refused(GitUnavailable, None);
      }
      return Refused(PinNotIgnored, None);
    }
    if !a.status {
      return Refused(GitUnavailable, None);
    }
    if !r.StatusEmpty() {
      return Refused(DirtyTree, None);
    }
    if !a.headRef {
      return Refused(GitUnavailable, None);
    }
    if r.head.Detached? {
      return Refused(WrongHead, None);
    }
    if !a.originHead {
      return Refused(GitUnavailable, None);
    }
    if r.head.name != r.DefaultBranch() {
      return Refused(WrongHead, Some(r.head.name));
    }
    return Clean;
  }

  // ------------------------------------------------------------------------- check_pushed

  /** The `%(upstream:track)` field: blank without an upstream or level with it. */
  datatype Track = Blank | Gone | Ahead | Behind | AheadBehind

  function UpstreamTip(r: Repo, b: string): Option<Commit>
    requires b in r.upstreams
  {
    match r.upstreams[b]
    case LocalBranch(n) => if n in r.heads then Some(r.heads[n]) else None
    case RemoteBranch(n) => if n in r.remotes then Some(r.remotes[n]) else None
    case OtherRef(n) => if n in r.others then Some(r.others[n]) else None
  }

  function TrackOf(r: Repo, b: string): Track
    requires b in r.heads
  {
    if b !in r.upstreams then Blank
    else if UpstreamTip(r, b) == None then Gone
    else
      var tip, up := r.heads[b], UpstreamTip(r, b).value;
      var ahead, behind := Ancestors(tip) - Ancestors(up) != {}, Ancestors(up) - Ancestors(tip) != {};
      if ahead && behind then AheadBehind else if ahead then Ahead else if behind then Behind else Blank
  }

  /** `git rev-list --count <b> --not --remotes` is 0. */
  ghost predicate AllOnRemote(r: Repo, tip: Commit) {
    forall c :: c in Ancestors(tip) ==> r.OnRemote(c)
  }

  function RemoteAncestors(r: Repo): (s: set<Commit>)
    ensures forall c :: c in s <==> r.OnRemote(c)
  {
    set b, c | b in r.remotes && c in Ancestors(r.remotes[b]) :: c
  }

  /** The test the loop applies to one branch. */
  ghost predicate PassesPushCheck(r: Repo, b: string)
    requires b in r.heads
  {
    match TrackOf(r, b)
    case Ahead => false
    case AheadBehind => false
    case Behind => true
    case Blank => AllOnRemote(r, r.heads[b])
    case Gone => AllOnRemote(r, r.heads[b])
  }

  /** `git for-each-ref refs/heads`: one line per local branch, in some order. */
  method ForEachRef(r: Repo) returns (lines: seq<(string, Track)>)
    ensures forall l :: l in lines ==> l.0 in r.heads && l.1 == TrackOf(r, l.0)
    ensures forall b :: b in r.heads ==> exists l :: l in lines && l.0 == b
  {
    lines := [];
    var rest := r.heads.Keys;
    while rest != {}
      invariant rest <= r.heads.Keys
      invariant forall l :: l in lines ==> l.0 in r.heads && l.1 == TrackOf(r, l.0)
      invariant forall b :: b in r.heads && b !in rest ==> exists l :: l in lines && l.0 == b
      decreases rest
    {
      var b :| b in rest;
      ghost var before := lines;
      lines := lines + [(b, TrackOf(r, b))];
      assert lines[|before|] in lines;
      assert forall l :: l in before ==> l in lines;
      rest := rest - {b};
    }
  }

  /** `answered(k)`: the k-th git call of the run exits 0. Returns normally exactly when every
      local branch passes; refuses `Unpushed` only when some branch does not. */
  method CheckPushed(r: Repo, answered: nat -> bool) returns (v: Verdict)
    ensures v.Clean? ==> forall b :: b in r.heads ==> PassesPushCheck(r, b)
    ensures v.Refused? && v.reason == Unpushed ==> exists b :: b in r.heads && !PassesPushCheck(r, b)
    ensures v.Clean? || v == Refused(Unpushed, None) || v == Refused(GitUnavailable, None)
    ensures (forall k: nat :: answered(k)) ==> v != Refused(GitUnavailable, None)
  {
    var call := 0;
    if !answered(call) {
      return Refused(GitUnavailable, None);
    }
    var lines := ForEachRef(r);
    var remote := RemoteAncestors(r);
    var unpushed: seq<string> := [];
    for i := 0 to |lines|
      invariant forall j :: 0 <= j < i ==> PassesPushCheck(r, lines[j].0) || lines[j].0 in unpushed
      invariant forall b :: b in unpushed ==> b in r.heads && !PassesPushCheck(r, b)
    {
      var (b, track) := lines[i];
      if track == Ahead || track == AheadBehind {
        unpushed := unpushed + [b];
      } else if track == Blank || track == Gone {
        call := call + 1;
        if !answered(call) {
          return Refused(GitUnavailable, None);
        }
        ghost var reached := Ancestors(r.heads[b]);
        assert forall c :: c in reached && c !in remote ==> c in reached - remote;
        if Ancestors(r.heads[b]) - remote != {} {
          unpushed := unpushed + [b];
        }
      }
    }
    if unpushed != [] {
      assert unpushed[0] in unpushed;
      return Refused(Unpushed, None);
    }
    return Clean;
  }

  function Height(c: Commit): nat {
    1 + HeightOfAll(c.parents)
  }

  function HeightOfAll(cs: seq<Commit>): nat {
    if cs == [] then 0
    else if Height(cs[0]) > HeightOfAll(cs[1..]) then Height(cs[0]) else HeightOfAll(cs[1..])
  }

  lemma {:induction false} AncestorsAreLower(a: Commit, c: Commit)
    requires a in Ancestors(c) && a != c
    ensures Height(a) < Height(c)
    decreases c, 1
  {
    AncestorsOfAllAreLower(a, c.parents);
  }

  lemma {:induction false} AncestorsOfAllAreLower(a: Commit, cs: seq<Commit>)
    requires a in AncestorsOfAll(cs)
    ensures Height(a) <= HeightOfAll(cs)
    decreases cs, 0
  {
    if a in Ancestors(cs[0]) {
      if a != cs[0] {
        AncestorsAreLower(a, cs[0]);
      }
    } else {
      AncestorsOfAllAreLower(a, cs[1..]);
    }
  }

  /** The commit is on a remote-tracking ref, or on a ref outside refs/heads and refs/remotes that
      some branch names as its upstream. */
  ghost predicate OnRemoteOrTracked(r: Repo, c: Commit) {
    || r.OnRemote(c)
    || exists b :: b in r.heads && b in r.upstreams && r.upstreams[b].OtherRef? && UpstreamTip(r, b).Some?
                   && c in Ancestors(UpstreamTip(r, b).value)
  }

  // A passing branch that is "behind" sits strictly below its upstream, so a chain of local
  // upstreams climbs and has to end at a ref that is not a local branch.
  lemma {:induction false} ChainReachesRemote(r: Repo, b: string, top: nat)
    requires forall n :: n in r.heads ==> PassesPushCheck(r, n) && Height(r.heads[n]) <= top
    requires b in r.heads
    ensures forall c :: c in Ancestors(r.heads[b]) ==> OnRemoteOrTracked(r, c)
    decreases top - Height(r.heads[b])
  {
    if TrackOf(r, b) == Behind {
      var tip, up := r.heads[b], UpstreamTip(r, b).value;
      assert tip in Ancestors(tip);
      assert tip in Ancestors(up);
      AncestryTransitive(up, tip);
      if r.upstreams[b].LocalBranch? {
        AncestorsAreLower(tip, up);
        ChainReachesRemote(r, r.upstreams[b].name, top);
      }
    }
  }

  lemma {:induction false} HeightsBounded(m: map<string, Commit>) returns (top: nat)
    ensures forall n :: n in m ==> Height(m[n]) <= top
    decreases |m|
  {
    if m == map[] {
      top := 0;
    } else {
      var n :| n in m;
      var rest := m - {n};
      assert |rest.Keys| < |m.Keys| by {
        assert rest.Keys == m.Keys - {n};
      }
      var t := HeightsBounded(rest);
      top := if t > Height(m[n]) then t else Height(m[n]);
      forall k | k in m
        ensures Height(m[k]) <= top
      {
        assert k != n ==> k in rest && rest[k] == m[k];
      }
    }
  }

  /** The branches on which the check takes the word of a ref that is neither a local branch nor a
      remote-tracking one: the branch is behind such an upstream. */
  ghost predicate TrustsOtherRef(r: Repo, b: string)
    requires b in r.heads
  {
    b in r.upstreams && r.upstreams[b].OtherRef? && TrackOf(r, b) == Behind
  }

  // The climb of `ChainReachesRemote`, with every trusted ref backed by the remote.
  lemma {:induction false} BackedChainReachesRemote(r: Repo, b: string, top: nat)
    requires forall n :: n in r.heads ==> PassesPushCheck(r, n) && Height(r.heads[n]) <= top
    requires forall n :: n in r.heads && TrustsOtherRef(r, n) ==> AllOnRemote(r, r.heads[n])
    requires b in r.heads
    ensures AllOnRemote(r, r.heads[b])
    decreases top - Height(r.heads[b])
  {
    if TrackOf(r, b) == Behind && !TrustsOtherRef(r, b) {
      var tip, up := r.heads[b], UpstreamTip(r, b).value;
      assert tip in Ancestors(tip);
      assert tip in Ancestors(up);
      AncestryTransitive(up, tip);
      if r.upstreams[b].LocalBranch? {
        AncestorsAreLower(tip, up);
        BackedChainReachesRemote(r, r.upstreams[b].name, top);
      }
    }
  }

  /** What an accepted clone has pushed, exactly: every commit of every local branch is on the
      remote, even when branches track other local branches, if and only if that holds of the
      branches that are behind a ref of neither kind. */
  lemma PushedIffTrustedBranchesAre(r: Repo)
    requires forall b :: b in r.heads ==> PassesPushCheck(r, b)
    ensures (forall b :: b in r.heads ==> AllOnRemote(r, r.heads[b]))
       <==> (forall b :: b in r.heads && TrustsOtherRef(r, b) ==> AllOnRemote(r, r.heads[b]))
  {
    if forall b :: b in r.heads && TrustsOtherRef(r, b) ==> AllOnRemote(r, r.heads[b]) {
      var top := HeightsBounded(r.heads);
      forall b | b in r.heads
        ensures AllOnRemote(r, r.heads[b])
      {
        BackedChainReachesRemote(r, b, top);
      }
    }
  }

  /** In particular nothing is unpushed when no branch tracks a ref of neither kind; and in any case
      each commit is on the remote or on such a tracked ref. */
  lemma PushedWorkIsOnRemote(r: Repo)
    requires forall b :: b in r.heads ==> PassesPushCheck(r, b)
    ensures forall b, c :: b in r.heads && c in Ancestors(r.heads[b]) ==> OnRemoteOrTracked(r, c)
    ensures (forall b :: b in r.heads && b in r.upstreams ==> !r.upstreams[b].OtherRef?) ==>
              forall b, c :: b in r.heads && c in Ancestors(r.heads[b]) ==> r.OnRemote(c)
  {
    var top := HeightsBounded(r.heads);
    forall b | b in r.heads
      ensures forall c :: c in Ancestors(r.heads[b]) ==> OnRemoteOrTracked(r, c)
    {
      ChainReachesRemote(r, b, top);
    }
  }

  /** The exception is real: a branch behind a tracked ref of neither kind passes while none of
      its commits is on the remote. */
  lemma TrackingAnotherKindOfRefPasses()
    ensures exists r: Repo ::
              && (forall b :: b in r.heads ==> PassesPushCheck(r, b))
              && (exists b :: b in r.heads && !r.OnRemote(r.heads[b]))
  {
    var c0 := Commit(map[], [], "first");
    var c1 := Commit(map[], [c0], "second");
    var r := Repo(map["topic" := c0], map[], map["pull/7" := c1], OnBranch("topic"), None,
                  map["topic" := OtherRef("pull/7")], map[], {}, map[], {}, {});
    assert AncestorsOfAll([]) == {};
    assert Ancestors(c0) == {c0};
    assert [c0][1..] == [];
    assert AncestorsOfAll([c0]) == {c0};
    assert Ancestors(c1) == {c1, c0};
    assert c1 in Ancestors(c1) - Ancestors(c0);
    assert TrackOf(r, "topic") == Behind;
    assert "topic" in r.heads && !r.OnRemote(r.heads["topic"]);
  }
}
