/** A git clone as the clone commands see it: commits, refs, HEAD, index and working tree.

    A commit is an inductive value, so its history is finite and acyclic by construction, as a
    hash of its parents is. Each git command is a function of the repository and of an `Answer`,
    the part git and the machine decide: the exit status, and whether a command that did not
    report success took effect all the same. */
module GitModel {
  import opened Wrappers

  type Path = string
  type Tree = map<Path, int>

  datatype Commit = Commit(tree: Tree, parents: seq<Commit>, message: string)

  /** The commit and everything it descends from. */
  function Ancestors(c: Commit): set<Commit> {
    {c} + AncestorsOfAll(c.parents)
  }

  function AncestorsOfAll(cs: seq<Commit>): set<Commit> {
    if cs == [] then {} else Ancestors(cs[0]) + AncestorsOfAll(cs[1..])
  }

  lemma {:induction false} AncestryTransitive(a: Commit, b: Commit)
    requires b in Ancestors(a)
    ensures Ancestors(b) <= Ancestors(a)
    decreases a, 1
  {
    if b != a {
      AncestryTransitiveAll(a.parents, b);
    }
  }

  lemma {:induction false} AncestryTransitiveAll(cs: seq<Commit>, b: Commit)
    requires b in AncestorsOfAll(cs)
    ensures Ancestors(b) <= AncestorsOfAll(cs)
    decreases cs, 0
  {
    if b in Ancestors(cs[0]) {
      AncestryTransitive(cs[0], b);
    } else {
      AncestryTransitiveAll(cs[1..], b);
    }
  }

  datatype Head = OnBranch(name: string) | Detached(at: Commit)

  /** What a branch's upstream setting names. */
  datatype Ref = LocalBranch(name: string) | RemoteBranch(name: string) | OtherRef(name: string)

  const FALLBACK_DEFAULT_BRANCH := "main"
  const DEVELOP_BRANCH := "develop"

  /** `remotes` are the remote-tracking refs under `origin/`; `others` are tags, stashes and any
      other ref; `index` holds the paths that are not in conflict, `unmerged` the ones that are;
      `ignored` are the paths the ignore rules match; `markers` the operation markers under the git
      directory. */
  datatype Repo = Repo(
    heads: map<string, Commit>,
    remotes: map<string, Commit>,
    others: map<string, Commit>,
    head: Head,
    originHead: Option<string>,
    upstreams: map<string, Ref>,
    index: Tree,
    unmerged: set<Path>,
    work: Tree,
    ignored: set<Path>,
    markers: set<string>)
  {
    function HeadCommit(): Option<Commit> {
      match head
      case Detached(c) => Some(c)
      case OnBranch(b) => if b in heads then Some(heads[b]) else None
    }

    function HeadTree(): Tree {
      if HeadCommit().Some? then HeadCommit().value.tree else map[]
    }

    function DefaultBranch(): string {
      if originHead.Some? then originHead.value else FALLBACK_DEFAULT_BRANCH
    }

    /** Some ref, or a detached HEAD, keeps the commit. */
    ghost predicate Keeps(c: Commit) {
      || (exists b :: b in heads && c in Ancestors(heads[b]))
      || (exists b :: b in remotes && c in Ancestors(remotes[b]))
      || (exists b :: b in others && c in Ancestors(others[b]))
      || (head.Detached? && c in Ancestors(head.at))
    }

    ghost predicate OnRemote(c: Commit) {
      exists b :: b in remotes && c in Ancestors(remotes[b])
    }

    /** The index knows the path, in conflict or not. */
    function Tracked(): set<Path> {
      index.Keys + unmerged
    }

    function Untracked(): set<Path> {
      set p | p in work && p !in Tracked() && p !in ignored
    }

    /** `git status --porcelain` prints nothing. */
    predicate StatusEmpty() {
      && unmerged == {}
      && index == HeadTree()
      && (forall p :: p in index ==> p in work && work[p] == index[p])
      && Untracked() == {}
    }
  }

  datatype Status = Exit(code: int) | NoAnswer {
    predicate Ok() {
      this == Exit(0)
    }
  }

  /** `lands`: whether a mutating command that did not exit 0 took effect nevertheless. `index`
      and `work` are what a switch or merge leaves in the index and the working tree, which the
      claims here never rely on. */
  datatype Answer = Answer(status: Status, lands: bool, index: Tree, work: Tree) {
    function Failed(): Status {
      if status.Ok() then Exit(1) else status
    }

    predicate TakesEffect() {
      status.Ok() || lands
    }
  }

  // ------------------------------------------------------------------------------- commands

  /** `git fetch --prune origin`: only the remote-tracking refs and origin/HEAD change here. */
  function Fetch(r: Repo, a: Answer, remotes: map<string, Commit>, originHead: Option<string>): (Repo, Status) {
    (if a.TakesEffect() then r.(remotes := remotes, originHead := originHead) else r, a.status)
  }

  /** `git switch <d>`: creates `d` from `origin/<d>` when only the remote has it. */
  function Switch(r: Repo, d: string, a: Answer): (Repo, Status) {
    if d !in r.heads && d !in r.remotes then (r, a.Failed())
    else if !a.TakesEffect() then (r, a.status)
    else
      (r.(heads := if d in r.heads then r.heads else r.heads[d := r.remotes[d]],
          head := OnBranch(d), index := a.index, work := a.work),
       a.status)
  }

  /** `git merge --ff-only origin/<d>`. */
  function MergeFfOnly(r: Repo, d: string, a: Answer): (Repo, Status) {
    if !(r.head.OnBranch? && r.head.name in r.heads && d in r.remotes) then (r, a.Failed())
    else
      var b := r.head.name;
      if r.heads[b] in Ancestors(r.remotes[d]) then
        (if a.TakesEffect() then r.(heads := r.heads[b := r.remotes[d]], index := a.index, work := a.work)
         else r,
         a.status)
      else if r.remotes[d] in Ancestors(r.heads[b]) then (r, a.status)
      else (r, a.Failed())
  }

  /** `git branch -D <b>`: refused for the branch HEAD is on. */
  function DeleteBranch(r: Repo, b: string, a: Answer): (Repo, Status) {
    if b !in r.heads || r.head == OnBranch(b) then (r, a.Failed())
    else (if a.TakesEffect() then r.(heads := r.heads - {b}) else r, a.status)
  }

  /** `git switch -c <b>`: index and working tree are carried over unchanged. */
  function SwitchCreate(r: Repo, b: string, a: Answer): (Repo, Status) {
    if b in r.heads then (r, a.Failed())
    else if !a.TakesEffect() then (r, a.status)
    else
      (r.(heads := if r.HeadCommit().Some? then r.heads[b := r.HeadCommit().value] else r.heads,
          head := OnBranch(b)),
       a.status)
  }

  /** What `git add -A` stages: every file that is tracked or not ignored, as it is on disk. */
  function StageAll(r: Repo): Tree {
    map p | p in r.work && (p in r.Tracked() || p !in r.ignored) :: r.work[p]
  }

  /** `git add -A`; when it fails it may have staged any part, `staged`. */
  function AddAll(r: Repo, staged: set<Path>, a: Answer): (Repo, Status) {
    var all := StageAll(r);
    if a.status.Ok() then (r.(index := all, unmerged := {}), a.status)
    else
      (r.(index := map p | p in r.index.Keys + all.Keys
                           && (if p in staged then p in all else p in r.index)
                     :: if p in staged then all[p] else r.index[p],
          unmerged := r.unmerged - staged),
       a.status)
  }

  function NewCommit(r: Repo, message: string): Commit {
    Commit(r.index, if r.HeadCommit().Some? then [r.HeadCommit().value] else [], message)
  }

  /** `git commit` outside any operation in progress: refused when there is nothing to commit. */
  function CommitIndex(r: Repo, message: string, a: Answer): (Repo, Status) {
    if r.index == r.HeadTree() || r.unmerged != {} || r.head.Detached? then (r, a.Failed())
    else
      (if a.TakesEffect() then r.(heads := r.heads[r.head.name := NewCommit(r, message)]) else r, a.status)
  }

  /** `git push origin <b>`: locally, only `origin/<b>` can move. */
  function Push(r: Repo, b: string, a: Answer): (Repo, Status) {
    if b !in r.heads then (r, a.Failed())
    else (if a.TakesEffect() then r.(remotes := r.remotes[b := r.heads[b]]) else r, a.status)
  }

  /** `git reset --hard`: index and tracked files back to HEAD. */
  function ResetHard(r: Repo, a: Answer): (Repo, Status) {
    (if a.TakesEffect() then
       r.(index := r.HeadTree(), unmerged := {},
          work := (map p | p in r.work && p !in r.Tracked() :: r.work[p]) + r.HeadTree())
     else r,
     a.status)
  }

  /** `git clean -fd`: untracked files go, ignored ones stay. */
  function CleanUntracked(r: Repo, a: Answer): (Repo, Status) {
    (if a.TakesEffect() then r.(work := r.work - r.Untracked()) else r, a.status)
  }

  /** `git diff --binary HEAD`: per path, the content on disk (`None`: deleted), for every path of
      HEAD or the index where the two differ, conflicted ones included. A file the index no longer
      has reads as deleted. */
  function DiffHead(r: Repo): map<Path, Option<int>> {
    map p | p in r.HeadTree().Keys + r.Tracked() && TrackedContent(r, p) != Lookup(r.HeadTree(), p)
      :: TrackedContent(r, p)
  }

  function TrackedContent(r: Repo, p: Path): Option<int> {
    if p in r.Tracked() then Lookup(r.work, p) else None
  }

  function Lookup(t: Tree, p: Path): Option<int> {
    if p in t then Some(t[p]) else None
  }

  /** The tree with the patch applied to it. */
  function Patched(t: Tree, patch: map<Path, Option<int>>): Tree {
    (map p | p in t && p !in patch :: t[p]) + (map p | p in patch && patch[p].Some? :: patch[p].value)
  }

  /** Round trip: HEAD with the patch applied is what the disk holds of the tracked paths, and every
      entry of the patch changes something. */
  ghost predicate IsPatchOf(patch: map<Path, Option<int>>, r: Repo) {
    && (forall p :: Lookup(Patched(r.HeadTree(), patch), p) == TrackedContent(r, p))
    && (forall p :: p in patch ==> patch[p] != Lookup(r.HeadTree(), p))
  }

  /** The diff against HEAD is such a patch, and the only one. */
  lemma DiffIsThePatch(r: Repo, patch: map<Path, Option<int>>)
    ensures IsPatchOf(DiffHead(r), r)
    ensures IsPatchOf(patch, r) ==> patch == DiffHead(r)
  {
    if IsPatchOf(patch, r) {
      forall p ensures p in patch <==> p in DiffHead(r) ensures p in patch ==> patch[p] == DiffHead(r)[p] {
        PatchAt(r, patch, p);
      }
    }
  }

  lemma PatchAt(r: Repo, patch: map<Path, Option<int>>, p: Path)
    requires IsPatchOf(patch, r)
    ensures p in patch <==> TrackedContent(r, p) != Lookup(r.HeadTree(), p)
    ensures p in patch ==> patch[p] == TrackedContent(r, p)
    ensures p in DiffHead(r) <==> TrackedContent(r, p) != Lookup(r.HeadTree(), p)
  {
    assert Lookup(Patched(r.HeadTree(), patch), p) == TrackedContent(r, p);
  }
}
