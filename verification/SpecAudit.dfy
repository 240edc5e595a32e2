/** The spec auditor: the recursive walk over `supersedes` edges, check V-14 that uses it, and the
    fenced-block scanner in front of reference extraction. */
module SpecAudit {
  type Path = string

  /** One loaded manifest; entries of the wrong type are already dropped. */
  datatype Manifest = Manifest(
    definitions: set<string>, exempts: set<string>, supersedes: seq<string>, references: set<string>)

  /** All manifests by file path, and the index from spec id to path. Ids can repeat or be absent;
      edges can form cycles and diamonds and can name ids nobody has. */
  datatype Library = Library(manifests: map<Path, Manifest>, byId: map<string, Path>) {
    predicate Valid() {
      forall id :: id in byId ==> byId[id] in manifests
    }

    ghost predicate IsParent(child: Path, parent: Path) {
      child in manifests
      && exists id :: id in manifests[child].supersedes && id in byId && byId[id] == parent
    }

    /** How often the manifest names an id that nobody has. */
    function Missing(child: Path, id: string): nat {
      if child in manifests && id !in byId then multiset(manifests[child].supersedes)[id] else 0
    }
  }

  ghost predicate IsChain(lib: Library, chain: seq<Path>, from: Path, to: Path) {
    chain != [] && chain[0] == from
    && if |chain| == 1 then from == to
       else lib.IsParent(from, chain[1]) && IsChain(lib, chain[1..], chain[1], to)
  }

  ghost predicate Reaches(lib: Library, from: Path, to: Path) {
    exists chain :: IsChain(lib, chain, from, to)
  }

  ghost function Ancestry(lib: Library, root: Path): set<Path> {
    set n | n in lib.manifests && Reaches(lib, root, n)
  }

  ghost function DefinitionsOf(lib: Library, paths: set<Path>): set<string> {
    set n, d | n in paths && n in lib.manifests && d in lib.manifests[n].definitions :: d
  }

  ghost function ExemptsOf(lib: Library, paths: set<Path>): set<string> {
    set n, d | n in paths && n in lib.manifests && d in lib.manifests[n].exempts :: d
  }

  lemma ReachesSelf(lib: Library, n: Path)
    ensures Reaches(lib, n, n)
  {
    assert IsChain(lib, [n], n, n);
  }

  lemma ReachesThrough(lib: Library, child: Path, parent: Path, n: Path)
    requires lib.IsParent(child, parent) && Reaches(lib, parent, n)
    ensures Reaches(lib, child, n)
  {
    var chain :| IsChain(lib, chain, parent, n);
    assert ([child] + chain)[1..] == chain;
    assert IsChain(lib, [child] + chain, child, n);
  }

  /** A set closed under edges holds everything reachable from its members. */
  lemma {:induction false} ClosedHoldsReachable(lib: Library, closed: set<Path>, chain: seq<Path>, from: Path, to: Path)
    requires forall n, p :: n in closed && lib.IsParent(n, p) ==> p in closed
    requires from in closed && IsChain(lib, chain, from, to)
    ensures to in closed
    decreases |chain|
  {
    if |chain| > 1 {
      ClosedHoldsReachable(lib, closed, chain[1..], chain[1], to);
    }
  }

  /** The findings that visiting these manifests gives: one for each time one of them names an id
      nobody has. */
  function Reports(lib: Library, visited: set<Path>, f: (Path, string)): nat {
    if f.0 in visited then lib.Missing(f.0, f.1) else 0
  }

  /** Between `before` and `after`, exactly the findings of the manifests in `visited` were added. */
  ghost predicate Adds(lib: Library, before: seq<(Path, string)>, after: seq<(Path, string)>, visited: set<Path>) {
    forall f :: multiset(after)[f] == multiset(before)[f] + Reports(lib, visited, f)
  }

  /** The same, and besides the findings of the first edges of `m`. */
  ghost predicate AddsHalf(
    lib: Library, before: seq<(Path, string)>, after: seq<(Path, string)>, visited: set<Path>, m: Path,
    edges: seq<string>)
  {
    forall f :: multiset(after)[f] == multiset(before)[f] + Reports(lib, visited, f)
                                      + if f.0 == m && f.1 !in lib.byId then multiset(edges)[f.1] else 0
  }

  lemma HalfMissing(
    lib: Library, before: seq<(Path, string)>, after: seq<(Path, string)>, visited: set<Path>, m: Path,
    edges: seq<string>, id: string)
    requires AddsHalf(lib, before, after, visited, m, edges)
    requires id !in lib.byId
    ensures AddsHalf(lib, before, after + [(m, id)], visited, m, edges + [id])
  {
  }

  lemma HalfKnown(
    lib: Library, before: seq<(Path, string)>, middle: seq<(Path, string)>, after: seq<(Path, string)>,
    visited: set<Path>, more: set<Path>, m: Path, edges: seq<string>, id: string)
    requires AddsHalf(lib, before, middle, visited, m, edges)
    requires Adds(lib, middle, after, more) && visited !! more
    requires id in lib.byId
    ensures AddsHalf(lib, before, after, visited + more, m, edges + [id])
  {
    forall f ensures Reports(lib, visited + more, f) == Reports(lib, visited, f) + Reports(lib, more, f) {
    }
  }

  lemma HalfStep(
    lib: Library, before: seq<(Path, string)>, middle: seq<(Path, string)>, after: seq<(Path, string)>,
    base: set<Path>, visited: set<Path>, visited': set<Path>, m: Path, edges: seq<string>, id: string)
    requires base <= visited <= visited'
    requires AddsHalf(lib, before, middle, visited - base, m, edges)
    requires if id in lib.byId then Adds(lib, middle, after, visited' - visited)
             else visited' == visited && after == middle + [(m, id)]
    ensures AddsHalf(lib, before, after, visited' - base, m, edges + [id])
  {
    if id in lib.byId {
      HalfKnown(lib, before, middle, after, visited - base, visited' - visited, m, edges, id);
      assert visited' - base == (visited - base) + (visited' - visited);
    } else {
      HalfMissing(lib, before, middle, visited - base, m, edges, id);
    }
  }

  ghost predicate EdgesLeadInto(lib: Library, from: set<Path>, visited: set<Path>) {
    forall n, p :: n in from && lib.IsParent(n, p) ==> p in visited
  }

  ghost predicate ParentsIn(lib: Library, edges: seq<string>, visited: set<Path>) {
    forall id :: id in edges && id in lib.byId ==> lib.byId[id] in visited
  }

  lemma ParentsStillIn(lib: Library, edges: seq<string>, id: string, before: set<Path>, visited: set<Path>)
    requires before <= visited && ParentsIn(lib, edges, before)
    requires id in lib.byId ==> lib.byId[id] in visited
    ensures ParentsIn(lib, edges + [id], visited)
  {
  }

  lemma EdgesStillLead(lib: Library, known: set<Path>, before: set<Path>, visited: set<Path>)
    requires known <= before <= visited
    requires EdgesLeadInto(lib, before - known, before) && EdgesLeadInto(lib, visited - before, visited)
    ensures EdgesLeadInto(lib, visited - known, visited)
  {
    forall n, p | n in visited - known && lib.IsParent(n, p) ensures p in visited {
      assert n in before - known || n in visited - before;
    }
  }

  /** What a visit of `m` does: it reaches manifests outside `before` and completes their edges. */
  ghost predicate Walked(
    lib: Library, m: Path, before: set<Path>, findings: seq<(Path, string)>,
    visited: set<Path>, findings': seq<(Path, string)>)
  {
    && before <= visited && m in visited
    && (forall n :: n in visited - before ==> Reaches(lib, m, n))
    && EdgesLeadInto(lib, visited - before, visited)
    && Adds(lib, findings, findings', visited - before)
  }

  /** What following one edge of `m` does. */
  ghost predicate Followed(
    lib: Library, m: Path, id: string, before: set<Path>, findings: seq<(Path, string)>,
    visited: set<Path>, findings': seq<(Path, string)>)
  {
    && before <= visited
    && (forall n :: n in visited - before ==> Reaches(lib, m, n))
    && EdgesLeadInto(lib, visited - before, visited)
    && if id in lib.byId then lib.byId[id] in visited && Adds(lib, findings, findings', visited - before)
       else visited == before && findings' == findings + [(m, id)]
  }

  /** The frame of `m` once it has followed `edges`; `base` is what was visited when it began. */
  ghost predicate Frame(
    lib: Library, m: Path, base: set<Path>, findings0: seq<(Path, string)>,
    visited: set<Path>, findings: seq<(Path, string)>, edges: seq<string>)
  {
    && base <= visited
    && (forall n :: n in visited - base ==> Reaches(lib, m, n))
    && EdgesLeadInto(lib, visited - base, visited)
    && ParentsIn(lib, edges, visited)
    && AddsHalf(lib, findings0, findings, visited - base, m, edges)
  }

  lemma FrameStart(lib: Library, m: Path, base: set<Path>, findings0: seq<(Path, string)>)
    ensures Frame(lib, m, base, findings0, base, findings0, [])
  {
  }

  lemma FrameStep(
    lib: Library, m: Path, base: set<Path>, findings0: seq<(Path, string)>,
    before: set<Path>, middle: seq<(Path, string)>, visited: set<Path>, findings: seq<(Path, string)>,
    edges: seq<string>, id: string, more: seq<string>)
    requires Frame(lib, m, base, findings0, before, middle, edges)
    requires Followed(lib, m, id, before, middle, visited, findings)
    requires more == edges + [id]
    ensures Frame(lib, m, base, findings0, visited, findings, more)
  {
    EdgesStillLead(lib, base, before, visited);
    ParentsStillIn(lib, edges, id, before, visited);
    HalfStep(lib, findings0, middle, findings, base, before, visited, m, edges, id);
  }

  /** All edges of `m` followed: its own findings and edges join those of the manifests below it. */
  lemma FrameDone(
    lib: Library, m: Path, before: set<Path>, findings0: seq<(Path, string)>,
    visited: set<Path>, findings: seq<(Path, string)>)
    requires m in lib.manifests && m !in before
    requires Frame(lib, m, before + {m}, findings0, visited, findings, lib.manifests[m].supersedes)
    ensures Walked(lib, m, before, findings0, visited, findings)
  {
    ReachesSelf(lib, m);
  }

  lemma OneMore(edges: seq<string>, i: nat)
    ensures i < |edges| ==> edges[..i + 1] == edges[..i] + [edges[i]]
    ensures edges[..|edges|] == edges
  {
  }

  lemma UnionsGrow(lib: Library, visited: set<Path>, m: Path)
    requires m in lib.manifests
    ensures DefinitionsOf(lib, visited + {m}) == DefinitionsOf(lib, visited) + lib.manifests[m].definitions
    ensures ExemptsOf(lib, visited + {m}) == ExemptsOf(lib, visited) + lib.manifests[m].exempts
  {
  }

  class ChainWalk {
    const lib: Library
    var defs: set<string>
    var exempts: set<string>
    var visited: set<Path>
    var findings: seq<(Path, string)>

    constructor (lib: Library)
      ensures this.lib == lib && defs == {} && exempts == {} && visited == {} && findings == []
    {
      this.lib := lib;
      defs, exempts, visited, findings := {}, {}, {}, [];
    }

    ghost predicate Valid()
      reads this
    {
      && lib.Valid()
      && visited <= lib.manifests.Keys
      && defs == DefinitionsOf(lib, visited)
      && exempts == ExemptsOf(lib, visited)
    }

    /** Visits `m` and whatever it leads to outside `visited`. The walk stops at nodes already
        visited, so a node still on the stack has its edges completed by its own frame. */
    method Walk(m: Path)
      requires Valid() && m in lib.manifests
      modifies this
      ensures Valid() && Walked(lib, m, old(visited), old(findings), visited, findings)
      decreases lib.manifests.Keys - visited, 0
    {
      if m in visited {
        return;
      }
      ghost var before, findings0 := visited, findings;
      visited := visited + {m};
      defs := defs + lib.manifests[m].definitions;
      exempts := exempts + lib.manifests[m].exempts;
      UnionsGrow(lib, before, m);
      FollowAll(m);
      FrameDone(lib, m, before, findings0, visited, findings);
    }

    /** The loop over the edges of `m`. */
    method FollowAll(m: Path)
      requires Valid() && m in lib.manifests && m in visited
      modifies this
      ensures Valid() && Frame(lib, m, old(visited), old(findings), visited, findings, lib.manifests[m].supersedes)
      decreases lib.manifests.Keys - visited, 2
    {
      ghost var base, findings0 := visited, findings;
      var supersedes := lib.manifests[m].supersedes;
      FrameStart(lib, m, base, findings0);
      for i := 0 to |supersedes|
        invariant Valid() && Frame(lib, m, base, findings0, visited, findings, supersedes[..i])
      {
        ghost var visitedSoFar, findingsSoFar := visited, findings;
        Follow(m, supersedes[i]);
        OneMore(supersedes, i);
        FrameStep(lib, m, base, findings0, visitedSoFar, findingsSoFar, visited, findings,
                  supersedes[..i], supersedes[i], supersedes[..i + 1]);
      }
      OneMore(supersedes, 0);
    }

    /** One edge of `m`: a finding when nobody has the id, otherwise the walk goes on at the parent. */
    method Follow(m: Path, id: string)
      requires Valid() && m in lib.manifests && m in visited && id in lib.manifests[m].supersedes
      modifies this
      ensures Valid() && Followed(lib, m, id, old(visited), old(findings), visited, findings)
      decreases lib.manifests.Keys - visited, 1
    {
      if id !in lib.byId {
        findings := findings + [(m, id)];
        return;
      }
      var parent := lib.byId[id];
      assert lib.IsParent(m, parent);
      ghost var before := visited;
      Walk(parent);
      forall n | n in visited - before
        ensures Reaches(lib, m, n)
      {
        ReachesThrough(lib, m, parent, n);
      }
    }
  }

  /** For every finite manifest graph the walk terminates and collects exactly the definitions and
      exemptions of the manifests reachable from the root, and reports exactly the edges of those
      manifests that name an id nobody has. */
  method ResolveSupersedesChain(lib: Library, root: Path)
    returns (defs: set<string>, exempts: set<string>, findings: seq<(Path, string)>)
    requires lib.Valid() && root in lib.manifests
    ensures defs == DefinitionsOf(lib, Ancestry(lib, root))
    ensures exempts == ExemptsOf(lib, Ancestry(lib, root))
    ensures Adds(lib, [], findings, Ancestry(lib, root))
  {
    var walk := new ChainWalk(lib);
    walk.Walk(root);
    forall n | n in lib.manifests && Reaches(lib, root, n)
      ensures n in walk.visited
    {
      var chain :| IsChain(lib, chain, root, n);
      ClosedHoldsReachable(lib, walk.visited, chain, root, n);
    }
    assert walk.visited == Ancestry(lib, root);
    return walk.defs, walk.exempts, walk.findings;
  }

  // ------------------------------------------------------------------------------------ V-14

  /** The references a manifest uses and nothing in its ancestry accounts for. */
  ghost function Unresolved(lib: Library, root: Path): set<string>
    requires root in lib.manifests
  {
    lib.manifests[root].references
    - DefinitionsOf(lib, Ancestry(lib, root)) - ExemptsOf(lib, Ancestry(lib, root))
  }

  /** A reference is unresolved exactly when no manifest that can be reached, over however many edges,
      defines it or exempts it. */
  lemma UnresolvedIff(lib: Library, root: Path, ref: string)
    requires lib.Valid() && root in lib.manifests
    ensures ref in Unresolved(lib, root)
       <==> && ref in lib.manifests[root].references
            && forall n :: n in lib.manifests && Reaches(lib, root, n) ==>
                 ref !in lib.manifests[n].definitions && ref !in lib.manifests[n].exempts
  {
  }

  method CheckV14(lib: Library, root: Path) returns (unresolved: set<string>, findings: seq<(Path, string)>)
    requires lib.Valid() && root in lib.manifests
    ensures unresolved == Unresolved(lib, root)
    ensures Adds(lib, [], findings, Ancestry(lib, root))
  {
    var defs, exempts;
    defs, exempts, findings := ResolveSupersedesChain(lib, root);
    unresolved := lib.manifests[root].references - defs - exempts;
  }

  function WithEdge(lib: Library, child: Path, id: string, at: nat): Library
    requires child in lib.manifests && at <= |lib.manifests[child].supersedes|
  {
    var m := lib.manifests[child];
    lib.(manifests := lib.manifests[child := m.(supersedes := m.supersedes[..at] + [id] + m.supersedes[at..])])
  }

  lemma EdgeKeepsParents(lib: Library, child: Path, id: string, at: nat, n: Path, p: Path)
    requires child in lib.manifests && at <= |lib.manifests[child].supersedes|
    requires lib.IsParent(n, p)
    ensures WithEdge(lib, child, id, at).IsParent(n, p)
  {
    var e :| e in lib.manifests[n].supersedes && e in lib.byId && lib.byId[e] == p;
    var m := lib.manifests[child];
    assert m.supersedes == m.supersedes[..at] + m.supersedes[at..];
    assert e in WithEdge(lib, child, id, at).manifests[n].supersedes;
  }

  lemma {:induction false} EdgeKeepsChains(lib: Library, child: Path, id: string, at: nat,
                                           chain: seq<Path>, from: Path, to: Path)
    requires child in lib.manifests && at <= |lib.manifests[child].supersedes|
    requires IsChain(lib, chain, from, to)
    ensures IsChain(WithEdge(lib, child, id, at), chain, from, to)
    decreases |chain|
  {
    if |chain| > 1 {
      EdgeKeepsParents(lib, child, id, at, from, chain[1]);
      EdgeKeepsChains(lib, child, id, at, chain[1..], chain[1], to);
    }
  }

  /** Adding a `supersedes` edge anywhere, to whatever id, never leaves any manifest with a new
      unresolved reference. */
  lemma EdgeAddsNoUnresolved(lib: Library, child: Path, id: string, at: nat, root: Path)
    requires child in lib.manifests && at <= |lib.manifests[child].supersedes|
    requires root in lib.manifests
    ensures Unresolved(WithEdge(lib, child, id, at), root) <= Unresolved(lib, root)
  {
    var grown := WithEdge(lib, child, id, at);
    forall n | n in Ancestry(lib, root)
      ensures n in Ancestry(grown, root)
    {
      var chain :| IsChain(lib, chain, root, n);
      EdgeKeepsChains(lib, child, id, at, chain, root, n);
    }
    assert forall n :: n in lib.manifests ==>
        && grown.manifests[n].definitions == lib.manifests[n].definitions
        && grown.manifests[n].exempts == lib.manifests[n].exempts;
    assert DefinitionsOf(lib, Ancestry(lib, root)) <= DefinitionsOf(grown, Ancestry(grown, root));
    assert ExemptsOf(lib, Ancestry(lib, root)) <= ExemptsOf(grown, Ancestry(grown, root));
  }

  // ------------------------------------------------------------------------------ the scanner

  /** A line: its indentation, the length of the backtick run that follows it, and what stands after
      the run, without surrounding white space. */
  datatype Line = Line(text: string, indent: nat, ticks: nat, rest: string) {
    predicate IsFence() {
      ticks >= 3
    }

    /** An opening backtick fence as section 4.5 of CommonMark has it: at most three spaces before it,
        and no backtick in its info string. */
    predicate OpensStandard() {
      ticks >= 3 && indent <= 3 && '`' !in rest
    }

    /** A closing fence as that section has it: nothing stands after it. */
    predicate ClosesStandard(open: nat) {
      ticks >= 3 && ticks >= open && indent <= 3 && rest == ""
    }
  }

  /** One pass with one number of state: the opener's length inside a fence, 0 outside. */
  function Scan(lines: seq<Line>, open: nat): (seq<Line>, nat) {
    if lines == [] then ([], open)
    else
      var line := lines[0];
      if open == 0 then
        if line.IsFence() then Scan(lines[1..], line.ticks)
        else
          var (kept, end) := Scan(lines[1..], 0);
          ([line] + kept, end)
      else Scan(lines[1..], if line.IsFence() && line.ticks >= open then 0 else open)
  }

  /** The fence that is open after the line. */
  function NextOpen(line: Line, open: nat): nat {
    if open == 0 then (if line.IsFence() then line.ticks else 0)
    else if line.IsFence() && line.ticks >= open then 0 else open
  }

  /** The two nested loops do what the one pass does. */
  method StripFencedBlocks(lines: seq<Line>) returns (out: seq<Line>)
    ensures out == Scan(lines, 0).0
  {
    out := [];
    var i := 0;
    while i < |lines|
      invariant 0 <= i <= |lines|
      invariant Scan(lines, 0).0 == out + Scan(lines[i..], 0).0
      decreases |lines| - i
    {
      var line := lines[i];
      assert lines[i..][1..] == lines[i + 1..];
      if !line.IsFence() {
        assert out + ([line] + Scan(lines[i + 1..], 0).0) == (out + [line]) + Scan(lines[i + 1..], 0).0;
        out := out + [line];
        i := i + 1;
      } else {
        var opener := line.ticks;
        i := i + 1;
        var closed := false;
        while i < |lines| && !closed
          invariant 0 < i <= |lines|
          invariant Scan(lines, 0).0 == out + Scan(lines[i..], if closed then 0 else opener).0
          decreases |lines| - i
        {
          assert lines[i..][1..] == lines[i + 1..];
          closed := lines[i].IsFence() && lines[i].ticks >= opener;
          i := i + 1;
        }
        assert i == |lines| ==> lines[i..] == [];
      }
    }
    assert lines[i..] == [];
  }

  /** Text scans piecewise: what follows depends only on whether a fence is open. */
  lemma {:induction false} ScanConcat(a: seq<Line>, b: seq<Line>, open: nat)
    ensures Scan(a + b, open).0 == Scan(a, open).0 + Scan(b, Scan(a, open).1).0
    ensures Scan(a + b, open).1 == Scan(b, Scan(a, open).1).1
    decreases |a|
  {
    if a == [] {
      assert a + b == b;
    } else {
      assert (a + b)[1..] == a[1..] + b;
      var line := a[0];
      var next := NextOpen(line, open);
      ScanConcat(a[1..], b, next);
    }
  }

  /** No fence line survives, so a second pass changes nothing; and an opener no later line closes
      drops everything after it. */
  lemma {:induction false} StrippedHasNoFences(lines: seq<Line>, open: nat)
    ensures forall l :: l in Scan(lines, open).0 ==> !l.IsFence()
    ensures Scan(Scan(lines, open).0, 0) == (Scan(lines, open).0, 0)
    ensures open > 0 && (forall l :: l in lines ==> l.ticks < open) ==> Scan(lines, open) == ([], open)
    decreases |lines|
  {
    if lines != [] {
      var line := lines[0];
      var next := NextOpen(line, open);
      StrippedHasNoFences(lines[1..], next);
      if open == 0 && !line.IsFence() {
        assert Scan(lines, open).0[1..] == Scan(lines[1..], 0).0;
      }
    }
  }

  // ------------------------------------------------------------------------------ the standard

  /** The same pass with the fences of section 4.5 of CommonMark. */
  function StandardScan(lines: seq<Line>, open: nat): (seq<Line>, nat) {
    if lines == [] then ([], open)
    else
      var line := lines[0];
      if open == 0 then
        if line.OpensStandard() then StandardScan(lines[1..], line.ticks)
        else
          var (kept, end) := StandardScan(lines[1..], 0);
          ([line] + kept, end)
      else StandardScan(lines[1..], if line.ClosesStandard(open) then 0 else open)
  }

  /** The auditor's fences take the line as the standard does, when a fence of length `open` is open
      (0: none). */
  predicate TakenAlike(line: Line, open: nat) {
    if open == 0 then line.IsFence() == line.OpensStandard()
    else (line.IsFence() && line.ticks >= open) == line.ClosesStandard(open)
  }

  ghost predicate AllTakenAlike(lines: seq<Line>, open: nat) {
    forall n :: 0 <= n < |lines| ==> TakenAlike(lines[n], Scan(lines[..n], open).1)
  }

  /** After every line the two passes have the same fence open. */
  ghost predicate InStep(lines: seq<Line>, open: nat) {
    forall n :: 0 <= n <= |lines| ==> Scan(lines[..n], open).1 == StandardScan(lines[..n], open).1
  }

  /** The auditor stays in step with the standard if and only if it takes each line as the standard does
      where it stands; and then it keeps exactly the lines outside the standard's fenced blocks. */
  lemma {:induction false} InStepIff(lines: seq<Line>, open: nat)
    ensures InStep(lines, open) <==> AllTakenAlike(lines, open)
    ensures AllTakenAlike(lines, open) ==> Scan(lines, open) == StandardScan(lines, open)
    decreases |lines|
  {
    if lines != [] {
      var rest, next := lines[1..], NextOpen(lines[0], open);
      InStepIff(rest, next);
      FirstAlike(lines, open);
    }
  }

  lemma FirstAlike(lines: seq<Line>, open: nat)
    requires lines != []
    ensures AllTakenAlike(lines, open)
       <==> TakenAlike(lines[0], open) && AllTakenAlike(lines[1..], NextOpen(lines[0], open))
    ensures InStep(lines, open)
       <==> TakenAlike(lines[0], open) && InStep(lines[1..], NextOpen(lines[0], open))
  {
    var rest, next := lines[1..], NextOpen(lines[0], open);
    forall n: nat, m: nat | n <= |rest| && m == n + 1
      ensures Scan(lines[..m], open).1 == Scan(rest[..n], next).1
      ensures TakenAlike(lines[0], open) ==> StandardScan(lines[..m], open).1 == StandardScan(rest[..n], next).1
    {
      assert lines[..m][0] == lines[0] && lines[..m][1..] == rest[..n];
    }
    assert lines[..0] == [];
    if InStep(lines, open) {
      FirstInStep(lines, open);
      forall n: nat | n <= |rest| ensures Scan(rest[..n], next).1 == StandardScan(rest[..n], next).1 {
        assert Scan(lines[..n + 1], open).1 == StandardScan(lines[..n + 1], open).1;
      }
    }
    if TakenAlike(lines[0], open) && InStep(rest, next) {
      forall m: nat | m <= |lines| ensures Scan(lines[..m], open).1 == StandardScan(lines[..m], open).1 {
        if m > 0 {
          var n := m - 1;
          assert Scan(rest[..n], next).1 == StandardScan(rest[..n], next).1;
        }
      }
    }
  }

  lemma FirstInStep(lines: seq<Line>, open: nat)
    requires lines != [] && InStep(lines, open)
    ensures TakenAlike(lines[0], open)
  {
    var first := lines[..1];
    assert first == [lines[0]] && first[1..] == [];
    assert Scan(first, open).1 == StandardScan(first, open).1;
  }

  /** They do part: inside a fence, a line with an info string closes the auditor's fence only. */
  lemma InfoStringCloses() returns (lines: seq<Line>)
    ensures Scan(lines, 0).0 != StandardScan(lines, 0).0
  {
    var open, nested, code := Line("```", 0, 3, ""), Line("```python", 0, 3, "python"), Line("REQ-1", 0, 0, "");
    lines := [open, nested, code];
    assert lines[1..] == [nested, code] && [nested, code][1..] == [code] && [code][1..] == [];
    assert |nested.rest| == 6;
    assert Scan([nested, code], 3) == Scan([code], 0) && Scan([code], 0).0 == [code] + [];
    assert StandardScan([nested, code], 3) == StandardScan([code], 3) && StandardScan([code], 3).0 == [];
    assert Scan(lines, 0) == Scan([nested, code], 3);
    assert '`' !in open.rest;
  }
}
