/** Conditional proceed: which design conditions a thread puts on a PR, and whether the PR body
    declares them. */
module DesignConditions {
  import opened Wrappers
  import opened Sets

  /** A line of a message, as the format's anchored patterns classify it. */
  datatype Line =
    | ConditionsHeading(k: nat)
    | ConditionId(id: string, objection: nat)
    | Aborted(target: string)
    | BlankLine
    | OtherLine

  /** `fixMin` with its white space normalised; empty when the original has none. */
  datatype Objection = Objection(blocks: bool, fixMin: string)

  /** `objections` is `None` when the block is unreadable. `routesToImplementer` and `noTierC` are
      what the conductor's handoff rules say of the text. */
  datatype Message = Message(
    id: string,
    byNaysayer: bool,
    byHuman: bool,
    routesToImplementer: bool,
    noTierC: bool,
    lines: seq<Line>,
    objections: Option<seq<Objection>>)
  {
    predicate IsValidGo() {
      routesToImplementer && (byHuman || (byNaysayer && noTierC))
    }

    predicate HasHeading() {
      exists i :: 0 <= i < |lines| && lines[i].ConditionsHeading?
    }

    predicate IsConditionalGo() {
      byNaysayer && HasHeading() && IsValidGo()
    }

    ghost predicate Aborts(target: string) {
      Aborted(target) in lines
    }
  }

  datatype Condition = Condition(id: string, fixMin: string)

  // --------------------------------------------------------------------- the canonical list

  /** The id lines under the heading: blank lines before the first are skipped, the first other
      line or later blank line ends the list. */
  function IdLines(lines: seq<Line>): seq<(string, nat)> {
    if lines == [] then []
    else if lines[0].BlankLine? then IdLines(lines[1..])
    else IdRun(lines)
  }

  function IdRun(lines: seq<Line>): seq<(string, nat)> {
    if lines == [] || !lines[0].ConditionId? then []
    else [(lines[0].id, lines[0].objection)] + IdRun(lines[1..])
  }

  ghost predicate OneHeading(lines: seq<Line>, h: nat) {
    h < |lines| && lines[h].ConditionsHeading?
    && forall i :: 0 <= i < |lines| && lines[i].ConditionsHeading? ==> i == h
  }

  /** The ids name k >= 1 distinct conditions, one for each blocking objection, which all carry a
      `fix_min`. */
  ghost predicate Readable(ids: seq<(string, nat)>, k: nat, objections: Option<seq<Objection>>) {
    && 1 <= k == |ids|
    && (forall i, j :: 0 <= i < j < |ids| ==> ids[i].0 != ids[j].0 && ids[i].1 != ids[j].1)
    && objections.Some?
    && (forall i :: 0 <= i < |ids| ==>
          1 <= ids[i].1 <= |objections.value|
          && objections.value[ids[i].1 - 1].blocks && objections.value[ids[i].1 - 1].fixMin != "")
    && (forall n :: IsBlocking(objections.value, n) ==> Names(ids, n))
  }

  /** Objection `n` of the block, counted from 1. */
  predicate IsBlocking(objections: seq<Objection>, n: int) {
    1 <= n <= |objections| && objections[n - 1].blocks
  }

  predicate Names(ids: seq<(string, nat)>, n: int) {
    exists i :: 0 <= i < |ids| && ids[i].1 == n
  }

  ghost predicate Lists(ids: seq<(string, nat)>, objections: seq<Objection>, conditions: seq<Condition>) {
    |conditions| == |ids|
    && forall i :: 0 <= i < |ids| ==>
         1 <= ids[i].1 <= |objections|
         && conditions[i] == Condition(ids[i].0, objections[ids[i].1 - 1].fixMin)
  }

  ghost predicate CanonicalAt(m: Message, h: nat, conditions: seq<Condition>) {
    && OneHeading(m.lines, h)
    && var ids := IdLines(m.lines[h + 1..]);
    && Readable(ids, m.lines[h].k, m.objections)
    && Lists(ids, m.objections.value, conditions)
  }

  /** `r` is the go's canonical condition list, or nothing when the go is unreadable. */
  ghost predicate IsCanonical(m: Message, r: Option<seq<Condition>>) {
    match r
    case Some(conditions) => exists h: nat :: CanonicalAt(m, h, conditions)
    case None => forall h: nat :: OneHeading(m.lines, h) ==>
                   !Readable(IdLines(m.lines[h + 1..]), m.lines[h].k, m.objections)
  }

  /** The ids are those of the unbroken run of id lines that follows the blank lines. */
  lemma {:induction false} IdLinesAre(lines: seq<Line>) returns (start: nat, end: nat)
    ensures start <= end <= |lines| && |IdLines(lines)| == end - start
    ensures forall i :: 0 <= i < start ==> lines[i].BlankLine?
    ensures forall i :: start <= i < end ==>
              lines[i] == ConditionId(IdLines(lines)[i - start].0, IdLines(lines)[i - start].1)
    ensures end < |lines| ==> !lines[end].ConditionId?
    ensures start == end < |lines| ==> !lines[end].BlankLine?
  {
    if lines != [] && lines[0].BlankLine? {
      var s, e := IdLinesAre(lines[1..]);
      start, end := s + 1, e + 1;
    } else {
      start := 0;
      end := IdRunIs(lines);
    }
  }

  lemma {:induction false} IdRunIs(lines: seq<Line>) returns (end: nat)
    ensures end <= |lines| && |IdRun(lines)| == end
    ensures forall i :: 0 <= i < end ==> lines[i] == ConditionId(IdRun(lines)[i].0, IdRun(lines)[i].1)
    ensures end < |lines| ==> !lines[end].ConditionId?
  {
    if lines == [] || !lines[0].ConditionId? {
      end := 0;
    } else {
      end := IdRunIs(lines[1..]);
      end := end + 1;
    }
  }

  method ReadIds(lines: seq<Line>, start: nat) returns (ids: seq<(string, nat)>)
    requires start <= |lines|
    ensures ids == IdLines(lines[start..])
  {
    ids := [];
    var i := start;
    while i < |lines|
      invariant start <= i <= |lines|
      invariant ids == [] ==> IdLines(lines[start..]) == IdLines(lines[i..])
      invariant ids != [] ==> IdLines(lines[start..]) == ids + IdRun(lines[i..])
    {
      assert lines[i..][1..] == lines[i + 1..];
      if lines[i].BlankLine? {
        if ids != [] {
          break;
        }
      } else if lines[i].ConditionId? {
        assert ids + ([(lines[i].id, lines[i].objection)] + IdRun(lines[i + 1..]))
            == (ids + [(lines[i].id, lines[i].objection)]) + IdRun(lines[i + 1..]);
        ids := ids + [(lines[i].id, lines[i].objection)];
      } else {
        break;
      }
      i := i + 1;
    }
    assert ids + [] == ids;
  }

  method FindHeading(lines: seq<Line>) returns (r: Option<nat>)
    ensures r.Some? ==> OneHeading(lines, r.value)
    ensures r == None ==> forall h: nat :: !OneHeading(lines, h)
  {
    var heads: seq<nat> := [];
    for i := 0 to |lines|
      invariant forall h :: 0 <= h < i && lines[h].ConditionsHeading? ==> h in heads
      invariant forall j :: 0 <= j < |heads| ==> heads[j] < i && lines[heads[j]].ConditionsHeading?
      invariant |heads| >= 2 ==> heads[0] != heads[1]
    {
      if lines[i].ConditionsHeading? {
        heads := heads + [i];
      }
    }
    return if |heads| == 1 then Some(heads[0]) else None;
  }

  method PickConditions(ids: seq<(string, nat)>, k: nat, block: Option<seq<Objection>>)
    returns (r: Option<seq<Condition>>)
    ensures r.Some? <==> Readable(ids, k, block)
    ensures r.Some? ==> Lists(ids, block.value, r.value)
  {
    if k < 1 || |ids| != k {
      return None;
    }
    if exists i, j :: 0 <= i < j < |ids| && (ids[i].0 == ids[j].0 || ids[i].1 == ids[j].1) {
      return None;
    }
    if block == None {
      return None;
    }
    var objections := block.value;
    var conditions: seq<Condition> := [];
    for i := 0 to |ids|
      invariant |conditions| == i
      invariant forall j :: 0 <= j < i ==>
                  1 <= ids[j].1 <= |objections| && objections[ids[j].1 - 1].blocks
                  && objections[ids[j].1 - 1].fixMin != ""
                  && conditions[j] == Condition(ids[j].0, objections[ids[j].1 - 1].fixMin)
    {
      var n := ids[i].1;
      if !(1 <= n <= |objections|) || !objections[n - 1].blocks || objections[n - 1].fixMin == "" {
        return None;
      }
      conditions := conditions + [Condition(ids[i].0, objections[n - 1].fixMin)];
    }
    for n := 1 to |objections| + 1
      invariant forall b :: b < n && IsBlocking(objections, b) ==> Names(ids, b)
    {
      if IsBlocking(objections, n) && !Names(ids, n) {
        return None;
      }
    }
    return Some(conditions);
  }

  method CanonicalConditions(m: Message) returns (r: Option<seq<Condition>>)
    ensures IsCanonical(m, r)
  {
    var head := FindHeading(m.lines);
    if head == None {
      return None;
    }
    var ids := ReadIds(m.lines, head.value + 1);
    r := PickConditions(ids, m.lines[head.value].k, m.objections);
    assert r.Some? ==> CanonicalAt(m, head.value, r.value);
  }

  /** A readable list is a bijection with the blocking objections: each condition carries the
      `fix_min` of one of them, each of them has exactly one condition, and no id repeats. */
  ghost predicate MatchesBlocking(objections: seq<Objection>, conditions: seq<Condition>, objectionOf: seq<nat>) {
    && |objectionOf| == |conditions| >= 1
    && (forall i :: 0 <= i < |conditions| ==>
          objectionOf[i] < |objections| && objections[objectionOf[i]].blocks
          && conditions[i].fixMin == objections[objectionOf[i]].fixMin != "")
    && (forall i, j :: 0 <= i < j < |conditions| ==>
          conditions[i].id != conditions[j].id && objectionOf[i] != objectionOf[j])
    && (forall n: nat :: n < |objections| && objections[n].blocks ==> n in objectionOf)
  }

  lemma CanonicalMatchesBlocking(m: Message, conditions: seq<Condition>) returns (objectionOf: seq<nat>)
    requires IsCanonical(m, Some(conditions))
    ensures m.objections.Some? && MatchesBlocking(m.objections.value, conditions, objectionOf)
  {
    var h: nat :| CanonicalAt(m, h, conditions);
    objectionOf := ReadableMatches(IdLines(m.lines[h + 1..]), m.lines[h].k, m.objections.value, conditions);
  }

  lemma ReadableMatches(ids: seq<(string, nat)>, k: nat, objections: seq<Objection>, conditions: seq<Condition>)
    returns (objectionOf: seq<nat>)
    requires Readable(ids, k, Some(objections)) && Lists(ids, objections, conditions)
    ensures MatchesBlocking(objections, conditions, objectionOf)
  {
    objectionOf := seq(|ids|, i requires 0 <= i < |ids| => ids[i].1 - 1);
    forall n: nat | n < |objections| && objections[n].blocks
      ensures n in objectionOf
    {
      BlockingIsNamed(ids, k, objections, n, objectionOf);
    }
    DistinctNames(ids, k, objections, conditions, objectionOf);
  }

  lemma DistinctNames(ids: seq<(string, nat)>, k: nat, objections: seq<Objection>, conditions: seq<Condition>,
                      objectionOf: seq<nat>)
    requires Readable(ids, k, Some(objections)) && Lists(ids, objections, conditions)
    requires |objectionOf| == |ids| && forall i :: 0 <= i < |ids| ==> objectionOf[i] == ids[i].1 - 1
    ensures forall i, j :: 0 <= i < j < |conditions| ==>
              conditions[i].id != conditions[j].id && objectionOf[i] != objectionOf[j]
  {
    forall i, j | 0 <= i < j < |conditions|
      ensures conditions[i].id != conditions[j].id && objectionOf[i] != objectionOf[j]
    {
      assert ids[i].0 != ids[j].0 && ids[i].1 != ids[j].1;
    }
  }

  lemma BlockingIsNamed(ids: seq<(string, nat)>, k: nat, objections: seq<Objection>, n: nat, objectionOf: seq<nat>)
    requires Readable(ids, k, Some(objections))
    requires n < |objections| && objections[n].blocks
    requires |objectionOf| == |ids| && forall i :: 0 <= i < |ids| ==> objectionOf[i] == ids[i].1 - 1
    ensures n in objectionOf
  {
    assert IsBlocking(objections, n + 1);
    var i :| 0 <= i < |ids| && ids[i].1 == n + 1;
    assert objectionOf[i] == n;
  }

  // ------------------------------------------------------------------------- the thread table

  datatype Outcome = NotApplicable | Verify | Hold

  datatype ThreadVerdict = ThreadVerdict(outcome: Outcome, goId: string, conditions: seq<Condition>)

  ghost predicate TwoConditionalGos(ms: seq<Message>) {
    exists i, j :: 0 <= i < j < |ms| && ms[i].IsConditionalGo() && ms[j].IsConditionalGo()
  }

  ghost predicate OnlyConditionalGo(ms: seq<Message>, g: int) {
    0 <= g < |ms| && ms[g].IsConditionalGo()
    && forall i :: 0 <= i < |ms| && ms[i].IsConditionalGo() ==> i == g
  }

  /** A naysayer's abort of the thread's only conditional go, posted after it. */
  ghost predicate ValidAbort(ms: seq<Message>, i: int, target: string) {
    0 <= i < |ms| && ms[i].byNaysayer
    && exists g :: OnlyConditionalGo(ms, g) && g < i && ms[g].id == target
  }

  ghost predicate HasInvalidAbort(ms: seq<Message>) {
    exists i, target :: 0 <= i < |ms| && ms[i].Aborts(target) && !ValidAbort(ms, i, target)
  }

  ghost predicate HasAbort(ms: seq<Message>) {
    exists i, target :: 0 <= i < |ms| && ms[i].Aborts(target)
  }

  /** Some message with an abort line has a valid go after it. */
  ghost predicate Restarted(ms: seq<Message>) {
    exists i, target, j :: 0 <= i < j < |ms| && ms[i].Aborts(target) && ms[j].IsValidGo()
  }

  ghost predicate GoFollows(ms: seq<Message>) {
    exists g, j :: OnlyConditionalGo(ms, g) && g < j < |ms| && ms[j].IsValidGo()
  }

  ghost predicate SomeConditionalGo(ms: seq<Message>) {
    exists g :: 0 <= g < |ms| && ms[g].IsConditionalGo()
  }

  /** The table, first matching row wins. */
  ghost predicate TableSays(ms: seq<Message>, v: ThreadVerdict) {
    if TwoConditionalGos(ms) || HasInvalidAbort(ms) then v.outcome == Hold
    else if HasAbort(ms) then v.outcome == if Restarted(ms) then NotApplicable else Hold
    else if !SomeConditionalGo(ms) then v.outcome == NotApplicable
    else if GoFollows(ms) then v.outcome == Hold
    else
      exists g :: OnlyConditionalGo(ms, g) && v.goId == ms[g].id
                  && (if v.outcome == Verify then IsCanonical(ms[g], Some(v.conditions))
                      else v.outcome == Hold && IsCanonical(ms[g], None))
  }

  method FindConditionalGos(ms: seq<Message>) returns (gos: seq<nat>)
    ensures forall i :: 0 <= i < |gos| ==> gos[i] < |ms| && ms[gos[i]].IsConditionalGo()
    ensures forall i, j :: 0 <= i < j < |gos| ==> gos[i] < gos[j]
    ensures forall g :: 0 <= g < |ms| && ms[g].IsConditionalGo() ==> g in gos
  {
    gos := [];
    for i := 0 to |ms|
      invariant forall k :: 0 <= k < |gos| ==> gos[k] < i && ms[gos[k]].IsConditionalGo()
      invariant forall k, l :: 0 <= k < l < |gos| ==> gos[k] < gos[l]
      invariant forall g :: 0 <= g < i && ms[g].IsConditionalGo() ==> g in gos
    {
      if ms[i].IsConditionalGo() {
        gos := gos + [i];
      }
    }
  }

  /** The abort scan: the index of the first message with an abort line, or the verdict that some
      abort line is invalid. `go` is the only conditional go, if there is one. */
  method ScanAborts(ms: seq<Message>, go: Option<nat>) returns (valid: bool, first: Option<nat>)
    requires go.Some? ==> OnlyConditionalGo(ms, go.value)
    requires go == None ==> !SomeConditionalGo(ms)
    ensures valid <==> !HasInvalidAbort(ms)
    ensures valid && first == None ==> !HasAbort(ms)
    ensures valid && first.Some? ==>
              && first.value < |ms| && (exists target :: ms[first.value].Aborts(target))
              && forall j, target :: 0 <= j < first.value ==> !ms[j].Aborts(target)
  {
    first := None;
    for i := 0 to |ms|
      invariant forall j, t :: 0 <= j < i && ms[j].Aborts(t) ==> ValidAbort(ms, j, t)
      invariant first == None ==> forall j, t :: 0 <= j < i ==> !ms[j].Aborts(t)
      invariant first.Some? ==>
                  && first.value < i && (exists t :: ms[first.value].Aborts(t))
                  && forall j, t :: 0 <= j < first.value ==> !ms[j].Aborts(t)
    {
      var lines := ms[i].lines;
      for l := 0 to |lines|
        invariant first == None ==> forall j, t :: 0 <= j < i ==> !ms[j].Aborts(t)
        invariant first == None ==> forall k :: 0 <= k < l ==> !lines[k].Aborted?
        invariant first.Some? ==>
                    && first.value <= i && (exists t :: ms[first.value].Aborts(t))
                    && forall j, t :: 0 <= j < first.value ==> !ms[j].Aborts(t)
        invariant forall k :: 0 <= k < l && lines[k].Aborted? ==> ValidAbort(ms, i, lines[k].target)
      {
        if lines[l].Aborted? {
          var target := lines[l].target;
          assert ms[i].Aborts(target);
          if go.Some? && i > go.value && ms[i].byNaysayer && target == ms[go.value].id {
            if first == None {
              first := Some(i);
            }
          } else {
            assert !ValidAbort(ms, i, target);
            return false, first;
          }
        }
      }
    }
    return true, first;
  }

  method EvaluateThread(ms: seq<Message>) returns (v: ThreadVerdict)
    ensures TableSays(ms, v)
  {
    var gos := FindConditionalGos(ms);
    if |gos| >= 2 {
      assert ms[gos[0]].IsConditionalGo() && ms[gos[1]].IsConditionalGo();
      return ThreadVerdict(Hold, "", []);
    }
    var go := if gos == [] then None else Some(gos[0]);
    assert !TwoConditionalGos(ms);
    var valid, first := ScanAborts(ms, go);
    if !valid {
      return ThreadVerdict(Hold, "", []);
    }
    if first.Some? {
      var restarted := exists j :: first.value < j < |ms| && ms[j].IsValidGo();
      assert restarted <==> Restarted(ms);
      return ThreadVerdict(if restarted then NotApplicable else Hold, "", []);
    }
    if go == None {
      return ThreadVerdict(NotApplicable, "", []);
    }
    var g := go.value;
    var later := exists j :: g < j < |ms| && ms[j].IsValidGo();
    if later {
      return ThreadVerdict(Hold, "", []);
    }
    var conditions := CanonicalConditions(ms[g]);
    if conditions == None {
      return ThreadVerdict(Hold, ms[g].id, []);
    }
    return ThreadVerdict(Verify, ms[g].id, conditions.value);
  }

  // ------------------------------------------------------------------------ the table, in the open

  /** The message lets the thread go on: it goes to the implementer, and a human wrote it, or a naysayer
      who sees nothing for a human in it. */
  ghost predicate Proceeds(m: Message) {
    m.routesToImplementer && (m.byHuman || (m.byNaysayer && m.noTierC))
  }

  /** A naysayer's message that proceeds under conditions. */
  ghost predicate Conditional(m: Message) {
    m.byNaysayer && Proceeds(m) && exists k :: ConditionsHeading(k) in m.lines
  }

  ghost predicate Sole(ms: seq<Message>, g: nat) {
    && g < |ms| && Conditional(ms[g])
    && forall i :: 0 <= i < |ms| && i != g ==> !Conditional(ms[i])
  }

  /** Message `i` carries an abort line. */
  ghost predicate Aborting(m: Message) {
    exists target :: Aborted(target) in m.lines
  }

  /** Every abort line is a naysayer's, after message `g`, and names it. */
  ghost predicate AbortsOf(ms: seq<Message>, g: nat)
    requires g < |ms|
  {
    forall i, target :: 0 <= i < |ms| && Aborted(target) in ms[i].lines ==>
      ms[i].byNaysayer && g < i && target == ms[g].id
  }

  lemma ConditionalIff(m: Message)
    ensures Conditional(m) <==> m.IsConditionalGo()
    ensures Proceeds(m) <==> m.IsValidGo()
  {
    if m.HasHeading() {
      var i :| 0 <= i < |m.lines| && m.lines[i].ConditionsHeading?;
      assert ConditionsHeading(m.lines[i].k) in m.lines;
    }
  }

  lemma SoleIff(ms: seq<Message>, g: int)
    ensures OnlyConditionalGo(ms, g) <==> 0 <= g && Sole(ms, g)
    ensures SomeConditionalGo(ms) <==> exists i :: 0 <= i < |ms| && Conditional(ms[i])
  {
    forall m: Message ensures Conditional(m) <==> m.IsConditionalGo() {
      ConditionalIff(m);
    }
  }

  lemma NoneOrSole(ms: seq<Message>)
    ensures !TwoConditionalGos(ms) && SomeConditionalGo(ms) ==> exists g: nat :: OnlyConditionalGo(ms, g)
  {
    if !TwoConditionalGos(ms) && SomeConditionalGo(ms) {
      var g :| 0 <= g < |ms| && ms[g].IsConditionalGo();
      assert OnlyConditionalGo(ms, g);
    }
  }

  lemma AbortsIff(ms: seq<Message>, g: nat)
    requires OnlyConditionalGo(ms, g)
    ensures HasInvalidAbort(ms) <==> !AbortsOf(ms, g)
  {
    if !AbortsOf(ms, g) {
      var i, target :| 0 <= i < |ms| && Aborted(target) in ms[i].lines
                       && !(ms[i].byNaysayer && g < i && target == ms[g].id);
      assert ms[i].Aborts(target) && !ValidAbort(ms, i, target);
    }
    if AbortsOf(ms, g) {
      forall i, target | 0 <= i < |ms| && ms[i].Aborts(target) ensures ValidAbort(ms, i, target) {
        assert OnlyConditionalGo(ms, g) && g < i && ms[g].id == target;
      }
    }
  }

  /** Conditions are demanded exactly of a thread with one conditional go that nothing aborts or follows
      and that can be read; and then they are that go's. */
  lemma VerifyIff(ms: seq<Message>, v: ThreadVerdict)
    requires TableSays(ms, v)
    ensures v.outcome == Verify
       <==> exists g: nat ::
              && Sole(ms, g) && (forall i :: 0 <= i < |ms| ==> !Aborting(ms[i]))
              && (forall j :: g < j < |ms| ==> !Proceeds(ms[j]))
              && exists conditions :: IsCanonical(ms[g], Some(conditions))
    ensures v.outcome == Verify ==>
              exists g: nat :: Sole(ms, g) && v.goId == ms[g].id && IsCanonical(ms[g], Some(v.conditions))
  {
    forall m: Message ensures Proceeds(m) <==> m.IsValidGo() {
      ConditionalIff(m);
    }
    forall g: int ensures OnlyConditionalGo(ms, g) <==> 0 <= g && Sole(ms, g) {
      SoleIff(ms, g);
    }
    NoneOrSole(ms);
    NoAbortsIff(ms);
    if g: nat :| && Sole(ms, g) && (forall i :: 0 <= i < |ms| ==> !Aborting(ms[i]))
                 && (forall j :: g < j < |ms| ==> !Proceeds(ms[j]))
                 && exists conditions :: IsCanonical(ms[g], Some(conditions)) {
      SoleIsQuiet(ms, g);
      QuietIsVerified(ms, v, g);
    }
  }

  lemma NoAbortsIff(ms: seq<Message>)
    ensures HasAbort(ms) <==> exists i :: 0 <= i < |ms| && Aborting(ms[i])
    ensures !HasAbort(ms) ==> !HasInvalidAbort(ms)
  {
    if i :| 0 <= i < |ms| && Aborting(ms[i]) {
      var target :| Aborted(target) in ms[i].lines;
      assert ms[i].Aborts(target);
    }
    if HasAbort(ms) {
      var i, target :| 0 <= i < |ms| && ms[i].Aborts(target);
      assert Aborting(ms[i]);
    }
  }

  lemma SoleIsQuiet(ms: seq<Message>, g: nat)
    requires OnlyConditionalGo(ms, g)
    ensures !TwoConditionalGos(ms) && SomeConditionalGo(ms)
    ensures GoFollows(ms) <==> exists j :: g < j < |ms| && Proceeds(ms[j])
  {
    forall m: Message ensures Proceeds(m) <==> m.IsValidGo() {
      ConditionalIff(m);
    }
    if j :| g < j < |ms| && Proceeds(ms[j]) {
      assert OnlyConditionalGo(ms, g) && ms[j].IsValidGo();
    }
  }

  lemma QuietIsVerified(ms: seq<Message>, v: ThreadVerdict, g: nat)
    requires TableSays(ms, v) && OnlyConditionalGo(ms, g)
    requires !TwoConditionalGos(ms) && SomeConditionalGo(ms) && !HasInvalidAbort(ms) && !HasAbort(ms) && !GoFollows(ms)
    requires exists conditions :: IsCanonical(ms[g], Some(conditions))
    ensures v.outcome == Verify
  {
    var conditions :| IsCanonical(ms[g], Some(conditions));
    var r := if v.outcome == Verify then Some(v.conditions) else None;
    var h :| OnlyConditionalGo(ms, h) && v.goId == ms[h].id && IsCanonical(ms[h], r);
    assert h == g;
    CanonicalIsUnique(ms[g], Some(conditions), r);
  }

  /** A thread demands nothing exactly when it has neither a conditional go nor an abort line, or when its
      one conditional go was aborted, only as it should be, and a later message proceeds. */
  lemma NotApplicableIff(ms: seq<Message>, v: ThreadVerdict)
    requires TableSays(ms, v)
    ensures v.outcome == NotApplicable
       <==> || (forall i :: 0 <= i < |ms| ==> !Conditional(ms[i]) && !Aborting(ms[i]))
            || (exists g: nat :: Sole(ms, g) && AbortsOf(ms, g) && RestartedAfter(ms))
  {
    forall m: Message ensures Conditional(m) <==> m.IsConditionalGo() {
      ConditionalIff(m);
    }
    forall g: int ensures OnlyConditionalGo(ms, g) <==> 0 <= g && Sole(ms, g) {
      SoleIff(ms, g);
    }
    NoneOrSole(ms);
    NoAbortsIff(ms);
    RestartedIff(ms);
    if g: nat :| OnlyConditionalGo(ms, g) {
      AbortsIff(ms, g);
      SoleIsQuiet(ms, g);
    } else {
      AbortsNothing(ms);
    }
  }

  /** A message that proceeds stands after one with an abort line. */
  ghost predicate RestartedAfter(ms: seq<Message>) {
    exists i, j :: 0 <= i < j < |ms| && Aborting(ms[i]) && Proceeds(ms[j])
  }

  lemma RestartedIff(ms: seq<Message>)
    ensures Restarted(ms) <==> RestartedAfter(ms)
    ensures RestartedAfter(ms) ==> HasAbort(ms)
  {
    forall m: Message ensures Proceeds(m) <==> m.IsValidGo() {
      ConditionalIff(m);
    }
    if i, j :| 0 <= i < j < |ms| && Aborting(ms[i]) && Proceeds(ms[j]) {
      var target :| Aborted(target) in ms[i].lines;
      assert ms[i].Aborts(target) && ms[j].IsValidGo();
    }
    if i, target, j :| 0 <= i < j < |ms| && ms[i].Aborts(target) && ms[j].IsValidGo() {
      assert Aborting(ms[i]);
    }
  }

  lemma AbortsNothing(ms: seq<Message>)
    requires forall g: nat :: !OnlyConditionalGo(ms, g)
    ensures HasAbort(ms) ==> HasInvalidAbort(ms)
  {
    if i, target :| 0 <= i < |ms| && ms[i].Aborts(target) {
      assert !ValidAbort(ms, i, target) by {
        forall g: int ensures !OnlyConditionalGo(ms, g) {
          if 0 <= g {
            var n: nat := g;
            assert !OnlyConditionalGo(ms, n);
          }
        }
      }
    }
  }

  // ------------------------------------------------------------------------ growing threads

  lemma GoStaysOnly(ms: seq<Message>, more: seq<Message>, g: int)
    requires OnlyConditionalGo(ms + more, g)
    ensures g < |ms| ==> OnlyConditionalGo(ms, g)
    ensures g >= |ms| ==> !SomeConditionalGo(ms)
  {
    forall i | 0 <= i < |ms| && ms[i].IsConditionalGo()
      ensures i == g
    {
      assert (ms + more)[i] == ms[i];
    }
    assert g < |ms| ==> (ms + more)[g] == ms[g];
  }

  /** Two conditional gos, or one invalid abort line, hold the thread whatever is posted later. */
  lemma AmbiguityIsForever(ms: seq<Message>, more: seq<Message>, v: ThreadVerdict)
    requires TwoConditionalGos(ms) || HasInvalidAbort(ms)
    requires TableSays(ms + more, v)
    ensures v.outcome == Hold
  {
    var all := ms + more;
    if TwoConditionalGos(ms) {
      var i, j :| 0 <= i < j < |ms| && ms[i].IsConditionalGo() && ms[j].IsConditionalGo();
      assert all[i] == ms[i] && all[j] == ms[j];
    } else {
      var i, target :| 0 <= i < |ms| && ms[i].Aborts(target) && !ValidAbort(ms, i, target);
      assert all[i] == ms[i];
      forall g | OnlyConditionalGo(all, g) && g < i
        ensures OnlyConditionalGo(ms, g) && all[g] == ms[g]
      {
        GoStaysOnly(ms, more, g);
      }
      assert !ValidAbort(all, i, target);
    }
  }

  /** Conditions are never silently dropped: a thread with a conditional go is waved through only
      after a naysayer aborted that very go and someone then gave a new valid one. */
  lemma DroppedOnlyByAbortAndNewGo(ms: seq<Message>, c: int, v: ThreadVerdict) returns (abort: int, again: int)
    requires 0 <= c < |ms| && ms[c].IsConditionalGo()
    requires TableSays(ms, v) && v.outcome == NotApplicable
    ensures c < abort < again < |ms|
    ensures ms[abort].byNaysayer && ms[abort].Aborts(ms[c].id)
    ensures ms[again].IsValidGo() && !ms[again].IsConditionalGo()
  {
    var i, target, j :| 0 <= i < j < |ms| && ms[i].Aborts(target) && ms[j].IsValidGo();
    assert ValidAbort(ms, i, target);
    abort, again := i, j;
  }

  /** What one more message can do to a thread under verification: nothing, unless it carries an
      abort line or is a valid go, and then the thread is held. Never does it wave it through. */
  lemma VerifyThenOneMessage(ms: seq<Message>, m: Message, v: ThreadVerdict, w: ThreadVerdict)
    requires TableSays(ms, v) && v.outcome == Verify
    requires TableSays(ms + [m], w)
    ensures w.outcome == if m.IsValidGo() || (exists t :: m.Aborts(t)) then Hold else Verify
    ensures w.outcome == Verify ==> w.goId == v.goId && w.conditions == v.conditions
  {
    var all := ms + [m];
    var n := |ms|;
    var g :| OnlyConditionalGo(ms, g) && v.goId == ms[g].id && IsCanonical(ms[g], Some(v.conditions));
    assert all[n] == m && all[g] == ms[g];
    assert forall i :: 0 <= i < n ==> all[i] == ms[i];
    if m.IsConditionalGo() {
      assert all[g].IsConditionalGo() && all[n].IsConditionalGo();
    } else {
      OneMoreOrdinary(ms, m, g);
      if exists t :: m.Aborts(t) {
        var t :| m.Aborts(t);
        assert all[n].Aborts(t);
      } else if m.IsValidGo() {
        assert g < n && all[n].IsValidGo();
        assert GoFollows(all);
      } else {
        var r := if w.outcome == Verify then Some(w.conditions) else None;
        var h :| OnlyConditionalGo(all, h) && w.goId == all[h].id && IsCanonical(all[h], r);
        assert h == g;
        CanonicalIsUnique(ms[g], Some(v.conditions), r);
      }
    }
  }

  lemma OneMoreOrdinary(ms: seq<Message>, m: Message, g: int)
    requires OnlyConditionalGo(ms, g) && !m.IsConditionalGo()
    requires !HasAbort(ms) && !GoFollows(ms)
    ensures var all := ms + [m];
            && OnlyConditionalGo(all, g) && !TwoConditionalGos(all)
            && ((exists t :: m.Aborts(t)) ==> !Restarted(all) && HasAbort(all))
            && (!(exists t :: m.Aborts(t)) ==>
                  !HasAbort(all) && !HasInvalidAbort(all) && (!m.IsValidGo() ==> !GoFollows(all)))
  {
    var all := ms + [m];
    assert all[|ms|] == m;
    assert forall i :: 0 <= i < |ms| ==> all[i] == ms[i];
  }

  lemma CanonicalIsUnique(m: Message, a: Option<seq<Condition>>, b: Option<seq<Condition>>)
    requires IsCanonical(m, a) && IsCanonical(m, b)
    ensures a == b
  {
    if a.Some? && b.Some? {
      var h: nat :| CanonicalAt(m, h, a.value);
      var k: nat :| CanonicalAt(m, k, b.value);
      assert h == k;
      assert a.value == b.value;
    }
  }

  // ------------------------------------------------------------------------------ the PR body

  /** A condition row of the section; `Malformed` rows start like one but lack the rest. */
  datatype PrRow = Declared(id: string, fixMin: string) | Malformed

  ghost predicate DistinctIds(conditions: seq<Condition>) {
    forall i, j :: 0 <= i < j < |conditions| ==> conditions[i].id != conditions[j].id
  }

  /** Row `r` declares condition `c` with the required text. */
  predicate Declares(r: PrRow, c: Condition) {
    r == Declared(c.id, c.fixMin)
  }

  ghost predicate DeclaresAny(r: PrRow, conditions: seq<Condition>) {
    exists c :: c in conditions && Declares(r, c)
  }

  /** The rows are exactly one well-formed row per condition, in some order, and nothing else. */
  ghost predicate OneRowEach(conditions: seq<Condition>, rows: seq<PrRow>) {
    && |rows| == |conditions|
    && (forall c :: c in conditions ==> exists i :: 0 <= i < |rows| && Declares(rows[i], c))
    && (forall r {:trigger DeclaresAny(r, conditions)} :: r in rows ==> DeclaresAny(r, conditions))
    && (forall i, j :: 0 <= i < j < |rows| ==> rows[i] != rows[j])
  }

  /** Checks (i)-(iv). The code never looks for duplicate or foreign rows: counting them is
      enough, because the condition ids are distinct. */
  method CheckPrBody(conditions: seq<Condition>, section: Option<seq<PrRow>>) returns (pass: bool)
    requires DistinctIds(conditions)
    ensures pass <==> section.Some? && OneRowEach(conditions, section.value)
  {
    if section == None {
      return false;
    }
    var rows := section.value;
    var declared: map<string, string> := map[];
    ghost var at: map<string, nat> := map[];
    var malformed := 0;
    for i := 0 to |rows|
      invariant malformed == 0 <==> forall j :: 0 <= j < i ==> !rows[j].Malformed?
      invariant at.Keys == declared.Keys
      invariant forall id :: id in declared ==> at[id] < i && rows[at[id]] == Declared(id, declared[id])
      invariant forall j :: 0 <= j < i && rows[j].Declared? ==> rows[j].id in declared
    {
      if rows[i].Malformed? {
        malformed := malformed + 1;
      } else if rows[i].id !in declared {
        declared := declared[rows[i].id := rows[i].fixMin];
        at := at[rows[i].id := i];
      }
    }
    var missing := 0;
    ghost var rowOf: seq<nat> := [];
    for k := 0 to |conditions|
      invariant missing == 0 ==> |rowOf| == k
      invariant missing == 0 ==> forall j :: 0 <= j < k ==> rowOf[j] < |rows| && Declares(rows[rowOf[j]], conditions[j])
      invariant missing > 0 ==> exists j :: 0 <= j < k && !Matches(declared, conditions[j])
    {
      if !Matches(declared, conditions[k]) {
        missing := missing + 1;
      } else if missing == 0 {
        rowOf := rowOf + [at[conditions[k].id]];
      }
    }
    pass := missing == 0 && |rows| == |conditions| && malformed == 0;
    if pass {
      CountingIsEnough(conditions, rows, rowOf);
    } else if missing > 0 {
      var j :| 0 <= j < |conditions| && !Matches(declared, conditions[j]);
      UnmatchedConditionShows(conditions, rows, declared, at, j);
    } else if malformed > 0 {
      var j :| 0 <= j < |rows| && rows[j].Malformed?;
      assert rows[j] in rows && !DeclaresAny(rows[j], conditions);
    }
  }

  lemma UnmatchedConditionShows(conditions: seq<Condition>, rows: seq<PrRow>, declared: map<string, string>,
                                at: map<string, nat>, j: nat)
    requires DistinctIds(conditions) && j < |conditions| && !Matches(declared, conditions[j])
    requires at.Keys == declared.Keys
    requires forall id :: id in declared ==> at[id] < |rows| && rows[at[id]] == Declared(id, declared[id])
    requires forall i :: 0 <= i < |rows| && rows[i].Declared? ==> rows[i].id in declared
    ensures !OneRowEach(conditions, rows)
  {
    var c := conditions[j];
    if c.id in declared {
      forall other | other in conditions
        ensures !Declares(rows[at[c.id]], other)
      {
        var k :| 0 <= k < |conditions| && conditions[k] == other;
        assert k != j ==> conditions[k].id != c.id;
      }
      assert rows[at[c.id]] in rows && !DeclaresAny(rows[at[c.id]], conditions);
    } else {
      assert forall i :: 0 <= i < |rows| ==> !Declares(rows[i], c);
      assert c in conditions;
    }
  }

  predicate Matches(declared: map<string, string>, c: Condition) {
    c.id in declared && declared[c.id] == c.fixMin
  }

  /** Pigeonhole: as many rows as conditions and a row for each condition leave no row over. */
  lemma CountingIsEnough(conditions: seq<Condition>, rows: seq<PrRow>, rowOf: seq<nat>)
    requires DistinctIds(conditions) && |rows| == |conditions| == |rowOf|
    requires forall j :: 0 <= j < |conditions| ==> rowOf[j] < |rows| && Declares(rows[rowOf[j]], conditions[j])
    ensures OneRowEach(conditions, rows)
  {
    forall i, j | 0 <= i < j < |rowOf|
      ensures rowOf[i] != rowOf[j]
    {
      assert conditions[i].id != conditions[j].id;
    }
    InjectiveIsOnto(rowOf, |rows|);
    forall r | r in rows
      ensures DeclaresAny(r, conditions)
    {
      var i :| 0 <= i < |rows| && rows[i] == r;
      assert i in rowOf;
      var k :| 0 <= k < |rowOf| && rowOf[k] == i;
      assert conditions[k] in conditions;
    }
    forall i, j | 0 <= i < j < |rows|
      ensures rows[i] != rows[j]
    {
      assert i in rowOf && j in rowOf;
      var k :| 0 <= k < |rowOf| && rowOf[k] == i;
      var l :| 0 <= l < |rowOf| && rowOf[l] == j;
      assert conditions[k].id != conditions[l].id;
    }
  }

  /** Row `r` declares the `fix_min` of blocking objection `n`. */
  predicate Answers(r: PrRow, objections: seq<Objection>, n: int) {
    IsBlocking(objections, n) && r.Declared? && r.fixMin == objections[n - 1].fixMin
  }

  ghost predicate AnswersSome(r: PrRow, objections: seq<Objection>) {
    exists n :: Answers(r, objections, n)
  }

  ghost predicate IsAnswered(n: int, objections: seq<Objection>, rows: seq<PrRow>) {
    exists r :: r in rows && Answers(r, objections, n)
  }

  /** The two checks together: when the PR body passes against a readable go, every blocking
      objection of that go is declared with its own `fix_min`, and every row declares one. */
  lemma PassDeclaresEveryBlockingObjection(m: Message, conditions: seq<Condition>, rows: seq<PrRow>)
    requires IsCanonical(m, Some(conditions))
    ensures DistinctIds(conditions) && m.objections.Some?
    ensures OneRowEach(conditions, rows) ==>
              && (forall n :: IsBlocking(m.objections.value, n) ==> IsAnswered(n, m.objections.value, rows))
              && (forall r :: r in rows ==> AnswersSome(r, m.objections.value))
  {
    var objectionOf := CanonicalMatchesBlocking(m, conditions);
    if OneRowEach(conditions, rows) {
      forall n | IsBlocking(m.objections.value, n)
        ensures IsAnswered(n, m.objections.value, rows)
      {
        ObjectionIsAnswered(m.objections.value, conditions, objectionOf, rows, n);
      }
      forall r | r in rows
        ensures AnswersSome(r, m.objections.value)
      {
        RowAnswersSome(m.objections.value, conditions, objectionOf, rows, r);
      }
    }
  }

  lemma ObjectionIsAnswered(objections: seq<Objection>, conditions: seq<Condition>, objectionOf: seq<nat>,
                            rows: seq<PrRow>, n: int)
    requires MatchesBlocking(objections, conditions, objectionOf) && OneRowEach(conditions, rows)
    requires IsBlocking(objections, n)
    ensures IsAnswered(n, objections, rows)
  {
    assert n - 1 in objectionOf;
    var k :| 0 <= k < |objectionOf| && objectionOf[k] == n - 1;
    assert conditions[k] in conditions;
    var i :| 0 <= i < |rows| && Declares(rows[i], conditions[k]);
    assert Answers(rows[i], objections, n);
  }

  lemma RowAnswersSome(objections: seq<Objection>, conditions: seq<Condition>, objectionOf: seq<nat>,
                       rows: seq<PrRow>, r: PrRow)
    requires MatchesBlocking(objections, conditions, objectionOf) && OneRowEach(conditions, rows)
    requires r in rows
    ensures AnswersSome(r, objections)
  {
    assert DeclaresAny(r, conditions);
    var c :| c in conditions && Declares(r, c);
    var k :| 0 <= k < |conditions| && conditions[k] == c;
    assert Answers(r, objections, objectionOf[k] + 1);
  }

  lemma {:induction false} InjectiveIsOnto(f: seq<nat>, n: nat)
    requires |f| == n
    requires forall i :: 0 <= i < n ==> f[i] < n
    requires forall i, j :: 0 <= i < j < n ==> f[i] != f[j]
    ensures forall v :: 0 <= v < n ==> v in f
  {
    var image := ImageOf(f);
    if v :| v in Below(n) && v !in f {
      assert image <= Below(n) - {v};
      SubsetIsSmaller(image, Below(n) - {v});
      assert false;
    }
  }

  function ImageOf(f: seq<nat>): (s: set<nat>)
    ensures forall v :: v in s <==> v in f
    ensures (forall i, j :: 0 <= i < j < |f| ==> f[i] != f[j]) ==> |s| == |f|
  {
    if f == [] then {}
    else
      assert f == f[..|f| - 1] + [f[|f| - 1]];
      ImageOf(f[..|f| - 1]) + {f[|f| - 1]}
  }
}
