/** The paired full-text evaluation: a shuffled plan of paid calls, run and resumed until every
    row is evaluated on both sides. */
module FulltextRuns {
  import opened Wrappers
  import opened JoinKeys

  datatype Side = Full | Base

  datatype Step = Step(key: Key, side: Side)

  function Other(side: Side): Side {
    if side.Full? then Base else Full
  }

  // --------------------------------------------------------------------- the plan

  /** `coins(i)` is the generator's i-th draw: the side that goes first for row `i`. */
  function PlanOf(keys: seq<Key>, coins: nat -> Side): seq<Step> {
    if keys == [] then []
    else
      var n := |keys| - 1;
      PlanOf(keys[..n], coins) + [Step(keys[n], coins(n)), Step(keys[n], Other(coins(n)))]
  }

  method Plan(keys: seq<Key>, coins: nat -> Side) returns (steps: seq<Step>)
    ensures steps == PlanOf(keys, coins)
  {
    steps := [];
    for i := 0 to |keys|
      invariant steps == PlanOf(keys[..i], coins)
    {
      assert keys[..i + 1][..i] == keys[..i];
      var first := coins(i);
      steps := steps + [Step(keys[i], first), Step(keys[i], Other(first))];
    }
    assert keys[..|keys|] == keys;
  }

  /** Whatever the coins say, each row has one step per side. */
  lemma {:induction false} PlanIsPaired(keys: seq<Key>, coins: nat -> Side, k: Key, side: Side)
    ensures multiset(PlanOf(keys, coins))[Step(k, side)] == multiset(keys)[k]
  {
    if keys != [] {
      var n := |keys| - 1;
      assert keys == keys[..n] + [keys[n]];
      PlanIsPaired(keys[..n], coins, k, side);
      PairCounts(PlanOf(keys[..n], coins), keys[n], coins(n), k, side);
    }
  }

  lemma PairCounts(front: seq<Step>, key: Key, first: Side, k: Key, side: Side)
    ensures multiset(front + [Step(key, first), Step(key, Other(first))])[Step(k, side)]
         == multiset(front)[Step(k, side)] + if key == k then 1 else 0
  {
    assert side == first || side == Other(first);
  }

  /** The rows keep their order. */
  lemma {:induction false} PlanKeepsOrder(keys: seq<Key>, coins: nat -> Side)
    ensures |PlanOf(keys, coins)| == 2 * |keys|
    ensures forall i: nat :: i < |PlanOf(keys, coins)| ==> PlanOf(keys, coins)[i].key == keys[i / 2]
  {
    if keys != [] {
      var n := |keys| - 1;
      PlanKeepsOrder(keys[..n], coins);
      PlanStep(keys, coins);
      forall i: nat | i < |PlanOf(keys, coins)| ensures PlanOf(keys, coins)[i].key == keys[i / 2] {
        if i < 2 * n {
          assert PlanOf(keys, coins)[i] == PlanOf(keys[..n], coins)[i];
        }
      }
    }
  }

  lemma PlanStep(keys: seq<Key>, coins: nat -> Side)
    requires keys != []
    ensures var n := |keys| - 1;
            PlanOf(keys, coins)
            == PlanOf(keys[..n], coins) + [Step(keys[n], coins(n)), Step(keys[n], Other(coins(n)))]
  {
  }

  /** The coin of a row says which side goes first. */
  lemma {:induction false} CoinGoesFirst(keys: seq<Key>, coins: nat -> Side, i: nat)
    requires i < |keys|
    ensures 2 * i + 1 < |PlanOf(keys, coins)|
    ensures PlanOf(keys, coins)[2 * i] == Step(keys[i], coins(i))
    ensures PlanOf(keys, coins)[2 * i + 1].side != coins(i)
  {
    var n := |keys| - 1;
    PlanKeepsOrder(keys[..n], coins);
    if i < n {
      CoinGoesFirst(keys[..n], coins, i);
    }
  }

  function Restrict(steps: seq<Step>, sides: set<Side>): seq<Step> {
    if steps == [] then []
    else
      Restrict(steps[..|steps| - 1], sides)
      + if steps[|steps| - 1].side in sides then [steps[|steps| - 1]] else []
  }

  lemma {:induction false} RestrictCounts(steps: seq<Step>, sides: set<Side>, s: Step)
    ensures multiset(Restrict(steps, sides))[s] == if s.side in sides then multiset(steps)[s] else 0
  {
    if steps != [] {
      assert steps == steps[..|steps| - 1] + [steps[|steps| - 1]];
      RestrictCounts(steps[..|steps| - 1], sides, s);
    }
  }

  // --------------------------------------------------------------------- one call

  const EVALUATED := "evaluated"
  const EXPECTED_PROVIDER := "jev"
  const CONTRACT_MISMATCH: set<string> := {"no_verdict_null", "no_verdict_malformed"}
  const ERROR_RATE_MIN_CALLS := 10

  /** `answered` holds the questions with a raw answer, when there is an answer object. */
  datatype Decision = Decision(outcome: string, provider: string, answered: Option<set<string>>)

  datatype StopReason = ContractMismatch | WrongProvider | MissingAnswers | ErrorRate

  datatype Counts = Counts(called: nat, errors: nat, stopped: Option<StopReason>)

  predicate AnswersAll(questions: set<string>, d: Decision) {
    questions == {} || (d.answered.Some? && questions <= d.answered.value)
  }

  /** Why this call ends the run, given the counts with the call included. */
  function StopAt(questions: set<string>, called: nat, errors: nat, d: Decision): Option<StopReason> {
    if d.outcome in CONTRACT_MISMATCH then Some(ContractMismatch)
    else if d.outcome == EVALUATED && d.provider != EXPECTED_PROVIDER then Some(WrongProvider)
    else if d.outcome == EVALUATED && !AnswersAll(questions, d) then Some(MissingAnswers)
    else if called >= ERROR_RATE_MIN_CALLS && 10 * errors > called then Some(ErrorRate)
    else None
  }

  predicate IsError(d: Decision) {
    d.outcome != EVALUATED && d.outcome !in CONTRACT_MISMATCH
  }

  /** Why a call ends the run, reason by reason. */
  lemma StopSays(questions: set<string>, called: nat, errors: nat, d: Decision)
    requires called > 0
    ensures var mismatch := d.outcome == "no_verdict_null" || d.outcome == "no_verdict_malformed";
            var foreign := d.outcome == "evaluated" && d.provider != "jev";
            var missing := d.outcome == "evaluated" && d.provider == "jev"
                           && exists q :: q in questions && (d.answered == None || q !in d.answered.value);
            var failing := called >= 10 && errors as real / called as real > 0.1;
            var stop := StopAt(questions, called, errors, d);
            && (stop == Some(ContractMismatch) <==> mismatch)
            && (stop == Some(WrongProvider) <==> foreign)
            && (stop == Some(MissingAnswers) <==> missing)
            && (stop == Some(ErrorRate) <==> failing && !mismatch && !foreign && !missing)
            && (stop == None <==> !failing && !mismatch && !foreign && !missing)
  {
    RateIsOverATenth(errors, called);
    MissingSome(questions, d);
  }

  lemma MissingSome(questions: set<string>, d: Decision)
    ensures AnswersAll(questions, d) <==> forall q :: q in questions ==> d.answered.Some? && q in d.answered.value
  {
    if questions != {} && d.answered == None {
      var q :| q in questions;
    }
  }

  lemma RateIsOverATenth(errors: nat, called: nat)
    requires called > 0
    ensures errors as real / called as real > 0.10 <==> 10 * errors > called
  {
    var rate := errors as real / called as real;
    assert rate * called as real == errors as real;
    Scaled(rate, 0.10, called as real, errors as real);
  }

  lemma Scaled(x: real, y: real, n: real, xn: real)
    requires n > 0.0 && xn == x * n
    ensures x > y <==> xn > y * n
  {
    assert (x - y) * n == xn - y * n;
  }

  class Tally {
    var called: nat
    var errors: nat
    var stopped: Option<StopReason>

    constructor ()
      ensures called == 0 && errors == 0 && stopped == None
    {
      called, errors, stopped := 0, 0, None;
    }

    function Value(): Counts
      reads this
    {
      Counts(called, errors, stopped)
    }

    method RecordOutcome(questions: set<string>, d: Decision)
      requires stopped == None
      modifies this
      ensures called == old(called) + 1
      ensures errors == old(errors) + if IsError(d) then 1 else 0
      ensures stopped == StopAt(questions, called, errors, d)
    {
      called := called + 1;
      if d.outcome in CONTRACT_MISMATCH {
        stopped := Some(ContractMismatch);
        return;
      }
      if d.outcome == EVALUATED && d.provider != EXPECTED_PROVIDER {
        stopped := Some(WrongProvider);
        return;
      }
      if d.outcome != EVALUATED {
        errors := errors + 1;
      } else {
        var missing := if d.answered == None then questions else questions - d.answered.value;
        assert AnswersAll(questions, d) <==> missing == {} by {
          assert d.answered.Some? ==> forall q :: q in questions && q !in d.answered.value ==> q in missing;
        }
        if missing != {} {
          stopped := Some(MissingAnswers);
          return;
        }
      }
      RateIsOverATenth(errors, called);
      if called >= ERROR_RATE_MIN_CALLS && errors as real / called as real > 0.10 {
        stopped := Some(ErrorRate);
      }
    }
  }

  // --------------------------------------------------------------------- one run

  /** A call that was made, with its answer: one record of the side's file. */
  datatype Sent = Sent(step: Step, decision: Decision)

  function StepsOf(sent: seq<Sent>): (r: seq<Step>)
    ensures |r| == |sent|
    ensures forall i :: 0 <= i < |r| ==> r[i] == sent[i].step
  {
    seq(|sent|, i requires 0 <= i < |sent| => sent[i].step)
  }

  function CountsOf(questions: set<string>, sent: seq<Sent>): Counts {
    if sent == [] then Counts(0, 0, None)
    else
      var c := CountsOf(questions, sent[..|sent| - 1]);
      var d := sent[|sent| - 1].decision;
      var errors := c.errors + if IsError(d) then 1 else 0;
      Counts(c.called + 1, errors, StopAt(questions, c.called + 1, errors, d))
  }

  /** No call was made after one that stops the run. */
  ghost predicate StopsAtFirst(questions: set<string>, sent: seq<Sent>) {
    forall i :: 0 <= i < |sent| ==> CountsOf(questions, sent[..i]).stopped == None
  }

  datatype Ending = Crashed | Ended

  /** The run sends the first of the steps that are not evaluated; it ends early only at its cap or at
      a stop. */
  ghost predicate Sends(
    questions: set<string>, steps: seq<Step>, done: set<Step>, cap: Option<int>, sent: seq<Sent>,
    counts: Counts, ending: Ending)
  {
    var pending := Pending(steps, done);
    && |sent| <= |pending|
    && StepsOf(sent) == pending[..|sent|]
    && (cap.Some? && |sent| > 0 ==> |sent| <= cap.value)
    && StopsAtFirst(questions, sent)
    && counts == CountsOf(questions, sent)
    && (ending.Ended? ==> |sent| == |pending| || counts.stopped.Some? || (cap.Some? && |sent| >= cap.value))
  }

  ghost predicate Heard(answers: nat -> Option<Decision>, sent: seq<Sent>) {
    forall n: nat :: n < |sent| ==> answers(n) == Some(sent[n].decision)
  }

  lemma HeardOneMore(answers: nat -> Option<Decision>, sent: seq<Sent>, s: Sent)
    requires Heard(answers, sent) && answers(|sent|) == Some(s.decision)
    ensures Heard(answers, sent + [s])
  {
  }

  lemma CrashAt(
    questions: set<string>, steps: seq<Step>, done: set<Step>, cap: Option<int>, i: nat, sent: seq<Sent>,
    counts: Counts)
    requires Progress(questions, steps, done, cap, i, sent, counts)
    requires i < |steps| && steps[i] !in done
    ensures |sent| < |Pending(steps, done)|
  {
    PendingStep(steps, done, i);
    PendingPrefix(steps, done, i + 1);
  }

  /** Call `n` was answered `answers(n)`, and its record says so; a run crashes at a call without an
      answer, and only there. */
  ghost predicate Says(
    steps: seq<Step>, done: set<Step>, cap: Option<int>, answers: nat -> Option<Decision>, sent: seq<Sent>,
    counts: Counts, ending: Ending)
  {
    && Heard(answers, sent)
    && (ending.Crashed? ==>
          && answers(|sent|) == None && |sent| < |Pending(steps, done)| && counts.stopped == None
          && (cap.Some? ==> |sent| < cap.value))
  }

  /** The two output files. */
  datatype Files = Files(full: seq<Sent>, base: seq<Sent>)
  {
    function On(side: Side): seq<Sent> {
      if side.Full? then full else base
    }

    function With(s: Sent): Files {
      if s.step.side.Full? then Files(full + [s], base) else Files(full, base + [s])
    }
  }

  function Appended(files: Files, sent: seq<Sent>): Files {
    if sent == [] then files else Appended(files, sent[..|sent| - 1]).With(sent[|sent| - 1])
  }

  lemma AppendedOneMore(files: Files, sent: seq<Sent>, s: Sent)
    ensures Appended(files, sent + [s]) == Appended(files, sent).With(s)
  {
    assert (sent + [s])[..|sent|] == sent;
  }

  /** The keys of a file that need no further call. */
  function EvaluatedKeys(rows: seq<Sent>): set<Key> {
    set r | r in rows && r.decision.outcome == EVALUATED :: r.step.key
  }

  function EvaluatedSteps(files: Files): set<Step> {
    (set k | k in EvaluatedKeys(files.full) :: Step(k, Full))
    + (set k | k in EvaluatedKeys(files.base) :: Step(k, Base))
  }

  /** The files a run starts from: without `resume`, those of its sides are emptied. */
  function StartOf(files: Files, resume: bool, sides: set<Side>): Files {
    if resume then files
    else Files(if Full in sides then [] else files.full, if Base in sides then [] else files.base)
  }

  function DoneAt(files: Files, resume: bool): set<Step> {
    if resume then EvaluatedSteps(files) else {}
  }

  /** What a run makes of the two files. */
  ghost predicate RunsWith(
    questions: set<string>, keys: seq<Key>, coins: nat -> Side, sides: set<Side>, resume: bool, cap: Option<int>,
    files: Files, after: Files, counts: Counts, ending: Ending, sent: seq<Sent>)
  {
    && Sends(questions, Restrict(PlanOf(keys, coins), sides), DoneAt(files, resume), cap, sent, counts, ending)
    && after == Appended(StartOf(files, resume, sides), sent)
  }

  ghost predicate Progress(
    questions: set<string>, steps: seq<Step>, done: set<Step>, cap: Option<int>, i: nat,
    sent: seq<Sent>, counts: Counts)
  {
    && i <= |steps|
    && StepsOf(sent) == Pending(steps[..i], done)
    && (cap.Some? && |sent| > 0 ==> |sent| <= cap.value)
    && StopsAtFirst(questions, sent)
    && counts == CountsOf(questions, sent) && counts.called == |sent|
  }

  /** After one more call. */
  lemma ProgressCall(
    questions: set<string>, steps: seq<Step>, done: set<Step>, cap: Option<int>, i: nat,
    sent: seq<Sent>, counts: Counts,
    s: Sent, next: Counts)
    requires Progress(questions, steps, done, cap, i, sent, counts)
    requires i < |steps| && steps[i] !in done && s.step == steps[i]
    requires cap.Some? ==> |sent| < cap.value
    requires counts.stopped == None
    requires next.called == counts.called + 1
    requires next.errors == counts.errors + if IsError(s.decision) then 1 else 0
    requires next.stopped == StopAt(questions, next.called, next.errors, s.decision)
    ensures Progress(questions, steps, done, cap, i + 1, sent + [s], next)
  {
    var longer := sent + [s];
    PendingStep(steps, done, i);
    assert longer[..|sent|] == sent;
    assert StepsOf(longer) == StepsOf(sent) + [s.step];
    forall j | 0 <= j < |longer| ensures CountsOf(questions, longer[..j]).stopped == None {
      assert j < |sent| ==> longer[..j] == sent[..j];
    }
  }

  lemma ProgressSends(
    questions: set<string>, steps: seq<Step>, done: set<Step>, cap: Option<int>, i: nat,
    sent: seq<Sent>, counts: Counts, ending: Ending)
    requires Progress(questions, steps, done, cap, i, sent, counts)
    requires ending.Ended? ==> i == |steps| || counts.stopped.Some? || (cap.Some? && |sent| >= cap.value)
    ensures Sends(questions, steps, done, cap, sent, counts, ending)
  {
    PendingPrefix(steps, done, i);
    assert steps[..|steps|] == steps;
  }

  class Runner {
    var files: Files

    constructor ()
      ensures files == Files([], [])
    {
      files := Files([], []);
    }

    /** `answers(n)` is the answer to call `n`; `None` is a crash before it was written. */
    method Run(
      questions: set<string>, steps: seq<Step>, done: set<Step>, cap: Option<int>,
      answers: nat -> Option<Decision>)
      returns (t: Tally, ending: Ending, ghost sent: seq<Sent>)
      modifies this
      ensures fresh(t)
      ensures Sends(questions, steps, done, cap, sent, t.Value(), ending)
      ensures Says(steps, done, cap, answers, sent, t.Value(), ending)
      ensures files == Appended(old(files), sent)
    {
      t := new Tally();
      sent := [];
      var i := 0;
      ending := Ended;
      while i < |steps|
        invariant fresh(t)
        invariant Heard(answers, sent)
        invariant Progress(questions, steps, done, cap, i, sent, t.Value())
        invariant files == Appended(old(files), sent)
        invariant t.stopped == None
      {
        if steps[i] in done {
          PendingStep(steps, done, i);
          i := i + 1;
          continue;
        }
        if cap.Some? && t.called >= cap.value {
          break;
        }
        var answer := answers(t.called);
        if answer == None {
          ending := Crashed;
          CrashAt(questions, steps, done, cap, i, sent, t.Value());
          break;
        }
        var s := Sent(steps[i], answer.value);
        files := files.With(s);
        ghost var counts := t.Value();
        t.RecordOutcome(questions, answer.value);
        ProgressCall(questions, steps, done, cap, i, sent, counts, s, t.Value());
        AppendedOneMore(old(files), sent, s);
        HeardOneMore(answers, sent, s);
        sent := sent + [s];
        i := i + 1;
        if t.stopped.Some? {
          break;
        }
      }
      ProgressSends(questions, steps, done, cap, i, sent, t.Value(), ending);
    }

    method RunPlan(
      questions: set<string>, keys: seq<Key>, coins: nat -> Side, sides: set<Side>, resume: bool, cap: Option<int>,
      answers: nat -> Option<Decision>)
      returns (t: Tally, ending: Ending, ghost sent: seq<Sent>)
      modifies this
      ensures fresh(t)
      ensures RunsWith(questions, keys, coins, sides, resume, cap, old(files), files, t.Value(), ending, sent)
      ensures Says(Restrict(PlanOf(keys, coins), sides), DoneAt(old(files), resume), cap, answers,
                   sent, t.Value(), ending)
    {
      var plan := Plan(keys, coins);
      var steps := Restrict(plan, sides);
      var done := DoneAt(files, resume);
      files := StartOf(files, resume, sides);
      t, ending, sent := Run(questions, steps, done, cap, answers);
    }
  }

  // --------------------------------------------------------------------- evaluated records

  /** The number of `evaluated` records of a key. */
  function EvaluatedCount(rows: seq<Sent>, k: Key): nat {
    if rows == [] then 0
    else
      EvaluatedCount(rows[..|rows| - 1], k)
      + if rows[|rows| - 1].step.key == k && rows[|rows| - 1].decision.outcome == EVALUATED then 1 else 0
  }

  /** The number of calls of a step that were answered `evaluated`. */
  function EvaluatedCalls(sent: seq<Sent>, s: Step): nat {
    if sent == [] then 0
    else
      EvaluatedCalls(sent[..|sent| - 1], s)
      + if sent[|sent| - 1].step == s && sent[|sent| - 1].decision.outcome == EVALUATED then 1 else 0
  }

  lemma {:induction false} EvaluatedKeysCount(rows: seq<Sent>, k: Key)
    ensures k in EvaluatedKeys(rows) <==> EvaluatedCount(rows, k) > 0
  {
    if rows != [] {
      var front, last := rows[..|rows| - 1], rows[|rows| - 1];
      assert rows == front + [last];
      EvaluatedKeysCount(front, k);
      assert k in EvaluatedKeys(rows)
        <==> k in EvaluatedKeys(front) || (last.step.key == k && last.decision.outcome == EVALUATED);
    }
  }

  lemma {:induction false} AppendedCounts(files: Files, sent: seq<Sent>, k: Key, side: Side)
    ensures EvaluatedCount(Appended(files, sent).On(side), k)
         == EvaluatedCount(files.On(side), k) + EvaluatedCalls(sent, Step(k, side))
  {
    if sent != [] {
      AppendedCounts(files, sent[..|sent| - 1], k, side);
      WithCounts(Appended(files, sent[..|sent| - 1]), sent[|sent| - 1], k, side);
    }
  }

  lemma WithCounts(files: Files, s: Sent, k: Key, side: Side)
    ensures EvaluatedCount(files.With(s).On(side), k)
         == EvaluatedCount(files.On(side), k)
            + if s.step == Step(k, side) && s.decision.outcome == EVALUATED then 1 else 0
  {
    assert (files.On(side) + [s])[..|files.On(side)|] == files.On(side);
  }

  lemma {:induction false} CallsAreSteps(sent: seq<Sent>, s: Step)
    ensures EvaluatedCalls(sent, s) <= multiset(StepsOf(sent))[s]
    ensures (forall x :: x in sent ==> x.decision.outcome == EVALUATED)
        ==> EvaluatedCalls(sent, s) == multiset(StepsOf(sent))[s]
  {
    if sent != [] {
      var front, last := sent[..|sent| - 1], sent[|sent| - 1];
      assert sent == front + [last];
      CallsAreSteps(front, s);
      assert StepsOf(sent) == StepsOf(front) + [last.step];
    }
  }

  ghost predicate EvaluatedOnce(files: Files) {
    forall k, side :: EvaluatedCount(files.On(side), k) <= 1
  }

  lemma StepCounts(keys: seq<Key>, coins: nat -> Side, sides: set<Side>, done: set<Step>, n: nat, s: Step)
    requires n <= |Pending(Restrict(PlanOf(keys, coins), sides), done)|
    ensures multiset(Pending(Restrict(PlanOf(keys, coins), sides), done)[..n])[s]
         <= if s in done || s.side !in sides then 0 else multiset(keys)[s.key]
  {
    var steps := Restrict(PlanOf(keys, coins), sides);
    PrefixCounts(Pending(steps, done), n, s);
    PendingHolds(steps, done, s);
    RestrictCounts(PlanOf(keys, coins), sides, s);
    PlanIsPaired(keys, coins, s.key, s.side);
  }

  lemma OneStepOnce(
    questions: set<string>, keys: seq<Key>, coins: nat -> Side, sides: set<Side>, resume: bool, cap: Option<int>,
    files: Files, after: Files, counts: Counts, ending: Ending, sent: seq<Sent>, k: Key, side: Side)
    requires RunsWith(questions, keys, coins, sides, resume, cap, files, after, counts, ending, sent)
    requires multiset(keys)[k] <= 1
    requires EvaluatedCount(files.On(side), k) <= 1
    ensures EvaluatedCount(after.On(side), k) <= 1
  {
    var start, done, s := StartOf(files, resume, sides), DoneAt(files, resume), Step(k, side);
    AppendedCounts(start, sent, k, side);
    CallsAreSteps(sent, s);
    StepCounts(keys, coins, sides, done, |sent|, s);
    EvaluatedKeysCount(files.On(side), k);
    assert resume ==> (s in done <==> k in EvaluatedKeys(files.On(side)));
  }

  /** With distinct plan keys no run, whatever its sides, cap, answers and crash, leaves a second
      `evaluated` record for a key on a side. */
  lemma RunKeepsOnce(
    questions: set<string>, keys: seq<Key>, coins: nat -> Side, sides: set<Side>, resume: bool, cap: Option<int>,
    files: Files, after: Files, counts: Counts, ending: Ending, sent: seq<Sent>)
    requires RunsWith(questions, keys, coins, sides, resume, cap, files, after, counts, ending, sent)
    requires NoRepeats(keys)
    requires EvaluatedOnce(files)
    ensures EvaluatedOnce(after)
  {
    NoRepeatsCounts(keys);
    forall k, side ensures EvaluatedCount(after.On(side), k) <= 1 {
      OneStepOnce(questions, keys, coins, sides, resume, cap, files, after, counts, ending, sent, k, side);
    }
  }

  datatype RunRecord = RunRecord(
    keys: seq<Key>, coins: nat -> Side, sides: set<Side>, resume: bool, cap: Option<int>,
    counts: Counts, ending: Ending, sent: seq<Sent>)

  ghost predicate Series(questions: set<string>, runs: seq<RunRecord>, files: seq<Files>) {
    && |files| == |runs| + 1 && files[0] == Files([], [])
    && forall i, j :: 0 <= i < |runs| && j == i + 1 ==>
         var r := runs[i];
         && NoRepeats(r.keys)
         && RunsWith(questions, r.keys, r.coins, r.sides, r.resume, r.cap, files[i], files[j], r.counts,
                     r.ending, r.sent)
  }

  /** Over any series of runs with distinct plan keys, however they are capped, stopped or crashed, no
      key is evaluated twice on a side. */
  lemma {:induction false} SeriesKeepsOnce(questions: set<string>, runs: seq<RunRecord>, files: seq<Files>, n: nat)
    requires Series(questions, runs, files)
    requires n < |files|
    ensures EvaluatedOnce(files[n])
  {
    if n > 0 {
      SeriesKeepsOnce(questions, runs, files, n - 1);
      var r := runs[n - 1];
      RunKeepsOnce(questions, r.keys, r.coins, r.sides, r.resume, r.cap, files[n - 1], files[n],
                   r.counts, r.ending, r.sent);
    }
  }

  // --------------------------------------------------------------------- repeated keys

  const GOOD: Decision := Decision(EVALUATED, EXPECTED_PROVIDER, None)

  function AllGood(steps: seq<Step>, good: Decision): (r: seq<Sent>)
    ensures |r| == |steps|
    ensures forall i :: 0 <= i < |r| ==> r[i] == Sent(steps[i], good)
  {
    seq(|steps|, i requires 0 <= i < |steps| => Sent(steps[i], good))
  }

  lemma {:induction false} GoodAnswersRunOn(questions: set<string>, steps: seq<Step>, good: Decision)
    requires good.outcome == EVALUATED && good.provider == EXPECTED_PROVIDER && AnswersAll(questions, good)
    ensures CountsOf(questions, AllGood(steps, good)) == Counts(|steps|, 0, None)
    ensures StopsAtFirst(questions, AllGood(steps, good))
  {
    if steps != [] {
      var n := |steps| - 1;
      assert AllGood(steps, good)[..n] == AllGood(steps[..n], good);
      GoodAnswersRunOn(questions, steps[..n], good);
      forall i | 0 <= i <= n ensures CountsOf(questions, AllGood(steps, good)[..i]).stopped == None {
        if i < n {
          assert AllGood(steps, good)[..i] == AllGood(steps[..n], good)[..i];
        }
      }
    }
  }

  lemma {:induction false} NothingDone(steps: seq<Step>)
    ensures Pending(steps, {}) == steps
  {
    if steps != [] {
      NothingDone(steps[..|steps| - 1]);
    }
  }

  /** A fresh run over both sides, every call answered well: it evaluates every step of the plan. */
  lemma GoodRun(questions: set<string>, keys: seq<Key>, coins: nat -> Side, good: Decision)
    requires good.outcome == EVALUATED && good.provider == EXPECTED_PROVIDER && AnswersAll(questions, good)
    ensures var steps := Restrict(PlanOf(keys, coins), {Full, Base});
            var sent := AllGood(steps, good);
            RunsWith(questions, keys, coins, {Full, Base}, false, None, Files([], []), Appended(Files([], []), sent),
                     Counts(|steps|, 0, None), Ended, sent)
  {
    var steps := Restrict(PlanOf(keys, coins), {Full, Base});
    NothingDone(steps);
    GoodAnswersRunOn(questions, steps, good);
    assert StepsOf(AllGood(steps, good)) == steps[..|steps|];
  }

  /** The keys of a plan must be distinct: when one of them repeats, as repeated `--key` arguments make
      it, a run can evaluate it twice. */
  lemma RepeatedKeyIsEvaluatedTwice(questions: set<string>, keys: seq<Key>, coins: nat -> Side)
    returns (after: Files, counts: Counts, sent: seq<Sent>)
    requires !NoRepeats(keys)
    ensures RunsWith(questions, keys, coins, {Full, Base}, false, None, Files([], []), after, counts, Ended, sent)
    ensures !EvaluatedOnce(after)
  {
    var good := GOOD.(answered := Some(questions));
    var steps := Restrict(PlanOf(keys, coins), {Full, Base});
    GoodRun(questions, keys, coins, good);
    sent, counts := AllGood(steps, good), Counts(|steps|, 0, None);
    after := Appended(Files([], []), sent);
    NoRepeatsCounts(keys);
    var k :| multiset(keys)[k] > 1;
    GoodRunCounts(keys, coins, good, k);
    assert EvaluatedCount(after.On(Full), k) > 1;
  }

  /** So a plan is safe, whatever runs of it follow on whatever files, exactly when no key repeats. */
  lemma PlanIsSafeIff(questions: set<string>, keys: seq<Key>, coins: nat -> Side)
    ensures NoRepeats(keys)
       <==> forall sides, resume, cap, files, after, counts, ending, sent ::
              EvaluatedOnce(files)
              && RunsWith(questions, keys, coins, sides, resume, cap, files, after, counts, ending, sent)
              ==> EvaluatedOnce(after)
  {
    if NoRepeats(keys) {
      forall sides, resume, cap, files, after, counts, ending, sent
        | EvaluatedOnce(files)
          && RunsWith(questions, keys, coins, sides, resume, cap, files, after, counts, ending, sent)
        ensures EvaluatedOnce(after)
      {
        RunKeepsOnce(questions, keys, coins, sides, resume, cap, files, after, counts, ending, sent);
      }
    } else {
      var after, counts, sent := RepeatedKeyIsEvaluatedTwice(questions, keys, coins);
      assert EvaluatedOnce(Files([], []));
    }
  }

  lemma GoodRunCounts(keys: seq<Key>, coins: nat -> Side, good: Decision, k: Key)
    requires good.outcome == EVALUATED
    ensures var sent := AllGood(Restrict(PlanOf(keys, coins), {Full, Base}), good);
            EvaluatedCount(Appended(Files([], []), sent).On(Full), k) == multiset(keys)[k]
  {
    var steps := Restrict(PlanOf(keys, coins), {Full, Base});
    var sent := AllGood(steps, good);
    AppendedCounts(Files([], []), sent, k, Full);
    CallsAreSteps(sent, Step(k, Full));
    assert StepsOf(sent) == steps;
    RestrictCounts(PlanOf(keys, coins), {Full, Base}, Step(k, Full));
    PlanIsPaired(keys, coins, k, Full);
  }

  // --------------------------------------------------------------------- what gets done

  /** The file of the side holds an `evaluated` record of the key. */
  ghost predicate IsEvaluated(files: Files, s: Step) {
    exists r :: r in files.On(s.side) && r.step.key == s.key && r.decision.outcome == "evaluated"
  }

  /** A run that ends without a stop and without meeting its cap has sent every step of its sides that
      had no `evaluated` record, and no other: a failed step is sent again. */
  lemma FailedStepIsSentAgain(
    questions: set<string>, keys: seq<Key>, coins: nat -> Side, sides: set<Side>, resume: bool,
    files: Files, after: Files, counts: Counts, sent: seq<Sent>, s: Step)
    requires RunsWith(questions, keys, coins, sides, resume, None, files, after, counts, Ended, sent)
    requires counts.stopped == None
    requires s.key in keys && s.side in sides
    ensures s in StepsOf(sent) <==> !(resume && IsEvaluated(files, s))
  {
    var steps, done := Restrict(PlanOf(keys, coins), sides), DoneAt(files, resume);
    var pending := Pending(steps, done);
    assert pending[..|pending|] == pending;
    PendingHolds(steps, done, s);
    RestrictCounts(PlanOf(keys, coins), sides, s);
    PlanIsPaired(keys, coins, s.key, s.side);
    assert multiset(steps)[s] > 0;
    DoneSays(files, resume, s);
  }

  lemma DoneSays(files: Files, resume: bool, s: Step)
    ensures s in DoneAt(files, resume) <==> resume && IsEvaluated(files, s)
  {
    assert s.key in EvaluatedKeys(files.On(s.side)) <==> IsEvaluated(files, s);
    assert s in EvaluatedSteps(files) <==> s.key in EvaluatedKeys(files.On(s.side));
  }

  /** The records of a side, in the order of the calls. */
  function OnSide(sent: seq<Sent>, side: Side): seq<Sent> {
    if sent == [] then []
    else OnSide(sent[..|sent| - 1], side) + if sent[|sent| - 1].step.side == side then [sent[|sent| - 1]] else []
  }

  /** Each call is one record, at the end of the file of its side. */
  lemma {:induction false} EveryCallIsRecorded(files: Files, sent: seq<Sent>, side: Side)
    ensures Appended(files, sent).On(side) == files.On(side) + OnSide(sent, side)
  {
    if sent != [] {
      EveryCallIsRecorded(files, sent[..|sent| - 1], side);
    }
  }

  /** The calls that were not answered `evaluated`. */
  function FailedCalls(sent: seq<Sent>): nat {
    if sent == [] then 0
    else FailedCalls(sent[..|sent| - 1]) + if sent[|sent| - 1].decision.outcome == EVALUATED then 0 else 1
  }

  /** The bill: a run never pays for more than ten errors, or a tenth of its calls and one more. Failed
      calls are errors, except that one contract mismatch can end the run. */
  lemma {:induction false} ErrorsAreBounded(questions: set<string>, sent: seq<Sent>)
    requires StopsAtFirst(questions, sent)
    ensures var c := CountsOf(questions, sent);
            && c.called == |sent|
            && FailedCalls(sent) == c.errors + (if c.stopped == Some(ContractMismatch) then 1 else 0)
            && (c.errors <= 10 || 10 * c.errors <= c.called + 9)
            && (c.stopped == None ==> c.called < ERROR_RATE_MIN_CALLS || 10 * c.errors <= c.called)
            && (c.called < ERROR_RATE_MIN_CALLS ==> c.errors <= c.called)
  {
    if sent != [] {
      var n := |sent| - 1;
      var front := sent[..n];
      forall i | 0 <= i < n ensures CountsOf(questions, front[..i]).stopped == None {
        assert front[..i] == sent[..i];
      }
      ErrorsAreBounded(questions, front);
      assert CountsOf(questions, sent[..n]).stopped == None;
    }
  }
}
