/** Replaying a fixture against the paid endpoint, over any series of capped, crashed and resumed
    runs. */
module ReplayRuns {
  import opened Wrappers
  import opened JoinKeys

  /** A line of the output file; a dry run writes records without a decision. */
  datatype Record = Record(key: Key, decision: Option<string>)

  function DoneKeys(rows: seq<Record>): set<Key> {
    set r | r in rows && r.decision.Some? :: r.key
  }

  method LoadDoneKeys(rows: seq<Record>) returns (done: set<Key>)
    ensures done == DoneKeys(rows)
  {
    done := {};
    for i := 0 to |rows|
      invariant done == DoneKeys(rows[..i])
    {
      assert rows[..i + 1] == rows[..i] + [rows[i]];
      if rows[i].decision.Some? {
        done := done + {rows[i].key};
      }
    }
    assert rows[..|rows|] == rows;
  }

  // --------------------------------------------------------------------- one run

  datatype Outcome = Refused | Crashed | Completed(called: nat, skipped: nat, notSent: nat)

  /** One decided record per key, in order. */
  ghost predicate Answered(records: seq<Record>, keys: seq<Key>) {
    |records| == |keys|
    && forall i :: 0 <= i < |records| ==> records[i].key == keys[i] && records[i].decision.Some?
  }

  /** The run answers the first of the keys that are not done; a completed run stops short of the
      rest only at its cap, and counts every key once. */
  ghost predicate Decides(keys: seq<Key>, done: set<Key>, cap: Option<int>, records: seq<Record>, outcome: Outcome) {
    var pending := Pending(keys, done);
    && |records| <= |pending|
    && Answered(records, pending[..|records|])
    && (cap.Some? ==> |records| <= cap.value)
    && match outcome
       case Completed(called, skipped, notSent) =>
         && called == |records| && skipped == |keys| - |pending| && notSent == |pending| - called
         && (notSent > 0 ==> cap == Some(called))
       case Crashed => true
       case Refused => false
  }

  /** Call `n` was answered `answers(n)`, and its record says so; a run crashes at a call without an
      answer, and only there. */
  ghost predicate Says(
    keys: seq<Key>, done: set<Key>, cap: Option<int>, answers: nat -> Option<string>, records: seq<Record>,
    outcome: Outcome)
  {
    && (forall n: nat :: n < |records| ==> answers(n).Some? && records[n].decision == answers(n))
    && (outcome.Crashed? ==>
          && answers(|records|) == None && |records| < |Pending(keys, done)|
          && (cap.Some? ==> |records| < cap.value))
  }

  ghost predicate ReplaysWith(
    keys: seq<Key>, resume: bool, cap: Option<int>, answers: nat -> Option<string>,
    file: seq<Record>, after: seq<Record>, outcome: Outcome, records: seq<Record>)
  {
    var start := if resume then file else [];
    if outcome.Refused? then after == file && (!NoRepeats(keys) || (cap.Some? && cap.value < 0))
    else
      && NoRepeats(keys) && (cap.Some? ==> cap.value >= 0)
      && after == start + records
      && Decides(keys, DoneKeys(start), cap, records, outcome)
      && Says(keys, DoneKeys(start), cap, answers, records, outcome)
  }

  /** What a run makes of the output file. */
  ghost predicate Replays(
    keys: seq<Key>, resume: bool, cap: Option<int>, answers: nat -> Option<string>,
    file: seq<Record>, after: seq<Record>, outcome: Outcome)
  {
    exists records :: ReplaysWith(keys, resume, cap, answers, file, after, outcome, records)
  }

  class OutputFile {
    var rows: seq<Record>

    constructor ()
      ensures rows == []
    {
      rows := [];
    }

    /** `answers(n)` is the answer to call `n`; `None` is a crash before it was written. */
    method DecideRecords(keys: seq<Key>, done: set<Key>, cap: Option<int>, answers: nat -> Option<string>)
      returns (outcome: Outcome, ghost records: seq<Record>)
      requires cap.Some? ==> cap.value >= 0
      modifies this
      ensures rows == old(rows) + records
      ensures Decides(keys, done, cap, records, outcome)
      ensures Says(keys, done, cap, answers, records, outcome)
    {
      var called, skipped, notSent := 0, 0, 0;
      records := [];
      for i := 0 to |keys|
        invariant rows == old(rows) + records
        invariant called == |records| <= |Pending(keys[..i], done)|
        invariant Answered(records, Pending(keys[..i], done)[..called])
        invariant forall n: nat :: n < called ==> answers(n).Some? && records[n].decision == answers(n)
        invariant cap.Some? ==> called <= cap.value
        invariant skipped == i - |Pending(keys[..i], done)|
        invariant notSent == |Pending(keys[..i], done)| - called
        invariant notSent > 0 ==> cap == Some(called)
      {
        PendingStep(keys, done, i);
        if keys[i] in done {
          skipped := skipped + 1;
        } else if cap.Some? && called >= cap.value {
          notSent := notSent + 1;
        } else {
          var answer := answers(called);
          if answer == None {
            PendingPrefix(keys, done, i + 1);
            return Crashed, records;
          }
          called := called + 1;
          rows := rows + [Record(keys[i], answer)];
          records := records + [Record(keys[i], answer)];
        }
      }
      assert keys[..|keys|] == keys;
      outcome := Completed(called, skipped, notSent);
    }

    method Replay(
      keys: seq<Key>, resume: bool, cap: Option<int>, answers: nat -> Option<string>) returns (outcome: Outcome)
      modifies this
      ensures Replays(keys, resume, cap, answers, old(rows), rows, outcome)
    {
      ghost var file := rows;
      var unique := set k | k in keys;
      CountsOnce(keys);
      if (cap.Some? && cap.value < 0) || |unique| != |keys| {
        assert ReplaysWith(keys, resume, cap, answers, file, rows, Refused, []);
        return Refused;
      }
      var done := {};
      if resume {
        done := LoadDoneKeys(rows);
      } else {
        rows := [];
        assert DoneKeys([]) == {};
      }
      ghost var records;
      outcome, records := DecideRecords(keys, done, cap, answers);
      assert ReplaysWith(keys, resume, cap, answers, file, rows, outcome, records);
    }
  }

  // --------------------------------------------------------------------- series of runs

  /** The keys of the decided records, in order. */
  function DecidedKeys(rows: seq<Record>): seq<Key> {
    if rows == [] then []
    else
      DecidedKeys(rows[..|rows| - 1])
      + if rows[|rows| - 1].decision.Some? then [rows[|rows| - 1].key] else []
  }

  ghost predicate DecidedOnce(rows: seq<Record>) {
    NoRepeats(DecidedKeys(rows))
  }

  lemma {:induction false} DoneAreDecided(rows: seq<Record>, k: Key)
    ensures k in DoneKeys(rows) <==> k in DecidedKeys(rows)
    ensures k in DoneKeys(rows) <==> multiset(DecidedKeys(rows))[k] > 0
  {
    if rows != [] {
      var front, last := rows[..|rows| - 1], rows[|rows| - 1];
      assert rows == front + [last];
      DoneAreDecided(front, k);
      assert k in DoneKeys(rows) <==> k in DoneKeys(front) || (last.decision.Some? && last.key == k);
    }
  }

  lemma {:induction false} DecidedAppend(rows: seq<Record>, records: seq<Record>, keys: seq<Key>)
    requires Answered(records, keys)
    ensures DecidedKeys(rows + records) == DecidedKeys(rows) + keys
  {
    if records == [] {
      assert rows + records == rows;
    } else {
      var n := |records| - 1;
      assert (rows + records)[..|rows| + n] == rows + records[..n];
      assert keys == keys[..n] + [keys[n]];
      DecidedAppend(rows, records[..n], keys[..n]);
    }
  }

  /** A run that decides leaves the decisions there were, then those of the first `called` keys that
      had none. */
  lemma RunAdds(
    keys: seq<Key>, resume: bool, cap: Option<int>, answers: nat -> Option<string>,
    file: seq<Record>, after: seq<Record>,
    outcome: Outcome, records: seq<Record>)
    requires ReplaysWith(keys, resume, cap, answers, file, after, outcome, records)
    requires !outcome.Refused?
    ensures var start := if resume then file else [];
            DecidedKeys(after) == DecidedKeys(start) + Pending(keys, DoneKeys(start))[..|records|]
  {
    var start := if resume then file else [];
    DecidedAppend(start, records, Pending(keys, DoneKeys(start))[..|records|]);
  }

  lemma AppendKeepsOnce(keys: seq<Key>, start: seq<Record>, after: seq<Record>, n: nat)
    requires NoRepeats(keys) && DecidedOnce(start)
    requires n <= |Pending(keys, DoneKeys(start))|
    requires DecidedKeys(after) == DecidedKeys(start) + Pending(keys, DoneKeys(start))[..n]
    ensures DecidedOnce(after)
  {
    NoRepeatsCounts(keys);
    NoRepeatsCounts(DecidedKeys(start));
    forall k ensures multiset(DecidedKeys(after))[k] <= 1 {
      PendingHolds(keys, DoneKeys(start), k);
      PrefixCounts(Pending(keys, DoneKeys(start)), n, k);
      DoneAreDecided(start, k);
    }
    NoRepeatsCounts(DecidedKeys(after));
  }

  /** A run, whatever its cap, its answers and the point it crashed at, never records a second
      decision for a key. */
  lemma RunKeepsOnce(
    keys: seq<Key>, resume: bool, cap: Option<int>, answers: nat -> Option<string>,
    file: seq<Record>, after: seq<Record>, outcome: Outcome)
    requires Replays(keys, resume, cap, answers, file, after, outcome)
    requires DecidedOnce(file)
    ensures DecidedOnce(after)
  {
    var records :| ReplaysWith(keys, resume, cap, answers, file, after, outcome, records);
    if !outcome.Refused? {
      RunAdds(keys, resume, cap, answers, file, after, outcome, records);
      AppendKeepsOnce(keys, if resume then file else [], after, |records|);
    }
  }

  datatype RunRecord = RunRecord(
    keys: seq<Key>, resume: bool, cap: Option<int>, answers: nat -> Option<string>, outcome: Outcome)

  /** Each run reads a fixture of its own, so a resumed run may be given another one. */
  ghost predicate Series(runs: seq<RunRecord>, files: seq<seq<Record>>) {
    && |files| == |runs| + 1
    && forall i, j :: 0 <= i < |runs| && j == i + 1 ==>
         Replays(runs[i].keys, runs[i].resume, runs[i].cap, runs[i].answers, files[i], files[j], runs[i].outcome)
  }

  /** Over any series of runs no key is ever decided twice. */
  lemma {:induction false} SeriesKeepsOnce(runs: seq<RunRecord>, files: seq<seq<Record>>, n: nat)
    requires Series(runs, files)
    requires DecidedOnce(files[0])
    requires n < |files|
    ensures DecidedOnce(files[n])
  {
    if n > 0 {
      SeriesKeepsOnce(runs, files, n - 1);
      var r := runs[n - 1];
      RunKeepsOnce(r.keys, r.resume, r.cap, r.answers, files[n - 1], files[n], r.outcome);
    }
  }

  /** The counts of a completed run: it makes exactly as many calls as there are undecided keys, or
      as its cap allows; every key is called, skipped or not sent. */
  lemma CountsAddUp(
    keys: seq<Key>, resume: bool, cap: Option<int>, answers: nat -> Option<string>,
    file: seq<Record>, after: seq<Record>, outcome: Outcome)
    requires Replays(keys, resume, cap, answers, file, after, outcome)
    requires outcome.Completed?
    ensures outcome.called + outcome.skipped + outcome.notSent == |keys|
    ensures var undecided := |Pending(keys, if resume then DoneKeys(file) else {})|;
            outcome.called == if cap.Some? && cap.value < undecided then cap.value else undecided
    ensures |after| == (if resume then |file| else 0) + outcome.called
  {
    assert DoneKeys([]) == {};
  }

  /** Each completed resumed run leaves that many fewer keys undecided. */
  lemma RunsMakeProgress(
    keys: seq<Key>, cap: Option<int>, answers: nat -> Option<string>,
    file: seq<Record>, after: seq<Record>, outcome: Outcome)
    requires Replays(keys, true, cap, answers, file, after, outcome)
    requires outcome.Completed?
    ensures |Pending(keys, DoneKeys(after))| == |Pending(keys, DoneKeys(file))| - outcome.called
  {
    var records :| ReplaysWith(keys, true, cap, answers, file, after, outcome, records);
    RunAdds(keys, true, cap, answers, file, after, outcome, records);
    FewerPending(keys, file, after, outcome.called);
  }

  lemma FewerPending(keys: seq<Key>, file: seq<Record>, after: seq<Record>, n: nat)
    requires NoRepeats(keys)
    requires n <= |Pending(keys, DoneKeys(file))|
    requires DecidedKeys(after) == DecidedKeys(file) + Pending(keys, DoneKeys(file))[..n]
    ensures |Pending(keys, DoneKeys(after))| == |Pending(keys, DoneKeys(file))| - n
  {
    var pending, rest := Pending(keys, DoneKeys(file)), Pending(keys, DoneKeys(after));
    NoRepeatsCounts(keys);
    forall k ensures multiset(rest)[k] == multiset(pending[n..])[k] {
      OnePending(keys, file, after, n, k);
    }
    SameLength(rest, pending[n..]);
  }

  lemma SameLength(a: seq<Key>, b: seq<Key>)
    requires forall k :: multiset(a)[k] == multiset(b)[k]
    ensures |a| == |b|
  {
    assert multiset(a) == multiset(b);
    assert |a| == |multiset(a)| == |multiset(b)| == |b|;
  }

  lemma OnePending(keys: seq<Key>, file: seq<Record>, after: seq<Record>, n: nat, k: Key)
    requires AtMostOnce(multiset(keys))
    requires n <= |Pending(keys, DoneKeys(file))|
    requires DecidedKeys(after) == DecidedKeys(file) + Pending(keys, DoneKeys(file))[..n]
    ensures multiset(Pending(keys, DoneKeys(after)))[k] == multiset(Pending(keys, DoneKeys(file))[n..])[k]
  {
    PendingHolds(keys, DoneKeys(file), k);
    PendingHolds(keys, DoneKeys(after), k);
    PrefixCounts(Pending(keys, DoneKeys(file)), n, k);
    DoneAreDecided(file, k);
    DoneAreDecided(after, k);
  }

  /** A completed run without a cap leaves every key decided; with a file that held no decision
      twice, exactly once. */
  lemma UncappedRunFinishes(
    keys: seq<Key>, resume: bool, answers: nat -> Option<string>,
    file: seq<Record>, after: seq<Record>, outcome: Outcome, k: Key)
    requires Replays(keys, resume, None, answers, file, after, outcome)
    requires outcome.Completed? && DecidedOnce(file)
    requires k in keys
    ensures multiset(DecidedKeys(after))[k] == 1
  {
    var records :| ReplaysWith(keys, resume, None, answers, file, after, outcome, records);
    UncappedDecisions(keys, resume, answers, file, after, outcome, records);
    RunKeepsOnce(keys, resume, None, answers, file, after, outcome);
    NoRepeatsCounts(DecidedKeys(after));
    AllPendingDecided(keys, if resume then file else [], after, k);
  }

  lemma UncappedDecisions(
    keys: seq<Key>, resume: bool, answers: nat -> Option<string>,
    file: seq<Record>, after: seq<Record>, outcome: Outcome, records: seq<Record>)
    requires ReplaysWith(keys, resume, None, answers, file, after, outcome, records)
    requires outcome.Completed?
    ensures var start := if resume then file else [];
            DecidedKeys(after) == DecidedKeys(start) + Pending(keys, DoneKeys(start))
  {
    RunAdds(keys, resume, None, answers, file, after, outcome, records);
    var pending := Pending(keys, DoneKeys(if resume then file else []));
    assert pending[..|pending|] == pending;
  }

  lemma AllPendingDecided(keys: seq<Key>, start: seq<Record>, after: seq<Record>, k: Key)
    requires k in keys
    requires DecidedKeys(after) == DecidedKeys(start) + Pending(keys, DoneKeys(start))
    ensures multiset(DecidedKeys(after))[k] >= 1
  {
    PendingHolds(keys, DoneKeys(start), k);
    DoneAreDecided(start, k);
    assert k in DecidedKeys(after);
  }
}
