/** The `awaiting_from` toggle: two processes, one value, no lock.

    A toggle is four micro-steps: read the value, decide, set the value, append an event.
    A schedule names the caller that performs the next micro-step, so quantifying over
    schedules quantifies over every interleaving in which each of the two callers has at
    most one toggle in flight. */
module AwaitingToggle {
  import opened Wrappers

  datatype Participant = ClaudeAi | ClaudeCode

  function OppositeOf(p: Participant): Participant {
    match p
    case ClaudeAi => ClaudeCode
    case ClaudeCode => ClaudeAi
  }

  // ---------------------------------------------------------------- one caller, undisturbed

  datatype Event = Event(from: Participant, to: Participant)

  /** What one toggle by `actor` does to a value nobody else touches, and what it reports. */
  function Toggled(awaiting: Option<Participant>, actor: Participant): (Option<Participant>, seq<Event>) {
    if awaiting == Some(actor) then (Some(OppositeOf(actor)), [Event(actor, OppositeOf(actor))])
    else (awaiting, [])
  }

  /** `meta.yaml` and `events.jsonl` of one thread. */
  class ThreadFiles {
    var awaitingFrom: Option<Participant>
    var events: seq<Event>

    method ToggleAwaitingFrom(from: Participant)
      modifies this
      ensures (awaitingFrom, events) ==
              (Toggled(old(awaitingFrom), from).0, old(events) + Toggled(old(awaitingFrom), from).1)
    {
      assert events == events + [];
      var pre := awaitingFrom;
      if pre == None {
        return;
      }
      var to := OppositeOf(from);
      if pre.value == to {
        return;
      }
      awaitingFrom := Some(to);
      events := events + [Event(pre.value, to)];
    }
  }

  // ---------------------------------------------------------------- two callers, interleaved

  datatype Phase =
    | Idle
    | Loaded(pre: Option<Participant>)
    | Writing(seen: Participant)
    | Appending(overwrote: Participant, ticket: nat)

  /** One atomic set: who made it, the value it replaced, the value it left. */
  datatype Write = Write(author: Participant, replaced: Option<Participant>, to: Participant)

  /** One appended event; `ticket` is the index of the write it reports. */
  datatype Logged = Logged(event: Event, ticket: nat)

  datatype State = State(
    meta: Option<Participant>,
    log: seq<Logged>,
    writes: seq<Write>,
    ai: Phase,
    code: Phase)
  {
    function PhaseOf(p: Participant): Phase {
      if p == ClaudeAi then ai else code
    }

    function WithPhase(p: Participant, ph: Phase): State {
      if p == ClaudeAi then this.(ai := ph) else this.(code := ph)
    }

    predicate Quiescent() {
      !ai.Appending? && !code.Appending?
    }
  }

  function Initial(meta: Option<Participant>): State {
    State(meta, [], [], Idle, Idle)
  }

  /** The next micro-step of caller `p`. */
  function Step(s: State, p: Participant): State {
    match s.PhaseOf(p)
    case Idle => s.WithPhase(p, Loaded(s.meta))
    case Loaded(pre) =>
      if pre == None || pre.value == OppositeOf(p) then s.WithPhase(p, Idle)
      else s.WithPhase(p, Writing(pre.value))
    case Writing(seen) =>
      s.(meta := Some(OppositeOf(p)), writes := s.writes + [Write(p, s.meta, OppositeOf(p))])
      .WithPhase(p, Appending(seen, |s.writes|))
    case Appending(overwrote, ticket) =>
      s.(log := s.log + [Logged(Event(overwrote, OppositeOf(p)), ticket)]).WithPhase(p, Idle)
  }

  function Run(s: State, schedule: seq<Participant>): State
    decreases |schedule|
  {
    if schedule == [] then s
    else Step(Run(s, schedule[..|schedule| - 1]), schedule[|schedule| - 1])
  }

  /** `ys` lists 0, 1, .., |ys|-1 in order, except that some pairwise disjoint neighbours are
      swapped: every entry is at most one place away from home and undoes itself. */
  ghost predicate NeighbourSwaps(ys: seq<nat>) {
    forall i :: 0 <= i < |ys| ==>
      (i == ys[i] || i + 1 == ys[i] || i - 1 == ys[i]) && ys[i] < |ys| && ys[ys[i]] == i
  }

  function Tickets(log: seq<Logged>): (r: seq<nat>)
    ensures |r| == |log| && forall i :: 0 <= i < |log| ==> r[i] == log[i].ticket
  {
    seq(|log|, i requires 0 <= i < |log| => log[i].ticket)
  }

  // A caller about to write has seen the value that is still there.
  ghost predicate CallerCurrent(s: State, p: Participant) {
    match s.PhaseOf(p)
    case Idle => true
    case Loaded(pre) => pre == Some(p) ==> s.meta == Some(p)
    case Writing(seen) => seen == p && s.meta == Some(p)
    case Appending(overwrote, ticket) =>
      overwrote == p && ticket < |s.writes| && s.writes[ticket].author == p
  }

  // Every write replaced the value its author had read, and the previous write left it there.
  ghost predicate WritesChain(s: State) {
    && (forall i :: 0 <= i < |s.writes| ==>
          s.writes[i].replaced == Some(s.writes[i].author) && s.writes[i].to == OppositeOf(s.writes[i].author))
    && (forall i, j :: 0 <= i && j == i + 1 && j < |s.writes| ==> s.writes[j].author == s.writes[i].to)
    && (s.writes != [] ==> s.meta == Some(s.writes[|s.writes| - 1].to))
  }

  ghost predicate EventsFaithful(s: State) {
    forall e :: e in s.log ==>
      && e.ticket < |s.writes|
      && Some(e.event.from) == s.writes[e.ticket].replaced
      && e.event.to == s.writes[e.ticket].to
  }

  function Pending(ph: Phase): Option<nat> {
    if ph.Appending? then Some(ph.ticket) else None
  }

  // How far the log may lag: only the last two writes can be unreported, and the last but one
  // can be reported after the last.
  ghost predicate LogTracks(n: nat, logged: seq<nat>, p: Option<nat>, q: Option<nat>) {
    match (p, q)
    case (Some(t), Some(u)) =>
      n >= 2 && ((t == n - 2 && u == n - 1) || (u == n - 2 && t == n - 1))
      && |logged| == n - 2 && NeighbourSwaps(logged)
    case (Some(t), None) => OnePending(n, t, logged)
    case (None, Some(u)) => OnePending(n, u, logged)
    case (None, None) => |logged| == n && NeighbourSwaps(logged)
  }

  ghost predicate OnePending(n: nat, t: nat, logged: seq<nat>) {
    || (n >= 1 && t == n - 1 && |logged| == n - 1 && NeighbourSwaps(logged))
    || (n >= 2 && t == n - 2 && |logged| == n - 1 && logged[n - 2] == n - 1
        && NeighbourSwaps(logged[..n - 2]))
  }

  ghost predicate Inv(s: State) {
    && CallerCurrent(s, ClaudeAi) && CallerCurrent(s, ClaudeCode)
    && WritesChain(s)
    && EventsFaithful(s)
    && LogTracks(|s.writes|, Tickets(s.log), Pending(s.ai), Pending(s.code))
  }

  lemma SwapsGrow(ys: seq<nat>)
    requires NeighbourSwaps(ys)
    ensures NeighbourSwaps(ys + [|ys|])
    ensures NeighbourSwaps(ys + [|ys| + 1] + [|ys|])
  {
  }

  lemma TrackAppend(n: nat, logged: seq<nat>, t: nat, q: Option<nat>)
    requires LogTracks(n, logged, Some(t), q)
    ensures LogTracks(n, logged + [t], None, q)
  {
    if q == None {
      if t == n - 1 {
        SwapsGrow(logged);
      } else {
        assert logged == logged[..n - 2] + [n - 1];
        SwapsGrow(logged[..n - 2]);
      }
    } else if t == n - 2 {
      SwapsGrow(logged);
    } else {
      assert (logged + [t])[..n - 2] == logged;
    }
  }

  lemma TrackSwap(n: nat, logged: seq<nat>, p: Option<nat>, q: Option<nat>)
    ensures LogTracks(n, logged, p, q) == LogTracks(n, logged, q, p)
  {
  }

  // A new write can only find the other caller idle or reporting the write just before it.
  lemma TrackWrite(n: nat, logged: seq<nat>, q: Option<nat>)
    requires LogTracks(n, logged, None, q)
    requires q.Some? ==> q.value != n - 2
    ensures LogTracks(n + 1, logged, Some(n), q)
  {
  }

  lemma LogAfterWrite(s: State, p: Participant)
    requires Inv(s) && s.PhaseOf(p).Writing?
    ensures LogTracks(|s.writes| + 1, Tickets(s.log), Some(|s.writes|), Pending(s.PhaseOf(OppositeOf(p))))
  {
    var n := |s.writes|;
    var other := Pending(s.PhaseOf(OppositeOf(p)));
    TrackSwap(n, Tickets(s.log), Pending(s.ai), Pending(s.code));
    if other == Some(n - 2) {
      assert false;
    }
    TrackWrite(n, Tickets(s.log), other);
  }

  lemma LogAfterAppend(s: State, p: Participant)
    requires Inv(s) && s.PhaseOf(p).Appending?
    ensures LogTracks(|s.writes|, Tickets(Step(s, p).log), None, Pending(s.PhaseOf(OppositeOf(p))))
  {
    var n, logged := |s.writes|, Tickets(s.log);
    var t := s.PhaseOf(p).ticket;
    var other := Pending(s.PhaseOf(OppositeOf(p)));
    assert Tickets(Step(s, p).log) == logged + [t];
    TrackSwap(n, logged, Pending(s.ai), Pending(s.code));
    TrackAppend(n, logged, t, other);
  }

  lemma LogAfterRead(s: State, p: Participant)
    requires Inv(s) && (s.PhaseOf(p).Idle? || s.PhaseOf(p).Loaded?)
    ensures Step(s, p).log == s.log && Step(s, p).writes == s.writes
    ensures Pending(Step(s, p).ai) == Pending(s.ai) && Pending(Step(s, p).code) == Pending(s.code)
  {
  }

  lemma StepKeepsLog(s: State, p: Participant)
    requires Inv(s)
    ensures var s' := Step(s, p);
            LogTracks(|s'.writes|, Tickets(s'.log), Pending(s'.ai), Pending(s'.code))
  {
    var s' := Step(s, p);
    match s.PhaseOf(p) {
      case Idle => LogAfterRead(s, p);
      case Loaded(_) => LogAfterRead(s, p);
      case Writing(_) => LogAfterWrite(s, p);
      case Appending(_, _) => LogAfterAppend(s, p);
    }
    TrackSwap(|s'.writes|, Tickets(s'.log), Pending(s'.ai), Pending(s'.code));
  }

  lemma WriteKeepsCallers(s: State, p: Participant)
    requires Inv(s) && s.PhaseOf(p).Writing?
    ensures CallerCurrent(Step(s, p), p) && CallerCurrent(Step(s, p), OppositeOf(p))
    ensures WritesChain(Step(s, p))
  {
    var q := OppositeOf(p);
    assert Step(s, p).PhaseOf(q) == s.PhaseOf(q);
    assert CallerCurrent(s, p) && CallerCurrent(s, q);
    assert s.meta == Some(p);
  }

  lemma StepKeepsCallers(s: State, p: Participant)
    requires Inv(s)
    ensures CallerCurrent(Step(s, p), p) && CallerCurrent(Step(s, p), OppositeOf(p))
    ensures WritesChain(Step(s, p))
  {
    if s.PhaseOf(p).Writing? {
      WriteKeepsCallers(s, p);
    } else {
      var q := OppositeOf(p);
      var s' := Step(s, p);
      assert s'.PhaseOf(q) == s.PhaseOf(q) && s'.meta == s.meta && s'.writes == s.writes;
      assert CallerCurrent(s, p) && CallerCurrent(s, q);
    }
  }

  lemma StepKeepsEvents(s: State, p: Participant)
    requires Inv(s)
    ensures EventsFaithful(Step(s, p))
  {
    var s' := Step(s, p);
    forall e | e in s'.log
      ensures && e.ticket < |s'.writes|
              && Some(e.event.from) == s'.writes[e.ticket].replaced
              && e.event.to == s'.writes[e.ticket].to
    {
      if e !in s.log {
        assert e == s'.log[|s.log|];
      }
    }
  }

  lemma StepKeepsInv(s: State, p: Participant)
    requires Inv(s)
    ensures Inv(Step(s, p))
  {
    StepKeepsLog(s, p);
    StepKeepsCallers(s, p);
    StepKeepsEvents(s, p);
  }

  lemma {:induction false} RunKeepsInv(meta: Option<Participant>, schedule: seq<Participant>)
    ensures Inv(Run(Initial(meta), schedule))
    decreases |schedule|
  {
    if schedule != [] {
      RunKeepsInv(meta, schedule[..|schedule| - 1]);
      StepKeepsInv(Run(Initial(meta), schedule[..|schedule| - 1]), schedule[|schedule| - 1]);
    }
  }

  /** Between its read and its set, with the intent to write: what it has read already decides that
      it will. */
  predicate IntendsToWrite(s: State, p: Participant) {
    s.PhaseOf(p).Writing? || s.PhaseOf(p) == Loaded(Some(p))
  }

  /** Mutual exclusion without a lock: the two callers never both hold an intent to write. */
  lemma OneWriterAtATime(meta: Option<Participant>, schedule: seq<Participant>)
    ensures var s := Run(Initial(meta), schedule);
            !(IntendsToWrite(s, ClaudeAi) && IntendsToWrite(s, ClaudeCode))
  {
    RunKeepsInv(meta, schedule);
  }

  /** The intent is what the read decides: from it, the caller's next step sets or is about to. */
  lemma IntentIsDecided(s: State, p: Participant)
    requires s.PhaseOf(p).Loaded? || s.PhaseOf(p).Writing?
    ensures var s' := Step(Step(s, p), p);
            IntendsToWrite(s, p) <==> s'.PhaseOf(p).Appending? || Step(s, p).PhaseOf(p).Appending?
  {
  }

  /** No lost update: each write replaced exactly what its author read, each later write replaced
      what the earlier one left, authors alternate, and every event tells the value its own write
      replaced. */
  lemma NoLostUpdate(meta: Option<Participant>, schedule: seq<Participant>)
    ensures var s := Run(Initial(meta), schedule);
            && (forall i :: 0 <= i < |s.writes| ==> s.writes[i].replaced == Some(s.writes[i].author))
            && (forall i :: 0 < i < |s.writes| ==>
                  && s.writes[i].replaced == Some(s.writes[i - 1].to)
                  && s.writes[i].author == OppositeOf(s.writes[i - 1].author))
            && (s.writes != [] ==> s.meta == Some(s.writes[|s.writes| - 1].to))
            && (forall e :: e in s.log ==>
                  && e.ticket < |s.writes|
                  && Some(e.event.from) == s.writes[e.ticket].replaced
                  && e.event.to == s.writes[e.ticket].to)
  {
    RunKeepsInv(meta, schedule);
  }

  ghost predicate StartedFrom(meta: Option<Participant>, s: State) {
    if s.writes == [] then s.meta == meta && s.log == [] else s.writes[0].replaced == meta
  }

  lemma StepKeepsStart(meta: Option<Participant>, s: State, p: Participant)
    requires Inv(s) && StartedFrom(meta, s)
    ensures StartedFrom(meta, Step(s, p))
  {
  }

  /** The first write replaced the initial value; so a terminal (`None`) value is never written
      over, whatever the two callers do. */
  lemma {:induction false} FirstWriteSawInitial(meta: Option<Participant>, schedule: seq<Participant>)
    ensures StartedFrom(meta, Run(Initial(meta), schedule))
    ensures meta == None ==> Run(Initial(meta), schedule).writes == []
    decreases |schedule|
  {
    RunKeepsInv(meta, schedule);
    if schedule != [] {
      FirstWriteSawInitial(meta, schedule[..|schedule| - 1]);
      RunKeepsInv(meta, schedule[..|schedule| - 1]);
      StepKeepsStart(meta, Run(Initial(meta), schedule[..|schedule| - 1]), schedule[|schedule| - 1]);
    }
  }

  /** The log against the write history: never more than two events behind, and, whenever no
      append is pending, the write history with some disjoint neighbours swapped. */
  lemma LogEqualsHistoryUpToSwaps(meta: Option<Participant>, schedule: seq<Participant>)
    ensures var s := Run(Initial(meta), schedule);
            && |s.log| <= |s.writes| <= |s.log| + 2
            && (s.Quiescent() ==> |s.log| == |s.writes| && NeighbourSwaps(Tickets(s.log)))
  {
    RunKeepsInv(meta, schedule);
  }

  /** Such a log reports every write exactly once. */
  lemma SwapsReportEachWriteOnce(ys: seq<nat>)
    requires NeighbourSwaps(ys)
    ensures forall i, j :: 0 <= i < j < |ys| ==> ys[i] != ys[j]
    ensures forall w :: 0 <= w < |ys| ==> w in ys
  {
    forall i, j | 0 <= i < j < |ys|
      ensures ys[i] != ys[j]
    {
      assert ys[ys[i]] == i && ys[ys[j]] == j;
    }
    forall w | 0 <= w < |ys|
      ensures w in ys
    {
      assert ys[ys[w]] == w;
    }
  }

  /** The swap is real: from ClaudeAi's turn, this schedule lets the other caller overwrite the
      first write and report its own before the first is reported. */
  lemma SwapHappens()
    ensures var a, b := ClaudeAi, ClaudeCode;
            var s := Run(Initial(Some(a)), [a, a, a] + [b, b, b, b] + [a]);
            s.Quiescent() && Tickets(s.log) == [1, 0]
  {
    var a, b := ClaudeAi, ClaudeCode;
    var s0 := Initial(Some(a));
    RunThree(s0, a, a, a);
    var s3 := Run(s0, [a, a, a]);
    assert s3 == State(Some(b), [], [Write(a, Some(a), b)], Appending(a, 0), Idle);
    RunJoin(s0, [a, a, a], [b, b, b, b]);
    assert [b, b, b, b][..3] == [b, b, b];
    RunThree(s3, b, b, b);
    var s7 := Run(s3, [b, b, b, b]);
    RunJoin(s0, [a, a, a] + [b, b, b, b], [a]);
    assert [a][..0] == [];
    assert Run(s7, [a]) == Step(s7, a);
    assert s7.log == [Logged(Event(b, a), 1)];
  }

  lemma RunThree(s: State, p: Participant, q: Participant, r: Participant)
    ensures Run(s, [p, q, r]) == Step(Step(Step(s, p), q), r)
  {
    assert [p, q, r][..2] == [p, q] && [p, q][..1] == [p] && [p][..0] == [];
    assert Run(s, [p]) == Step(s, p);
    assert Run(s, [p, q]) == Step(Run(s, [p]), q);
  }

  lemma {:induction false} RunJoin(s: State, first: seq<Participant>, second: seq<Participant>)
    ensures Run(s, first + second) == Run(Run(s, first), second)
    decreases |second|
  {
    if second == [] {
      assert first + second == first;
    } else {
      assert (first + second)[..|first + second| - 1] == first + second[..|second| - 1];
      RunJoin(s, first, second[..|second| - 1]);
    }
  }

  /** A toggle nobody interrupts is the sequential toggle: after four micro-steps (two, when it
      skips) the value and the new events are those of `Toggled`. */
  lemma UninterruptedToggle(s: State, p: Participant)
    requires s.PhaseOf(p) == Idle
    ensures var s2 := Step(Step(s, p), p);
            var s' := if s2.PhaseOf(p) == Idle then s2 else Step(Step(s2, p), p);
            && s'.PhaseOf(p) == Idle
            && s'.meta == Toggled(s.meta, p).0
            && |s'.log| == |s.log| + |Toggled(s.meta, p).1| && s'.log[..|s.log|] == s.log
            && (forall i :: 0 <= i < |Toggled(s.meta, p).1| ==>
                  s'.log[|s.log| + i].event == Toggled(s.meta, p).1[i])
  {
  }
}
