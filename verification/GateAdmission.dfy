/** The pre-gate CI-wait admission table, and what holds over whole runs of ticks.

    Times are integers in microseconds. */
module GateAdmission {
  import opened Wrappers

  type Time = int

  const HOUR: Time := 3600 * 1000000
  const CAP_CHECK: Time := 6 * HOUR
  const CAP_NOCLOCK: Time := 12 * HOUR
  const CAP_EMPTY_RACE: Time := 300 * 1000000
  const COMPLETED := "completed"
  const RED_CONCLUSIONS: set<string> := {
    "failure", "timed_out", "cancelled", "action_required", "startup_failure"
  }

  datatype CheckRow = CheckRow(
    name: string, status: string, conclusion: Option<string>,
    startedAt: Option<Time>, createdAt: Option<Time>)
  {
    function Stamp(): Option<Time> {
      if startedAt.Some? then startedAt else createdAt
    }
  }

  datatype Clock = CheckClock | CommitClock
  datatype ClockStart = ClockStart(at: Time, source: Clock)

  datatype Admission = Invoke | Defer | RouteImplementer | RouteHuman | AlreadyReviewed
  datatype Rule = R0Override | R1a | R1b | R2 | R3 | R4 | R5 | R6 | R7

  // ------------------------------------------------------------------------------ the clock

  /** The clock's meaning: the earliest stamp any row carries, else the commit's date. */
  ghost predicate IsClockStart(rollup: seq<CheckRow>, committed: Time, c: ClockStart) {
    match c.source
    case CheckClock =>
      && (exists r :: r in rollup && r.Stamp() == Some(c.at))
      && (forall r :: r in rollup && r.Stamp().Some? ==> c.at <= r.Stamp().value)
    case CommitClock => c.at == committed && forall r :: r in rollup ==> r.Stamp() == None
  }

  function Earliest(rollup: seq<CheckRow>): Option<Time> {
    if rollup == [] then None
    else
      var rest, first := Earliest(rollup[1..]), rollup[0].Stamp();
      if first == None then rest
      else if rest == None || first.value <= rest.value then first
      else rest
  }

  function CiClockStart(rollup: seq<CheckRow>, committed: Time): (c: ClockStart)
    ensures IsClockStart(rollup, committed, c)
  {
    EarliestIsEarliest(rollup);
    if Earliest(rollup).Some? then ClockStart(Earliest(rollup).value, CheckClock)
    else ClockStart(committed, CommitClock)
  }

  lemma {:induction false} EarliestIsEarliest(rollup: seq<CheckRow>)
    ensures Earliest(rollup).Some? ==>
              && (exists r :: r in rollup && r.Stamp() == Earliest(rollup))
              && (forall r :: r in rollup && r.Stamp().Some? ==> Earliest(rollup).value <= r.Stamp().value)
    ensures Earliest(rollup) == None ==> forall r :: r in rollup ==> r.Stamp() == None
  {
    if rollup != [] {
      EarliestIsEarliest(rollup[1..]);
      assert rollup[0] in rollup;
      assert forall r :: r in rollup[1..] ==> r in rollup;
      assert forall r :: r in rollup ==> r == rollup[0] || r in rollup[1..];
    }
  }

  /** The collecting loop, as the code runs it. */
  method ComputeCiClockStart(rollup: seq<CheckRow>, committed: Time) returns (c: ClockStart)
    ensures c == CiClockStart(rollup, committed)
  {
    var observed: seq<Time> := [];
    for i := 0 to |rollup|
      invariant forall t :: t in observed ==> exists j :: 0 <= j < i && rollup[j].Stamp() == Some(t)
      invariant forall j :: 0 <= j < i && rollup[j].Stamp().Some? ==> rollup[j].Stamp().value in observed
    {
      var stamp := rollup[i].Stamp();
      ghost var before := observed;
      if stamp.Some? {
        observed := observed + [stamp.value];
      }
      assert forall t :: t in observed <==> t in before || stamp == Some(t);
    }
    assert forall r :: r in rollup && r.Stamp().Some? ==> r.Stamp().value in observed;
    if observed == [] {
      c := ClockStart(committed, CommitClock);
    } else {
      var least := observed[0];
      for i := 1 to |observed|
        invariant least in observed[..i]
        invariant forall j :: 0 <= j < i ==> least <= observed[j]
      {
        if observed[i] < least {
          least := observed[i];
        }
      }
      assert least in observed;
      c := ClockStart(least, CheckClock);
    }
    ClockStartIsUnique(rollup, committed, c, CiClockStart(rollup, committed));
  }

  lemma ClockStartIsUnique(rollup: seq<CheckRow>, committed: Time, c: ClockStart, d: ClockStart)
    requires IsClockStart(rollup, committed, c) && IsClockStart(rollup, committed, d)
    ensures c == d
  {
  }

  // ------------------------------------------------------------------------------ the table

  predicate Concluded(rollup: seq<CheckRow>) {
    rollup != [] && forall c :: c in rollup ==> c.status == COMPLETED
  }

  predicate Red(rollup: seq<CheckRow>) {
    Concluded(rollup)
    && exists c :: c in rollup && c.conclusion.Some? && c.conclusion.value in RED_CONCLUSIONS
  }

  /** One observation of a PR and of the handoff that asks for the gate. */
  datatype Tick = Tick(
    rollup: seq<CheckRow>, head: string, committed: Time, pushed: Time, now: Time, self: bool)

  function Admit(t: Tick, verdictHeads: set<string>, routedHeads: set<string>): (Admission, Rule) {
    if !t.self then (Invoke, R0Override)
    else if t.rollup == [] then
      if t.now - t.pushed <= CAP_EMPTY_RACE then (Defer, R1a) else (Invoke, R1b)
    else if !Concluded(t.rollup) then
      var clock := CiClockStart(t.rollup, t.committed);
      var cap := if clock.source == CheckClock then CAP_CHECK else CAP_NOCLOCK;
      if t.now - clock.at <= cap then (Defer, R2) else (RouteHuman, R3)
    else if Red(t.rollup) then
      if t.head in routedHeads then (RouteHuman, R5) else (RouteImplementer, R4)
    else if t.head in verdictHeads then (AlreadyReviewed, R6)
    else (Invoke, R7)
  }

  // --------------------------------------------------------------------------- runs of ticks

  /** A tick, and the verdict heads other paths (a manual gate run) recorded before it. */
  datatype Event = Event(tick: Tick, recorded: set<string>)

  datatype Heads = Heads(verdict: set<string>, routed: set<string>)

  /** What the caller keeps: a verdict head for every R7, a routed head for every R4. */
  function After(h: Heads, e: Event): Heads {
    var seen := h.verdict + e.recorded;
    match Admit(e.tick, seen, h.routed).1
    case R7 => Heads(seen + {e.tick.head}, h.routed)
    case R4 => Heads(seen, h.routed + {e.tick.head})
    case _ => Heads(seen, h.routed)
  }

  function HeadsBefore(events: seq<Event>, k: nat): Heads
    requires k <= |events|
    decreases k
  {
    if k == 0 then Heads({}, {}) else After(HeadsBefore(events, k - 1), events[k - 1])
  }

  function Fired(events: seq<Event>, k: nat): (Admission, Rule)
    requires k < |events|
  {
    Admit(events[k].tick, HeadsBefore(events, k).verdict + events[k].recorded, HeadsBefore(events, k).routed)
  }

  lemma {:induction false} HeadsGrow(events: seq<Event>, i: nat, j: nat)
    requires i <= j <= |events|
    ensures HeadsBefore(events, i).verdict <= HeadsBefore(events, j).verdict
    ensures HeadsBefore(events, i).routed <= HeadsBefore(events, j).routed
    decreases j
  {
    if i < j {
      HeadsGrow(events, i, j - 1);
    }
  }

  lemma {:induction false} RoutedComesFromR4(events: seq<Event>, k: nat, head: string) returns (i: nat)
    requires k <= |events| && head in HeadsBefore(events, k).routed
    ensures i < k && Fired(events, i).1 == R4 && events[i].tick.head == head
    decreases k
  {
    if head in HeadsBefore(events, k - 1).routed {
      i := RoutedComesFromR4(events, k - 1, head);
    } else {
      i := k - 1;
    }
  }

  /** In every run, with arbitrary pushes, CI changes and manual overrides in between: the fresh
      gate opens at most once per head, and a red head goes to the implementer at most once. */
  lemma OncePerHead(events: seq<Event>, i: nat, j: nat)
    requires i < j < |events| && events[i].tick.head == events[j].tick.head
    ensures !(Fired(events, i).1 == R7 && Fired(events, j).1 == R7)
    ensures !(Fired(events, i).1 == R4 && Fired(events, j).1 == R4)
  {
    HeadsGrow(events, i + 1, j);
  }

  /** The loop-safety escalation comes only after the implementer was routed on that very head. */
  lemma EscalationFollowsRouting(events: seq<Event>, j: nat) returns (i: nat)
    requires j < |events| && Fired(events, j).1 == R5
    ensures i < j && Fired(events, i).1 == R4 && events[i].tick.head == events[j].tick.head
  {
    i := RoutedComesFromR4(events, j, events[j].tick.head);
  }

  /** Two self-nominated invocations on one head: one of them saw an empty rollup past its grace,
      the row that never looks at earlier verdicts. */
  lemma RepeatedInvocationIsEmptyRollup(events: seq<Event>, i: nat, j: nat)
    requires i < j < |events| && events[i].tick.head == events[j].tick.head
    requires events[i].tick.self && events[j].tick.self
    requires Fired(events, i).0 == Invoke && Fired(events, j).0 == Invoke
    ensures Fired(events, i).1 == R1b || Fired(events, j).1 == R1b
  {
    OncePerHead(events, i, j);
  }

  /** The head of tick `k` has a verdict when the tick is judged. */
  ghost predicate Reviewed(events: seq<Event>, k: nat)
    requires k < |events|
  {
    events[k].tick.head in HeadsBefore(events, k).verdict + events[k].recorded
  }

  /** Once the fresh gate has opened on a head, or a verdict on it was recorded, every later tick on
      that head finds it reviewed; and a self-nominated one invokes the gate again if and only if
      its rollup is empty and the push is past the grace. */
  lemma ReviewedHeadInvokedIff(events: seq<Event>, i: nat, j: nat)
    requires i < j < |events| && events[i].tick.head == events[j].tick.head
    requires Fired(events, i).1 == R7 || Reviewed(events, i)
    requires events[j].tick.self
    ensures Reviewed(events, j)
    ensures var t := events[j].tick;
            Fired(events, j).0 == Invoke <==> t.rollup == [] && t.now - t.pushed > CAP_EMPTY_RACE
  {
    HeadsGrow(events, i + 1, j);
  }

  /** It does happen: the table invokes the gate on a head that has its verdict, tick after tick. */
  lemma EmptyRollupInvokesTwice()
    ensures exists events: seq<Event> ::
              |events| == 2 && events[0].tick.head == events[1].tick.head
              && events[0].tick.self && events[1].tick.self && Reviewed(events, 1)
              && Fired(events, 0).0 == Invoke && Fired(events, 1).0 == Invoke
  {
    var t := Tick([], "c0ffee", 0, 0, CAP_EMPTY_RACE + 1, true);
    var events := [Event(t, {}), Event(t, {"c0ffee"})];
    assert Fired(events, 0).0 == Invoke && Fired(events, 1).0 == Invoke;
  }

  // -------------------------------------------------------------------- what a run answers

  /** Every check of the rollup has finished, and there is one. */
  ghost predicate AllCompleted(rollup: seq<CheckRow>) {
    |rollup| > 0 && forall i :: 0 <= i < |rollup| ==> rollup[i].status == "completed"
  }

  /** Some check failed, in one of the five ways. */
  ghost predicate SomeFailed(rollup: seq<CheckRow>) {
    exists i :: 0 <= i < |rollup|
             && rollup[i].conclusion in {Some("failure"), Some("timed_out"), Some("cancelled"),
                                         Some("action_required"), Some("startup_failure")}
  }

  /** A self-nominated tick that sees the CI of its head red. */
  ghost predicate SeesRed(e: Event) {
    e.tick.self && AllCompleted(e.tick.rollup) && SomeFailed(e.tick.rollup)
  }

  ghost predicate SeesGreen(e: Event) {
    e.tick.self && AllCompleted(e.tick.rollup) && !SomeFailed(e.tick.rollup)
  }

  /** An earlier tick on the head saw it red. */
  ghost predicate SeenRed(events: seq<Event>, k: nat, head: string)
    requires k <= |events|
  {
    exists i :: 0 <= i < k && events[i].tick.head == head && SeesRed(events[i])
  }

  /** A verdict on the head was recorded by now, or an earlier tick saw it green. */
  ghost predicate SeenGreen(events: seq<Event>, k: nat, head: string)
    requires k < |events|
  {
    || (exists i :: 0 <= i <= k && head in events[i].recorded)
    || (exists i :: 0 <= i < k && events[i].tick.head == head && SeesGreen(events[i]))
  }

  lemma RollupSays(rollup: seq<CheckRow>)
    ensures AllCompleted(rollup) <==> Concluded(rollup)
    ensures AllCompleted(rollup) ==> (SomeFailed(rollup) <==> Red(rollup))
  {
    assert forall i :: 0 <= i < |rollup| ==> rollup[i] in rollup;
    if Red(rollup) {
      var c :| c in rollup && c.conclusion.Some? && c.conclusion.value in RED_CONCLUSIONS;
      var i :| 0 <= i < |rollup| && rollup[i] == c;
    }
  }

  /** Which ticks record what. */
  lemma RuleSays(events: seq<Event>, k: nat)
    requires k < |events|
    ensures Fired(events, k).1 == R4
       <==> SeesRed(events[k]) && events[k].tick.head !in HeadsBefore(events, k).routed
    ensures Fired(events, k).1 == R7
       <==> && SeesGreen(events[k])
            && events[k].tick.head !in HeadsBefore(events, k).verdict + events[k].recorded
  {
    RollupSays(events[k].tick.rollup);
  }

  /** The routed heads are those some earlier tick saw red. */
  lemma {:induction false} RoutedAreSeenRed(events: seq<Event>, k: nat, head: string)
    requires k <= |events|
    ensures head in HeadsBefore(events, k).routed <==> SeenRed(events, k, head)
    decreases k
  {
    if k > 0 {
      RoutedAreSeenRed(events, k - 1, head);
      RuleSays(events, k - 1);
      RoutedStep(events, k, head);
    }
  }

  lemma RoutedStep(events: seq<Event>, k: nat, head: string)
    requires 0 < k <= |events|
    ensures SeenRed(events, k, head)
       <==> SeenRed(events, k - 1, head) || (events[k - 1].tick.head == head && SeesRed(events[k - 1]))
  {
    if i :| 0 <= i < k && events[i].tick.head == head && SeesRed(events[i]) {
      assert i == k - 1 || SeenRed(events, k - 1, head);
    }
  }

  /** The reviewed heads are those with a recorded verdict or seen green before. */
  lemma {:induction false} ReviewedAreSeenGreen(events: seq<Event>, k: nat, head: string)
    requires k < |events|
    ensures head in HeadsBefore(events, k).verdict + events[k].recorded <==> SeenGreen(events, k, head)
    decreases k
  {
    if k > 0 {
      ReviewedAreSeenGreen(events, k - 1, head);
      RuleSays(events, k - 1);
      GreenStep(events, k, head);
    }
  }

  lemma GreenStep(events: seq<Event>, k: nat, head: string)
    requires 0 < k < |events|
    ensures SeenGreen(events, k, head)
       <==> || SeenGreen(events, k - 1, head) || head in events[k].recorded
            || (events[k - 1].tick.head == head && SeesGreen(events[k - 1]))
  {
    if i :| 0 <= i <= k && head in events[i].recorded {
      assert i == k || SeenGreen(events, k - 1, head);
    }
    if i :| 0 <= i < k && events[i].tick.head == head && SeesGreen(events[i]) {
      assert i == k - 1 || SeenGreen(events, k - 1, head);
    }
  }

  /** No stamp of the rollup is more than six hours old; without a stamp, the commit is not more than
      twelve hours old. */
  ghost predicate StillWaits(t: Tick) {
    if exists i :: 0 <= i < |t.rollup| && t.rollup[i].Stamp().Some?
    then forall i :: 0 <= i < |t.rollup| && t.rollup[i].Stamp().Some? ==>
           t.now - t.rollup[i].Stamp().value <= 6 * 3600 * 1000000
    else t.now - t.committed <= 12 * 3600 * 1000000
  }

  lemma ClockSays(t: Tick)
    ensures var c := CiClockStart(t.rollup, t.committed);
            t.now - c.at <= (if c.source == CheckClock then CAP_CHECK else CAP_NOCLOCK) <==> StillWaits(t)
  {
    var c := CiClockStart(t.rollup, t.committed);
    assert IsClockStart(t.rollup, t.committed, c);
    assert forall i :: 0 <= i < |t.rollup| ==> t.rollup[i] in t.rollup;
    if c.source == CheckClock {
      var r :| r in t.rollup && r.Stamp() == Some(c.at);
      var i :| 0 <= i < |t.rollup| && t.rollup[i] == r;
    }
  }

  /** The whole answer to a tick, from what the run has shown so far: the rollups, the recorded
      verdicts and the times. A hand-written nomination always opens the gate; no check: wait five
      minutes after the push, then open; checks running: wait while they are young, then a human; the
      first red on a head: the implementer, any later one: a human; the first green: the gate, unless
      there is a verdict. */
  lemma RunAnswers(events: seq<Event>, k: nat)
    requires k < |events|
    ensures var t := events[k].tick;
            Fired(events, k).0 ==
              if !t.self then Invoke
              else if |t.rollup| == 0 then (if t.now - t.pushed <= 5 * 60 * 1000000 then Defer else Invoke)
              else if !AllCompleted(t.rollup) then (if StillWaits(t) then Defer else RouteHuman)
              else if SomeFailed(t.rollup) then
                (if SeenRed(events, k, t.head) then RouteHuman else RouteImplementer)
              else if SeenGreen(events, k, t.head) then AlreadyReviewed else Invoke
  {
    var t := events[k].tick;
    RollupSays(t.rollup);
    ClockSays(t);
    RoutedAreSeenRed(events, k, t.head);
    ReviewedAreSeenGreen(events, k, t.head);
  }

  /** The implementer is asked exactly for the first red on a head. */
  lemma ImplementerIff(events: seq<Event>, k: nat)
    requires k < |events|
    ensures Fired(events, k).0 == RouteImplementer
       <==> && SeesRed(events[k])
            && forall i :: 0 <= i < k && events[i].tick.head == events[k].tick.head ==>
                 Fired(events, i).0 != RouteImplementer
  {
    RunAnswers(events, k);
    forall i | 0 <= i < k {
      RunAnswers(events, i);
    }
    if i :| 0 <= i < k && events[i].tick.head == events[k].tick.head && SeesRed(events[i]) {
      FirstRedIsRouted(events, i);
    }
  }

  lemma {:induction false} FirstRedIsRouted(events: seq<Event>, i: nat)
    requires i < |events| && SeesRed(events[i])
    ensures exists j :: 0 <= j <= i && events[j].tick.head == events[i].tick.head
                     && Fired(events, j).0 == RouteImplementer
    decreases i
  {
    RunAnswers(events, i);
    if j :| 0 <= j < i && events[j].tick.head == events[i].tick.head && SeesRed(events[j]) {
      FirstRedIsRouted(events, j);
    } else {
      assert !SeenRed(events, i, events[i].tick.head);
    }
  }

  // ----------------------------------------------------------------------- bounded deferral

  ghost predicate StampsBy(rollup: seq<CheckRow>, latest: Time) {
    forall r :: r in rollup && r.Stamp().Some? ==> r.Stamp().value <= latest
  }

  /** Deferral is bounded: once every clock the table could use has run out, a tick does not defer,
      whichever checks its rollup shows. */
  lemma TickDefersNoMore(t: Tick, latest: Time, verdictHeads: set<string>, routedHeads: set<string>)
    requires StampsBy(t.rollup, latest)
    requires t.now > latest + CAP_CHECK && t.now > t.committed + CAP_NOCLOCK && t.now > t.pushed + CAP_EMPTY_RACE
    ensures Admit(t, verdictHeads, routedHeads).0 != Defer
  {
    if t.rollup != [] {
      var clock := CiClockStart(t.rollup, t.committed);
      assert IsClockStart(t.rollup, t.committed, clock);
    }
  }

  /** So in a run no tick on a head defers past the caps. */
  lemma DeferralEnds(events: seq<Event>, head: string, latest: Time, committed: Time, pushed: Time, k: nat)
    requires k < |events| && events[k].tick.head == head
    requires forall i :: 0 <= i < |events| && events[i].tick.head == head ==>
               && StampsBy(events[i].tick.rollup, latest)
               && events[i].tick.committed == committed && events[i].tick.pushed == pushed
    requires events[k].tick.now > latest + CAP_CHECK
    requires events[k].tick.now > committed + CAP_NOCLOCK
    requires events[k].tick.now > pushed + CAP_EMPTY_RACE
    ensures Fired(events, k).0 != Defer
  {
    var before := HeadsBefore(events, k);
    TickDefersNoMore(events[k].tick, latest, before.verdict + events[k].recorded, before.routed);
  }

  /** New rows can only make the CHECK clock earlier. */
  lemma ClockOnlyMovesEarlier(rollup: seq<CheckRow>, more: seq<CheckRow>, committed: Time)
    requires CiClockStart(rollup, committed).source == CheckClock
    ensures CiClockStart(rollup + more, committed).source == CheckClock
    ensures CiClockStart(rollup + more, committed).at <= CiClockStart(rollup, committed).at
  {
    var c, d := CiClockStart(rollup, committed), CiClockStart(rollup + more, committed);
    assert IsClockStart(rollup, committed, c) && IsClockStart(rollup + more, committed, d);
    var r :| r in rollup && r.Stamp() == Some(c.at);
    assert r in rollup + more;
  }

  /** So a CI that was called stuck on the CHECK clock stays stuck, however many rows are added
      and however late it is, as long as the checks it was stuck on are still there. */
  lemma StuckStaysStuck(t: Tick, more: seq<CheckRow>, later: Time, verdictHeads: set<string>, routedHeads: set<string>)
    requires Admit(t, verdictHeads, routedHeads).1 == R3
    requires CiClockStart(t.rollup, t.committed).source == CheckClock
    requires later >= t.now
    ensures Admit(t.(rollup := t.rollup + more, now := later), verdictHeads, routedHeads).1 == R3
  {
    ClockOnlyMovesEarlier(t.rollup, more, t.committed);
    var c :| c in t.rollup && c.status != COMPLETED;
    assert c in t.rollup + more;
  }

  /** An escalation of a stuck CI, after more rows and at a later time: it stands if and only if it
      was on the CHECK clock, or the new rows carry no stamp, or one of their stamps is itself past
      the cap. */
  lemma EscalationStandsIff(
    t: Tick, more: seq<CheckRow>, later: Time, verdictHeads: set<string>, routedHeads: set<string>)
    requires Admit(t, verdictHeads, routedHeads).1 == R3
    requires later >= t.now
    ensures Admit(t.(rollup := t.rollup + more, now := later), verdictHeads, routedHeads).1 == R3
       <==> || CiClockStart(t.rollup, t.committed).source == CheckClock
            || (forall r :: r in more ==> r.Stamp() == None)
            || (exists r :: r in more && r.Stamp().Some? && later - r.Stamp().value > CAP_CHECK)
  {
    if CiClockStart(t.rollup, t.committed).source == CheckClock {
      StuckStaysStuck(t, more, later, verdictHeads, routedHeads);
    } else {
      var c, d := CiClockStart(t.rollup, t.committed), CiClockStart(t.rollup + more, t.committed);
      assert IsClockStart(t.rollup, t.committed, c) && IsClockStart(t.rollup + more, t.committed, d);
      UnfinishedStays(t.rollup, more);
      assert forall r :: r in t.rollup + more <==> r in t.rollup || r in more;
    }
  }

  lemma UnfinishedStays(rollup: seq<CheckRow>, more: seq<CheckRow>)
    requires rollup != [] && !Concluded(rollup)
    ensures rollup + more != [] && !Concluded(rollup + more)
  {
    var c :| c in rollup && c.status != COMPLETED;
    assert c in rollup + more;
  }

  /** The first stamp that appears on a commit-clock escalation takes it back, whatever the tick. */
  lemma CommitClockEscalationCanBeTakenBack(t: Tick, verdictHeads: set<string>, routedHeads: set<string>)
    returns (row: CheckRow)
    requires Admit(t, verdictHeads, routedHeads).1 == R3
    requires CiClockStart(t.rollup, t.committed).source == CommitClock
    ensures Admit(t.(rollup := t.rollup + [row]), verdictHeads, routedHeads).1 == R2
  {
    row := CheckRow("late", "queued", None, Some(t.now), None);
    EscalationStandsIff(t, [row], t.now, verdictHeads, routedHeads);
    UnfinishedStays(t.rollup, [row]);
    assert row in [row] && row.Stamp() == Some(t.now);
  }

  /** Escalations are final exactly on the CHECK clock. */
  lemma EscalationIsFinalIff(t: Tick, verdictHeads: set<string>, routedHeads: set<string>)
    requires Admit(t, verdictHeads, routedHeads).1 == R3
    ensures (forall more, later :: later >= t.now ==>
               Admit(t.(rollup := t.rollup + more, now := later), verdictHeads, routedHeads).1 == R3)
       <==> CiClockStart(t.rollup, t.committed).source == CheckClock
  {
    if CiClockStart(t.rollup, t.committed).source == CheckClock {
      forall more, later | later >= t.now
        ensures Admit(t.(rollup := t.rollup + more, now := later), verdictHeads, routedHeads).1 == R3
      {
        StuckStaysStuck(t, more, later, verdictHeads, routedHeads);
      }
    } else {
      var row := CommitClockEscalationCanBeTakenBack(t, verdictHeads, routedHeads);
      assert t.(rollup := t.rollup + [row], now := t.now) == t.(rollup := t.rollup + [row]);
    }
  }

  /** There is such a tick: one queued check without a stamp, past the cap of the commit clock. */
  lemma SomeEscalationIsTakenBack() returns (t: Tick, row: CheckRow)
    ensures Admit(t, {}, {}).1 == R3
    ensures Admit(t.(rollup := t.rollup + [row]), {}, {}).1 == R2
  {
    var queued := CheckRow("build", "queued", None, None, None);
    t := Tick([queued], "c0ffee", 0, 0, CAP_NOCLOCK + 1, true);
    assert queued in t.rollup && queued.status != COMPLETED by {
      assert |queued.status| != |COMPLETED|;
    }
    assert IsClockStart(t.rollup, 0, CiClockStart(t.rollup, 0));
    row := CommitClockEscalationCanBeTakenBack(t, {}, {});
  }
}
