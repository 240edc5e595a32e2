/** Building the Tier-C evaluation fixture from harvested threads. */
module EvalFixture {
  import opened Wrappers

  type Role = string

  /** Names with their roles, in dictionary order. */
  type Roster = seq<(string, Role)>

  /** `role` is the message's role when it is a valid one. */
  datatype Message = Message(
    id: string,
    author: string,
    content: string,
    timestamp: int,
    role: Option<Role>,
    next: Option<string>)

  /** Thread ids are numbered in the order their texts sort. */
  datatype Thread = Thread(project: string, id: int, messages: seq<Message>)

  datatype Handoff = Handoff(human: bool, tierCLabel: Option<string>, requestedHuman: bool)

  datatype Gate = Gate(admit: bool, detail: string)

  datatype TurnMessage = TurnMessage(id: string, author: string, content: string, parsedNext: Option<string>)

  datatype SetName = EvalSet | RetroSet

  datatype Row = Row(
    project: string,
    threadId: int,
    roundIndex: nat,
    msgId: string,
    author: string,
    postedAt: int,
    inSet: SetName,
    rosterFallback: bool,
    tierCLabel: Option<string>,
    requestedHuman: bool,
    liveEntry: bool,
    gate: Option<Gate>,
    state: string)

  /** The functions the builder calls: `handoff` resolves a message against a roster, `state`
      serialises the state of a turn, `iso` ranks the text of a time stamp. */
  datatype Rules = Rules(
    fold: string -> string,
    handoff: (string, Roster, Option<string>) -> Handoff,
    parseNext: string -> Option<string>,
    gate: (string, string, int) -> Option<Gate>,
    state: (int, nat, Roster, seq<TurnMessage>, Option<Gate>) -> string,
    tierCEntry: (bool, Option<Role>) -> bool,
    iso: int -> int,
    evalSince: int,
    evalUntil: int)

  const RETRO_LABELS: set<string> := {"scope", "billing", "irreversible", "goal", "cost"}
  const HUMAN_TOKEN := "human"

  // --------------------------------------------------------------------- the historical roster

  /** The authors in the order of their first messages. */
  function Authors(messages: seq<Message>): seq<string> {
    if messages == [] then []
    else
      var front := Authors(messages[..|messages| - 1]);
      var author := messages[|messages| - 1].author;
      if author in front then front else front + [author]
  }

  /** The role in the author's latest message that carries one. */
  function LatestRole(messages: seq<Message>, author: string): Option<Role> {
    if messages == [] then None
    else
      var m := messages[|messages| - 1];
      if m.author == author && m.role.Some? then m.role
      else LatestRole(messages[..|messages| - 1], author)
  }

  function LookupCasefold(fold: string -> string, roster: Roster, author: string): Option<Role> {
    if roster == [] then None
    else if fold(roster[0].0) == fold(author) then Some(roster[0].1)
    else LookupCasefold(fold, roster[1..], author)
  }

  /** The first name of the roster that folds alike. */
  lemma {:induction false} LookupIsFirst(fold: string -> string, roster: Roster, author: string, role: Role)
    ensures LookupCasefold(fold, roster, author) == Some(role)
       <==> exists i :: FoldsFirst(fold, roster, author, role, i)
  {
    if roster != [] {
      var rest := roster[1..];
      if fold(roster[0].0) == fold(author) {
        if roster[0].1 == role {
          assert FoldsFirst(fold, roster, author, role, 0);
        }
      } else {
        LookupIsFirst(fold, rest, author, role);
        if i :| FoldsFirst(fold, rest, author, role, i) {
          assert FoldsFirst(fold, roster, author, role, i + 1);
        }
        if i :| FoldsFirst(fold, roster, author, role, i) {
          assert forall j :: 0 <= j < |rest| ==> rest[j] == roster[j + 1];
          assert FoldsFirst(fold, rest, author, role, i - 1);
        }
      }
    }
  }

  ghost predicate FoldsFirst(fold: string -> string, roster: Roster, author: string, role: Role, i: int) {
    && 0 <= i < |roster| && fold(roster[i].0) == fold(author) && roster[i].1 == role
    && forall j :: 0 <= j < i ==> fold(roster[j].0) != fold(author)
  }

  function RoleOf(fold: string -> string, messages: seq<Message>, current: Roster, author: string): Option<Role> {
    var latest := LatestRole(messages, author);
    if latest.Some? then latest else LookupCasefold(fold, current, author)
  }

  function RosterOf(fold: string -> string, authors: seq<string>, messages: seq<Message>, current: Roster): Roster {
    if authors == [] then []
    else
      var author := authors[|authors| - 1];
      var front := RosterOf(fold, authors[..|authors| - 1], messages, current);
      match RoleOf(fold, messages, current, author)
      case Some(role) => front + [(author, role)]
      case None => front
  }

  predicate UsesCurrent(fold: string -> string, authors: seq<string>, messages: seq<Message>, current: Roster) {
    exists i :: 0 <= i < |authors| && LatestRole(messages, authors[i]) == None
             && LookupCasefold(fold, current, authors[i]).Some?
  }

  /** The inner loop of the roster: the latest valid role wins. */
  method FindLatestRole(messages: seq<Message>, author: string) returns (hist: Option<Role>)
    ensures hist == LatestRole(messages, author)
  {
    hist := None;
    for j := 0 to |messages|
      invariant hist == LatestRole(messages[..j], author)
    {
      assert messages[..j + 1][..j] == messages[..j];
      if messages[j].author == author && messages[j].role.Some? {
        hist := messages[j].role;
      }
    }
    assert messages[..|messages|] == messages;
  }

  method FindAuthors(messages: seq<Message>) returns (authors: seq<string>)
    ensures authors == Authors(messages)
  {
    authors := [];
    for i := 0 to |messages|
      invariant authors == Authors(messages[..i])
    {
      assert messages[..i + 1][..i] == messages[..i];
      if messages[i].author !in authors {
        authors := authors + [messages[i].author];
      }
    }
    assert messages[..|messages|] == messages;
  }

  method HistoricalRoster(fold: string -> string, messages: seq<Message>, current: Roster)
    returns (roster: Roster, fallback: bool)
    ensures roster == RosterOf(fold, Authors(messages), messages, current)
    ensures fallback == UsesCurrent(fold, Authors(messages), messages, current)
  {
    roster, fallback := [], false;
    var authors := FindAuthors(messages);
    for i := 0 to |authors|
      invariant roster == RosterOf(fold, authors[..i], messages, current)
      invariant fallback == UsesCurrent(fold, authors[..i], messages, current)
    {
      assert authors[..i + 1][..i] == authors[..i];
      var author := authors[i];
      var hist := FindLatestRole(messages, author);
      UsesCurrentStep(fold, authors, i, messages, current);
      if hist.Some? {
        roster := roster + [(author, hist.value)];
      } else {
        var cur := LookupCasefold(fold, current, author);
        if cur.Some? {
          roster := roster + [(author, cur.value)];
          fallback := true;
        }
      }
    }
    assert authors[..|authors|] == authors;
  }

  lemma UsesCurrentStep(fold: string -> string, authors: seq<string>, i: nat, messages: seq<Message>, current: Roster)
    requires i < |authors|
    ensures UsesCurrent(fold, authors[..i + 1], messages, current)
         == (UsesCurrent(fold, authors[..i], messages, current)
             || (LatestRole(messages, authors[i]) == None && LookupCasefold(fold, current, authors[i]).Some?))
  {
    var longer, shorter := authors[..i + 1], authors[..i];
    assert forall j :: 0 <= j < i ==> longer[j] == shorter[j];
    assert longer[i] == authors[i];
  }

  /** `role` stands in the author's last message that carries a valid role. */
  ghost predicate SaidLast(messages: seq<Message>, author: string, role: Role) {
    exists i :: 0 <= i < |messages| && SaidLastAt(messages, author, role, i)
  }

  ghost predicate SaidLastAt(messages: seq<Message>, author: string, role: Role, i: nat)
    requires i < |messages|
  {
    && messages[i].author == author && messages[i].role == Some(role)
    && forall j :: i < j < |messages| && messages[j].author == author ==> messages[j].role == None
  }

  ghost predicate NeverSaid(messages: seq<Message>, author: string) {
    forall j :: 0 <= j < |messages| && messages[j].author == author ==> messages[j].role == None
  }

  lemma {:induction false} LatestRoleIsLast(messages: seq<Message>, author: string)
    ensures LatestRole(messages, author) == None <==> NeverSaid(messages, author)
    ensures forall role :: LatestRole(messages, author) == Some(role) <==> SaidLast(messages, author, role)
  {
    if messages != [] {
      var front, last := messages[..|messages| - 1], |messages| - 1;
      LatestRoleIsLast(front, author);
      if messages[last].author == author && messages[last].role.Some? {
        assert SaidLastAt(messages, author, messages[last].role.value, last);
      } else {
        forall role ensures SaidLast(messages, author, role) <==> SaidLast(front, author, role) {
          forall i: nat | i < |front|
            ensures SaidLastAt(messages, author, role, i) <==> SaidLastAt(front, author, role, i)
          {
            assert forall j :: 0 <= j < last ==> messages[j] == front[j];
          }
        }
        assert NeverSaid(messages, author) <==> NeverSaid(front, author) by {
          assert forall j :: 0 <= j < last ==> messages[j] == front[j];
        }
      }
    }
  }

  lemma {:induction false} AuthorsWrote(messages: seq<Message>, name: string)
    ensures name in Authors(messages) <==> exists i :: 0 <= i < |messages| && messages[i].author == name
  {
    if messages != [] {
      var front := messages[..|messages| - 1];
      AuthorsWrote(front, name);
      assert messages == front + [messages[|messages| - 1]];
      assert forall i :: 0 <= i < |front| ==> messages[i] == front[i];
    }
  }

  lemma {:induction false} RosterLists(
    fold: string -> string, authors: seq<string>, messages: seq<Message>, current: Roster, name: string,
    role: Role)
    ensures (name, role) in RosterOf(fold, authors, messages, current)
       <==> name in authors && RoleOf(fold, messages, current, name) == Some(role)
  {
    if authors != [] {
      RosterLists(fold, authors[..|authors| - 1], messages, current, name, role);
      assert authors == authors[..|authors| - 1] + [authors[|authors| - 1]];
    }
  }

  /** The roster names exactly the authors who wrote so far and have a role: the last valid role
      they stated, or else the one today's roster gives them. */
  lemma RosterSays(fold: string -> string, messages: seq<Message>, current: Roster, name: string, role: Role)
    ensures (name, role) in RosterOf(fold, Authors(messages), messages, current)
       <==> || SaidLast(messages, name, role)
            || (&& (exists i :: 0 <= i < |messages| && messages[i].author == name)
                && NeverSaid(messages, name)
                && LookupCasefold(fold, current, name) == Some(role))
  {
    RosterLists(fold, Authors(messages), messages, current, name, role);
    AuthorsWrote(messages, name);
    LatestRoleIsLast(messages, name);
  }

  // --------------------------------------------------------------------- rows

  /** `dict.update`: known names keep their place, new names come last. */
  function Updated(roster: Roster, more: Roster): Roster
    decreases more
  {
    if more == [] then roster
    else Updated(WithEntry(roster, more[0]), more[1..])
  }

  function WithEntry(roster: Roster, entry: (string, Role)): Roster {
    if roster == [] then [entry]
    else if roster[0].0 == entry.0 then [entry] + roster[1..]
    else [roster[0]] + WithEntry(roster[1..], entry)
  }

  /** The roster the conductor routes with: today's, under the roles stated so far. */
  function RoutingRoster(rules: Rules, upto: seq<Message>, current: Roster): Roster {
    Updated(current, RosterOf(rules.fold, Authors(upto), upto, current))
  }

  ghost predicate DistinctNames(roster: Roster) {
    forall i, j :: 0 <= i < j < |roster| ==> roster[i].0 != roster[j].0
  }

  ghost predicate NamesIn(roster: Roster, name: string) {
    exists i :: 0 <= i < |roster| && roster[i].0 == name
  }

  lemma {:induction false} WithEntrySays(roster: Roster, entry: (string, Role))
    requires DistinctNames(roster)
    ensures DistinctNames(WithEntry(roster, entry))
    ensures forall e :: e in WithEntry(roster, entry) <==> e == entry || (e in roster && e.0 != entry.0)
  {
    if roster != [] {
      var first, rest := roster[0], roster[1..];
      assert roster == [first] + rest;
      assert forall e :: e in rest ==> e.0 != first.0;
      if first.0 != entry.0 {
        WithEntrySays(rest, entry);
      }
    }
  }

  lemma {:induction false} UpdatedSays(roster: Roster, more: Roster, e: (string, Role))
    requires DistinctNames(roster) && DistinctNames(more)
    ensures e in Updated(roster, more) <==> e in more || (e in roster && !NamesIn(more, e.0))
    decreases more
  {
    if more != [] {
      var first, rest := more[0], more[1..];
      assert more == [first] + rest;
      WithEntrySays(roster, first);
      UpdatedSays(WithEntry(roster, first), rest, e);
      assert NamesIn(more, e.0) <==> first.0 == e.0 || NamesIn(rest, e.0) by {
        if i :| 0 <= i < |rest| && rest[i].0 == e.0 {
          assert more[i + 1].0 == e.0;
        }
      }
      assert forall i :: 0 <= i < |rest| ==> rest[i].0 != first.0;
    }
  }

  lemma {:induction false} AuthorsDistinct(messages: seq<Message>)
    ensures forall i, j :: 0 <= i < j < |Authors(messages)| ==> Authors(messages)[i] != Authors(messages)[j]
  {
    if messages != [] {
      AuthorsDistinct(messages[..|messages| - 1]);
    }
  }

  lemma {:induction false} RosterNamesDistinct(
    fold: string -> string, authors: seq<string>, messages: seq<Message>, current: Roster)
    requires forall i, j :: 0 <= i < j < |authors| ==> authors[i] != authors[j]
    ensures DistinctNames(RosterOf(fold, authors, messages, current))
    ensures forall e :: e in RosterOf(fold, authors, messages, current) ==> e.0 in authors
  {
    if authors != [] {
      var front := authors[..|authors| - 1];
      assert authors == front + [authors[|authors| - 1]];
      RosterNamesDistinct(fold, front, messages, current);
      var had := RosterOf(fold, front, messages, current);
      assert forall i :: 0 <= i < |had| ==> had[i] in had;
    }
  }

  /** The conductor routes with every role of the historical roster, and with today's roster for the
      names the historical one leaves out. */
  lemma RoutingRosterSays(rules: Rules, upto: seq<Message>, current: Roster, e: (string, Role))
    requires DistinctNames(current)
    ensures var historical := RosterOf(rules.fold, Authors(upto), upto, current);
            e in RoutingRoster(rules, upto, current)
            <==> e in historical || (e in current && !NamesIn(historical, e.0))
  {
    AuthorsDistinct(upto);
    RosterNamesDistinct(rules.fold, Authors(upto), upto, current);
    UpdatedSays(current, RosterOf(rules.fold, Authors(upto), upto, current), e);
  }

  function ClassifySet(rules: Rules, m: Message, tag: Option<string>): Option<SetName> {
    if rules.evalSince <= m.timestamp <= rules.evalUntil then Some(EvalSet)
    else if m.timestamp < rules.evalSince && tag.Some? && tag.value in RETRO_LABELS then Some(RetroSet)
    else None
  }

  function TurnMessages(rules: Rules, messages: seq<Message>): seq<TurnMessage> {
    seq(|messages|, i requires 0 <= i < |messages| =>
      TurnMessage(messages[i].id, messages[i].author, messages[i].content, rules.parseNext(messages[i].content)))
  }

  function BuildRow(rules: Rules, thread: Thread, head: nat, current: Roster, inSet: SetName): Row
    requires head < |thread.messages|
  {
    var upto := thread.messages[..head + 1];
    var m := upto[head];
    var roster := RosterOf(rules.fold, Authors(upto), upto, current);
    var fallback := UsesCurrent(rules.fold, Authors(upto), upto, current);
    var handoff := rules.handoff(m.content, RoutingRoster(rules, upto, current), m.next);
    var turn := TurnMessages(rules, upto[..head]) + [TurnMessage(m.id, m.author, m.content, Some(HUMAN_TOKEN))];
    var gate := rules.gate(m.content, m.author, m.timestamp);
    Row(thread.project, thread.id, head, m.id, m.author, rules.iso(m.timestamp), inSet, fallback,
        handoff.tierCLabel, handoff.requestedHuman,
        rules.tierCEntry(handoff.requestedHuman, LookupCasefold(rules.fold, roster, m.author)),
        gate,
        rules.state(thread.id, head, roster, turn, gate))
  }

  /** The row of the message at `i`, when that message is an escalation of one of the two sets. */
  function RowAt(rules: Rules, thread: Thread, i: nat, current: Roster): (r: Option<Row>)
    requires i < |thread.messages|
    ensures r.Some? ==> KeyOf(r.value) == (thread.id, i)
  {
    var m := thread.messages[i];
    var handoff := rules.handoff(m.content, RoutingRoster(rules, thread.messages[..i + 1], current), m.next);
    var inSet := ClassifySet(rules, m, handoff.tierCLabel);
    if !handoff.human || inSet == None then None
    else Some(BuildRow(rules, thread, i, current, inSet.value))
  }

  function RowsAt(rules: Rules, thread: Thread, current: Roster): nat -> Option<Row> {
    (i: nat) => if i < |thread.messages| then RowAt(rules, thread, i, current) else None
  }

  function Collect(rowAt: nat -> Option<Row>, n: nat): seq<Row> {
    if n == 0 then []
    else
      var front := Collect(rowAt, n - 1);
      match rowAt(n - 1)
      case Some(row) => front + [row]
      case None => front
  }

  function RowsOf(rules: Rules, thread: Thread, current: Roster): seq<Row> {
    Collect(RowsAt(rules, thread, current), |thread.messages|)
  }

  method RowsForThread(rules: Rules, thread: Thread, current: Roster) returns (out: seq<Row>)
    ensures out == RowsOf(rules, thread, current)
  {
    out := [];
    for i := 0 to |thread.messages|
      invariant out == Collect(RowsAt(rules, thread, current), i)
    {
      var m := thread.messages[i];
      var upto := thread.messages[..i + 1];
      var roster, _ := HistoricalRoster(rules.fold, upto, current);
      var handoff := rules.handoff(m.content, Updated(current, roster), m.next);
      if handoff.human {
        var inSet := ClassifySet(rules, m, handoff.tierCLabel);
        if inSet.Some? {
          out := out + [BuildRow(rules, thread, i, current, inSet.value)];
        }
      }
    }
  }

  // --------------------------------------------------------------------- no future leak

  lemma RowIgnoresLaterMessages(rules: Rules, thread: Thread, later: Thread, i: nat, current: Roster)
    requires i < |thread.messages| <= |later.messages|
    requires later.project == thread.project && later.id == thread.id
    requires later.messages[..|thread.messages|] == thread.messages
    ensures RowAt(rules, later, i, current) == RowAt(rules, thread, i, current)
  {
    var n := |thread.messages|;
    assert later.messages[..n][..i + 1] == later.messages[..i + 1];
    assert later.messages[i] == later.messages[..n][i];
  }

  lemma {:induction false} CollectAlike(f: nat -> Option<Row>, g: nat -> Option<Row>, n: nat)
    requires forall i :: 0 <= i < n ==> f(i) == g(i)
    ensures Collect(f, n) == Collect(g, n)
  {
    if n > 0 {
      CollectAlike(f, g, n - 1);
    }
  }

  /** Later messages change no row: the rows of a grown thread are the rows it had, then rows at
      later positions. */
  lemma RowsIgnoreTheFuture(rules: Rules, thread: Thread, later: Thread, current: Roster)
    requires |thread.messages| <= |later.messages|
    requires later.project == thread.project && later.id == thread.id
    requires later.messages[..|thread.messages|] == thread.messages
    ensures RowsOf(rules, thread, current) <= RowsOf(rules, later, current)
    ensures forall i :: |RowsOf(rules, thread, current)| <= i < |RowsOf(rules, later, current)|
              ==> RowsOf(rules, later, current)[i].roundIndex >= |thread.messages|
  {
    var f, g := RowsAt(rules, thread, current), RowsAt(rules, later, current);
    forall i: nat | i < |thread.messages| ensures f(i) == g(i) {
      RowIgnoresLaterMessages(rules, thread, later, i, current);
    }
    CollectAlike(f, g, |thread.messages|);
    CollectGrows(g, |thread.messages|, |later.messages|);
  }

  ghost predicate Positioned(rowAt: nat -> Option<Row>) {
    forall i :: rowAt(i).Some? ==> rowAt(i).value.roundIndex == i
  }

  lemma {:induction false} CollectGrows(rowAt: nat -> Option<Row>, n: nat, m: nat)
    requires n <= m && Positioned(rowAt)
    ensures Collect(rowAt, n) <= Collect(rowAt, m)
    ensures forall i :: |Collect(rowAt, n)| <= i < |Collect(rowAt, m)| ==> Collect(rowAt, m)[i].roundIndex >= n
    decreases m
  {
    if n < m {
      CollectGrows(rowAt, n, m - 1);
    }
  }

  lemma {:induction false} CollectHolds(rowAt: nat -> Option<Row>, n: nat, row: Row)
    requires Positioned(rowAt)
    ensures row in Collect(rowAt, n) <==> row.roundIndex < n && rowAt(row.roundIndex) == Some(row)
  {
    if n > 0 {
      CollectHolds(rowAt, n - 1, row);
    }
  }

  /** The rows of a thread are those its escalations build, each at its own position. */
  lemma RowsAreRowAt(rules: Rules, thread: Thread, current: Roster, row: Row)
    ensures row in RowsOf(rules, thread, current)
       <==> row.roundIndex < |thread.messages| && RowAt(rules, thread, row.roundIndex, current) == Some(row)
  {
    CollectHolds(RowsAt(rules, thread, current), |thread.messages|, row);
  }

  // --------------------------------------------------------------------- outputs

  datatype EvalPart = Body | Supplement | GateOnly

  function EvalPartOf(row: Row): EvalPart {
    if row.inSet.EvalSet? && row.liveEntry then Body
    else if row.inSet.RetroSet? || (row.gate.Some? && row.gate.value.admit) then Supplement
    else GateOnly
  }

  type Key = (int, nat)

  function KeyOf(row: Row): Key {
    (row.threadId, row.roundIndex)
  }

  function Everything(rules: Rules, threads: seq<Thread>, current: Roster): seq<Row> {
    if threads == [] then []
    else Everything(rules, threads[..|threads| - 1], current) + RowsOf(rules, threads[|threads| - 1], current)
  }

  ghost predicate DistinctKeys(rows: seq<Row>) {
    forall i, j :: 0 <= i < j < |rows| ==> KeyOf(rows[i]) != KeyOf(rows[j])
  }

  /** The order of the outputs: time, then thread, then position. */
  predicate Before(r: Row, s: Row) {
    || r.postedAt < s.postedAt
    || (r.postedAt == s.postedAt && r.threadId < s.threadId)
    || (r.postedAt == s.postedAt && r.threadId == s.threadId && r.roundIndex < s.roundIndex)
  }

  ghost predicate Ordered(rows: seq<Row>) {
    forall i, j :: 0 <= i < j < |rows| ==> !Before(rows[j], rows[i])
  }

  function Insert(rows: seq<Row>, row: Row): (r: seq<Row>)
    ensures multiset(r) == multiset(rows) + multiset{row}
  {
    if rows == [] then [row]
    else
      var front, last := rows[..|rows| - 1], rows[|rows| - 1];
      assert rows == front + [last];
      if Before(row, last) then Insert(front, row) + [last] else rows + [row]
  }

  /** `list.sort`, which is stable. */
  function Sort(rows: seq<Row>): (r: seq<Row>)
    ensures multiset(r) == multiset(rows)
  {
    if rows == [] then []
    else
      assert rows == rows[..|rows| - 1] + [rows[|rows| - 1]];
      Insert(Sort(rows[..|rows| - 1]), rows[|rows| - 1])
  }

  datatype Outputs = Outputs(population: seq<Row>, fixture: seq<Row>)
  datatype BuildError = DuplicateKeys

  function Chosen(rows: seq<Row>): (r: seq<Row>)
    ensures forall row :: row in r <==> row in rows && !EvalPartOf(row).GateOnly?
  {
    if rows == [] then []
    else
      var front, last := rows[..|rows| - 1], rows[|rows| - 1];
      assert rows == front + [last];
      if EvalPartOf(last).GateOnly? then Chosen(front) else Chosen(front) + [last]
  }

  /** The outputs of the harvested rows `all`. */
  ghost predicate IsOutputs(all: seq<Row>, r: Result<Outputs, BuildError>) {
    match r
    case Ok(out) => DistinctKeys(all) && out == Outputs(Sort(all), Chosen(Sort(all)))
    case Err(e) => e == DuplicateKeys && !DistinctKeys(all)
  }

  ghost predicate BuildsOutputs(rules: Rules, threads: seq<Thread>, current: Roster, r: Result<Outputs, BuildError>) {
    IsOutputs(Everything(rules, threads, current), r)
  }

  method HasDuplicateKeys(rows: seq<Row>) returns (dup: bool)
    ensures dup == !DistinctKeys(rows)
  {
    var seen: set<Key> := {};
    for i := 0 to |rows|
      invariant forall k :: k in seen <==> exists j :: 0 <= j < i && KeyOf(rows[j]) == k
      invariant DistinctKeys(rows[..i])
    {
      if KeyOf(rows[i]) in seen {
        return true;
      }
      seen := seen + {KeyOf(rows[i])};
    }
    assert rows[..|rows|] == rows;
    return false;
  }

  method BuildOutputs(rules: Rules, threads: seq<Thread>, current: Roster) returns (r: Result<Outputs, BuildError>)
    ensures BuildsOutputs(rules, threads, current, r)
  {
    var everything: seq<Row> := [];
    for i := 0 to |threads|
      invariant everything == Everything(rules, threads[..i], current)
    {
      assert threads[..i + 1][..i] == threads[..i];
      var rows := RowsForThread(rules, threads[i], current);
      everything := everything + rows;
    }
    assert threads[..|threads|] == threads;
    var dup := HasDuplicateKeys(everything);
    if dup {
      return Err(DuplicateKeys);
    }
    var population := Sort(everything);
    return Ok(Outputs(population, Chosen(population)));
  }

  // --------------------------------------------------------------------- the outputs as a set

  lemma {:induction false} InsertOrdered(rows: seq<Row>, row: Row)
    requires Ordered(rows)
    ensures Ordered(Insert(rows, row))
  {
    if rows != [] {
      var front, last := rows[..|rows| - 1], rows[|rows| - 1];
      if Before(row, last) {
        InsertOrdered(front, row);
        forall r | r in Insert(front, row) ensures !Before(last, r) {
          assert r in multiset(front) + multiset{row};
          assert forall i :: 0 <= i < |front| ==> front[i] == rows[i];
        }
      } else {
        forall i | 0 <= i < |rows| ensures !Before(row, rows[i]) {
          assert i == |rows| - 1 || !Before(last, rows[i]);
        }
      }
    }
  }

  lemma {:induction false} SortOrdered(rows: seq<Row>)
    ensures Ordered(Sort(rows))
  {
    if rows != [] {
      SortOrdered(rows[..|rows| - 1]);
      InsertOrdered(Sort(rows[..|rows| - 1]), rows[|rows| - 1]);
    }
  }

  /** The fixture keeps the order of the population. */
  lemma {:induction false} ChosenOrdered(rows: seq<Row>)
    requires Ordered(rows)
    ensures Ordered(Chosen(rows))
  {
    if rows != [] {
      var front, last := rows[..|rows| - 1], rows[|rows| - 1];
      ChosenOrdered(front);
      var had := Chosen(front);
      forall i | 0 <= i < |had| ensures !Before(last, had[i]) {
        assert had[i] in had;
        var j :| 0 <= j < |front| && front[j] == had[i];
        assert !Before(rows[|rows| - 1], rows[j]);
      }
    }
  }

  /** Earlier rows come first; at one time, lower threads; in one thread, lower positions. */
  ghost predicate InOrder(rows: seq<Row>) {
    forall i, j :: 0 <= i < j < |rows| ==>
      && rows[i].postedAt <= rows[j].postedAt
      && (rows[i].postedAt == rows[j].postedAt ==> rows[i].threadId <= rows[j].threadId)
      && (rows[i].postedAt == rows[j].postedAt && rows[i].threadId == rows[j].threadId ==>
            rows[i].roundIndex <= rows[j].roundIndex)
  }

  lemma OutputsInOrder(all: seq<Row>, out: Outputs)
    requires IsOutputs(all, Ok(out))
    ensures InOrder(out.population) && InOrder(out.fixture)
  {
    SortOrdered(all);
    ChosenOrdered(out.population);
  }

  lemma SameElements(a: seq<Row>, b: seq<Row>)
    requires multiset(a) == multiset(b)
    ensures |a| == |b|
    ensures forall row :: row in a <==> row in b
  {
    assert |a| == |multiset(a)| == |multiset(b)| == |b|;
    forall row ensures row in a <==> row in b {
      assert row in a <==> row in multiset(a);
      assert row in b <==> row in multiset(b);
    }
  }

  lemma DistinctKeysPermuted(a: seq<Row>, b: seq<Row>)
    requires multiset(a) == multiset(b)
    requires DistinctKeys(a)
    ensures DistinctKeys(b)
  {
    SameElements(a, b);
    forall i, j | 0 <= i < j < |b| ensures KeyOf(b[i]) != KeyOf(b[j]) {
      assert b[i] != b[j] by {
        OnceInMultiset(a, b[i]);
        if b[i] == b[j] { TwiceInMultiset(b, i, j); }
      }
      assert b[i] in a && b[j] in a;
      var p :| 0 <= p < |a| && a[p] == b[i];
      var q :| 0 <= q < |a| && a[q] == b[j];
      assert p < q || q < p;
    }
  }

  lemma TwiceInMultiset(b: seq<Row>, i: nat, j: nat)
    requires i < j < |b| && b[i] == b[j]
    ensures multiset(b)[b[i]] >= 2
  {
    assert b == b[..i] + [b[i]] + b[i + 1..j] + [b[j]] + b[j + 1..];
  }

  lemma {:induction false} OnceInMultiset(a: seq<Row>, row: Row)
    requires DistinctKeys(a)
    ensures multiset(a)[row] <= 1
  {
    if a != [] {
      var front, last := a[..|a| - 1], a[|a| - 1];
      assert a == front + [last];
      OnceInMultiset(front, row);
      if row == last {
        assert row !in front;
      }
    }
  }

  /** Ordered rows with distinct keys are determined by their elements. */
  lemma {:induction false} OrderIsCanonical(a: seq<Row>, b: seq<Row>)
    requires Ordered(a) && Ordered(b) && DistinctKeys(a) && DistinctKeys(b)
    requires forall row :: row in a <==> row in b
    ensures a == b
  {
    if a == [] {
      assert forall i :: 0 <= i < |b| ==> b[i] in a;
    } else {
      assert a[0] in b;
      var x, y := a[|a| - 1], b[|b| - 1];
      assert x in b && y in a;
      SameLast(a, b);
      var front, front' := a[..|a| - 1], b[..|b| - 1];
      forall row ensures row in front <==> row in front' {
        NotLast(a, row);
        NotLast(b, row);
      }
      OrderIsCanonical(front, front');
      assert a == front + [x] && b == front' + [y];
    }
  }

  lemma SameLast(a: seq<Row>, b: seq<Row>)
    requires a != [] && b != [] && Ordered(a) && Ordered(b) && DistinctKeys(a)
    requires a[|a| - 1] in b && b[|b| - 1] in a
    ensures a[|a| - 1] == b[|b| - 1]
  {
    var x, y := a[|a| - 1], b[|b| - 1];
    var i :| 0 <= i < |a| && a[i] == y;
    var j :| 0 <= j < |b| && b[j] == x;
    assert i == |a| - 1 || !Before(x, y);
    assert j == |b| - 1 || !Before(y, x);
    assert KeyOf(x) == KeyOf(y) || Before(x, y) || Before(y, x);
  }

  lemma NotLast(a: seq<Row>, row: Row)
    requires a != [] && DistinctKeys(a)
    ensures row in a[..|a| - 1] <==> row in a && row != a[|a| - 1]
  {
    assert a == a[..|a| - 1] + [a[|a| - 1]];
  }

  ghost predicate DistinctThreads(threads: seq<Thread>) {
    forall i, j :: 0 <= i < j < |threads| ==>
      threads[i].project != threads[j].project || threads[i].id != threads[j].id
  }

  lemma {:induction false} EverythingHolds(rules: Rules, threads: seq<Thread>, current: Roster, row: Row)
    ensures row in Everything(rules, threads, current)
       <==> exists t :: t in threads && row in RowsOf(rules, t, current)
  {
    if threads != [] {
      var front, last := threads[..|threads| - 1], threads[|threads| - 1];
      EverythingHolds(rules, front, current, row);
      InFrontOrLast(threads);
    }
  }

  lemma InFrontOrLast(threads: seq<Thread>)
    requires threads != []
    ensures forall t :: t in threads <==> t in threads[..|threads| - 1] || t == threads[|threads| - 1]
  {
    assert threads == threads[..|threads| - 1] + [threads[|threads| - 1]];
  }

  lemma {:induction false} CollectIsDistinct(rowAt: nat -> Option<Row>, n: nat)
    requires Positioned(rowAt)
    ensures DistinctKeys(Collect(rowAt, n))
  {
    if n > 0 {
      CollectIsDistinct(rowAt, n - 1);
      var front, at := Collect(rowAt, n - 1), rowAt(n - 1);
      forall i | 0 <= i < |front| ensures front[i].roundIndex < n - 1 {
        CollectHolds(rowAt, n - 1, front[i]);
      }
    }
  }

  ghost predicate Clash(rules: Rules, t: Thread, u: Thread, current: Roster) {
    KeysMeet(RowsOf(rules, t, current), RowsOf(rules, u, current))
  }

  ghost predicate KeysMeet(p: seq<Row>, q: seq<Row>) {
    exists r, s :: r in p && s in q && KeyOf(r) == KeyOf(s)
  }

  /** Rows of different threads never share a key. */
  ghost predicate NoClash(rules: Rules, threads: seq<Thread>, current: Roster) {
    forall t, u :: t in threads && u in threads && t != u ==> !Clash(rules, t, u, current)
  }

  lemma DistinctConcat(p: seq<Row>, q: seq<Row>)
    ensures DistinctKeys(p + q) <==> DistinctKeys(p) && DistinctKeys(q) && !KeysMeet(p, q)
  {
    if DistinctKeys(p + q) {
      assert forall i :: 0 <= i < |p| ==> (p + q)[i] == p[i];
      assert forall i, j | 0 <= i && j == |p| + i && j < |p + q| :: (p + q)[j] == q[i];
      forall i, j | 0 <= i < j < |q| ensures KeyOf(q[i]) != KeyOf(q[j]) {
        assert (p + q)[|p| + i] == q[i] && (p + q)[|p| + j] == q[j];
      }
      forall r, s | r in p && s in q ensures KeyOf(r) != KeyOf(s) {
        var i :| 0 <= i < |p| && p[i] == r;
        var j :| 0 <= j < |q| && q[j] == s;
        assert (p + q)[i] == r && (p + q)[|p| + j] == s;
      }
    }
  }

  lemma ClashWithAny(rules: Rules, front: seq<Thread>, last: Thread, current: Roster)
    ensures KeysMeet(Everything(rules, front, current), RowsOf(rules, last, current))
       <==> exists t :: t in front && Clash(rules, t, last, current)
  {
    var had, more := Everything(rules, front, current), RowsOf(rules, last, current);
    if KeysMeet(had, more) {
      var r, s :| r in had && s in more && KeyOf(r) == KeyOf(s);
      EverythingHolds(rules, front, current, r);
      var t :| t in front && r in RowsOf(rules, t, current);
      assert Clash(rules, t, last, current);
    }
    if t :| t in front && Clash(rules, t, last, current) {
      var r, s :| r in RowsOf(rules, t, current) && s in more && KeyOf(r) == KeyOf(s);
      EverythingHolds(rules, front, current, r);
    }
  }

  lemma {:induction false} DistinctIffNoClash(rules: Rules, threads: seq<Thread>, current: Roster)
    requires DistinctThreads(threads)
    ensures DistinctKeys(Everything(rules, threads, current)) <==> NoClash(rules, threads, current)
  {
    if threads != [] {
      var front, last := threads[..|threads| - 1], threads[|threads| - 1];
      assert threads == front + [last];
      LastIsNew(threads);
      DistinctIffNoClash(rules, front, current);
      CollectIsDistinct(RowsAt(rules, last, current), |last.messages|);
      DistinctConcat(Everything(rules, front, current), RowsOf(rules, last, current));
      ClashWithAny(rules, front, last, current);
      NoClashStep(rules, front, last, current);
    }
  }

  lemma LastIsNew(threads: seq<Thread>)
    requires threads != [] && DistinctThreads(threads)
    ensures threads[|threads| - 1] !in threads[..|threads| - 1]
    ensures DistinctThreads(threads[..|threads| - 1])
  {
    var front, last := threads[..|threads| - 1], threads[|threads| - 1];
    assert forall i :: 0 <= i < |front| ==> front[i] == threads[i] && front[i] != last;
  }

  lemma NoClashStep(rules: Rules, front: seq<Thread>, last: Thread, current: Roster)
    requires last !in front
    ensures NoClash(rules, front + [last], current)
       <==> NoClash(rules, front, current) && forall t :: t in front ==> !Clash(rules, t, last, current)
  {
    var threads := front + [last];
    assert forall t :: t in threads <==> t in front || t == last;
    forall t | t in front && !Clash(rules, t, last, current) ensures !Clash(rules, last, t, current) {
      KeysMeetEither(RowsOf(rules, last, current), RowsOf(rules, t, current));
    }
  }

  lemma KeysMeetEither(p: seq<Row>, q: seq<Row>)
    ensures KeysMeet(p, q) <==> KeysMeet(q, p)
  {
  }

  ghost predicate SameNonEmpty(a: seq<Thread>, b: seq<Thread>) {
    forall t: Thread :: t.messages != [] ==> (t in a <==> t in b)
  }

  /** The outputs depend on the set of threads, not on the order they were listed in. */
  lemma OutputsIgnoreThreadOrder(
    rules: Rules, a: seq<Thread>, b: seq<Thread>, current: Roster,
    r: Result<Outputs, BuildError>, s: Result<Outputs, BuildError>)
    requires DistinctThreads(a) && DistinctThreads(b)
    requires SameNonEmpty(a, b)
    requires BuildsOutputs(rules, a, current, r) && BuildsOutputs(rules, b, current, s)
    ensures r == s
  {
    SameRows(rules, a, b, current);
    DistinctIffNoClash(rules, a, current);
    DistinctIffNoClash(rules, b, current);
    OutputsFromSameRows(Everything(rules, a, current), Everything(rules, b, current), r, s);
  }

  lemma OutputsFromSameRows(p: seq<Row>, q: seq<Row>, r: Result<Outputs, BuildError>, s: Result<Outputs, BuildError>)
    requires IsOutputs(p, r) && IsOutputs(q, s)
    requires DistinctKeys(p) <==> DistinctKeys(q)
    requires forall row :: row in p <==> row in q
    ensures r == s
  {
    if DistinctKeys(p) {
      SortedAlike(p, q);
    }
  }

  lemma SameRows(rules: Rules, a: seq<Thread>, b: seq<Thread>, current: Roster)
    requires SameNonEmpty(a, b)
    ensures forall row :: row in Everything(rules, a, current) <==> row in Everything(rules, b, current)
    ensures NoClash(rules, a, current) <==> NoClash(rules, b, current)
  {
    var p, q := Everything(rules, a, current), Everything(rules, b, current);
    forall t, row | row in RowsOf(rules, t, current) ensures t in a <==> t in b {
      assert t.messages != [];
    }
    forall row ensures row in p <==> row in q {
      EverythingHolds(rules, a, current, row);
      EverythingHolds(rules, b, current, row);
    }
    forall t, u | Clash(rules, t, u, current) ensures t in a <==> t in b ensures u in a <==> u in b {
      assert t.messages != [] && u.messages != [];
    }
  }

  lemma SortedAlike(p: seq<Row>, q: seq<Row>)
    requires DistinctKeys(p) && DistinctKeys(q)
    requires forall row :: row in p <==> row in q
    ensures Sort(p) == Sort(q)
  {
    SortOrdered(p);
    SortOrdered(q);
    DistinctKeysPermuted(p, Sort(p));
    DistinctKeysPermuted(q, Sort(q));
    SameElements(p, Sort(p));
    SameElements(q, Sort(q));
    OrderIsCanonical(Sort(p), Sort(q));
  }

  /** The message at `i` goes to the human under the conductor's roster, and either stands in the
      evaluation window and the live entry check or the gate lets it in, or is older and carries a
      judgement label. */
  ghost predicate Selected(rules: Rules, t: Thread, i: nat, current: Roster)
    requires i < |t.messages|
  {
    var m, upto := t.messages[i], t.messages[..i + 1];
    var handoff := rules.handoff(m.content, RoutingRoster(rules, upto, current), m.next);
    var role := RoleOfEntry(rules, upto, current, m.author);
    var gate := rules.gate(m.content, m.author, m.timestamp);
    && handoff.human
    && if m.timestamp < rules.evalSince
       then handoff.tierCLabel in {Some("scope"), Some("billing"), Some("irreversible"), Some("goal"), Some("cost")}
       else && m.timestamp <= rules.evalUntil
            && (rules.tierCEntry(handoff.requestedHuman, role) || (gate.Some? && gate.value.admit))
  }

  function RoleOfEntry(rules: Rules, upto: seq<Message>, current: Roster, author: string): Option<Role> {
    LookupCasefold(rules.fold, RosterOf(rules.fold, Authors(upto), upto, current), author)
  }

  lemma SelectedRow(rules: Rules, t: Thread, i: nat, current: Roster)
    requires i < |t.messages|
    ensures Selected(rules, t, i, current)
       <==> var r := RowAt(rules, t, i, current); r.Some? && !EvalPartOf(r.value).GateOnly?
  {
    assert t.messages[..i + 1][i] == t.messages[i];
  }

  /** The fixture holds exactly the rows of the selected messages of the threads, each under its own
      message's id, author and time. */
  lemma FixtureIff(rules: Rules, threads: seq<Thread>, current: Roster, out: Outputs, row: Row)
    requires BuildsOutputs(rules, threads, current, Ok(out))
    ensures row in out.fixture
       <==> exists t :: t in threads && row.roundIndex < |t.messages|
                     && Selected(rules, t, row.roundIndex, current)
                     && RowAt(rules, t, row.roundIndex, current) == Some(row)
    ensures row in out.fixture ==>
              exists t :: t in threads && row.roundIndex < |t.messages| && Describes(rules, row, t, current)
  {
    var all := Everything(rules, threads, current);
    SameElements(all, out.population);
    EverythingHolds(rules, threads, current, row);
    forall t | t in threads
      ensures row in RowsOf(rules, t, current)
         <==> row.roundIndex < |t.messages| && RowAt(rules, t, row.roundIndex, current) == Some(row)
      ensures row.roundIndex < |t.messages| && RowAt(rules, t, row.roundIndex, current) == Some(row)
          ==> (Selected(rules, t, row.roundIndex, current) <==> !EvalPartOf(row).GateOnly?)
              && Describes(rules, row, t, current)
    {
      RowsAreRowAt(rules, t, current, row);
      if row.roundIndex < |t.messages| {
        SelectedRow(rules, t, row.roundIndex, current);
        RowDescribes(rules, t, row.roundIndex, current);
      }
    }
  }

  /** The row is about its message, column by column: the identifying columns, what the handoff under the
      routing roster says, the live entry check and the gate at the message's own time, and the state. */
  ghost predicate Describes(rules: Rules, row: Row, t: Thread, current: Roster)
    requires row.roundIndex < |t.messages|
  {
    var i := row.roundIndex;
    var m, upto := t.messages[i], t.messages[..i + 1];
    var handoff := rules.handoff(m.content, RoutingRoster(rules, upto, current), m.next);
    && row.project == t.project && row.threadId == t.id
    && row.msgId == m.id && row.author == m.author && row.postedAt == rules.iso(m.timestamp)
    && (row.inSet.EvalSet? <==> rules.evalSince <= m.timestamp <= rules.evalUntil)
    && row.tierCLabel == handoff.tierCLabel && row.requestedHuman == handoff.requestedHuman
    && row.gate == rules.gate(m.content, m.author, m.timestamp)
    && row.liveEntry == rules.tierCEntry(row.requestedHuman, RoleOfEntry(rules, upto, current, m.author))
    && (row.rosterFallback <==> FallsBack(rules, upto, current))
    && exists roster, turn ::
         && HistoricalRosterOf(rules, roster, upto, current)
         && IsTurn(rules, turn, t.messages, i)
         && row.state == rules.state(t.id, i, roster, turn, row.gate)
  }

  /** Some author so far never stated a valid role and has one today. */
  ghost predicate FallsBack(rules: Rules, upto: seq<Message>, current: Roster) {
    exists j :: 0 <= j < |upto| && NeverSaid(upto, upto[j].author)
             && LookupCasefold(rules.fold, current, upto[j].author).Some?
  }

  /** The roster lists exactly the authors so far who have a role, with the role each stated last, or else
      today's. */
  ghost predicate HistoricalRosterOf(rules: Rules, roster: Roster, upto: seq<Message>, current: Roster) {
    forall name, role ::
      (name, role) in roster
      <==> || SaidLast(upto, name, role)
           || (&& (exists j :: 0 <= j < |upto| && upto[j].author == name)
               && NeverSaid(upto, name)
               && LookupCasefold(rules.fold, current, name) == Some(role))
  }

  /** The messages up to `i`, with the token of each body; the escalation itself with the human token. */
  ghost predicate IsTurn(rules: Rules, turn: seq<TurnMessage>, messages: seq<Message>, i: nat)
    requires i < |messages|
  {
    && |turn| == i + 1
    && (forall j :: 0 <= j < i ==>
          turn[j] == TurnMessage(messages[j].id, messages[j].author, messages[j].content,
                                 rules.parseNext(messages[j].content)))
    && turn[i] == TurnMessage(messages[i].id, messages[i].author, messages[i].content, Some("human"))
  }

  lemma FallsBackIff(rules: Rules, upto: seq<Message>, current: Roster)
    ensures UsesCurrent(rules.fold, Authors(upto), upto, current) <==> FallsBack(rules, upto, current)
  {
    var authors := Authors(upto);
    if k :| 0 <= k < |authors| && LatestRole(upto, authors[k]) == None
            && LookupCasefold(rules.fold, current, authors[k]).Some? {
      LatestRoleIsLast(upto, authors[k]);
      AuthorsWrote(upto, authors[k]);
    }
    if j :| 0 <= j < |upto| && NeverSaid(upto, upto[j].author)
            && LookupCasefold(rules.fold, current, upto[j].author).Some? {
      LatestRoleIsLast(upto, upto[j].author);
      AuthorsWrote(upto, upto[j].author);
    }
  }

  lemma RosterIsHistorical(rules: Rules, upto: seq<Message>, current: Roster)
    ensures HistoricalRosterOf(rules, RosterOf(rules.fold, Authors(upto), upto, current), upto, current)
  {
    var roster := RosterOf(rules.fold, Authors(upto), upto, current);
    forall name, role
      ensures (name, role) in roster
         <==> || SaidLast(upto, name, role)
              || (&& (exists j :: 0 <= j < |upto| && upto[j].author == name)
                  && NeverSaid(upto, name)
                  && LookupCasefold(rules.fold, current, name) == Some(role))
    {
      RosterSays(rules.fold, upto, current, name, role);
    }
  }

  lemma RowDescribes(rules: Rules, t: Thread, i: nat, current: Roster)
    requires i < |t.messages|
    ensures var r := RowAt(rules, t, i, current);
            r.Some? ==> r.value.roundIndex == i && Describes(rules, r.value, t, current)
  {
    var r := RowAt(rules, t, i, current);
    if r.Some? {
      BuiltDescribes(rules, t, i, current, r.value.inSet);
      assert t.messages[..i + 1][i] == t.messages[i];
    }
  }

  lemma BuiltDescribes(rules: Rules, t: Thread, i: nat, current: Roster, inSet: SetName)
    requires i < |t.messages|
    requires inSet.EvalSet? <==> rules.evalSince <= t.messages[i].timestamp <= rules.evalUntil
    ensures Describes(rules, BuildRow(rules, t, i, current, inSet), t, current)
  {
    var upto := t.messages[..i + 1];
    var m := t.messages[i];
    assert upto[i] == m;
    var roster := RosterOf(rules.fold, Authors(upto), upto, current);
    var turn := TurnMessages(rules, upto[..i]) + [TurnMessage(m.id, m.author, m.content, Some(HUMAN_TOKEN))];
    FallsBackIff(rules, upto, current);
    RosterIsHistorical(rules, upto, current);
    assert IsTurn(rules, turn, t.messages, i);
  }

  // --------------------------------------------------------------------- the view as of a time

  function MessagesAsOf(messages: seq<Message>, cutoff: int): seq<Message> {
    if messages == [] then []
    else
      var front := MessagesAsOf(messages[..|messages| - 1], cutoff);
      if messages[|messages| - 1].timestamp <= cutoff then front + [messages[|messages| - 1]] else front
  }

  /** The view takes message by message, in order. */
  lemma {:induction false} AsOfConcat(a: seq<Message>, b: seq<Message>, cutoff: int)
    ensures MessagesAsOf(a + b, cutoff) == MessagesAsOf(a, cutoff) + MessagesAsOf(b, cutoff)
  {
    if b == [] {
      assert a + b == a;
    } else {
      assert (a + b)[..|a + b| - 1] == a + b[..|b| - 1];
      AsOfConcat(a, b[..|b| - 1], cutoff);
    }
  }

  lemma AsOfOne(m: Message, cutoff: int)
    ensures MessagesAsOf([m], cutoff) == if m.timestamp <= cutoff then [m] else []
  {
    assert [m][..0] == [];
  }

  function ViewAsOf(t: Thread, cutoff: int): Thread {
    t.(messages := MessagesAsOf(t.messages, cutoff))
  }

  function AsOf(threads: seq<Thread>, cutoff: int): seq<Thread> {
    if threads == [] then []
    else
      var front := AsOf(threads[..|threads| - 1], cutoff);
      var view := ViewAsOf(threads[|threads| - 1], cutoff);
      if view.messages == [] then front else front + [view]
  }

  ghost predicate AllBy(messages: seq<Message>, cutoff: int) {
    forall i :: 0 <= i < |messages| ==> messages[i].timestamp <= cutoff
  }

  ghost predicate AllAfter(messages: seq<Message>, cutoff: int) {
    forall i :: 0 <= i < |messages| ==> messages[i].timestamp > cutoff
  }

  /** The thread `u` is `t` with messages appended after the cutoff. */
  ghost predicate Continues(u: Thread, t: Thread, cutoff: int) {
    && u.project == t.project && u.id == t.id
    && t.messages <= u.messages
    && AllAfter(u.messages[|t.messages|..], cutoff)
  }

  /** Between the two harvests messages were only appended, and threads only opened, after the
      cutoff. The threads may be listed in any order. */
  ghost predicate GrownAfter(before: seq<Thread>, later: seq<Thread>, cutoff: int) {
    && DistinctThreads(before) && DistinctThreads(later)
    && (forall t :: t in before ==> AllBy(t.messages, cutoff))
    && (forall t :: t in before && t.messages != [] ==> exists u :: u in later && Continues(u, t, cutoff))
    && (forall u :: u in later ==>
          AllAfter(u.messages, cutoff) || exists t :: t in before && Continues(u, t, cutoff))
  }

  lemma {:induction false} MessagesRestored(messages: seq<Message>, n: nat, cutoff: int)
    requires n <= |messages|
    requires AllBy(messages[..n], cutoff) && AllAfter(messages[n..], cutoff)
    ensures MessagesAsOf(messages, cutoff) == messages[..n]
  {
    if messages != [] {
      var front, last := messages[..|messages| - 1], |messages| - 1;
      ShorterSplit(messages, n, cutoff);
      MessagesRestored(front, if n == |messages| then last else n, cutoff);
      assert front[..last] == front && messages[..|messages|] == messages;
      assert messages == front + [messages[last]];
    }
  }

  lemma ShorterSplit(messages: seq<Message>, n: nat, cutoff: int)
    requires messages != [] && n <= |messages|
    requires AllBy(messages[..n], cutoff) && AllAfter(messages[n..], cutoff)
    ensures var front, last := messages[..|messages| - 1], |messages| - 1;
            var m := if n == |messages| then last else n;
            && AllBy(front[..m], cutoff) && AllAfter(front[m..], cutoff)
            && front[..m] == messages[..m]
            && (messages[last].timestamp <= cutoff <==> n == |messages|)
  {
    var front, last := messages[..|messages| - 1], |messages| - 1;
    if n == |messages| {
      assert messages[..n][last] == messages[last];
      assert forall i :: 0 <= i < last ==> front[i] == messages[..n][i];
    } else {
      assert messages[n..][last - n] == messages[last];
      assert front[n..] == messages[n..][..last - n];
    }
  }

  lemma {:induction false} AsOfHolds(threads: seq<Thread>, cutoff: int, t: Thread)
    ensures t in AsOf(threads, cutoff)
       <==> t.messages != [] && exists u :: u in threads && ViewAsOf(u, cutoff) == t
  {
    if threads != [] {
      var front, last := threads[..|threads| - 1], threads[|threads| - 1];
      assert threads == front + [last];
      AsOfHolds(front, cutoff, t);
    }
  }

  lemma {:induction false} AsOfDistinct(threads: seq<Thread>, cutoff: int)
    requires DistinctThreads(threads)
    ensures DistinctThreads(AsOf(threads, cutoff))
  {
    if threads != [] {
      var front, last := threads[..|threads| - 1], threads[|threads| - 1];
      AsOfDistinct(front, cutoff);
      forall t | t in AsOf(front, cutoff) ensures t.project != last.project || t.id != last.id {
        AsOfHolds(front, cutoff, t);
        assert forall i :: 0 <= i < |front| ==> front[i] == threads[i];
      }
    }
  }

  lemma ContinuationRestored(t: Thread, u: Thread, cutoff: int)
    requires AllBy(t.messages, cutoff) && Continues(u, t, cutoff)
    ensures ViewAsOf(u, cutoff) == t
  {
    assert u.messages[..|t.messages|] == t.messages;
    MessagesRestored(u.messages, |t.messages|, cutoff);
  }

  lemma ViewIsRestored(before: seq<Thread>, later: seq<Thread>, cutoff: int)
    requires GrownAfter(before, later, cutoff)
    ensures SameNonEmpty(AsOf(later, cutoff), before)
  {
    forall t: Thread | t.messages != [] ensures t in AsOf(later, cutoff) <==> t in before {
      AsOfHolds(later, cutoff, t);
      if t in before {
        var u :| u in later && Continues(u, t, cutoff);
        ContinuationRestored(t, u, cutoff);
      }
      if u :| u in later && ViewAsOf(u, cutoff) == t {
        if AllAfter(u.messages, cutoff) {
          MessagesRestored(u.messages, 0, cutoff);
          assert false;
        }
        var s :| s in before && Continues(u, s, cutoff);
        ContinuationRestored(s, u, cutoff);
      }
    }
  }

  /** Rebuilding from the as-of view of any later harvest gives the outputs of the first harvest. */
  lemma RebuildIsIdentical(
    rules: Rules, before: seq<Thread>, later: seq<Thread>, cutoff: int, current: Roster,
    r: Result<Outputs, BuildError>, s: Result<Outputs, BuildError>)
    requires GrownAfter(before, later, cutoff)
    requires BuildsOutputs(rules, before, current, r)
    requires BuildsOutputs(rules, AsOf(later, cutoff), current, s)
    ensures r == s
  {
    ViewIsRestored(before, later, cutoff);
    AsOfDistinct(later, cutoff);
    OutputsIgnoreThreadOrder(rules, before, AsOf(later, cutoff), current, r, s);
  }

  // --------------------------------------------------------------------- a stamp taken after the harvest

  ghost predicate SameThread(u: Thread, t: Thread) {
    u.project == t.project && u.id == t.id
  }

  ghost predicate Extends(u: Thread, t: Thread) {
    SameThread(u, t) && t.messages <= u.messages
  }

  /** The history only grew from one harvest to the other, and the cutoff is not before any message of
      the first one. It is stamped after the first harvest, so messages that were posted between the
      fetch of their thread and the stamp are not excluded. */
  ghost predicate OnlyGrew(before: seq<Thread>, later: seq<Thread>, cutoff: int) {
    && DistinctThreads(before) && DistinctThreads(later)
    && (forall t :: t in before ==> AllBy(t.messages, cutoff))
    && (forall t :: t in before && t.messages != [] ==> exists u :: u in later && Extends(u, t))
  }

  /** The first harvest had fetched position `i` of the thread that `v` is a view of. */
  ghost predicate Fetched(before: seq<Thread>, v: Thread, i: nat) {
    exists t :: t in before && SameThread(v, t) && i < |t.messages|
  }

  /** The view has a row at a position that the first harvest had not fetched. */
  ghost predicate LateRow(rules: Rules, before: seq<Thread>, v: Thread, i: nat, current: Roster) {
    BuildsRow(rules, v, current, i) && !Fetched(before, v, i)
  }

  ghost predicate BuildsRow(rules: Rules, t: Thread, current: Roster, i: nat) {
    i < |t.messages| && RowAt(rules, t, i, current).Some?
  }

  lemma {:induction false} ViewKeepsPrefix(messages: seq<Message>, n: nat, cutoff: int)
    requires n <= |messages| && AllBy(messages[..n], cutoff)
    ensures messages[..n] <= MessagesAsOf(messages, cutoff)
  {
    if messages != [] {
      var front, last := messages[..|messages| - 1], |messages| - 1;
      if n == |messages| {
        assert messages[..n][last] == messages[last] && messages[..n] == front + [messages[last]];
        assert front[..last] == front;
        assert forall i :: 0 <= i < last ==> front[i] == messages[..n][i];
        ViewKeepsPrefix(front, last, cutoff);
        MessagesRestored(front, last, cutoff);
      } else {
        assert front[..n] == messages[..n];
        ViewKeepsPrefix(front, n, cutoff);
      }
    }
  }

  lemma SameThreadSame(threads: seq<Thread>, t: Thread, u: Thread)
    requires DistinctThreads(threads) && t in threads && u in threads && SameThread(t, u)
    ensures t == u
  {
    var i :| 0 <= i < |threads| && threads[i] == t;
    var j :| 0 <= j < |threads| && threads[j] == u;
    assert i == j;
  }

  /** Every non-empty thread of the first harvest is a prefix of its view. */
  lemma ViewOf(before: seq<Thread>, later: seq<Thread>, cutoff: int, t: Thread) returns (v: Thread)
    requires OnlyGrew(before, later, cutoff)
    requires t in before && t.messages != []
    ensures v in AsOf(later, cutoff) && Extends(v, t)
  {
    var u :| u in later && Extends(u, t);
    assert u.messages[..|t.messages|] == t.messages;
    ViewKeepsPrefix(u.messages, |t.messages|, cutoff);
    v := ViewAsOf(u, cutoff);
    AsOfHolds(later, cutoff, v);
  }

  lemma ViewExtends(before: seq<Thread>, later: seq<Thread>, cutoff: int, t: Thread, v: Thread)
    requires OnlyGrew(before, later, cutoff)
    requires t in before && t.messages != [] && v in AsOf(later, cutoff) && SameThread(v, t)
    ensures Extends(v, t)
  {
    var w := ViewOf(before, later, cutoff, t);
    AsOfDistinct(later, cutoff);
    SameThreadSame(AsOf(later, cutoff), v, w);
  }

  lemma FetchedRow(
    rules: Rules, before: seq<Thread>, later: seq<Thread>, cutoff: int, current: Roster, t: Thread, v: Thread, i: nat)
    requires OnlyGrew(before, later, cutoff)
    requires t in before && v in AsOf(later, cutoff) && SameThread(v, t) && i < |t.messages|
    ensures i < |v.messages| && RowAt(rules, v, i, current) == RowAt(rules, t, i, current)
  {
    ViewExtends(before, later, cutoff, t, v);
    assert v.messages[..|t.messages|] == t.messages;
    RowIgnoresLaterMessages(rules, t, v, i, current);
  }

  /** The rows of the first harvest are those of the view at the positions it had fetched. */
  lemma RowsOfView(
    rules: Rules, before: seq<Thread>, later: seq<Thread>, cutoff: int, current: Roster, row: Row)
    requires OnlyGrew(before, later, cutoff)
    ensures row in Everything(rules, before, current)
       <==> exists v :: v in AsOf(later, cutoff) && row in RowsOf(rules, v, current)
                     && Fetched(before, v, row.roundIndex)
  {
    var view := AsOf(later, cutoff);
    EverythingHolds(rules, before, current, row);
    if t :| t in before && row in RowsOf(rules, t, current) {
      RowsAreRowAt(rules, t, current, row);
      var v := ViewOf(before, later, cutoff, t);
      FetchedRow(rules, before, later, cutoff, current, t, v, row.roundIndex);
      RowsAreRowAt(rules, v, current, row);
      assert Fetched(before, v, row.roundIndex);
    }
    if v :| v in view && row in RowsOf(rules, v, current) && Fetched(before, v, row.roundIndex) {
      var t :| t in before && SameThread(v, t) && row.roundIndex < |t.messages|;
      RowsAreRowAt(rules, v, current, row);
      FetchedRow(rules, before, later, cutoff, current, t, v, row.roundIndex);
      RowsAreRowAt(rules, t, current, row);
    }
  }

  lemma ClashSurvives(rules: Rules, before: seq<Thread>, later: seq<Thread>, cutoff: int, current: Roster)
    requires OnlyGrew(before, later, cutoff)
    requires NoClash(rules, AsOf(later, cutoff), current)
    ensures NoClash(rules, before, current)
  {
    forall t, u | t in before && u in before && t != u ensures !Clash(rules, t, u, current) {
      if Clash(rules, t, u, current) {
        var r, s :| r in RowsOf(rules, t, current) && s in RowsOf(rules, u, current) && KeyOf(r) == KeyOf(s);
        var v := ViewHolds(rules, before, later, cutoff, current, t, r);
        var w := ViewHolds(rules, before, later, cutoff, current, u, s);
        assert KeysMeet(RowsOf(rules, v, current), RowsOf(rules, w, current));
        assert Clash(rules, v, w, current);
        if SameThread(t, u) {
          SameThreadSame(before, t, u);
        }
      }
    }
  }

  lemma ViewHolds(
    rules: Rules, before: seq<Thread>, later: seq<Thread>, cutoff: int, current: Roster, t: Thread, row: Row)
    returns (v: Thread)
    requires OnlyGrew(before, later, cutoff)
    requires t in before && row in RowsOf(rules, t, current)
    ensures v in AsOf(later, cutoff) && SameThread(v, t) && row in RowsOf(rules, v, current)
  {
    RowsAreRowAt(rules, t, current, row);
    v := ViewOf(before, later, cutoff, t);
    FetchedRow(rules, before, later, cutoff, current, t, v, row.roundIndex);
    RowsAreRowAt(rules, v, current, row);
  }

  /** Without a late row the view clashes only where the first harvest did. */
  lemma NoNewClash(rules: Rules, before: seq<Thread>, later: seq<Thread>, cutoff: int, current: Roster)
    requires OnlyGrew(before, later, cutoff)
    requires NoClash(rules, before, current)
    requires forall v, i :: v in AsOf(later, cutoff) ==> !LateRow(rules, before, v, i, current)
    ensures NoClash(rules, AsOf(later, cutoff), current)
  {
    var view := AsOf(later, cutoff);
    forall v, w | v in view && w in view && v != w ensures !Clash(rules, v, w, current) {
      if Clash(rules, v, w, current) {
        var r, s :| r in RowsOf(rules, v, current) && s in RowsOf(rules, w, current) && KeyOf(r) == KeyOf(s);
        var t := FetchedFrom(rules, before, later, cutoff, current, v, r);
        var u := FetchedFrom(rules, before, later, cutoff, current, w, s);
        assert KeysMeet(RowsOf(rules, t, current), RowsOf(rules, u, current));
        assert Clash(rules, t, u, current);
        AsOfDistinct(later, cutoff);
        if SameThread(v, w) {
          SameThreadSame(view, v, w);
        }
      }
    }
  }

  lemma FetchedFrom(
    rules: Rules, before: seq<Thread>, later: seq<Thread>, cutoff: int, current: Roster, v: Thread, row: Row)
    returns (t: Thread)
    requires OnlyGrew(before, later, cutoff)
    requires v in AsOf(later, cutoff) && row in RowsOf(rules, v, current)
    requires !LateRow(rules, before, v, row.roundIndex, current)
    ensures t in before && SameThread(v, t) && row in RowsOf(rules, t, current)
  {
    RowsAreRowAt(rules, v, current, row);
    assert BuildsRow(rules, v, current, row.roundIndex);
    t :| t in before && SameThread(v, t) && row.roundIndex < |t.messages|;
    FetchedRow(rules, before, later, cutoff, current, t, v, row.roundIndex);
    RowsAreRowAt(rules, t, current, row);
  }

  ghost predicate NoLateRow(rules: Rules, before: seq<Thread>, view: seq<Thread>, current: Roster) {
    forall v, i :: v in view ==> !LateRow(rules, before, v, i, current)
  }

  /** Rebuilding from the as-of view of a history that only grew gives what the first build gave, its
      refusal included, if and only if the first build was refused, or no message that it had not
      fetched and that the view holds builds a row. */
  lemma RebuildIsIdenticalIff(
    rules: Rules, before: seq<Thread>, later: seq<Thread>, cutoff: int, current: Roster,
    r: Result<Outputs, BuildError>, s: Result<Outputs, BuildError>)
    requires OnlyGrew(before, later, cutoff)
    requires BuildsOutputs(rules, before, current, r)
    requires BuildsOutputs(rules, AsOf(later, cutoff), current, s)
    ensures s == r <==> r.Err? || NoLateRow(rules, before, AsOf(later, cutoff), current)
    ensures r.Err? ==> s == r
  {
    var view := AsOf(later, cutoff);
    AsOfDistinct(later, cutoff);
    DistinctIffNoClash(rules, before, current);
    DistinctIffNoClash(rules, view, current);
    if NoClash(rules, view, current) {
      ClashSurvives(rules, before, later, cutoff, current);
    }
    if r.Ok? && NoLateRow(rules, before, view, current) {
      NoNewClash(rules, before, later, cutoff, current);
      NoLateSameRows(rules, before, later, cutoff, current);
      OutputsFromSameRows(Everything(rules, before, current), Everything(rules, view, current), r, s);
    }
    if r.Ok? && s == r {
      SameOutputsNoLate(rules, before, later, cutoff, current, r.value);
    }
  }

  lemma NoLateSameRows(rules: Rules, before: seq<Thread>, later: seq<Thread>, cutoff: int, current: Roster)
    requires OnlyGrew(before, later, cutoff)
    requires NoLateRow(rules, before, AsOf(later, cutoff), current)
    ensures forall row :: row in Everything(rules, before, current)
                     <==> row in Everything(rules, AsOf(later, cutoff), current)
  {
    var p, q := Everything(rules, before, current), Everything(rules, AsOf(later, cutoff), current);
    forall row ensures row in p <==> row in q {
      NoLateSameRow(rules, before, later, cutoff, current, row);
    }
  }

  lemma NoLateSameRow(
    rules: Rules, before: seq<Thread>, later: seq<Thread>, cutoff: int, current: Roster, row: Row)
    requires OnlyGrew(before, later, cutoff)
    requires NoLateRow(rules, before, AsOf(later, cutoff), current)
    ensures row in Everything(rules, before, current) <==> row in Everything(rules, AsOf(later, cutoff), current)
  {
    var view := AsOf(later, cutoff);
    RowsOfView(rules, before, later, cutoff, current, row);
    EverythingHolds(rules, view, current, row);
    if v :| v in view && row in RowsOf(rules, v, current) {
      RowsAreRowAt(rules, v, current, row);
      assert !LateRow(rules, before, v, row.roundIndex, current);
      assert Fetched(before, v, row.roundIndex);
    }
  }

  lemma SameOutputsNoLate(
    rules: Rules, before: seq<Thread>, later: seq<Thread>, cutoff: int, current: Roster, out: Outputs)
    requires OnlyGrew(before, later, cutoff)
    requires BuildsOutputs(rules, before, current, Ok(out))
    requires BuildsOutputs(rules, AsOf(later, cutoff), current, Ok(out))
    ensures NoLateRow(rules, before, AsOf(later, cutoff), current)
  {
    var view := AsOf(later, cutoff);
    SameElements(Everything(rules, before, current), out.population);
    SameElements(Everything(rules, view, current), out.population);
    forall v, i: nat | v in view && BuildsRow(rules, v, current, i) ensures Fetched(before, v, i) {
      var row := RowAt(rules, v, i, current).value;
      RowsAreRowAt(rules, v, current, row);
      EverythingHolds(rules, view, current, row);
      EverythingHolds(rules, before, current, row);
      var t :| t in before && row in RowsOf(rules, t, current);
      RowsAreRowAt(rules, t, current, row);
      RowDescribes(rules, t, i, current);
      RowDescribes(rules, v, i, current);
    }
  }

  /** So the rebuild is identical when whatever the first harvest missed was posted after the
      evaluation window. */
  lemma RebuildAfterTheWindow(
    rules: Rules, before: seq<Thread>, later: seq<Thread>, cutoff: int, current: Roster,
    r: Result<Outputs, BuildError>, s: Result<Outputs, BuildError>)
    requires OnlyGrew(before, later, cutoff)
    requires BuildsOutputs(rules, before, current, r)
    requires BuildsOutputs(rules, AsOf(later, cutoff), current, s)
    requires rules.evalSince <= rules.evalUntil
    requires forall v, i: nat :: v in AsOf(later, cutoff) && i < |v.messages| && !Fetched(before, v, i) ==>
               v.messages[i].timestamp > rules.evalUntil
    ensures s == r
  {
    RebuildIsIdenticalIff(rules, before, later, cutoff, current, r, s);
  }

  /** Rules under which everything goes to the human, with the window 10 to 20. */
  function Loud(): Rules {
    Rules(s => s, (c, r, n) => Handoff(true, None, true), c => None, (b, a, t) => None,
          (id, i, r, ms, g) => "", (h, r) => true, t => t, 10, 20)
  }

  const SEEN := Message("m", "a", "", 5, None, None)
  const MISSED := Message("n", "a", "", 15, None, None)

  /** It can differ: the message posted at 15 is not in the first harvest, which had fetched its thread
      by then, but is not after the stamp 16. */
  lemma RebuildCanDiffer() returns (before: seq<Thread>, later: seq<Thread>, r: Outputs, s: Outputs)
    ensures OnlyGrew(before, later, 16)
    ensures BuildsOutputs(Loud(), before, [], Ok(r)) && BuildsOutputs(Loud(), AsOf(later, 16), [], Ok(s))
    ensures r != s && r.fixture != s.fixture
  {
    var t, u := Thread("p", 1, [SEEN]), Thread("p", 1, [SEEN, MISSED]);
    before, later := [t], [u];
    MissedIsInView(u);
    OnlyMissedCame(t, u);
    OneThread(t);
    OneThread(u);
    var row := MissedBuilds(t, u);
    r, s := Outputs([], []), Outputs([row], [row]);
    OneRowOutputs(row);
  }

  lemma OnlyMissedCame(t: Thread, u: Thread)
    requires SameThread(u, t) && t.messages == [SEEN] && u.messages == [SEEN, MISSED]
    ensures OnlyGrew([t], [u], 16)
  {
    assert [SEEN, MISSED][..1] == [SEEN];
    assert Extends(u, t);
  }

  lemma MissedIsInView(u: Thread)
    requires u.messages == [SEEN, MISSED]
    ensures AsOf([u], 16) == [u]
  {
    assert [SEEN, MISSED][..1] == [SEEN] && [SEEN][..0] == [];
    assert MessagesAsOf([SEEN], 16) == [] + [SEEN];
    assert ViewAsOf(u, 16) == u;
    assert [u][..0] == [];
  }

  lemma MissedBuilds(t: Thread, u: Thread) returns (row: Row)
    requires t.messages == [SEEN] && u.messages == [SEEN, MISSED]
    ensures RowsOf(Loud(), t, []) == [] && RowsOf(Loud(), u, []) == [row]
    ensures !EvalPartOf(row).GateOnly?
  {
    assert RowAt(Loud(), t, 0, []) == None && RowAt(Loud(), u, 0, []) == None;
    row := RowAt(Loud(), u, 1, []).value;
    assert Collect(RowsAt(Loud(), u, []), 1) == [];
  }

  lemma OneRowOutputs(row: Row)
    requires !EvalPartOf(row).GateOnly?
    ensures IsOutputs([row], Ok(Outputs([row], [row])))
  {
    assert [row][..0] == [];
    assert Sort([row]) == [row] && Chosen([row]) == [row];
  }

  lemma OneThread(t: Thread)
    ensures Everything(Loud(), [t], []) == RowsOf(Loud(), t, [])
  {
    assert [t][..0] == [];
  }
}
