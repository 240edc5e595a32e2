/** Exporting the shadow evaluation set from the decision log, as of a point in time. */
module ShadowExport {
  import opened Wrappers

  datatype Message = Message(id: string, author: string, content: string, timestamp: int)

  /** A decision record; a column that is absent or empty is `None`, or false for `hasState`. */
  datatype LogRow = LogRow(
    threadId: string,
    latestMsgId: Option<string>,
    loggedAt: Option<int>,
    hasState: bool,
    routed: string,
    questionsVersion: string,
    rulesSha: string,
    gateKind: string,
    payload: string)
  {
    /** The id as text, as the exporter compares it. */
    function MsgId(): string {
      if latestMsgId.Some? then latestMsgId.value else "None"
    }
  }

  datatype Thread = Thread(project: string, messages: seq<Message>)

  /** What the shared parsers say of an author or a text. */
  datatype Reading = Reading(
    isHuman: string -> bool,
    isNotice: string -> bool,
    bounced: string -> Option<string>,
    endsThread: string -> bool)

  datatype Bucket =
    | NoPointInTime
    | Routed(to: string)
    | NotRegistered
    | RulesMismatch
    | RetryAdmit
    | Candidate
    | PostBounce
    | Held
    | Counted

  datatype ExportError =
    | DuplicateCandidates(msgIds: set<string>)
    | ThreadNotFetched(threadId: string)
    | NotInThread(msgId: string)

  const ROUTED_STOP := "stop"
  const REGISTERED_VERSION := "tierc-v4"
  const GATE_KIND_RETRY_ADMIT := "RETRY_ADMIT"
  const NOTICE_AUTHOR := "conductor-relay"
  const FOLLOWING_N := 3
  const PRIOR_N := 5
  const QUIET_AFTER := 72 * 60 * 60

  // --------------------------------------------------------------------- the cut

  predicate LoggedAfter(row: LogRow, asOf: int) {
    row.loggedAt.Some? && row.loggedAt.value > asOf
  }

  function CutRows(rows: seq<LogRow>, asOf: int): seq<LogRow> {
    if rows == [] then []
    else
      CutRows(rows[..|rows| - 1], asOf)
      + if LoggedAfter(rows[|rows| - 1], asOf) then [] else [rows[|rows| - 1]]
  }

  function CutThread(messages: seq<Message>, asOf: int): (r: seq<Message>)
    ensures forall m :: m in r <==> m in messages && m.timestamp <= asOf
  {
    if messages == [] then []
    else
      assert messages == messages[..|messages| - 1] + [messages[|messages| - 1]];
      CutThread(messages[..|messages| - 1], asOf)
      + if messages[|messages| - 1].timestamp <= asOf then [messages[|messages| - 1]] else []
  }

  /** The cuts take line by line, in order. */
  lemma {:induction false} CutThreadConcat(a: seq<Message>, b: seq<Message>, asOf: int)
    ensures CutThread(a + b, asOf) == CutThread(a, asOf) + CutThread(b, asOf)
  {
    if b == [] {
      assert a + b == a;
    } else {
      assert (a + b)[..|a + b| - 1] == a + b[..|b| - 1];
      CutThreadConcat(a, b[..|b| - 1], asOf);
    }
  }

  lemma CutThreadOne(m: Message, asOf: int)
    ensures CutThread([m], asOf) == if m.timestamp <= asOf then [m] else []
  {
    assert [m][..0] == [];
  }

  lemma {:induction false} CutRowsConcat(a: seq<LogRow>, b: seq<LogRow>, asOf: int)
    ensures CutRows(a + b, asOf) == CutRows(a, asOf) + CutRows(b, asOf)
  {
    if b == [] {
      assert a + b == a;
    } else {
      assert (a + b)[..|a + b| - 1] == a + b[..|b| - 1];
      CutRowsConcat(a, b[..|b| - 1], asOf);
    }
  }

  lemma CutRowsOne(row: LogRow, asOf: int)
    ensures CutRows([row], asOf) == if row.loggedAt.Some? && row.loggedAt.value > asOf then [] else [row]
  {
    assert [row][..0] == [];
  }

  // --------------------------------------------------------------------- candidates

  function Classify(row: LogRow, rulesSha: string): Bucket {
    if !row.hasState || row.latestMsgId == None || row.loggedAt == None then NoPointInTime
    else if row.routed != ROUTED_STOP then Routed(row.routed)
    else if row.questionsVersion != REGISTERED_VERSION then NotRegistered
    else if row.rulesSha != rulesSha then RulesMismatch
    else if row.gateKind == GATE_KIND_RETRY_ADMIT then RetryAdmit
    else Candidate
  }

  predicate IsCandidate(row: LogRow, rulesSha: string) {
    Classify(row, rulesSha) == Candidate
  }

  function CandidateRows(rows: seq<LogRow>, rulesSha: string): seq<LogRow> {
    if rows == [] then []
    else
      CandidateRows(rows[..|rows| - 1], rulesSha)
      + if IsCandidate(rows[|rows| - 1], rulesSha) then [rows[|rows| - 1]] else []
  }

  lemma {:induction false} CandidateRowsHold(rows: seq<LogRow>, rulesSha: string, row: LogRow)
    ensures row in CandidateRows(rows, rulesSha) <==> row in rows && IsCandidate(row, rulesSha)
  {
    if rows != [] {
      CandidateRowsHold(rows[..|rows| - 1], rulesSha, row);
      assert rows == rows[..|rows| - 1] + [rows[|rows| - 1]];
    }
  }

  function OtherBuckets(rows: seq<LogRow>, rulesSha: string): multiset<Bucket> {
    if rows == [] then multiset{}
    else
      OtherBuckets(rows[..|rows| - 1], rulesSha)
      + if IsCandidate(rows[|rows| - 1], rulesSha) then multiset{} else multiset{Classify(rows[|rows| - 1], rulesSha)}
  }

  ghost predicate OnePerMessage(rows: seq<LogRow>) {
    forall i, j :: 0 <= i < j < |rows| ==> rows[i].MsgId() != rows[j].MsgId()
  }

  ghost predicate Repeats(rows: seq<LogRow>, id: string) {
    exists i, j :: 0 <= i < j < |rows| && rows[i].MsgId() == id == rows[j].MsgId()
  }

  /** The refusal names exactly the messages with more than one candidate. */
  ghost predicate RefusesRepeats(rows: seq<LogRow>, e: ExportError) {
    e.DuplicateCandidates? && forall id :: id in e.msgIds <==> Repeats(rows, id)
  }

  method Candidates(rows: seq<LogRow>, rulesSha: string)
    returns (r: Result<(seq<LogRow>, multiset<Bucket>), ExportError>)
    ensures r.Ok? <==> OnePerMessage(CandidateRows(rows, rulesSha))
    ensures r.Err? ==> RefusesRepeats(CandidateRows(rows, rulesSha), r.error)
    ensures r.Ok? ==> r.value == (CandidateRows(rows, rulesSha), OtherBuckets(rows, rulesSha))
  {
    var counts: multiset<Bucket>, out: seq<LogRow> := multiset{}, [];
    for i := 0 to |rows|
      invariant out == CandidateRows(rows[..i], rulesSha)
      invariant counts == OtherBuckets(rows[..i], rulesSha)
    {
      assert rows[..i + 1][..i] == rows[..i];
      var bucket := Classify(rows[i], rulesSha);
      if bucket == Candidate {
        out := out + [rows[i]];
      } else {
        counts := counts + multiset{bucket};
      }
    }
    assert rows[..|rows|] == rows;
    var dup := DuplicateMessages(out);
    if dup != {} {
      ghost var id :| id in dup;
      return Err(DuplicateCandidates(dup));
    }
    return Ok((out, counts));
  }

  method DuplicateMessages(rows: seq<LogRow>) returns (dup: set<string>)
    ensures forall id :: id in dup <==> Repeats(rows, id)
    ensures dup == {} <==> OnePerMessage(rows)
  {
    var seen: set<string> := {};
    dup := {};
    for i := 0 to |rows|
      invariant forall id :: id in seen <==> exists j :: 0 <= j < i && rows[j].MsgId() == id
      invariant forall id :: id in dup <==> Repeats(rows[..i], id)
    {
      RepeatsStep(rows, i);
      var id := rows[i].MsgId();
      if id in seen {
        dup := dup + {id};
      }
      seen := seen + {id};
    }
    assert rows[..|rows|] == rows;
    if !OnePerMessage(rows) {
      ghost var i, j :| 0 <= i < j < |rows| && rows[i].MsgId() == rows[j].MsgId();
      assert Repeats(rows, rows[i].MsgId());
    }
  }

  lemma RepeatsStep(rows: seq<LogRow>, i: nat)
    requires i < |rows|
    ensures forall id ::
              Repeats(rows[..i + 1], id)
              <==> Repeats(rows[..i], id)
                   || (id == rows[i].MsgId() && exists j :: 0 <= j < i && rows[j].MsgId() == id)
  {
    var longer, shorter := rows[..i + 1], rows[..i];
    assert longer == shorter + [rows[i]];
    forall id | Repeats(shorter, id) ensures Repeats(longer, id) {
      var p, q :| 0 <= p < q < i && shorter[p].MsgId() == id == shorter[q].MsgId();
      assert longer[p].MsgId() == id == longer[q].MsgId();
    }
    forall j | 0 <= j < i && rows[j].MsgId() == rows[i].MsgId() ensures Repeats(longer, rows[i].MsgId()) {
      assert longer[j] == rows[j] && longer[i] == rows[i];
    }
  }

  // --------------------------------------------------------------------- the thread side

  ghost predicate FirstAt(messages: seq<Message>, id: string, i: nat) {
    && i < |messages| && messages[i].id == id
    && forall j :: 0 <= j < i ==> messages[j].id != id
  }

  ghost function Place(messages: seq<Message>, id: string): (r: Option<nat>)
    ensures r.Some? ==> FirstAt(messages, id, r.value)
    ensures r == None ==> forall j :: 0 <= j < |messages| ==> messages[j].id != id
  {
    if i: nat :| FirstAt(messages, id, i) then Some(i)
    else
      NoFirst(messages, id);
      None
  }

  lemma {:induction false} NoFirst(messages: seq<Message>, id: string)
    requires forall i: nat :: !FirstAt(messages, id, i)
    ensures forall j :: 0 <= j < |messages| ==> messages[j].id != id
  {
    if messages != [] {
      var front := messages[..|messages| - 1];
      forall i: nat ensures !FirstAt(front, id, i) {
        if FirstAt(front, id, i) {
          assert FirstAt(messages, id, i);
        }
      }
      NoFirst(front, id);
      assert !FirstAt(messages, id, |messages| - 1);
    }
  }

  method Position(messages: seq<Message>, id: string) returns (r: Result<nat, ExportError>)
    ensures r == match Place(messages, id) case Some(i) => Ok(i) case None => Err(NotInThread(id))
  {
    for i := 0 to |messages|
      invariant forall j :: 0 <= j < i ==> messages[j].id != id
    {
      if messages[i].id == id {
        assert FirstAt(messages, id, i);
        return Ok(i);
      }
    }
    return Err(NotInThread(id));
  }

  /** The author of the last of these messages with the id. */
  function AuthorOf(messages: seq<Message>, id: string): Option<string> {
    if messages == [] then None
    else if messages[|messages| - 1].id == id then Some(messages[|messages| - 1].author)
    else AuthorOf(messages[..|messages| - 1], id)
  }

  /** Message `j` is the conductor's notice that it bounced a message by the author of message `i`. */
  predicate NoticeFor(reading: Reading, thread: seq<Message>, i: nat, j: nat)
    requires j < i < |thread|
  {
    && thread[j].author == NOTICE_AUTHOR
    && reading.isNotice(thread[j].content)
    && var named := reading.bounced(thread[j].content);
    && named.Some? && AuthorOf(thread[..i], named.value) == Some(thread[i].author)
  }

  ghost predicate NoHumanIn(reading: Reading, thread: seq<Message>, j: nat, i: nat)
    requires i <= |thread|
  {
    forall k :: j <= k < i ==> !reading.isHuman(thread[k].author)
  }

  /** Some bounce notice for the author stands before `i`, and no human posted since. */
  ghost predicate ContinuesChain(reading: Reading, thread: seq<Message>, i: nat)
    requires i < |thread|
  {
    exists j: nat :: j < i && NoticeFor(reading, thread, i, j) && NoHumanIn(reading, thread, j, i)
  }

  method ContinuesBounceChain(reading: Reading, thread: seq<Message>, i: nat) returns (r: bool)
    requires i < |thread|
    ensures r == ContinuesChain(reading, thread, i)
  {
    var author := thread[i].author;
    for j := i downto 0
      invariant NoHumanIn(reading, thread, j, i)
      invariant forall k: nat :: j <= k < i ==> !NoticeFor(reading, thread, i, k)
    {
      var m := thread[j];
      if reading.isHuman(m.author) {
        return false;
      }
      if m.author == NOTICE_AUTHOR && reading.isNotice(m.content) {
        var named := reading.bounced(m.content);
        if named.Some? && AuthorOf(thread[..i], named.value) == Some(author) {
          assert NoticeFor(reading, thread, i, j);
          return true;
        }
      }
    }
    return false;
  }

  predicate FollowingReady(reading: Reading, thread: seq<Message>, i: nat, asOf: int)
    requires i < |thread|
  {
    var last := thread[|thread| - 1];
    || |thread| - (i + 1) >= FOLLOWING_N
    || reading.endsThread(last.content)
    || asOf - last.timestamp >= QUIET_AFTER
  }

  // --------------------------------------------------------------------- the export

  /** One counted row: what its line in each of the three files is written from. */
  datatype Exported = Exported(
    row: LogRow,
    project: string,
    position: nat,
    head: Message,
    prior: seq<Message>,
    following: seq<Message>)

  datatype Export = Export(exported: seq<Exported>, rowsUpToAsOf: nat, buckets: multiset<Bucket>)

  function ExportedAt(row: LogRow, thread: Thread, i: nat): Exported
    requires i < |thread.messages|
  {
    var ms := thread.messages;
    var first := if i < PRIOR_N then 0 else i - PRIOR_N;
    var end := if i + 1 + FOLLOWING_N <= |ms| then i + 1 + FOLLOWING_N else |ms|;
    Exported(row, thread.project, i, ms[i], ms[first..i], ms[i + 1..end])
  }

  function View(thread: Thread, asOf: int): Thread {
    thread.(messages := CutThread(thread.messages, asOf))
  }

  type Tally = (multiset<Bucket>, seq<Exported>)
  type Decided = Result<(Bucket, seq<Exported>), ExportError>
  type Decision = LogRow -> Decided

  /** What becomes of one candidate. */
  ghost function Outcome(reading: Reading, threads: map<string, Thread>, asOf: int, row: LogRow):
    Result<(Bucket, seq<Exported>), ExportError>
  {
    if row.threadId !in threads then Err(ThreadNotFetched(row.threadId))
    else
      var view := View(threads[row.threadId], asOf);
      match Place(view.messages, row.MsgId())
      case None => Err(NotInThread(row.MsgId()))
      case Some(i) =>
        if ContinuesChain(reading, view.messages, i) then Ok((PostBounce, []))
        else if FollowingReady(reading, view.messages, i, asOf) then Ok((Counted, [ExportedAt(row, view, i)]))
        else Ok((Held, []))
  }

  ghost function Add(
    t: Result<Tally, ExportError>, o: Result<(Bucket, seq<Exported>), ExportError>): Result<Tally, ExportError> {
    if t.Err? then Err(t.error)
    else if o.Err? then Err(o.error)
    else Ok((t.value.0 + multiset{o.value.0}, t.value.1 + o.value.1))
  }

  ghost function Deciding(reading: Reading, threads: map<string, Thread>, asOf: int): Decision {
    row => Outcome(reading, threads, asOf, row)
  }

  /** What becomes of all of them, in log order; the first error ends the export. */
  ghost function Outcomes(decide: Decision, rows: seq<LogRow>): Result<Tally, ExportError>
  {
    if rows == [] then Ok((multiset{}, []))
    else
      var front, last := rows[..|rows| - 1], rows[|rows| - 1];
      assert rows == front + [last];
      Add(Outcomes(decide, front), decide(last))
  }

  lemma OutcomesSnoc(decide: Decision, front: seq<LogRow>, last: LogRow)
    ensures Outcomes(decide, front + [last]) == Add(Outcomes(decide, front), decide(last))
  {
    assert (front + [last])[..|front|] == front;
  }

  ghost predicate IsExport(
    reading: Reading, rows: seq<LogRow>, rulesSha: string, threads: map<string, Thread>, asOf: int,
    r: Result<Export, ExportError>)
  {
    IsExportOfCut(reading, CutRows(rows, asOf), rulesSha, threads, asOf, r)
  }

  ghost predicate IsExportOfCut(
    reading: Reading, kept: seq<LogRow>, rulesSha: string, threads: map<string, Thread>, asOf: int,
    r: Result<Export, ExportError>)
  {
    var cands := CandidateRows(kept, rulesSha);
    if !OnePerMessage(cands) then r.Err? && RefusesRepeats(cands, r.error)
    else
      match Outcomes(Deciding(reading, threads, asOf), cands)
      case Err(e) => r == Err(e)
      case Ok(t) => r == Ok(Export(t.1, |kept|, OtherBuckets(kept, rulesSha) + t.0))
  }

  method Decide(reading: Reading, threads: map<string, Thread>, asOf: int, row: LogRow)
    returns (r: Result<(Bucket, seq<Exported>), ExportError>)
    ensures r == Outcome(reading, threads, asOf, row)
  {
    if row.threadId !in threads {
      return Err(ThreadNotFetched(row.threadId));
    }
    var view := View(threads[row.threadId], asOf);
    var at := Position(view.messages, row.MsgId());
    if at.Err? {
      return Err(at.error);
    }
    var i := at.value;
    var bounced := ContinuesBounceChain(reading, view.messages, i);
    if bounced {
      return Ok((PostBounce, []));
    }
    if !FollowingReady(reading, view.messages, i, asOf) {
      return Ok((Held, []));
    }
    return Ok((Counted, [ExportedAt(row, view, i)]));
  }

  lemma {:induction false} ErrorStays(decide: Decision, rows: seq<LogRow>, n: nat)
    requires n <= |rows|
    requires Outcomes(decide, rows[..n]).Err?
    ensures Outcomes(decide, rows) == Outcomes(decide, rows[..n])
  {
    if n == |rows| {
      assert rows[..n] == rows;
    } else {
      var front := rows[..|rows| - 1];
      assert front[..n] == rows[..n];
      ErrorStays(decide, front, n);
    }
  }

  lemma DecideStep(decide: Decision, cands: seq<LogRow>, i: nat, counts: multiset<Bucket>, exported: seq<Exported>)
    requires i < |cands|
    requires Outcomes(decide, cands[..i]) == Ok((counts, exported))
    ensures var o := decide(cands[i]);
            if o.Err? then Outcomes(decide, cands) == Err(o.error)
            else Outcomes(decide, cands[..i + 1]) == Ok((counts + multiset{o.value.0}, exported + o.value.1))
  {
    assert cands[..i + 1] == cands[..i] + [cands[i]];
    OutcomesSnoc(decide, cands[..i], cands[i]);
    if decide(cands[i]).Err? {
      ErrorStays(decide, cands, i + 1);
    }
  }

  /** The loop over the candidates. */
  method DecideAll(reading: Reading, threads: map<string, Thread>, asOf: int, cands: seq<LogRow>)
    returns (r: Result<Tally, ExportError>)
    ensures r == Outcomes(Deciding(reading, threads, asOf), cands)
  {
    var counts: multiset<Bucket>, exported: seq<Exported> := multiset{}, [];
    ghost var decide := Deciding(reading, threads, asOf);
    for i := 0 to |cands|
      invariant Outcomes(decide, cands[..i]) == Ok((counts, exported))
    {
      var o := Decide(reading, threads, asOf, cands[i]);
      assert o == decide(cands[i]);
      DecideStep(decide, cands, i, counts, exported);
      if o.Err? {
        return Err(o.error);
      }
      counts := counts + multiset{o.value.0};
      exported := exported + o.value.1;
    }
    assert cands[..|cands|] == cands;
    return Ok((counts, exported));
  }

  method BuildOutputs(reading: Reading, rows: seq<LogRow>, rulesSha: string, threads: map<string, Thread>, asOf: int)
    returns (r: Result<Export, ExportError>)
    ensures IsExport(reading, rows, rulesSha, threads, asOf, r)
  {
    var kept := CutRows(rows, asOf);
    var split := Candidates(kept, rulesSha);
    if split.Err? {
      return Err(split.error);
    }
    var decided := DecideAll(reading, threads, asOf, split.value.0);
    if decided.Err? {
      return Err(decided.error);
    }
    return Ok(Export(decided.value.1, |kept|, split.value.1 + decided.value.0));
  }

  // --------------------------------------------------------------------- the point in time

  lemma {:induction false} CutRowsAppend(rows: seq<LogRow>, more: seq<LogRow>, asOf: int)
    ensures CutRows(rows, asOf) <= CutRows(rows + more, asOf)
    ensures |CutRows(rows + more, asOf)| == |CutRows(rows, asOf)| + |CutRows(more, asOf)|
    ensures CutRows(more, asOf) == [] <==> forall row :: row in more ==> LoggedAfter(row, asOf)
  {
    if more == [] {
      assert rows + more == rows;
    } else {
      var front, last := more[..|more| - 1], more[|more| - 1];
      assert more == front + [last];
      assert (rows + more)[..|rows + more| - 1] == rows + front;
      CutRowsAppend(rows, front, asOf);
    }
  }

  lemma {:induction false} CutThreadAppend(messages: seq<Message>, more: seq<Message>, asOf: int)
    requires forall m :: m in more ==> m.timestamp > asOf
    ensures CutThread(messages + more, asOf) == CutThread(messages, asOf)
  {
    if more == [] {
      assert messages + more == messages;
    } else {
      var front := more[..|more| - 1];
      assert more[|more| - 1] in more;
      assert (messages + more)[..|messages + more| - 1] == messages + front;
      CutThreadAppend(messages, front, asOf);
    }
  }

  /** The threads have grown after `asOf`: messages were appended to them, and threads opened. */
  ghost predicate GrownAfter(before: map<string, Thread>, later: map<string, Thread>, asOf: int) {
    forall id :: id in later ==>
      if id in before then
        && later[id].project == before[id].project
        && before[id].messages <= later[id].messages
        && forall m :: m in later[id].messages[|before[id].messages|..] ==> m.timestamp > asOf
      else forall m :: m in later[id].messages ==> m.timestamp > asOf
  }

  lemma SameView(before: Thread, later: Thread, asOf: int)
    requires later.project == before.project && before.messages <= later.messages
    requires forall m :: m in later.messages[|before.messages|..] ==> m.timestamp > asOf
    ensures View(later, asOf) == View(before, asOf)
  {
    assert later.messages == before.messages + later.messages[|before.messages|..];
    CutThreadAppend(before.messages, later.messages[|before.messages|..], asOf);
  }

  /** The same result, except that a thread which was not fetched before may fail differently. */
  ghost predicate Settled<T>(before: Result<T, ExportError>, later: Result<T, ExportError>) {
    if before.Ok? || !before.error.ThreadNotFetched? then later == before else later.Err?
  }

  lemma OutcomeIsStable(
    reading: Reading, before: map<string, Thread>, later: map<string, Thread>, asOf: int, row: LogRow)
    requires before.Keys <= later.Keys && GrownAfter(before, later, asOf)
    ensures Settled(Outcome(reading, before, asOf, row), Outcome(reading, later, asOf, row))
  {
    if row.threadId in before {
      SameView(before[row.threadId], later[row.threadId], asOf);
    } else if row.threadId in later {
      CutThreadAppend([], later[row.threadId].messages, asOf);
      assert [] + later[row.threadId].messages == later[row.threadId].messages;
    }
  }

  lemma {:induction false} OutcomesAreStable(f: Decision, g: Decision, rows: seq<LogRow>)
    requires forall row :: Settled(f(row), g(row))
    ensures Settled(Outcomes(f, rows), Outcomes(g, rows))
  {
    if rows != [] {
      OutcomesAreStable(f, g, rows[..|rows| - 1]);
    }
  }

  /** An export that succeeded gives the same result, on the same `asOf`, after the threads have
      grown and more rows were logged, if and only if each new row says it was logged after
      `asOf`: a new row without a time would be counted. With such rows an export that failed keeps
      its error, unless a thread was missing that has been opened since. */
  lemma ExportIsStable(
    reading: Reading, rows: seq<LogRow>, more: seq<LogRow>, rulesSha: string,
    before: map<string, Thread>, later: map<string, Thread>, asOf: int,
    r: Result<Export, ExportError>, r': Result<Export, ExportError>)
    requires before.Keys <= later.Keys && GrownAfter(before, later, asOf)
    requires IsExport(reading, rows, rulesSha, before, asOf, r)
    requires IsExport(reading, rows + more, rulesSha, later, asOf, r')
    ensures r.Ok? ==> (r' == r <==> forall row :: row in more ==> LoggedAfter(row, asOf))
    ensures (forall row :: row in more ==> LoggedAfter(row, asOf)) ==> Settled(r, r')
  {
    CutRowsAppend(rows, more, asOf);
    var kept := CutRows(rows, asOf);
    var f, g := Deciding(reading, before, asOf), Deciding(reading, later, asOf);
    forall row ensures Settled(f(row), g(row)) {
      OutcomeIsStable(reading, before, later, asOf, row);
    }
    OutcomesAreStable(f, g, CandidateRows(kept, rulesSha));
    if forall row :: row in more ==> LoggedAfter(row, asOf) {
      assert CutRows(rows + more, asOf) == kept;
      if r.Err? && r.error.DuplicateCandidates? && r'.Err? && r'.error.DuplicateCandidates? {
        assert r.error.msgIds == r'.error.msgIds;
      }
    } else if r.Ok? && r'.Ok? {
      assert r'.value.rowsUpToAsOf > r.value.rowsUpToAsOf;
    }
  }

  // --------------------------------------------------------------------- one bucket each

  /** The bucket of a row that survived the cut. */
  ghost function FinalBucket(decide: Decision, rulesSha: string, row: LogRow): Bucket {
    if !IsCandidate(row, rulesSha) then Classify(row, rulesSha)
    else
      match decide(row)
      case Ok(o) => o.0
      case Err(_) => Candidate
  }

  ghost function FinalBuckets(decide: Decision, rulesSha: string, rows: seq<LogRow>): (r: multiset<Bucket>)
    ensures |r| == |rows|
  {
    if rows == [] then multiset{}
    else
      FinalBuckets(decide, rulesSha, rows[..|rows| - 1])
      + multiset{FinalBucket(decide, rulesSha, rows[|rows| - 1])}
  }

  /** A decision puts a row in a bucket of its own, and exports it when it counts it. */
  ghost predicate Decides(decide: Decision) {
    forall row :: decide(row).Ok? ==>
      decide(row).value.0 != Candidate && |decide(row).value.1| == if decide(row).value.0 == Counted then 1 else 0
  }

  lemma {:induction false} BucketsAreFinal(decide: Decision, rulesSha: string, rows: seq<LogRow>)
    requires Outcomes(decide, CandidateRows(rows, rulesSha)).Ok?
    ensures OtherBuckets(rows, rulesSha) + Outcomes(decide, CandidateRows(rows, rulesSha)).value.0
         == FinalBuckets(decide, rulesSha, rows)
  {
    if rows != [] {
      var front, last := rows[..|rows| - 1], rows[|rows| - 1];
      var cands := CandidateRows(front, rulesSha);
      if IsCandidate(last, rulesSha) {
        OutcomesSnoc(decide, cands, last);
        BucketsAreFinal(decide, rulesSha, front);
        CandidateStep(OtherBuckets(front, rulesSha), Outcomes(decide, cands).value.0, decide(last).value.0);
      } else {
        assert CandidateRows(rows, rulesSha) == cands;
        BucketsAreFinal(decide, rulesSha, front);
        OtherStep(OtherBuckets(front, rulesSha), Outcomes(decide, cands).value.0, Classify(last, rulesSha));
      }
    }
  }

  lemma CandidateStep(others: multiset<Bucket>, decided: multiset<Bucket>, b: Bucket)
    ensures (others + multiset{}) + (decided + multiset{b}) == (others + decided) + multiset{b}
  {
  }

  lemma OtherStep(others: multiset<Bucket>, decided: multiset<Bucket>, b: Bucket)
    ensures (others + multiset{b}) + decided == (others + decided) + multiset{b}
  {
  }

  lemma {:induction false} OthersAreOther(rows: seq<LogRow>, rulesSha: string)
    ensures Candidate !in OtherBuckets(rows, rulesSha) && Counted !in OtherBuckets(rows, rulesSha)
  {
    if rows != [] {
      OthersAreOther(rows[..|rows| - 1], rulesSha);
    }
  }

  lemma {:induction false} CountedAreExported(decide: Decision, rows: seq<LogRow>)
    requires Decides(decide)
    requires Outcomes(decide, rows).Ok?
    ensures Candidate !in Outcomes(decide, rows).value.0
    ensures Outcomes(decide, rows).value.0[Counted] == |Outcomes(decide, rows).value.1|
  {
    if rows != [] {
      CountedAreExported(decide, rows[..|rows| - 1]);
    }
  }

  lemma OneDecides(reading: Reading, threads: map<string, Thread>, asOf: int, row: LogRow)
    requires Outcome(reading, threads, asOf, row).Ok?
    ensures Outcome(reading, threads, asOf, row).value.0 in {PostBounce, Held, Counted}
    ensures |Outcome(reading, threads, asOf, row).value.1|
         == if Outcome(reading, threads, asOf, row).value.0 == Counted then 1 else 0
  {
  }

  lemma OutcomeDecides(reading: Reading, threads: map<string, Thread>, asOf: int)
    ensures Decides(Deciding(reading, threads, asOf))
  {
    var decide := Deciding(reading, threads, asOf);
    forall row | decide(row).Ok?
      ensures decide(row).value.0 != Candidate
      ensures |decide(row).value.1| == if decide(row).value.0 == Counted then 1 else 0
    {
      OneDecides(reading, threads, asOf, row);
    }
  }

  /** Every row up to `asOf` is counted in exactly one bucket, none of them is left a candidate, and
      the counted ones are the exported ones. */
  lemma EachRowInOneBucket(
    reading: Reading, rows: seq<LogRow>, rulesSha: string, threads: map<string, Thread>, asOf: int, e: Export)
    requires IsExport(reading, rows, rulesSha, threads, asOf, Ok(e))
    ensures e.buckets == FinalBuckets(Deciding(reading, threads, asOf), rulesSha, CutRows(rows, asOf))
    ensures |e.buckets| == e.rowsUpToAsOf == |CutRows(rows, asOf)|
    ensures e.buckets[Counted] == |e.exported|
    ensures Candidate !in e.buckets
  {
    var decide, kept := Deciding(reading, threads, asOf), CutRows(rows, asOf);
    OutcomeDecides(reading, threads, asOf);
    BucketsAreFinal(decide, rulesSha, kept);
    OthersAreOther(kept, rulesSha);
    CountedAreExported(decide, CandidateRows(kept, rulesSha));
  }

  // --------------------------------------------------------------------- what is exported

  ghost predicate ExportedFrom(
    reading: Reading, threads: map<string, Thread>, asOf: int, row: LogRow, x: Exported)
  {
    && row.threadId in threads
    && var view := View(threads[row.threadId], asOf);
    && FirstAt(view.messages, row.MsgId(), x.position)
    && x == ExportedAt(row, view, x.position)
    && !ContinuesChain(reading, view.messages, x.position)
    && FollowingReady(reading, view.messages, x.position, asOf)
  }

  lemma {:induction false} ExportedAre(decide: Decision, rows: seq<LogRow>, x: Exported)
    requires Outcomes(decide, rows).Ok?
    ensures x in Outcomes(decide, rows).value.1
       <==> exists row :: row in rows && decide(row).Ok? && x in decide(row).value.1
  {
    if rows != [] {
      var front, last := rows[..|rows| - 1], rows[|rows| - 1];
      assert rows == front + [last];
      ExportedAre(decide, front, x);
    }
  }

  lemma {:induction false} AllDecided(decide: Decision, rows: seq<LogRow>)
    requires Outcomes(decide, rows).Ok?
    ensures forall row :: row in rows ==> decide(row).Ok?
  {
    if rows != [] {
      var front, last := rows[..|rows| - 1], rows[|rows| - 1];
      assert rows == front + [last];
      AllDecided(decide, front);
    }
  }

  lemma LastExported(reading: Reading, threads: map<string, Thread>, asOf: int, row: LogRow, x: Exported)
    requires Outcome(reading, threads, asOf, row).Ok?
    ensures x in Outcome(reading, threads, asOf, row).value.1
       <==> x.row == row && ExportedFrom(reading, threads, asOf, row, x)
  {
  }

  /** At position `i` of the cut thread a labeller has what it takes: three later messages, or a thread
      that ended, or one that was quiet for 72 hours. */
  ghost predicate Labellable(reading: Reading, messages: seq<Message>, i: nat, asOf: int) {
    && i < |messages|
    && (|| i + 3 < |messages|
        || reading.endsThread(messages[|messages| - 1].content)
        || messages[|messages| - 1].timestamp <= asOf - 72 * 3600)
  }

  /** A bounce notice for the author of message `i` stands before it, and since then no human wrote. */
  ghost predicate Bounced(reading: Reading, messages: seq<Message>, i: nat) {
    && i < |messages|
    && exists j, id ::
         && 0 <= j < i && messages[j].author == "conductor-relay" && reading.isNotice(messages[j].content)
         && reading.bounced(messages[j].content) == Some(id)
         && LastWrittenBy(messages[..i], id, messages[i].author)
         && forall k :: j <= k < i ==> !reading.isHuman(messages[k].author)
  }

  /** The last of these messages with the id is by the author. */
  ghost predicate LastWrittenBy(messages: seq<Message>, id: string, author: string) {
    exists i :: 0 <= i < |messages| && messages[i].id == id && messages[i].author == author
             && forall j :: i < j < |messages| ==> messages[j].id != id
  }

  lemma {:induction false} AuthorIsLast(messages: seq<Message>, id: string, author: string)
    ensures AuthorOf(messages, id) == Some(author) <==> LastWrittenBy(messages, id, author)
  {
    if messages != [] {
      var n := |messages| - 1;
      AuthorIsLast(messages[..n], id, author);
      if messages[n].id != id {
        if i :| 0 <= i < |messages| && messages[i].id == id && messages[i].author == author
                && forall j :: i < j < |messages| ==> messages[j].id != id {
          assert messages[..n][i] == messages[i];
        }
        if LastWrittenBy(messages[..n], id, author) {
          var i :| 0 <= i < n && messages[..n][i].id == id && messages[..n][i].author == author
                   && forall j :: i < j < n ==> messages[..n][j].id != id;
          assert forall j :: i < j < |messages| ==> j == n || messages[..n][j] == messages[j];
        }
      }
    }
  }

  lemma BouncedIff(reading: Reading, messages: seq<Message>, i: nat)
    requires i < |messages|
    ensures Bounced(reading, messages, i) <==> ContinuesChain(reading, messages, i)
  {
    forall j: nat | j < i
      ensures NoticeFor(reading, messages, i, j)
         <==> && messages[j].author == "conductor-relay" && reading.isNotice(messages[j].content)
              && exists id :: reading.bounced(messages[j].content) == Some(id)
                           && LastWrittenBy(messages[..i], id, messages[i].author)
    {
      var named := reading.bounced(messages[j].content);
      if named.Some? {
        AuthorIsLast(messages[..i], named.value, messages[i].author);
      }
    }
    if ContinuesChain(reading, messages, i) {
      var j: nat :| j < i && NoticeFor(reading, messages, i, j) && NoHumanIn(reading, messages, j, i);
      var id := reading.bounced(messages[j].content).value;
      assert LastWrittenBy(messages[..i], id, messages[i].author);
    }
    if Bounced(reading, messages, i) {
      var j, id :| && 0 <= j < i && messages[j].author == "conductor-relay" && reading.isNotice(messages[j].content)
                   && reading.bounced(messages[j].content) == Some(id)
                   && LastWrittenBy(messages[..i], id, messages[i].author)
                   && forall k :: j <= k < i ==> !reading.isHuman(messages[k].author);
      assert NoticeFor(reading, messages, i, j) && NoHumanIn(reading, messages, j, i);
    }
  }

  /** The row passes every test of the log, in the open. */
  ghost predicate Registered(row: LogRow, rulesSha: string) {
    && row.hasState && row.latestMsgId.Some? && row.loggedAt.Some?
    && row.routed == "stop" && row.questionsVersion == "tierc-v4"
    && row.rulesSha == rulesSha && row.gateKind != "RETRY_ADMIT"
  }

  /** The export holds exactly the rows logged by `asOf` that stopped under the registered questions
      and rules, were not a retry, do not continue a bounce chain and can be labelled; each with the
      messages the thread held by `asOf`. */
  lemma ExportedIff(
    reading: Reading, rows: seq<LogRow>, rulesSha: string, threads: map<string, Thread>, asOf: int,
    e: Export, x: Exported)
    requires IsExport(reading, rows, rulesSha, threads, asOf, Ok(e))
    ensures x in e.exported
       <==> && x.row in rows && Registered(x.row, rulesSha) && x.row.loggedAt.value <= asOf
            && x.row.threadId in threads
            && var view := View(threads[x.row.threadId], asOf);
            && FirstAt(view.messages, x.row.MsgId(), x.position)
            && x == ExportedAt(x.row, view, x.position)
            && !Bounced(reading, view.messages, x.position)
            && Labellable(reading, view.messages, x.position, asOf)
  {
    var kept := CutRows(rows, asOf);
    CutRowsHold(rows, asOf, x.row);
    CandidateRowsHold(kept, rulesSha, x.row);
    CandidateIff(x.row, rulesSha);
    ExportHolds(reading, kept, rulesSha, threads, asOf, e, x);
    if x.row.threadId in threads {
      FromIff(reading, threads, asOf, x);
    }
  }

  lemma FromIff(reading: Reading, threads: map<string, Thread>, asOf: int, x: Exported)
    requires x.row.threadId in threads
    ensures var view := View(threads[x.row.threadId], asOf);
            ExportedFrom(reading, threads, asOf, x.row, x)
            <==> && FirstAt(view.messages, x.row.MsgId(), x.position)
                 && x == ExportedAt(x.row, view, x.position)
                 && !Bounced(reading, view.messages, x.position)
                 && Labellable(reading, view.messages, x.position, asOf)
  {
    var view := View(threads[x.row.threadId], asOf);
    if x.position < |view.messages| {
      BouncedIff(reading, view.messages, x.position);
    }
  }

  /** Which bucket a kept row is counted in, test by test. */
  ghost predicate BucketFits(
    reading: Reading, rulesSha: string, threads: map<string, Thread>, asOf: int, row: LogRow, b: Bucket)
  {
    if !row.hasState || row.latestMsgId == None || row.loggedAt == None then b == NoPointInTime
    else if row.routed != "stop" then b == Routed(row.routed)
    else if row.questionsVersion != "tierc-v4" then b == NotRegistered
    else if row.rulesSha != rulesSha then b == RulesMismatch
    else if row.gateKind == "RETRY_ADMIT" then b == RetryAdmit
    else
      && row.threadId in threads
      && var messages := CutThread(threads[row.threadId].messages, asOf);
         exists i: nat :: FitsAt(reading, messages, asOf, row.MsgId(), i, b)
  }

  /** The bucket of the message that stands first under the id, at position `i`. */
  ghost predicate FitsAt(reading: Reading, messages: seq<Message>, asOf: int, id: string, i: nat, b: Bucket) {
    && FirstAt(messages, id, i)
    && b == if Bounced(reading, messages, i) then PostBounce
            else if Labellable(reading, messages, i, asOf) then Counted else Held
  }

  lemma BucketSays(reading: Reading, rulesSha: string, threads: map<string, Thread>, asOf: int, row: LogRow)
    requires IsCandidate(row, rulesSha) ==> Outcome(reading, threads, asOf, row).Ok?
    ensures BucketFits(reading, rulesSha, threads, asOf, row,
                       FinalBucket(Deciding(reading, threads, asOf), rulesSha, row))
  {
    if IsCandidate(row, rulesSha) {
      var i := CandidateFits(reading, threads, asOf, row);
    }
  }

  lemma CandidateFits(reading: Reading, threads: map<string, Thread>, asOf: int, row: LogRow) returns (i: nat)
    requires Outcome(reading, threads, asOf, row).Ok?
    ensures row.threadId in threads
    ensures FitsAt(reading, CutThread(threads[row.threadId].messages, asOf), asOf, row.MsgId(), i,
                   Outcome(reading, threads, asOf, row).value.0)
  {
    var view := View(threads[row.threadId], asOf);
    var messages := CutThread(threads[row.threadId].messages, asOf);
    assert view.messages == messages;
    i := Place(messages, row.MsgId()).value;
    assert FirstAt(messages, row.MsgId(), i);
    BouncedIff(reading, messages, i);
    assert FollowingReady(reading, messages, i, asOf) <==> Labellable(reading, messages, i, asOf);
    assert FitsAt(reading, messages, asOf, row.MsgId(), i, Outcome(reading, threads, asOf, row).value.0);
  }

  lemma CandidateIff(row: LogRow, rulesSha: string)
    ensures IsCandidate(row, rulesSha)
       <==> && row.hasState && row.latestMsgId.Some? && row.loggedAt.Some?
            && row.routed == ROUTED_STOP && row.questionsVersion == REGISTERED_VERSION
            && row.rulesSha == rulesSha && row.gateKind != GATE_KIND_RETRY_ADMIT
  {
  }

  lemma ExportHolds(
    reading: Reading, kept: seq<LogRow>, rulesSha: string, threads: map<string, Thread>, asOf: int,
    e: Export, x: Exported)
    requires IsExportOfCut(reading, kept, rulesSha, threads, asOf, Ok(e))
    ensures x in e.exported
       <==> x.row in CandidateRows(kept, rulesSha) && ExportedFrom(reading, threads, asOf, x.row, x)
  {
    ExportedOne(reading, threads, asOf, CandidateRows(kept, rulesSha), x);
  }

  lemma ExportedOne(reading: Reading, threads: map<string, Thread>, asOf: int, rows: seq<LogRow>, x: Exported)
    requires Outcomes(Deciding(reading, threads, asOf), rows).Ok?
    ensures x in Outcomes(Deciding(reading, threads, asOf), rows).value.1
       <==> x.row in rows && ExportedFrom(reading, threads, asOf, x.row, x)
  {
    var decide := Deciding(reading, threads, asOf);
    ExportedAre(decide, rows, x);
    AllDecided(decide, rows);
    forall row | row in rows ensures x in decide(row).value.1
                                <==> x.row == row && ExportedFrom(reading, threads, asOf, row, x) {
      LastExported(reading, threads, asOf, row, x);
    }
  }

  lemma {:induction false} CutRowsHold(rows: seq<LogRow>, asOf: int, row: LogRow)
    ensures row in CutRows(rows, asOf) <==> row in rows && !LoggedAfter(row, asOf)
  {
    if rows != [] {
      CutRowsHold(rows[..|rows| - 1], asOf, row);
      assert rows == rows[..|rows| - 1] + [rows[|rows| - 1]];
    }
  }

  /** The exported row shows the message of its id, nothing later than `asOf`, and three messages after
      it, unless the thread had ended or gone quiet by then. */
  ghost predicate Shows(reading: Reading, messages: seq<Message>, asOf: int, id: string, x: Exported) {
    && x.head.id == id
    && (forall m :: m in x.prior + [x.head] + x.following ==> m.timestamp <= asOf)
    && x.position < |messages|
    && |x.prior| == (if x.position < 5 then x.position else 5)
    && |x.following| == (if x.position + 3 < |messages| then 3 else |messages| - x.position - 1)
    && x.prior + [x.head] + x.following <= messages[x.position - |x.prior|..]
    && Labellable(reading, messages, x.position, asOf)
  }

  /** So much, and no more, a labeller sees. */
  lemma LabellerSees(
    reading: Reading, rows: seq<LogRow>, rulesSha: string, threads: map<string, Thread>, asOf: int,
    e: Export, x: Exported)
    requires IsExport(reading, rows, rulesSha, threads, asOf, Ok(e))
    requires x in e.exported
    ensures x.row.threadId in threads
    ensures x.project == threads[x.row.threadId].project
    ensures Shows(reading, CutThread(threads[x.row.threadId].messages, asOf), asOf, x.row.MsgId(), x)
  {
    ExportedIff(reading, rows, rulesSha, threads, asOf, e, x);
    FromIff(reading, threads, asOf, x);
    FromView(reading, threads, asOf, x);
  }

  lemma FromView(reading: Reading, threads: map<string, Thread>, asOf: int, x: Exported)
    requires ExportedFrom(reading, threads, asOf, x.row, x)
    ensures Shows(reading, CutThread(threads[x.row.threadId].messages, asOf), asOf, x.row.MsgId(), x)
  {
    WindowSeen(reading, View(threads[x.row.threadId], asOf), asOf, x.row, x.position);
  }

  lemma WindowSeen(reading: Reading, view: Thread, asOf: int, row: LogRow, i: nat)
    requires FirstAt(view.messages, row.MsgId(), i)
    requires FollowingReady(reading, view.messages, i, asOf)
    requires forall m :: m in view.messages ==> m.timestamp <= asOf
    ensures Shows(reading, view.messages, asOf, row.MsgId(), ExportedAt(row, view, i))
  {
    WindowAt(row, view, i);
  }

  lemma WindowAt(row: LogRow, thread: Thread, i: nat)
    requires i < |thread.messages|
    ensures var x, ms := ExportedAt(row, thread, i), thread.messages;
            && x.head == ms[i] && |x.prior| <= i
            && x.prior + [x.head] + x.following <= ms[i - |x.prior|..]
            && (forall m :: m in x.prior + [x.head] + x.following ==> m in ms)
            && (|x.following| == FOLLOWING_N || |ms| - (i + 1) < FOLLOWING_N)
  {
    var x, ms := ExportedAt(row, thread, i), thread.messages;
    SliceIsWindow(ms, i - |x.prior|, i, i + 1 + |x.following|);
    assert x.prior == ms[i - |x.prior|..i] && x.following == ms[i + 1..i + 1 + |x.following|];
  }

  lemma SliceIsWindow(ms: seq<Message>, first: nat, i: nat, end: nat)
    requires first <= i < end <= |ms|
    ensures ms[first..i] + [ms[i]] + ms[i + 1..end] <= ms[first..]
    ensures forall m :: m in ms[first..i] + [ms[i]] + ms[i + 1..end] ==> m in ms
  {
    assert ms[first..i] + [ms[i]] + ms[i + 1..end] == ms[first..end];
    assert ms[first..end] == ms[first..][..end - first];
  }

  ghost predicate DistinctPositions(exported: seq<Exported>) {
    forall i, j :: 0 <= i < j < |exported| ==>
      exported[i].row.threadId != exported[j].row.threadId || exported[i].position != exported[j].position
  }

  lemma SamePositionSameMessage(
    reading: Reading, threads: map<string, Thread>, asOf: int, x: Exported, y: Exported)
    requires ExportedFrom(reading, threads, asOf, x.row, x) && ExportedFrom(reading, threads, asOf, y.row, y)
    requires x.row.threadId == y.row.threadId && x.position == y.position
    ensures x.row.MsgId() == y.row.MsgId()
  {
  }

  /** Rows of different messages are exported at different positions. */
  ghost predicate Separates(decide: Decision) {
    forall r, s, x, y :: Exports(decide, r, x) && Exports(decide, s, y) && r.MsgId() != s.MsgId()
      ==> x.row.threadId != y.row.threadId || x.position != y.position
  }

  ghost predicate Exports(decide: Decision, row: LogRow, x: Exported) {
    decide(row).Ok? && x in decide(row).value.1
  }

  lemma OutcomesDiffer(
    reading: Reading, threads: map<string, Thread>, asOf: int, r: LogRow, s: LogRow, x: Exported, y: Exported)
    requires Exports(Deciding(reading, threads, asOf), r, x) && Exports(Deciding(reading, threads, asOf), s, y)
    requires r.MsgId() != s.MsgId()
    ensures x.row.threadId != y.row.threadId || x.position != y.position
  {
    LastExported(reading, threads, asOf, r, x);
    LastExported(reading, threads, asOf, s, y);
    if x.row.threadId == y.row.threadId && x.position == y.position {
      SamePositionSameMessage(reading, threads, asOf, x, y);
    }
  }

  lemma OutcomesSeparate(reading: Reading, threads: map<string, Thread>, asOf: int)
    ensures Separates(Deciding(reading, threads, asOf))
  {
    var decide := Deciding(reading, threads, asOf);
    forall r, s, x, y | Exports(decide, r, x) && Exports(decide, s, y) && r.MsgId() != s.MsgId()
      ensures x.row.threadId != y.row.threadId || x.position != y.position
    {
      OutcomesDiffer(reading, threads, asOf, r, s, x, y);
    }
  }

  lemma {:induction false} PositionsDiffer(decide: Decision, rows: seq<LogRow>)
    requires Decides(decide) && Separates(decide)
    requires OnePerMessage(rows)
    requires Outcomes(decide, rows).Ok?
    ensures DistinctPositions(Outcomes(decide, rows).value.1)
  {
    if rows != [] {
      var front, last := rows[..|rows| - 1], rows[|rows| - 1];
      PositionsDiffer(decide, front);
      var had, next := Outcomes(decide, front).value.1, decide(last).value.1;
      forall x, y | x in had && y in next
        ensures x.row.threadId != y.row.threadId || x.position != y.position
      {
        ExportedAre(decide, front, x);
        var row :| row in front && Exports(decide, row, x);
        var j :| 0 <= j < |front| && front[j] == row;
        assert rows[j].MsgId() != rows[|rows| - 1].MsgId();
        assert Exports(decide, last, y);
      }
      DistinctAppend(had, next);
    }
  }

  lemma DistinctAppend(had: seq<Exported>, next: seq<Exported>)
    requires DistinctPositions(had) && |next| <= 1
    requires forall x, y | x in had && y in next :: x.row.threadId != y.row.threadId || x.position != y.position
    ensures DistinctPositions(had + next)
  {
  }

  /** No two exported rows share their join key. */
  lemma ExportedKeysDistinct(
    reading: Reading, rows: seq<LogRow>, rulesSha: string, threads: map<string, Thread>, asOf: int, e: Export)
    requires IsExport(reading, rows, rulesSha, threads, asOf, Ok(e))
    ensures DistinctPositions(e.exported)
  {
    OutcomeDecides(reading, threads, asOf);
    OutcomesSeparate(reading, threads, asOf);
    PositionsDiffer(Deciding(reading, threads, asOf), CandidateRows(CutRows(rows, asOf), rulesSha));
  }
}
