/** Labelling the evaluation set in batches, over any series of capped, stopped and resumed runs. */
module LabelRuns {
  import opened Wrappers
  import opened JoinKeys
  import opened Sets

  const LABELS: set<string> := {"genuine", "genuine-merge", "genuine-action", "spurious", "ambiguous"}
  const CATEGORIES: set<string> :=
    {"GOAL", "COST", "IRREVERSIBLE", "MERGE", "HUMAN_ONLY_ACTION", "IMPL", "ROUTING_ARTIFACT", "OTHER"}

  // --------------------------------------------------------------------- one answer

  /** A line of the answer block: `Malformed` is not an object with exactly the five typed fields. */
  datatype Line = BlankLine | Malformed | Entry(key: Key, verdict: string, category: string)

  /** The fenced blocks of an answer, by lines. */
  datatype Answer = Answer(blocks: seq<seq<Line>>)

  predicate ValidEntry(line: Line) {
    line.Entry? && line.verdict in LABELS && line.category in CATEGORIES
  }

  predicate AllValid(entries: seq<Line>) {
    forall i :: 0 <= i < |entries| ==>
      entries[i].Entry? && entries[i].verdict in LABELS && entries[i].category in CATEGORIES
  }

  function Entries(lines: seq<Line>): (r: seq<Line>)
    ensures forall i :: 0 <= i < |r| ==> r[i] in lines && !r[i].BlankLine?
  {
    if lines == [] then []
    else
      var front, last := lines[..|lines| - 1], lines[|lines| - 1];
      assert lines == front + [last];
      if last.BlankLine? then Entries(front) else Entries(front) + [last]
  }

  /** Each entry answers for one expected key, each expected key once. */
  ghost predicate Answers(entries: seq<Line>, expected: seq<Key>) {
    && AllValid(entries)
    && multiset(KeysOf(entries)) == multiset(expected)
    && NoRepeats(KeysOf(entries))
  }

  function KeysOf(entries: seq<Line>): (r: seq<Key>)
    requires AllValid(entries)
    ensures |r| == |entries|
    ensures forall i :: 0 <= i < |r| ==> r[i] == entries[i].key
  {
    seq(|entries|, i requires 0 <= i < |entries| => entries[i].key)
  }

  ghost predicate WellFormed(answer: Answer, expected: seq<Key>) {
    |answer.blocks| == 1 && Answers(Entries(answer.blocks[0]), expected)
  }

  method ParseAnswer(answer: Answer, expected: seq<Key>) returns (r: Option<seq<Line>>)
    ensures r.Some? <==> WellFormed(answer, expected)
    ensures r.Some? ==> r.value == Entries(answer.blocks[0])
  {
    if |answer.blocks| != 1 {
      return None;
    }
    var lines := answer.blocks[0];
    var out: seq<Line> := [];
    for i := 0 to |lines|
      invariant out == Entries(lines[..i])
      invariant AllValid(out)
    {
      assert lines[..i + 1][..i] == lines[..i];
      if !lines[i].BlankLine? {
        if !ValidEntry(lines[i]) {
          EntriesKept(lines, i);
          return None;
        }
        out := out + [lines[i]];
      }
    }
    assert lines[..|lines|] == lines;
    var got := KeysOf(out);
    var unique := set k | k in got;
    CountsOnce(got);
    if multiset(got) != multiset(expected) || |unique| != |got| {
      return None;
    }
    return Some(out);
  }

  lemma {:induction false} EntriesKept(lines: seq<Line>, i: nat)
    requires i < |lines| && !lines[i].BlankLine?
    ensures exists j :: 0 <= j < |Entries(lines)| && Entries(lines)[j] == lines[i]
  {
    var front, last := lines[..|lines| - 1], lines[|lines| - 1];
    if i < |lines| - 1 {
      EntriesKept(front, i);
      var j :| 0 <= j < |Entries(front)| && Entries(front)[j] == lines[i];
      assert Entries(lines)[j] == lines[i];
    } else {
      assert Entries(lines)[|Entries(front)|] == last;
    }
  }

  /** The number of lines that answer for a key. */
  function EntriesFor(lines: seq<Line>, k: Key): nat {
    if lines == [] then 0
    else
      var last := lines[|lines| - 1];
      EntriesFor(lines[..|lines| - 1], k) + if last.Entry? && last.key == k then 1 else 0
  }

  /** An answer is accepted exactly when it has one block, each of its lines is blank or a valid entry,
      and it has one entry for each expected key and none for any other. */
  lemma WellFormedIff(answer: Answer, expected: seq<Key>)
    requires NoRepeats(expected)
    ensures WellFormed(answer, expected)
       <==> && |answer.blocks| == 1
            && (forall line :: line in answer.blocks[0] ==> line.BlankLine? || ValidLabel(line))
            && forall k :: EntriesFor(answer.blocks[0], k) == if k in expected then 1 else 0
  {
    NoRepeatsCounts(expected);
    if |answer.blocks| == 1 {
      var lines := answer.blocks[0];
      EntriesValid(lines);
      if AllValid(Entries(lines)) {
        var keys := KeysOf(Entries(lines));
        NoRepeatsCounts(keys);
        forall k ensures multiset(keys)[k] == EntriesFor(lines, k) {
          KeysCount(lines, k);
        }
        assert forall k :: multiset(expected)[k] == if k in expected then 1 else 0;
        if forall k :: EntriesFor(lines, k) == if k in expected then 1 else 0 {
          assert multiset(keys) == multiset(expected);
        }
      }
    }
  }

  predicate ValidLabel(line: Line) {
    && line.Entry?
    && line.verdict in {"genuine", "genuine-merge", "genuine-action", "spurious", "ambiguous"}
    && line.category in {"GOAL", "COST", "IRREVERSIBLE", "MERGE", "HUMAN_ONLY_ACTION", "IMPL",
                         "ROUTING_ARTIFACT", "OTHER"}
  }

  lemma {:induction false} EntriesValid(lines: seq<Line>)
    ensures AllValid(Entries(lines)) <==> forall line :: line in lines ==> line.BlankLine? || ValidLabel(line)
  {
    if lines != [] {
      var front, last := lines[..|lines| - 1], lines[|lines| - 1];
      assert lines == front + [last];
      EntriesValid(front);
      assert ValidLabel(last) <==> ValidEntry(last);
      var had := Entries(front);
      assert forall i :: 0 <= i < |had| ==> (had + [last])[i] == had[i];
      if AllValid(had + [last]) {
        assert (had + [last])[|had|] == last;
        assert AllValid(had);
      }
    }
  }

  lemma {:induction false} KeysCount(lines: seq<Line>, k: Key)
    requires AllValid(Entries(lines))
    ensures multiset(KeysOf(Entries(lines)))[k] == EntriesFor(lines, k)
  {
    if lines != [] {
      var front, last := lines[..|lines| - 1], lines[|lines| - 1];
      var had := Entries(front);
      if last.BlankLine? {
        KeysCount(front, k);
      } else {
        assert forall i :: 0 <= i < |had| ==> (had + [last])[i] == had[i];
        assert (had + [last])[|had|] == last;
        KeysCount(front, k);
        assert KeysOf(had + [last]) == KeysOf(had) + [last.key];
      }
    }
  }

  // --------------------------------------------------------------------- the label file

  datatype Row = Row(key: Key, verdict: string, category: string, batch: nat)

  function RowKeys(rows: seq<Row>): (r: seq<Key>)
    ensures |r| == |rows|
    ensures forall i :: 0 <= i < |r| ==> r[i] == rows[i].key
  {
    seq(|rows|, i requires 0 <= i < |rows| => rows[i].key)
  }

  lemma RowKeysAppend(a: seq<Row>, b: seq<Row>)
    ensures RowKeys(a + b) == RowKeys(a) + RowKeys(b)
  {
  }

  function BatchNumbers(rows: seq<Row>): set<nat> {
    set row | row in rows :: row.batch
  }

  function Flatten(batches: seq<seq<Row>>): seq<Row> {
    if batches == [] then [] else Flatten(batches[..|batches| - 1]) + batches[|batches| - 1]
  }

  lemma {:induction false} FlattenConcat(a: seq<seq<Row>>, b: seq<seq<Row>>)
    ensures Flatten(a + b) == Flatten(a) + Flatten(b)
  {
    if b == [] {
      assert a + b == a;
    } else {
      FlattenConcat(a, b[..|b| - 1]);
      assert (a + b)[..|a + b| - 1] == a + b[..|b| - 1];
    }
  }

  /** Whole batches, numbered from `first` without a gap. */
  ghost predicate Numbered(batches: seq<seq<Row>>, first: nat) {
    forall i :: 0 <= i < |batches| ==> NumberedOne(batches[i], first + i)
  }

  ghost predicate NumberedOne(batch: seq<Row>, no: nat) {
    batch != [] && forall j :: 0 <= j < |batch| ==> batch[j].batch == no
  }

  /** The file is made of these batches. */
  ghost predicate MadeOf(file: seq<Row>, batches: seq<seq<Row>>) {
    file == Flatten(batches) && Numbered(batches, 0)
  }

  /** The next batch number, counted from the file, is the number of its batches. */
  lemma {:induction false} NextNumber(batches: seq<seq<Row>>)
    requires Numbered(batches, 0)
    ensures BatchNumbers(Flatten(batches)) == Below(|batches|)
  {
    if batches != [] {
      var front, last := batches[..|batches| - 1], batches[|batches| - 1];
      assert Numbered(front, 0) by { assert forall i :: 0 <= i < |front| ==> front[i] == batches[i]; }
      NextNumber(front);
      assert NumberedOne(last, |front|);
      assert last[0] in last;
      forall no ensures no in BatchNumbers(Flatten(batches)) <==> no in BatchNumbers(Flatten(front)) || no == |front| {
        BatchNumbersAppend(Flatten(front), last, no);
        assert no in BatchNumbers(last) ==> no == |front|;
      }
    }
  }

  lemma BatchNumbersAppend(a: seq<Row>, b: seq<Row>, no: nat)
    ensures no in BatchNumbers(a + b) <==> no in BatchNumbers(a) || no in BatchNumbers(b)
  {
    forall row | row in a || row in b ensures row in a + b {}
  }

  // --------------------------------------------------------------------- one run

  function Done(file: seq<Row>): set<Key> {
    set row | row in file :: row.key
  }

  /** How many keys of `n` the first `m` batches take. */
  function Reached(n: nat, size: nat, m: nat): (r: nat)
    ensures r <= n
  {
    if m == 0 then 0
    else if Reached(n, size, m - 1) + size <= n then Reached(n, size, m - 1) + size
    else n
  }

  /** So many: `size` each, up to the end. */
  lemma {:induction false} ReachedIs(n: nat, size: nat, m: nat)
    ensures Reached(n, size, m) == if m * size <= n then m * size else n
  {
    if m > 0 {
      ReachedIs(n, size, m - 1);
      assert m * size == (m - 1) * size + size;
    }
  }

  /** Each batch labels its slice of the keys, each key once. */
  ghost predicate Labels(todo: seq<Key>, size: nat, first: nat, batches: seq<seq<Row>>) {
    forall i: nat, j :: i < |batches| && j == i + 1 ==> LabelsSlice(todo, size, i, j, batches[i], first)
  }

  ghost predicate LabelsSlice(todo: seq<Key>, size: nat, i: nat, j: nat, batch: seq<Row>, first: nat) {
    && Reached(|todo|, size, i) < Reached(|todo|, size, j)
    && NumberedOne(batch, first + i)
    && NoRepeats(RowKeys(batch))
    && multiset(RowKeys(batch)) == multiset(todo[Reached(|todo|, size, i)..Reached(|todo|, size, j)])
  }

  datatype Status = Finished | BadCap | BadSize | TransportFailure | FormatFailure

  datatype Stats = Stats(batches: nat, rows: nat, remaining: int)

  /** What one run does to the file: it appends the accepted batches of its to-do list. A run that
      finishes has taken the whole list, or has met its cap. */
  ghost predicate RunsWith(
    materials: seq<Key>, size: int, cap: Option<int>, file: seq<Row>, after: seq<Row>, status: Status, stats: Stats,
    batches: seq<seq<Row>>)
  {
    var todo := Pending(materials, Done(file));
    if status.BadCap? then cap.Some? && cap.value < 1 && batches == [] && after == file
    else
      && (cap.Some? ==> cap.value >= 1)
      && if size > 0 then Sent(todo, size, cap, |BatchNumbers(file)|, file, after, status, stats, batches)
         else && batches == [] && after == file && stats == Stats(0, 0, |todo|)
              && status == if size == 0 then BadSize else Finished
  }

  datatype Reply = Text(answer: Answer) | Transport

  /** The keys that batch `i` asks for. */
  function SliceAt(todo: seq<Key>, size: nat, i: nat): seq<Key> {
    var start, end := Reached(|todo|, size, i), Reached(|todo|, size, i + 1);
    if start <= end then todo[start..end] else []
  }

  ghost predicate IllFormed(reply: Reply, slice: seq<Key>) {
    reply.Text? && !WellFormed(reply.answer, slice)
  }

  /** The rows say, entry by entry, what the answer says. */
  ghost predicate FromAnswer(batch: seq<Row>, answer: Answer, no: nat) {
    |answer.blocks| == 1
    && var entries := Entries(answer.blocks[0]);
    && |batch| == |entries| && AllValid(entries)
    && forall j :: 0 <= j < |batch| ==>
         batch[j] == Row(entries[j].key, entries[j].verdict, entries[j].category, no)
  }

  /** The call a batch begins with, when `uses[i]` is the reply that batch `i` accepted. */
  function CallOf(uses: seq<nat>, i: nat): nat
    requires i <= |uses|
  {
    if i == 0 then 0 else uses[i - 1] + 1
  }

  /** Batch `i` is the first well-formed one of at most two replies for its keys. */
  ghost predicate Accepted(
    replies: nat -> Reply, uses: seq<nat>, i: nat, slice: seq<Key>, batch: seq<Row>, no: nat)
    requires i < |uses|
  {
    var call, used := CallOf(uses, i), uses[i];
    && call <= used <= call + 1
    && (used == call + 1 ==> IllFormed(replies(call), slice))
    && replies(used).Text? && WellFormed(replies(used).answer, slice)
    && FromAnswer(batch, replies(used).answer, no)
  }

  ghost predicate AllAccepted(
    replies: nat -> Reply, todo: seq<Key>, size: nat, first: nat, batches: seq<seq<Row>>, uses: seq<nat>)
  {
    |uses| == |batches|
    && forall i :: 0 <= i < |batches| ==>
         Accepted(replies, uses, i, SliceAt(todo, size, i), batches[i], first + i)
  }

  /** How the run ended: with the list or the cap, or with the replies to its next batch. */
  ghost predicate EndsAt(
    replies: nat -> Reply, todo: seq<Key>, size: nat, cap: Option<int>, uses: seq<nat>, status: Status)
  {
    var n := |uses|;
    var more := Reached(|todo|, size, n) < |todo| && (cap.Some? ==> n < cap.value);
    var call, slice := CallOf(uses, n), SliceAt(todo, size, n);
    match status
    case Finished => !more
    case FormatFailure => more && IllFormed(replies(call), slice) && IllFormed(replies(call + 1), slice)
    case TransportFailure =>
      more && (replies(call).Transport? || (IllFormed(replies(call), slice) && replies(call + 1).Transport?))
    case _ => false
  }

  /** The batches of a run, and its end, are what its replies make of them. */
  ghost predicate Replied(
    replies: nat -> Reply, materials: seq<Key>, size: int, cap: Option<int>, file: seq<Row>, status: Status,
    batches: seq<seq<Row>>, uses: seq<nat>)
  {
    size > 0 && !status.BadCap? ==>
      var todo := Pending(materials, Done(file));
      && AllAccepted(replies, todo, size, |BatchNumbers(file)|, batches, uses)
      && EndsAt(replies, todo, size, cap, uses, status)
  }

  ghost predicate Runs(
    materials: seq<Key>, size: int, cap: Option<int>, replies: nat -> Reply, file: seq<Row>, after: seq<Row>,
    status: Status, stats: Stats)
  {
    exists batches, uses ::
      && RunsWith(materials, size, cap, file, after, status, stats, batches)
      && Replied(replies, materials, size, cap, file, status, batches, uses)
  }

  function AsRows(entries: seq<Line>, no: nat): (r: seq<Row>)
    requires AllValid(entries)
    ensures |r| == |entries|
    ensures forall i :: 0 <= i < |r| ==> r[i] == Row(entries[i].key, entries[i].verdict, entries[i].category, no)
  {
    seq(|entries|, i requires 0 <= i < |entries| => Row(entries[i].key, entries[i].verdict, entries[i].category, no))
  }

  /** The first try and one retry. */
  method Ask(replies: nat -> Reply, call: nat, expected: seq<Key>) returns (r: Result<seq<Line>, Status>, next: nat)
    ensures call < next <= call + 2
    ensures r.Ok? ==> replies(next - 1).Text? && WellFormed(replies(next - 1).answer, expected)
                      && r.value == Entries(replies(next - 1).answer.blocks[0])
    ensures r.Err? ==> r.error == TransportFailure || r.error == FormatFailure
    ensures r == Err(TransportFailure) ==> replies(next - 1) == Transport
    ensures next == call + 2 ==> IllFormed(replies(call), expected)
    ensures r == Err(FormatFailure) ==>
      next == call + 2
      && forall i: nat :: call <= i < next ==> replies(i).Text? && !WellFormed(replies(i).answer, expected)
  {
    next := call;
    while next < call + 2
      invariant call <= next <= call + 2
      invariant forall i: nat :: call <= i < next ==> replies(i).Text? && !WellFormed(replies(i).answer, expected)
    {
      var reply := replies(next);
      next := next + 1;
      if reply.Transport? {
        return Err(TransportFailure), next;
      }
      var parsed := ParseAnswer(reply.answer, expected);
      if parsed.Some? {
        return Ok(parsed.value), next;
      }
    }
    return Err(FormatFailure), next;
  }

  /** What the batch loop has done: it appended the batches, and counts them. */
  ghost predicate Progress(
    todo: seq<Key>, size: nat, cap: Option<int>, first: nat, file: seq<Row>, after: seq<Row>, stats: Stats,
    batches: seq<seq<Row>>)
  {
    && (cap.Some? ==> |batches| <= cap.value)
    && after == file + Flatten(batches)
    && stats == Stats(|batches|, |Flatten(batches)|, |todo| - |Flatten(batches)|)
    && Labels(todo, size, first, batches)
  }

  ghost predicate Sent(
    todo: seq<Key>, size: nat, cap: Option<int>, first: nat, file: seq<Row>, after: seq<Row>,
    status: Status, stats: Stats,
    batches: seq<seq<Row>>)
  {
    && Progress(todo, size, cap, first, file, after, stats, batches)
    && !status.BadSize? && !status.BadCap?
    && (status.Finished? ==>
          Reached(|todo|, size, |batches|) == |todo| || (cap.Some? && |batches| == cap.value))
  }

  lemma ProgressStep(
    todo: seq<Key>, size: nat, cap: Option<int>, first: nat, file: seq<Row>, after: seq<Row>, stats: Stats,
    batches: seq<seq<Row>>, batch: seq<Row>)
    requires Progress(todo, size, cap, first, file, after, stats, batches)
    requires cap.Some? ==> |batches| < cap.value
    requires LabelsSlice(todo, size, |batches|, |batches| + 1, batch, first)
    ensures Progress(todo, size, cap, first, file, after + batch,
                     Stats(stats.batches + 1, stats.rows + |batch|, stats.remaining - |batch|), batches + [batch])
  {
    var longer := batches + [batch];
    assert longer[..|batches|] == batches;
    assert forall i :: 0 <= i < |batches| ==> longer[i] == batches[i];
    assert (file + Flatten(batches)) + batch == file + Flatten(longer);
  }

  lemma AcceptedBatch(todo: seq<Key>, size: nat, i: nat, entries: seq<Line>, first: nat)
    requires Reached(|todo|, size, i) < Reached(|todo|, size, i + 1)
    requires Answers(entries, todo[Reached(|todo|, size, i)..Reached(|todo|, size, i + 1)])
    ensures LabelsSlice(todo, size, i, i + 1, AsRows(entries, first + i), first)
  {
    var batch := AsRows(entries, first + i);
    assert RowKeys(batch) == KeysOf(entries);
    var slice := todo[Reached(|todo|, size, i)..Reached(|todo|, size, i + 1)];
    assert |batch| == |multiset(KeysOf(entries))| == |multiset(slice)| == |slice|;
  }

  /** The reply before `next` is the first well-formed one of at most two from `call` on. */
  ghost predicate AcceptedAt(
    replies: nat -> Reply, call: nat, next: nat, slice: seq<Key>, batch: seq<Row>, no: nat)
  {
    && call < next <= call + 2
    && (next == call + 2 ==> IllFormed(replies(call), slice))
    && replies(next - 1).Text? && WellFormed(replies(next - 1).answer, slice)
    && FromAnswer(batch, replies(next - 1).answer, no)
  }

  ghost predicate FailsAt(replies: nat -> Reply, call: nat, slice: seq<Key>, status: Status) {
    if status.FormatFailure? then IllFormed(replies(call), slice) && IllFormed(replies(call + 1), slice)
    else status.TransportFailure?
         && (replies(call).Transport? || (IllFormed(replies(call), slice) && replies(call + 1).Transport?))
  }

  /** Sends batch `i` of a run, the keys from `start` to `end`. */
  method SendBatch(
    todo: seq<Key>, size: nat, i: nat, start: nat, end: nat, first: nat, replies: nat -> Reply, call: nat)
    returns (r: Result<seq<Row>, Status>, next: nat)
    requires start == Reached(|todo|, size, i) && end == Reached(|todo|, size, i + 1) && start < end
    ensures r.Ok? ==> LabelsSlice(todo, size, i, i + 1, r.value, first)
    ensures r.Ok? ==> AcceptedAt(replies, call, next, SliceAt(todo, size, i), r.value, first + i)
    ensures r.Err? ==> FailsAt(replies, call, SliceAt(todo, size, i), r.error)
  {
    var slice := todo[start..end];
    assert slice == SliceAt(todo, size, i);
    var parsed, after := Ask(replies, call, slice);
    next := after;
    if parsed.Err? {
      return Err(parsed.error), next;
    }
    AcceptedBatch(todo, size, i, parsed.value, first);
    return Ok(AsRows(parsed.value, first + i)), next;
  }

  lemma AcceptedStep(
    replies: nat -> Reply, todo: seq<Key>, size: nat, first: nat, batches: seq<seq<Row>>, uses: seq<nat>,
    batch: seq<Row>, next: nat)
    requires AllAccepted(replies, todo, size, first, batches, uses)
    requires AcceptedAt(replies, CallOf(uses, |uses|), next, SliceAt(todo, size, |uses|), batch, first + |uses|)
    ensures AllAccepted(replies, todo, size, first, batches + [batch], uses + [next - 1])
  {
    var longer, used := batches + [batch], uses + [next - 1];
    forall i | 0 <= i < |longer|
      ensures Accepted(replies, used, i, SliceAt(todo, size, i), longer[i], first + i)
    {
      assert CallOf(used, i) == CallOf(uses, i);
      if i < |batches| {
        assert Accepted(replies, uses, i, SliceAt(todo, size, i), batches[i], first + i);
      }
    }
  }

  /** Where the loop over the batches stands. */
  ghost predicate Going(
    replies: nat -> Reply, todo: seq<Key>, size: nat, cap: Option<int>, first: nat, file: seq<Row>, after: seq<Row>,
    stats: Stats, batches: seq<seq<Row>>, uses: seq<nat>, start: nat, call: nat)
  {
    && Progress(todo, size, cap, first, file, after, stats, batches)
    && AllAccepted(replies, todo, size, first, batches, uses)
    && start == Reached(|todo|, size, |batches|)
    && call == CallOf(uses, |uses|)
  }

  lemma GoingStarts(
    replies: nat -> Reply, todo: seq<Key>, size: nat, cap: Option<int>, first: nat, file: seq<Row>)
    requires cap.Some? ==> cap.value >= 1
    ensures Going(replies, todo, size, cap, first, file, file, Stats(0, 0, |todo|), [], [], 0, 0)
  {
    assert file + [] == file;
  }

  lemma GoingStep(
    replies: nat -> Reply, todo: seq<Key>, size: nat, cap: Option<int>, first: nat, file: seq<Row>, after: seq<Row>,
    stats: Stats, batches: seq<seq<Row>>, uses: seq<nat>, start: nat, call: nat, batch: seq<Row>, end: nat, next: nat)
    requires Going(replies, todo, size, cap, first, file, after, stats, batches, uses, start, call)
    requires cap.Some? ==> |batches| < cap.value
    requires end == Reached(|todo|, size, stats.batches + 1) && start <= end
    requires LabelsSlice(todo, size, stats.batches, stats.batches + 1, batch, first)
    requires AcceptedAt(replies, call, next, SliceAt(todo, size, stats.batches), batch, first + stats.batches)
    ensures Going(replies, todo, size, cap, first, file, after + batch,
                  Stats(stats.batches + 1, stats.rows + |batch|, stats.remaining - |batch|),
                  batches + [batch], uses + [next - 1], end, next)
  {
    ProgressStep(todo, size, cap, first, file, after, stats, batches, batch);
    AcceptedStep(replies, todo, size, first, batches, uses, batch, next);
  }

  /** The loop ends with the list, at the cap, or with the replies to its next batch. */
  lemma GoingEnds(
    replies: nat -> Reply, todo: seq<Key>, size: nat, cap: Option<int>, first: nat, file: seq<Row>, after: seq<Row>,
    stats: Stats, batches: seq<seq<Row>>, uses: seq<nat>, start: nat, call: nat, status: Status)
    requires Going(replies, todo, size, cap, first, file, after, stats, batches, uses, start, call)
    requires if status.Finished? then start >= |todo| || (cap.Some? && stats.batches >= cap.value)
             else && start < |todo| && (cap.Some? ==> stats.batches < cap.value)
                  && FailsAt(replies, call, SliceAt(todo, size, stats.batches), status)
    ensures Sent(todo, size, cap, first, file, after, status, stats, batches)
    ensures EndsAt(replies, todo, size, cap, uses, status)
  {
  }

  class LabelFile {
    var rows: seq<Row>
    var stats: Stats

    constructor ()
      ensures rows == []
    {
      rows := [];
      stats := Stats(0, 0, 0);
    }

    method LabelAll(materials: seq<Key>, size: int, cap: Option<int>, replies: nat -> Reply) returns (status: Status)
      modifies this
      ensures Runs(materials, size, cap, replies, old(rows), rows, status, stats)
    {
      ghost var was := rows;
      if cap.Some? && cap.value < 1 {
        assert RunsWith(materials, size, cap, was, rows, BadCap, stats, []);
        assert Replied(replies, materials, size, cap, was, BadCap, [], []);
        return BadCap;
      }
      var todo := Pending(materials, Done(rows));
      stats := Stats(0, 0, |todo|);
      if size <= 0 {
        status := if size == 0 then BadSize else Finished;
        assert was + [] == was;
        assert RunsWith(materials, size, cap, was, rows, status, stats, []);
        assert Replied(replies, materials, size, cap, was, status, [], []);
        return;
      }
      ghost var batches, uses;
      status, batches, uses := SendBatches(todo, size, cap, |BatchNumbers(rows)|, replies);
      assert RunsWith(materials, size, cap, was, rows, status, stats, batches);
      assert Replied(replies, materials, size, cap, was, status, batches, uses);
    }

    /** The loop over the batches of the to-do list. */
    method SendBatches(todo: seq<Key>, size: nat, cap: Option<int>, first: nat, replies: nat -> Reply)
      returns (status: Status, ghost batches: seq<seq<Row>>, ghost uses: seq<nat>)
      requires size > 0 && (cap.Some? ==> cap.value >= 1)
      requires stats == Stats(0, 0, |todo|)
      modifies this
      ensures Sent(todo, size, cap, first, old(rows), rows, status, stats, batches)
      ensures AllAccepted(replies, todo, size, first, batches, uses)
      ensures EndsAt(replies, todo, size, cap, uses, status)
    {
      ghost var was := rows;
      batches, uses := [], [];
      var start, call := 0, 0;
      status := Finished;
      GoingStarts(replies, todo, size, cap, first, was);
      while start < |todo|
        invariant stats.batches == |batches| && start == Reached(|todo|, size, |batches|)
        invariant Going(replies, todo, size, cap, first, was, rows, stats, batches, uses, start, call)
      {
        if cap.Some? && stats.batches >= cap.value {
          break;
        }
        ghost var had, before := rows, stats;
        var sent, end, next := SendNext(todo, size, first, replies, start, call);
        if sent.Err? {
          status := sent.error;
          break;
        }
        GoingStep(replies, todo, size, cap, first, was, had, before, batches, uses, start,
                  call, sent.value, end, next);
        batches, uses := batches + [sent.value], uses + [next - 1];
        start, call := end, next;
      }
      GoingEnds(replies, todo, size, cap, first, was, rows, stats, batches, uses, start, call, status);
    }

    /** Sends the next batch, the keys from `start` to `end`, and appends its rows. */
    method SendNext(todo: seq<Key>, size: nat, first: nat, replies: nat -> Reply, start: nat, call: nat)
      returns (r: Result<seq<Row>, Status>, end: nat, next: nat)
      requires size > 0 && start < |todo| && start == Reached(|todo|, size, stats.batches)
      modifies this
      ensures end == Reached(|todo|, size, old(stats.batches) + 1) && start < end <= |todo|
      ensures r.Err? ==>
                && rows == old(rows) && stats == old(stats)
                && FailsAt(replies, call, SliceAt(todo, size, old(stats.batches)), r.error)
      ensures r.Ok? ==>
                && rows == old(rows) + r.value
                && stats == Stats(old(stats.batches) + 1, old(stats.rows) + |r.value|,
                                  old(stats.remaining) - |r.value|)
                && LabelsSlice(todo, size, old(stats.batches), old(stats.batches) + 1, r.value, first)
                && AcceptedAt(replies, call, next, SliceAt(todo, size, old(stats.batches)), r.value,
                              first + old(stats.batches))
    {
      end := if start + size <= |todo| then start + size else |todo|;
      r, next := SendBatch(todo, size, stats.batches, start, end, first, replies, call);
      if r.Ok? {
        rows := rows + r.value;
        stats := Stats(stats.batches + 1, stats.rows + |r.value|, stats.remaining - |r.value|);
      }
    }
  }

  // --------------------------------------------------------------------- what a run adds

  /** The accepted batches label exactly the keys up to where they reached. */
  lemma {:induction false} BatchesLabel(todo: seq<Key>, size: nat, first: nat, batches: seq<seq<Row>>)
    requires Labels(todo, size, first, batches)
    ensures multiset(RowKeys(Flatten(batches))) == multiset(todo[..Reached(|todo|, size, |batches|)])
    ensures |Flatten(batches)| == Reached(|todo|, size, |batches|)
    ensures Numbered(batches, first)
  {
    if batches == [] {
      assert todo[..0] == [];
    } else {
      var m := |batches| - 1;
      var front, last := batches[..m], batches[m];
      assert Labels(todo, size, first, front) by {
        assert forall i :: 0 <= i < m ==> front[i] == batches[i];
      }
      BatchesLabel(todo, size, first, front);
      assert LabelsSlice(todo, size, m, m + 1, last, first);
      var from, end := Reached(|todo|, size, m), Reached(|todo|, size, m + 1);
      assert todo[..end] == todo[..from] + todo[from..end];
      RowKeysAppend(Flatten(front), last);
      assert |last| == |multiset(RowKeys(last))| == |multiset(todo[from..end])| == end - from;
      forall i | 0 <= i < |batches| ensures NumberedOne(batches[i], first + i) {
        assert i < m ==> batches[i] == front[i];
      }
    }
  }

  // --------------------------------------------------------------------- series of runs

  /** Every row labels a material key, no key twice, in whole batches numbered from 0. */
  ghost predicate Good(file: seq<Row>, materials: seq<Key>) {
    && NoRepeats(RowKeys(file))
    && Done(file) <= (set k | k in materials)
    && exists batches :: MadeOf(file, batches)
  }

  /** The keys of the file after a run are those before it and those the run labelled. */
  lemma RunAdds(
    materials: seq<Key>, size: int, cap: Option<int>, file: seq<Row>, after: seq<Row>, status: Status, stats: Stats,
    batches: seq<seq<Row>>)
    requires RunsWith(materials, size, cap, file, after, status, stats, batches)
    requires size > 0 && !status.BadCap?
    ensures var todo := Pending(materials, Done(file));
            var n := Reached(|todo|, size, |batches|);
            && multiset(RowKeys(after)) == multiset(RowKeys(file)) + multiset(todo[..n])
            && stats.rows == n && stats.remaining == |todo| - n
            && |after| == |file| + n
  {
    BatchesLabel(Pending(materials, Done(file)), size, |BatchNumbers(file)|, batches);
    RowKeysAppend(file, Flatten(batches));
  }

  lemma DoneIsKeys(file: seq<Row>, k: Key)
    ensures k in Done(file) <==> k in RowKeys(file)
    ensures k in Done(file) <==> multiset(RowKeys(file))[k] > 0
  {
    if k in Done(file) {
      var row :| row in file && row.key == k;
      var i :| 0 <= i < |file| && file[i] == row;
      assert RowKeys(file)[i] == k;
    }
    if k in RowKeys(file) {
      var i :| 0 <= i < |file| && RowKeys(file)[i] == k;
      assert file[i] in file;
    }
  }

  lemma RunKeepsKeys(
    materials: seq<Key>, size: int, cap: Option<int>, file: seq<Row>, after: seq<Row>, status: Status, stats: Stats,
    batches: seq<seq<Row>>)
    requires RunsWith(materials, size, cap, file, after, status, stats, batches)
    requires size > 0 && !status.BadCap?
    requires NoRepeats(materials) && NoRepeats(RowKeys(file)) && Done(file) <= (set k | k in materials)
    ensures NoRepeats(RowKeys(after)) && Done(after) <= (set k | k in materials)
  {
    var todo := Pending(materials, Done(file));
    var n := Reached(|todo|, size, |batches|);
    RunAdds(materials, size, cap, file, after, status, stats, batches);
    NoRepeatsCounts(materials);
    NoRepeatsCounts(RowKeys(file));
    forall k ensures multiset(RowKeys(after))[k] <= 1 ensures k in Done(after) ==> k in materials {
      PendingHolds(materials, Done(file), k);
      DoneIsKeys(file, k);
      DoneIsKeys(after, k);
      PrefixCounts(todo, n, k);
    }
    NoRepeatsCounts(RowKeys(after));
  }

  /** A run keeps the file good, and only appends whole batches to it, with the next numbers. */
  lemma RunKeepsGood(
    materials: seq<Key>, size: int, cap: Option<int>, replies: nat -> Reply, file: seq<Row>, after: seq<Row>,
    status: Status, stats: Stats)
    requires Runs(materials, size, cap, replies, file, after, status, stats)
    requires NoRepeats(materials)
    requires Good(file, materials)
    ensures Good(after, materials)
    ensures file <= after
  {
    var batches, uses :| RunsWith(materials, size, cap, file, after, status, stats, batches)
                         && Replied(replies, materials, size, cap, file, status, batches, uses);
    if status.BadCap? || size <= 0 {
      assert after == file;
    } else {
      RunKeepsKeys(materials, size, cap, file, after, status, stats, batches);
      var before :| MadeOf(file, before);
      RunNumbers(materials, size, cap, file, after, status, stats, batches, before);
    }
  }

  lemma RunNumbers(
    materials: seq<Key>, size: int, cap: Option<int>, file: seq<Row>, after: seq<Row>, status: Status, stats: Stats,
    batches: seq<seq<Row>>, before: seq<seq<Row>>)
    requires RunsWith(materials, size, cap, file, after, status, stats, batches)
    requires size > 0 && !status.BadCap?
    requires MadeOf(file, before)
    ensures MadeOf(after, before + batches)
  {
    NextNumber(before);
    assert |BatchNumbers(file)| == |before|;
    BatchesLabel(Pending(materials, Done(file)), size, |before|, batches);
    FlattenConcat(before, batches);
    forall i | 0 <= i < |before + batches| ensures NumberedOne((before + batches)[i], i) {
      if i >= |before| {
        assert NumberedOne(batches[i - |before|], |before| + (i - |before|));
      }
    }
  }

  datatype RunRecord = RunRecord(
    size: int, cap: Option<int>, replies: nat -> Reply, status: Status, stats: Stats)

  /** `files[i + 1]` is what run `i` made of `files[i]`; the first run found no file. */
  ghost predicate Series(materials: seq<Key>, runs: seq<RunRecord>, files: seq<seq<Row>>) {
    && |files| == |runs| + 1 && files[0] == []
    && forall i, j :: 0 <= i < |runs| && j == i + 1 ==>
         Runs(materials, runs[i].size, runs[i].cap, runs[i].replies, files[i], files[j], runs[i].status, runs[i].stats)
  }

  /** Over any series of runs, with any answers, caps, batch sizes and stops, the file stays good. */
  lemma {:induction false} SeriesKeepsGood(materials: seq<Key>, runs: seq<RunRecord>, files: seq<seq<Row>>, n: nat)
    requires NoRepeats(materials)
    requires Series(materials, runs, files)
    requires n < |files|
    ensures Good(files[n], materials)
  {
    if n == 0 {
      assert MadeOf([], []);
    } else {
      SeriesKeepsGood(materials, runs, files, n - 1);
      var r := runs[n - 1];
      RunKeepsGood(materials, r.size, r.cap, r.replies, files[n - 1], files[n], r.status, r.stats);
    }
  }

  /** The row is an entry of a reply that was accepted. */
  ghost predicate IsAnswer(row: Row, replies: nat -> Reply, call: nat) {
    && replies(call).Text? && |replies(call).answer.blocks| == 1
    && (exists expected :: WellFormed(replies(call).answer, expected))
    && Entry(row.key, row.verdict, row.category) in replies(call).answer.blocks[0]
  }

  ghost predicate Answered(row: Row, runs: seq<RunRecord>, n: nat)
    requires n <= |runs|
  {
    exists i, call :: 0 <= i < n && IsAnswer(row, runs[i].replies, call)
  }

  lemma {:induction false} FlattenFrom(batches: seq<seq<Row>>, row: Row) returns (i: nat)
    requires row in Flatten(batches)
    ensures i < |batches| && row in batches[i]
  {
    var n := |batches| - 1;
    if row in batches[n] {
      i := n;
    } else {
      i := FlattenFrom(batches[..n], row);
    }
  }

  lemma BatchRowIsAnswer(
    batch: seq<Row>, replies: nat -> Reply, used: nat, slice: seq<Key>, no: nat, row: Row)
    requires replies(used).Text? && WellFormed(replies(used).answer, slice)
    requires FromAnswer(batch, replies(used).answer, no)
    requires row in batch
    ensures IsAnswer(row, replies, used)
  {
    var entries := Entries(replies(used).answer.blocks[0]);
    var j :| 0 <= j < |batch| && batch[j] == row;
    assert entries[j] == Entry(row.key, row.verdict, row.category);
  }

  /** A run adds only rows that its own replies say. */
  lemma NewRowsAreAnswers(
    materials: seq<Key>, size: int, cap: Option<int>, replies: nat -> Reply, file: seq<Row>, after: seq<Row>,
    status: Status, stats: Stats, row: Row)
    requires Runs(materials, size, cap, replies, file, after, status, stats)
    requires row in after && row !in file
    ensures exists call :: IsAnswer(row, replies, call)
  {
    var batches, uses :| RunsWith(materials, size, cap, file, after, status, stats, batches)
                         && Replied(replies, materials, size, cap, file, status, batches, uses);
    assert row in Flatten(batches);
    var i := FlattenFrom(batches, row);
    var todo := Pending(materials, Done(file));
    assert Accepted(replies, uses, i, SliceAt(todo, size, i), batches[i], |BatchNumbers(file)| + i);
    BatchRowIsAnswer(batches[i], replies, uses[i], SliceAt(todo, size, i), |BatchNumbers(file)| + i, row);
  }

  /** Over any series of runs, every row of the file carries the key, the label and the category of one
      entry of one reply of one of the runs. */
  lemma {:induction false} SeriesRowsAreAnswers(
    materials: seq<Key>, runs: seq<RunRecord>, files: seq<seq<Row>>, n: nat, row: Row)
    requires Series(materials, runs, files)
    requires n < |files| && row in files[n]
    ensures Answered(row, runs, n)
  {
    if n > 0 {
      if row in files[n - 1] {
        SeriesRowsAreAnswers(materials, runs, files, n - 1, row);
      } else {
        var r := runs[n - 1];
        NewRowsAreAnswers(materials, r.size, r.cap, r.replies, files[n - 1], files[n], r.status, r.stats, row);
      }
    }
  }

  /** In a good file the batch numbers are exactly 0 to b - 1. */
  lemma GoodIsNumbered(file: seq<Row>, materials: seq<Key>)
    requires Good(file, materials)
    ensures BatchNumbers(file) == Below(|BatchNumbers(file)|)
  {
    var batches :| MadeOf(file, batches);
    NextNumber(batches);
  }

  // --------------------------------------------------------------------- coverage

  /** What the lock demands of a label file. */
  ghost predicate Covers(file: seq<Row>, materials: seq<Key>) {
    Done(file) == (set k | k in materials) && |file| == |Done(file)|
  }

  lemma DoneCount(file: seq<Row>)
    ensures |Done(file)| == |file| <==> NoRepeats(RowKeys(file))
  {
    CountsOnce(RowKeys(file));
    assert Done(file) == set k | k in RowKeys(file) by {
      forall k ensures k in Done(file) <==> k in RowKeys(file) {
        DoneIsKeys(file, k);
      }
    }
  }

  /** `remaining` is the number of material keys that are still unlabelled. */
  lemma RemainingIsUnlabelled(
    materials: seq<Key>, size: int, cap: Option<int>, replies: nat -> Reply, file: seq<Row>, after: seq<Row>,
    status: Status, stats: Stats)
    requires Runs(materials, size, cap, replies, file, after, status, stats)
    requires !status.BadCap?
    requires NoRepeats(materials)
    ensures stats.remaining == |(set k | k in materials) - Done(after)|
  {
    var batches, uses :| RunsWith(materials, size, cap, file, after, status, stats, batches)
                         && Replied(replies, materials, size, cap, file, status, batches, uses);
    var todo := Pending(materials, Done(file));
    if size > 0 {
      RunAdds(materials, size, cap, file, after, status, stats, batches);
      RestIsUnlabelled(materials, file, after, Reached(|todo|, size, |batches|));
    } else {
      assert todo[..0] == [];
      RestIsUnlabelled(materials, file, after, 0);
    }
  }

  lemma RestIsUnlabelled(materials: seq<Key>, file: seq<Row>, after: seq<Row>, n: nat)
    requires NoRepeats(materials)
    requires n <= |Pending(materials, Done(file))|
    requires multiset(RowKeys(after)) == multiset(RowKeys(file)) + multiset(Pending(materials, Done(file))[..n])
    ensures |(set k | k in materials) - Done(after)| == |Pending(materials, Done(file))| - n
  {
    var todo := Pending(materials, Done(file));
    var rest := todo[n..];
    NoRepeatsCounts(materials);
    forall k
      ensures k in rest <==> k in materials && k !in Done(after)
      ensures multiset(rest)[k] <= 1
    {
      RestHolds(materials, file, after, n, k);
    }
    NoRepeatsCounts(rest);
    CountsOnce(rest);
    assert (set k | k in rest) == (set k | k in materials) - Done(after);
  }

  lemma RestHolds(materials: seq<Key>, file: seq<Row>, after: seq<Row>, n: nat, k: Key)
    requires AtMostOnce(multiset(materials))
    requires n <= |Pending(materials, Done(file))|
    requires multiset(RowKeys(after)) == multiset(RowKeys(file)) + multiset(Pending(materials, Done(file))[..n])
    ensures var rest := Pending(materials, Done(file))[n..];
            (k in rest <==> k in materials && k !in Done(after)) && multiset(rest)[k] <= 1
  {
    var todo := Pending(materials, Done(file));
    assert todo == todo[..n] + todo[n..];
    PendingHolds(materials, Done(file), k);
    DoneIsKeys(file, k);
    DoneIsKeys(after, k);
    assert multiset(todo[n..])[k] == multiset(todo)[k] - multiset(todo[..n])[k];
    assert k in todo[n..] <==> multiset(todo[n..])[k] > 0;
  }

  /** A run without a cap that returns normally leaves the file exactly as the lock demands, if and
      only if the keys it had to label do not repeat. The batch size must be positive, or there
      must have been nothing to label: with a negative size the loop is empty. */
  lemma UncappedRunCovers(
    materials: seq<Key>, size: int, replies: nat -> Reply, file: seq<Row>, after: seq<Row>, stats: Stats)
    requires Runs(materials, size, None, replies, file, after, Finished, stats)
    requires NoRepeats(RowKeys(file)) && Done(file) <= (set k | k in materials)
    ensures Covers(after, materials)
       <==> var todo := Pending(materials, Done(file)); todo == [] || (size > 0 && NoRepeats(todo))
  {
    var batches, uses :| RunsWith(materials, size, None, file, after, Finished, stats, batches)
                         && Replied(replies, materials, size, None, file, Finished, batches, uses);
    var todo := Pending(materials, Done(file));
    if size > 0 {
      RunAdds(materials, size, None, file, after, Finished, stats, batches);
      assert todo[..|todo|] == todo;
      AllKeys(materials, file, after);
    } else {
      if todo == [] {
        AllKeys(materials, file, after);
      } else {
        PendingHolds(materials, Done(file), todo[0]);
      }
    }
  }

  lemma AllKeys(materials: seq<Key>, file: seq<Row>, after: seq<Row>)
    requires multiset(RowKeys(after)) == multiset(RowKeys(file)) + multiset(Pending(materials, Done(file)))
    requires NoRepeats(RowKeys(file)) && Done(file) <= (set k | k in materials)
    ensures Covers(after, materials) <==> NoRepeats(Pending(materials, Done(file)))
  {
    var todo := Pending(materials, Done(file));
    forall k ensures k in Done(after) <==> k in materials {
      PendingHolds(materials, Done(file), k);
      DoneIsKeys(file, k);
      DoneIsKeys(after, k);
    }
    assert Done(after) == set k | k in materials;
    DoneCount(after);
    NoRepeatsCounts(RowKeys(file));
    NoRepeatsCounts(RowKeys(after));
    NoRepeatsCounts(todo);
    forall k ensures multiset(RowKeys(after))[k] <= 1 <==> multiset(todo)[k] <= 1 {
      PendingHolds(materials, Done(file), k);
      DoneIsKeys(file, k);
    }
  }

  /** After any series of runs, one more run without a cap that returns normally makes the file
      ready for the lock. */
  lemma SeriesEndsCovered(
    materials: seq<Key>, runs: seq<RunRecord>, files: seq<seq<Row>>, size: int, replies: nat -> Reply,
    after: seq<Row>, stats: Stats)
    requires NoRepeats(materials)
    requires Series(materials, runs, files)
    requires size > 0
    requires Runs(materials, size, None, replies, files[|runs|], after, Finished, stats)
    ensures Covers(after, materials)
  {
    var file := files[|runs|];
    SeriesKeepsGood(materials, runs, files, |runs|);
    UncappedRunCovers(materials, size, replies, file, after, stats);
    var todo := Pending(materials, Done(file));
    NoRepeatsCounts(materials);
    forall k ensures multiset(todo)[k] <= 1 {
      PendingHolds(materials, Done(file), k);
    }
    NoRepeatsCounts(todo);
  }

  /** Every reply labels the one key. */
  function SameReply(k: Key): nat -> Reply {
    n => Text(Answer([[Entry(k, "genuine", "GOAL")]]))
  }

  lemma SameReplyAccepted(k: Key, no: nat)
    ensures var answer := SameReply(k)(no).answer;
            WellFormed(answer, [k]) && FromAnswer([Row(k, "genuine", "GOAL", no)], answer, no)
  {
    var line := Entry(k, "genuine", "GOAL");
    assert [line][..0] == [];
    assert Entries([line]) == Entries([]) + [line];
    assert KeysOf([line]) == [k];
  }

  lemma TwoBatchesAccepted(k: Key, one: Row, two: Row)
    requires one == Row(k, "genuine", "GOAL", 0) && two == Row(k, "genuine", "GOAL", 1)
    ensures AllAccepted(SameReply(k), [k, k], 1, 0, [[one], [two]], [0, 1])
    ensures EndsAt(SameReply(k), [k, k], 1, None, [0, 1], Finished)
  {
    assert Reached(2, 1, 0) == 0 && Reached(2, 1, 1) == 1 && Reached(2, 1, 2) == 2;
    assert SliceAt([k, k], 1, 0) == [k] && SliceAt([k, k], 1, 1) == [k];
    SameReplyAccepted(k, 0);
    SameReplyAccepted(k, 1);
  }

  /** A key that stands twice in the materials can be labelled twice: two batches may both ask for
      it. The lock then refuses the file. */
  lemma RepeatedMaterialIsLabelledTwice(k: Key)
    ensures var after := [Row(k, "genuine", "GOAL", 0), Row(k, "genuine", "GOAL", 1)];
            && Runs([k, k], 1, None, SameReply(k), [], after, Finished, Stats(2, 2, 0))
            && !NoRepeats(RowKeys(after)) && !Covers(after, [k, k])
  {
    var one, two := Row(k, "genuine", "GOAL", 0), Row(k, "genuine", "GOAL", 1);
    TwoKeysToDo(k);
    TwoBatchesSent(k, one, two);
    assert BatchNumbers([]) == {};
    TwoBatchesAccepted(k, one, two);
    assert RunsWith([k, k], 1, None, [], [one, two], Finished, Stats(2, 2, 0), [[one], [two]]);
    assert Replied(SameReply(k), [k, k], 1, None, [], Finished, [[one], [two]], [0, 1]);
    assert RowKeys([one, two])[0] == RowKeys([one, two])[1];
    DoneCount([one, two]);
  }

  lemma TwoBatchesSent(k: Key, one: Row, two: Row)
    requires one.key == k == two.key && one.batch == 0 && two.batch == 1
    ensures Sent([k, k], 1, None, 0, [], [one, two], Finished, Stats(2, 2, 0), [[one], [two]])
  {
    var batches, todo := [[one], [two]], [k, k];
    FlattenTwo([one], [two]);
    assert Reached(2, 1, 0) == 0 && Reached(2, 1, 1) == 1 && Reached(2, 1, 2) == 2;
    assert RowKeys([one]) == [k] == todo[0..1];
    assert RowKeys([two]) == [k] == todo[1..2];
    assert LabelsSlice(todo, 1, 0, 1, batches[0], 0) && LabelsSlice(todo, 1, 1, 2, batches[1], 0);
    assert [one, two] == [] + Flatten(batches);
  }

  lemma FlattenTwo(a: seq<Row>, b: seq<Row>)
    ensures Flatten([a, b]) == a + b
  {
    assert [a, b][..1] == [a] && [a][..0] == [];
    assert Flatten([a]) == [] + a;
  }

  lemma TwoKeysToDo(k: Key)
    ensures Done([]) == {} && Pending([k, k], {}) == [k, k]
  {
    assert [k, k][..1] == [k] && [k][..0] == [];
    assert Pending([k], {}) == Pending([], {}) + [k];
  }

  /** With a negative batch size a run returns normally and labels nothing. */
  lemma NegativeSizeLabelsNothing(k: Key, replies: nat -> Reply)
    ensures Runs([k], -1, None, replies, [], [], Finished, Stats(0, 0, 1))
    ensures !Covers([], [k])
  {
    assert [k][..0] == [];
    assert Done([]) == {};
    assert Pending([k], {}) == Pending([], {}) + [k];
    assert RunsWith([k], -1, None, [], [], Finished, Stats(0, 0, 1), []);
    assert Replied(replies, [k], -1, None, [], Finished, [], []);
    assert k in set x | x in [k];
  }
}
