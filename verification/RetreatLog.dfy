/** The clone-retreat ledger: an append-only JSONL file whose writes can be cut anywhere.

    The JSON encoding is taken as a pair of functions; `IsLineCodec` lists what the ledger needs
    of it. A JSON object written on one line has these properties: control characters are escaped
    inside strings, and an object ends only at its closing brace (RFC 8259, sections 4 and 7). */
module RetreatLog {
  import opened Wrappers

  datatype Kind = RetreatRow | DeliveredRow | OtherRow

  datatype Row = Row(kind: Kind, recordId: string, threadId: string, rest: string)

  type Encoder = Row -> string
  type Decoder = string -> Option<Row>

  ghost predicate IsLineCodec(enc: Encoder, dec: Decoder) {
    && (forall r :: '\n' !in enc(r) && enc(r) != "" && dec(enc(r)) == Some(r))
    && (forall r, k :: 0 <= k < |enc(r)| ==> dec(enc(r)[..k]) == None)
  }

  // ------------------------------------------------------------------------------ reading

  /** The finished lines of a file and the unfinished rest after the last newline. */
  function Split(content: string): (seq<string>, string)
    decreases |content|
  {
    if content == "" then ([], "")
    else
      var (lines, tail) := Split(content[..|content| - 1]);
      var c := content[|content| - 1];
      if c == '\n' then (lines + [tail], "") else (lines, tail + [c])
  }

  function Decoded(line: string, dec: Decoder): seq<Row> {
    if dec(line).Some? then [dec(line).value] else []
  }

  function RowsOf(lines: seq<string>, dec: Decoder): seq<Row>
    decreases |lines|
  {
    if lines == [] then [] else RowsOf(lines[..|lines| - 1], dec) + Decoded(lines[|lines| - 1], dec)
  }

  /** What a reader gets: line by line, the unfinished last line included, and whatever does not
      decode skipped. */
  function Rows(content: string, dec: Decoder): seq<Row> {
    RowsOf(Split(content).0, dec) + Decoded(Split(content).1, dec)
  }

  lemma {:induction false} SplitAppend(content: string, more: string)
    requires '\n' !in more
    ensures Split(content + more) == (Split(content).0, Split(content).1 + more)
    decreases |more|
  {
    if more == "" {
      assert content + more == content && Split(content).1 + more == Split(content).1;
    } else {
      var n := |more| - 1;
      SplitAppend(content, more[..n]);
      assert (content + more)[..|content + more| - 1] == content + more[..n];
      assert more[n] in more;
      assert (Split(content).1 + more[..n]) + [more[n]] == Split(content).1 + more;
    }
  }

  lemma SplitNewline(content: string)
    ensures Split(content + "\n") == (Split(content).0 + [Split(content).1], "")
  {
    assert (content + "\n")[..|content + "\n"| - 1] == content;
  }

  lemma NewlineChangesNothing(content: string, dec: Decoder)
    requires dec("") == None
    ensures Rows(content + "\n", dec) == Rows(content, dec)
  {
    SplitNewline(content);
    var lines := Split(content).0 + [Split(content).1];
    assert lines[..|lines| - 1] == Split(content).0;
  }

  lemma TextOnFreshLine(content: string, more: string, dec: Decoder)
    requires EndsWithNewlineOrEmpty(content) && '\n' !in more && dec("") == None
    ensures Rows(content + more, dec) == Rows(content, dec) + Decoded(more, dec)
  {
    SplitAppend(content, more);
    assert Split(content).1 == "" && "" + more == more;
  }

  // ------------------------------------------------------------------------------ appending

  predicate EndsWithNewlineOrEmpty(content: string) {
    content == "" || content[|content| - 1] == '\n'
  }

  function Prefix(content: string): string {
    if EndsWithNewlineOrEmpty(content) then "" else "\n"
  }

  /** The bytes one append writes, before the write is cut. */
  function Text(content: string, row: Row, enc: Encoder): string {
    Prefix(content) + enc(row) + "\n"
  }

  /** The row's full text reached the file. */
  predicate Reached(content: string, row: Row, cut: nat, enc: Encoder) {
    cut >= |Prefix(content)| + |enc(row)|
  }

  /** One append, cut after `cut` bytes, on any file whatever: the reader gains the row exactly
      when its full text reached the file, and loses or alters nothing. */
  lemma AppendReads(content: string, row: Row, cut: nat, enc: Encoder, dec: Decoder)
    requires IsLineCodec(enc, dec)
    requires cut <= |Text(content, row, enc)|
    ensures Rows(content + Text(content, row, enc)[..cut], dec)
            == Rows(content, dec) + (if Reached(content, row, cut, enc) then [row] else [])
  {
    var p := |Prefix(content)|;
    if cut < p {
      assert Text(content, row, enc)[..cut] == "" && content + "" == content;
    } else {
      assert enc(row)[..0] == "";
      FreshLine(content, dec);
      CutAfterPrefix(content, row, cut, enc);
      LineOnFreshLine(content + Prefix(content), row, cut - p, enc, dec);
    }
  }

  /** The prefix completes an unfinished line, which reads as before. */
  lemma FreshLine(content: string, dec: Decoder)
    requires dec("") == None
    ensures Rows(content + Prefix(content), dec) == Rows(content, dec)
    ensures EndsWithNewlineOrEmpty(content + Prefix(content))
  {
    if Prefix(content) == "" {
      assert content + "" == content;
    } else {
      NewlineChangesNothing(content, dec);
    }
  }

  lemma CutAfterPrefix(content: string, row: Row, cut: nat, enc: Encoder)
    requires |Prefix(content)| <= cut <= |Text(content, row, enc)|
    ensures content + Text(content, row, enc)[..cut]
         == (content + Prefix(content)) + (enc(row) + "\n")[..cut - |Prefix(content)|]
  {
    var prefix, line := Prefix(content), enc(row) + "\n";
    assert Text(content, row, enc) == prefix + line;
    assert (prefix + line)[..cut] == prefix + line[..cut - |prefix|];
    assert content + (prefix + line[..cut - |prefix|]) == (content + prefix) + line[..cut - |prefix|];
  }

  lemma LineOnFreshLine(base: string, row: Row, cut: nat, enc: Encoder, dec: Decoder)
    requires IsLineCodec(enc, dec) && EndsWithNewlineOrEmpty(base)
    requires cut <= |enc(row)| + 1
    ensures Rows(base + (enc(row) + "\n")[..cut], dec)
            == Rows(base, dec) + (if cut >= |enc(row)| then [row] else [])
  {
    var line := enc(row);
    assert line[..0] == "";
    if cut < |line| {
      assert (line + "\n")[..cut] == line[..cut];
      TextOnFreshLine(base, line[..cut], dec);
    } else if cut == |line| {
      assert (line + "\n")[..cut] == line;
      TextOnFreshLine(base, line, dec);
    } else {
      assert (line + "\n")[..cut] == line + "\n" && base + (line + "\n") == (base + line) + "\n";
      TextOnFreshLine(base, line, dec);
      NewlineChangesNothing(base + line, dec);
    }
  }

  /** One attempted append: the row, and after how many bytes the write stopped. */
  datatype Attempt = Attempt(row: Row, cut: nat)

  function Written(content: string, a: Attempt, enc: Encoder): string {
    var text := Text(content, a.row, enc);
    content + text[..if a.cut <= |text| then a.cut else |text|]
  }

  function File(content: string, history: seq<Attempt>, enc: Encoder): string
    decreases |history|
  {
    if history == [] then content
    else Written(File(content, history[..|history| - 1], enc), history[|history| - 1], enc)
  }

  /** The rows of a history whose full text reached the file, in order. */
  function ReachedRows(content: string, history: seq<Attempt>, enc: Encoder): seq<Row>
    decreases |history|
  {
    if history == [] then []
    else
      var n := |history| - 1;
      ReachedRows(content, history[..n], enc)
      + (if Reached(File(content, history[..n], enc), history[n].row, history[n].cut, enc) then [history[n].row]
         else [])
  }

  /** Over any history of whole and torn appends to any file: what is read is what was there plus
      exactly the rows whose full text reached the file, in order and intact. */
  lemma {:induction false} HistoryReads(content: string, history: seq<Attempt>, enc: Encoder, dec: Decoder)
    requires IsLineCodec(enc, dec)
    ensures Rows(File(content, history, enc), dec)
            == Rows(content, dec) + ReachedRows(content, history, enc)
    decreases |history|
  {
    if history != [] {
      var n := |history| - 1;
      HistoryReads(content, history[..n], enc, dec);
      WrittenReads(File(content, history[..n], enc), history[n], enc, dec);
    }
  }

  lemma WrittenReads(content: string, a: Attempt, enc: Encoder, dec: Decoder)
    requires IsLineCodec(enc, dec)
    ensures Rows(Written(content, a, enc), dec)
            == Rows(content, dec) + (if Reached(content, a.row, a.cut, enc) then [a.row] else [])
  {
    var text := Text(content, a.row, enc);
    AppendReads(content, a.row, if a.cut <= |text| then a.cut else |text|, enc, dec);
  }

  // ------------------------------------------------------------------------------ pending

  predicate IsRetreat(r: Row, thread: string) {
    r.kind == RetreatRow && r.threadId == thread
  }

  predicate IsDelivery(r: Row, thread: string, id: string) {
    r.kind == DeliveredRow && r.threadId == thread && r.recordId == id
  }

  /** `i` is the thread's last retreat row. */
  ghost predicate IsLatest(rows: seq<Row>, thread: string, i: int) {
    0 <= i < |rows| && IsRetreat(rows[i], thread)
    && forall j :: i < j < |rows| ==> !IsRetreat(rows[j], thread)
  }

  ghost predicate Delivered(rows: seq<Row>, thread: string, id: string) {
    exists j :: 0 <= j < |rows| && IsDelivery(rows[j], thread, id)
  }

  /** What a thread has pending: its last retreat row, unless a delivered row names it. */
  ghost predicate IsPending(rows: seq<Row>, thread: string, p: Option<Row>) {
    match p
    case Some(r) => exists i :: IsLatest(rows, thread, i) && rows[i] == r && !Delivered(rows, thread, r.recordId)
    case None => forall i :: IsLatest(rows, thread, i) ==> Delivered(rows, thread, rows[i].recordId)
  }

  lemma DeliveredStep(rows: seq<Row>, i: nat, thread: string)
    requires i < |rows|
    ensures forall id ::
              Delivered(rows[..i + 1], thread, id)
              <==> Delivered(rows[..i], thread, id) || IsDelivery(rows[i], thread, id)
  {
    var longer, shorter := rows[..i + 1], rows[..i];
    assert longer[i] == rows[i];
    assert forall j :: 0 <= j < i ==> longer[j] == shorter[j];
  }

  lemma LatestStep(rows: seq<Row>, i: nat, thread: string)
    requires i < |rows|
    ensures IsRetreat(rows[i], thread) ==> IsLatest(rows[..i + 1], thread, i)
    ensures forall at ::
              !IsRetreat(rows[i], thread) && IsLatest(rows[..i], thread, at) ==> IsLatest(rows[..i + 1], thread, at)
  {
    var longer, shorter := rows[..i + 1], rows[..i];
    assert longer[i] == rows[i];
    assert forall j :: 0 <= j < i ==> longer[j] == shorter[j];
  }

  class LogFile {
    var content: string
    const enc: Encoder
    const dec: Decoder

    constructor (content: string, enc: Encoder, dec: Decoder)
      ensures this.content == content && this.enc == enc && this.dec == dec
    {
      this.content, this.enc, this.dec := content, enc, dec;
    }

    /** Appends one row; the write stops after `cut` bytes. */
    method Append(row: Row, cut: nat)
      requires IsLineCodec(enc, dec)
      modifies this`content
      ensures content == Written(old(content), Attempt(row, cut), enc)
      ensures Rows(content, dec)
              == Rows(old(content), dec) + (if Reached(old(content), row, cut, enc) then [row] else [])
    {
      var text := Prefix(content) + enc(row) + "\n";
      var n := if cut <= |text| then cut else |text|;
      AppendReads(content, row, n, enc, dec);
      content := content + text[..n];
    }

    method MarkDelivered(record: Row, rest: string, cut: nat)
      requires IsLineCodec(enc, dec)
      modifies this`content
      ensures var row := Row(DeliveredRow, record.recordId, record.threadId, rest);
              Rows(content, dec)
              == Rows(old(content), dec) + (if Reached(old(content), row, cut, enc) then [row] else [])
    {
      Append(Row(DeliveredRow, record.recordId, record.threadId, rest), cut);
    }

    method PendingRecord(thread: string) returns (p: Option<Row>)
      ensures IsPending(Rows(content, dec), thread, p)
    {
      var rows := Rows(content, dec);
      var latest: Option<Row> := None;
      var delivered: set<string> := {};
      ghost var at := -1;
      for i := 0 to |rows|
        invariant latest == None ==> forall j :: 0 <= j < i ==> !IsRetreat(rows[j], thread)
        invariant latest.Some? ==> IsLatest(rows[..i], thread, at) && rows[at] == latest.value
        invariant forall id :: id in delivered <==> Delivered(rows[..i], thread, id)
      {
        if rows[i].threadId == thread {
          if rows[i].kind == RetreatRow {
            latest := Some(rows[i]);
            at := i;
          } else if rows[i].kind == DeliveredRow {
            delivered := delivered + {rows[i].recordId};
          }
        }
        DeliveredStep(rows, i, thread);
        LatestStep(rows, i, thread);
      }
      assert rows[..|rows|] == rows;
      if latest == None || latest.value.recordId in delivered {
        return None;
      }
      return latest;
    }
  }

  /** The reading determines the answer. */
  lemma PendingIsUnique(rows: seq<Row>, thread: string, p: Option<Row>, q: Option<Row>)
    requires IsPending(rows, thread, p) && IsPending(rows, thread, q)
    ensures p == q
  {
    if p.Some? && q.Some? {
      var i :| IsLatest(rows, thread, i) && rows[i] == p.value;
      var j :| IsLatest(rows, thread, j) && rows[j] == q.value;
      assert i == j;
    }
  }

  /** A delivered record never becomes pending again, whatever is appended later. */
  lemma DeliveredStaysDelivered(rows: seq<Row>, more: seq<Row>, thread: string, id: string, p: Option<Row>)
    requires Delivered(rows, thread, id)
    requires IsPending(rows + more, thread, p)
    ensures p.Some? ==> p.value.recordId != id
  {
    var j :| 0 <= j < |rows| && IsDelivery(rows[j], thread, id);
    assert IsDelivery((rows + more)[j], thread, id);
  }

  /** Nor does a superseded one: a record with a later retreat row of its thread after it. */
  lemma SupersededStaysSuperseded(rows: seq<Row>, more: seq<Row>, thread: string, i: nat, j: nat, p: Option<Row>)
    requires i < j < |rows| && IsRetreat(rows[i], thread) && IsRetreat(rows[j], thread)
    requires IsPending(rows + more, thread, p)
    requires forall a, b :: 0 <= a < b < |rows + more| && IsRetreat((rows + more)[a], thread)
                            && IsRetreat((rows + more)[b], thread)
               ==> (rows + more)[a].recordId != (rows + more)[b].recordId
    ensures p != Some(rows[i])
  {
    var all := rows + more;
    if p.Some? {
      var k :| IsLatest(all, thread, k) && all[k] == p.value;
      assert IsRetreat(all[j], thread) && k >= j;
      assert all[i] == rows[i];
    }
  }

  /** A new retreat row is what the next reader gets; a delivery that reached the file clears it,
      and a delivery that was cut leaves it pending, so that a retry gets it again. */
  lemma DeliveryCycle(rows: seq<Row>, record: Row, rest: string)
    requires record.kind == RetreatRow && !Delivered(rows, record.threadId, record.recordId)
    ensures IsPending(rows + [record], record.threadId, Some(record))
    ensures IsPending(rows + [record] + [Row(DeliveredRow, record.recordId, record.threadId, rest)],
                      record.threadId, None)
  {
    var thread := record.threadId;
    var one := rows + [record];
    assert IsLatest(one, thread, |rows|);
    var two := one + [Row(DeliveredRow, record.recordId, thread, rest)];
    assert IsDelivery(two[|rows| + 1], thread, record.recordId);
    forall i | IsLatest(two, thread, i)
      ensures Delivered(two, thread, two[i].recordId)
    {
      assert IsRetreat(two[|rows|], thread);
      assert i == |rows|;
    }
  }
}
