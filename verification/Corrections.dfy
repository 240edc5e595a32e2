/** The corrections to an already replayed fixture: the builder that writes them and the report
    that reads and applies them. */
module Corrections {
  import opened Wrappers
  import opened EvalFixture

  const CORRECTIONS_SCHEMA := 1

  datatype Entry = Entry(project: string, threadId: int, roundIndex: nat, msgId: string)
  {
    function Key(): (int, nat) {
      (threadId, roundIndex)
    }
  }

  datatype Reason = SourceMessageMissing | NotAnEscalation | MovedToGateOnly | RebuiltRowDiffers

  datatype Excluded = Excluded(entry: Entry, reason: Reason)

  datatype CorrectionSet = CorrectionSet(
    schema: int,
    fixtureSha: string,
    keep: seq<Entry>,
    exclude: seq<Excluded>,
    added: set<(int, nat)>)

  /** A replayed fixture: its text and the rows on its lines. */
  datatype Fixture = Fixture(text: string, rows: seq<Row>)

  /** `line` writes a row as the fixture does, `sha` is the digest of a file. */
  datatype Format = Format(line: Row -> string, sha: string -> string)

  function EntryOf(row: Row): Entry {
    Entry(row.project, row.threadId, row.roundIndex, row.msgId)
  }

  /** The rows by key; of several rows with one key, the last. */
  function ByKey(rows: seq<Row>): map<(int, nat), Row> {
    if rows == [] then map[]
    else
      var last := rows[|rows| - 1];
      ByKey(rows[..|rows| - 1])[KeyOf(last) := last]
  }

  /** The messages under a thread id; of several threads with one id, the last. */
  function MessagesOf(threads: seq<Thread>, id: int): seq<Message> {
    if threads == [] then []
    else if threads[|threads| - 1].id == id then threads[|threads| - 1].messages
    else MessagesOf(threads[..|threads| - 1], id)
  }

  // --------------------------------------------------------------------- writing

  /** The rebuilt fixture has a row of this key whose line is the original line, byte for byte. */
  predicate Kept(format: Format, original: seq<Row>, rebuilt: seq<Row>, row: Row) {
    var k := KeyOf(row);
    k in ByKey(rebuilt) && k in ByKey(original) && format.line(ByKey(rebuilt)[k]) == format.line(ByKey(original)[k])
  }

  function WhyNot(threads: seq<Thread>, out: Outputs, row: Row): Reason {
    var messages := MessagesOf(threads, row.threadId);
    if !(row.roundIndex < |messages| && messages[row.roundIndex].id == row.msgId) then SourceMessageMissing
    else if KeyOf(row) !in ByKey(out.population) then NotAnEscalation
    else if KeyOf(row) !in ByKey(out.fixture) then MovedToGateOnly
    else RebuiltRowDiffers
  }

  function KeepList(format: Format, original: seq<Row>, rebuilt: seq<Row>, n: nat): seq<Entry>
    requires n <= |original|
  {
    if n == 0 then []
    else
      KeepList(format, original, rebuilt, n - 1)
      + if Kept(format, original, rebuilt, original[n - 1]) then [EntryOf(original[n - 1])] else []
  }

  function ExcludeList(format: Format, original: seq<Row>, threads: seq<Thread>, out: Outputs, n: nat): seq<Excluded>
    requires n <= |original|
  {
    if n == 0 then []
    else
      ExcludeList(format, original, threads, out, n - 1)
      + if Kept(format, original, out.fixture, original[n - 1]) then []
        else [Excluded(EntryOf(original[n - 1]), WhyNot(threads, out, original[n - 1]))]
  }

  function CorrectionSetOf(format: Format, fixture: Fixture, threads: seq<Thread>, out: Outputs): CorrectionSet {
    CorrectionSet(
      CORRECTIONS_SCHEMA,
      format.sha(fixture.text),
      KeepList(format, fixture.rows, out.fixture, |fixture.rows|),
      ExcludeList(format, fixture.rows, threads, out, |fixture.rows|),
      ByKey(out.fixture).Keys - ByKey(fixture.rows).Keys)
  }

  ghost predicate Follows(
    format: Format, fixture: Fixture, threads: seq<Thread>,
    built: Result<Outputs, BuildError>, r: Result<CorrectionSet, BuildError>)
  {
    match built
    case Ok(out) => r == Ok(CorrectionSetOf(format, fixture, threads, out))
    case Err(e) => r == Err(e)
  }

  ghost predicate Corrects(
    rules: Rules, format: Format, fixture: Fixture, threads: seq<Thread>, current: Roster,
    r: Result<CorrectionSet, BuildError>)
  {
    exists built :: BuildsOutputs(rules, threads, current, built) && Follows(format, fixture, threads, built, r)
  }

  method Compare(format: Format, original: seq<Row>, threads: seq<Thread>, out: Outputs)
    returns (keep: seq<Entry>, exclude: seq<Excluded>)
    ensures keep == KeepList(format, original, out.fixture, |original|)
    ensures exclude == ExcludeList(format, original, threads, out, |original|)
  {
    var lines, newFixture := ByKey(original), ByKey(out.fixture);
    keep, exclude := [], [];
    for i := 0 to |original|
      invariant keep == KeepList(format, original, out.fixture, i)
      invariant exclude == ExcludeList(format, original, threads, out, i)
    {
      var row := original[i];
      var k := KeyOf(row);
      ByKeyHolds(original, row);
      if k in newFixture && format.line(newFixture[k]) == format.line(lines[k]) {
        keep := keep + [EntryOf(row)];
      } else {
        exclude := exclude + [Excluded(EntryOf(row), WhyNot(threads, out, row))];
      }
    }
  }

  method CorrectionsFor(rules: Rules, format: Format, fixture: Fixture, threads: seq<Thread>, current: Roster)
    returns (r: Result<CorrectionSet, BuildError>)
    ensures Corrects(rules, format, fixture, threads, current, r)
  {
    var built := BuildOutputs(rules, threads, current);
    if built.Err? {
      r := Err(built.error);
    } else {
      var out := built.value;
      var keep, exclude := Compare(format, fixture.rows, threads, out);
      r := Ok(CorrectionSet(CORRECTIONS_SCHEMA, format.sha(fixture.text), keep, exclude,
                            ByKey(out.fixture).Keys - ByKey(fixture.rows).Keys));
    }
    assert Follows(format, fixture, threads, built, r);
  }

  // --------------------------------------------------------------------- reading

  /** A corrections file as parsed; a field that is not a list is `None`. */
  datatype RawCorrections = RawCorrections(
    schema: int,
    fixtureSha: string,
    keep: Option<seq<Entry>>,
    exclude: Option<seq<Entry>>)

  datatype Loaded = Loaded(keep: set<(int, nat)>, exclude: set<(int, nat)>)

  datatype LoadError =
    | OtherSchema
    | OtherFixture
    | NotAList
    | NotInFixture(key: (int, nat))
    | OtherMessage(key: (int, nat))
    | KeptAndExcluded
    | Unlisted

  ghost predicate Matches(e: Entry, rows: seq<Row>) {
    e.Key() in ByKey(rows) && ByKey(rows)[e.Key()].msgId == e.msgId
  }

  function KeysIn(entries: seq<Entry>): set<(int, nat)> {
    set e | e in entries :: e.Key()
  }

  ghost predicate ValidField(field: Option<seq<Entry>>, rows: seq<Row>) {
    field.Some? && forall e :: e in field.value ==> Matches(e, rows)
  }

  /** What the report demands of a corrections file before it filters anything. */
  ghost predicate Loadable(raw: RawCorrections, rows: seq<Row>, sha: string) {
    && raw.schema == CORRECTIONS_SCHEMA
    && raw.fixtureSha == sha
    && ValidField(raw.keep, rows) && ValidField(raw.exclude, rows)
    && KeysIn(raw.keep.value) !! KeysIn(raw.exclude.value)
    && ByKey(rows).Keys == KeysIn(raw.keep.value) + KeysIn(raw.exclude.value)
  }

  /** The error names something that is wrong with the file. */
  ghost predicate Explains(e: LoadError, raw: RawCorrections, rows: seq<Row>, sha: string) {
    match e
    case OtherSchema => raw.schema != CORRECTIONS_SCHEMA
    case OtherFixture => raw.fixtureSha != sha
    case NotAList => raw.keep == None || raw.exclude == None
    case NotInFixture(k) => k !in ByKey(rows) && (Lists(raw.keep, k) || Lists(raw.exclude, k))
    case OtherMessage(k) => Misnames(raw.keep, rows, k) || Misnames(raw.exclude, rows, k)
    case KeptAndExcluded => exists k :: Lists(raw.keep, k) && Lists(raw.exclude, k)
    case Unlisted => exists k :: k in ByKey(rows) && !Lists(raw.keep, k) && !Lists(raw.exclude, k)
  }

  ghost predicate Lists(field: Option<seq<Entry>>, k: (int, nat)) {
    field.Some? && exists e :: e in field.value && e.Key() == k
  }

  ghost predicate Misnames(field: Option<seq<Entry>>, rows: seq<Row>, k: (int, nat)) {
    field.Some? && exists e :: e in field.value && e.Key() == k && k in ByKey(rows) && !Matches(e, rows)
  }

  /** What can be wrong with one list. */
  ghost predicate IsFieldError(e: LoadError, field: Option<seq<Entry>>, rows: seq<Row>) {
    || (e.NotAList? && field == None)
    || (e.NotInFixture? && e.key !in ByKey(rows) && Lists(field, e.key))
    || (e.OtherMessage? && Misnames(field, rows, e.key))
  }

  method ReadKeys(field: Option<seq<Entry>>, rows: seq<Row>) returns (r: Result<set<(int, nat)>, LoadError>)
    ensures r.Ok? <==> ValidField(field, rows)
    ensures r.Ok? ==> r.value == KeysIn(field.value)
    ensures r.Err? ==> IsFieldError(r.error, field, rows)
  {
    if field == None {
      return Err(NotAList);
    }
    var entries := field.value;
    var byKey := ByKey(rows);
    var out: set<(int, nat)> := {};
    for i := 0 to |entries|
      invariant forall j :: 0 <= j < i ==> Matches(entries[j], rows)
      invariant out == KeysIn(entries[..i])
    {
      var k := entries[i].Key();
      if k !in byKey {
        assert entries[i] in entries;
        return Err(NotInFixture(k));
      }
      if byKey[k].msgId != entries[i].msgId {
        assert entries[i] in entries;
        return Err(OtherMessage(k));
      }
      out := out + {k};
      assert entries[..i + 1] == entries[..i] + [entries[i]];
    }
    assert entries[..|entries|] == entries;
    return Ok(out);
  }

  lemma FieldKeys(field: Option<seq<Entry>>, rows: seq<Row>)
    requires ValidField(field, rows)
    ensures KeysIn(field.value) <= ByKey(rows).Keys
  {
  }

  method LoadCorrections(raw: RawCorrections, rows: seq<Row>, sha: string) returns (r: Result<Loaded, LoadError>)
    ensures r.Ok? <==> Loadable(raw, rows, sha)
    ensures r.Ok? ==> r.value == Loaded(KeysIn(raw.keep.value), KeysIn(raw.exclude.value))
    ensures r.Err? ==> Explains(r.error, raw, rows, sha)
  {
    if raw.schema != CORRECTIONS_SCHEMA {
      return Err(OtherSchema);
    }
    if raw.fixtureSha != sha {
      return Err(OtherFixture);
    }
    var keep := ReadKeys(raw.keep, rows);
    if keep.Err? {
      return Err(keep.error);
    }
    var exclude := ReadKeys(raw.exclude, rows);
    if exclude.Err? {
      return Err(exclude.error);
    }
    if keep.value * exclude.value != {} {
      ghost var k :| k in keep.value * exclude.value;
      assert Lists(raw.keep, k) && Lists(raw.exclude, k);
      return Err(KeptAndExcluded);
    }
    var unlisted := ByKey(rows).Keys - keep.value - exclude.value;
    if unlisted != {} {
      ghost var k :| k in unlisted;
      assert k in ByKey(rows) && !Lists(raw.keep, k) && !Lists(raw.exclude, k);
      return Err(Unlisted);
    }
    assert keep.value !! exclude.value by {
      assert forall k :: k in keep.value && k in exclude.value ==> k in keep.value * exclude.value;
    }
    assert ByKey(rows).Keys == keep.value + exclude.value by {
      assert forall k :: k in ByKey(rows).Keys && k !in keep.value && k !in exclude.value ==> k in unlisted;
      FieldKeys(raw.keep, rows);
      FieldKeys(raw.exclude, rows);
    }
    return Ok(Loaded(keep.value, exclude.value));
  }

  // --------------------------------------------------------------------- applying

  datatype ReportRow = ReportRow(key: (int, nat), scores: string)

  type Labels = map<(int, nat), string>

  function Retained(rows: seq<ReportRow>, keep: set<(int, nat)>): seq<ReportRow> {
    if rows == [] then []
    else
      Retained(rows[..|rows| - 1], keep)
      + if rows[|rows| - 1].key in keep then [rows[|rows| - 1]] else []
  }

  function ApplyCorrections(rows: seq<ReportRow>, labellers: map<string, Labels>, c: Loaded):
    (r: (seq<ReportRow>, map<string, Labels>))
  {
    (Retained(rows, c.keep),
     map n | n in labellers :: map k | k in labellers[n] && k in c.keep :: labellers[n][k])
  }

  // --------------------------------------------------------------------- keys and lists

  lemma {:induction false} ByKeyHolds(rows: seq<Row>, row: Row)
    requires row in rows
    ensures KeyOf(row) in ByKey(rows)
    ensures DistinctKeys(rows) ==> ByKey(rows)[KeyOf(row)] == row
  {
    var front, last := rows[..|rows| - 1], rows[|rows| - 1];
    assert rows == front + [last];
    if row in front {
      ByKeyHolds(front, row);
    }
  }

  lemma {:induction false} ByKeyFrom(rows: seq<Row>, k: (int, nat))
    requires k in ByKey(rows)
    ensures ByKey(rows)[k] in rows && KeyOf(ByKey(rows)[k]) == k
  {
    var front, last := rows[..|rows| - 1], rows[|rows| - 1];
    assert rows == front + [last];
    if k != KeyOf(last) {
      ByKeyFrom(front, k);
    }
  }

  lemma {:induction false} KeepListHolds(format: Format, original: seq<Row>, rebuilt: seq<Row>, n: nat, e: Entry)
    requires n <= |original|
    ensures e in KeepList(format, original, rebuilt, n)
       <==> exists i :: 0 <= i < n && EntryOf(original[i]) == e && Kept(format, original, rebuilt, original[i])
  {
    if n > 0 {
      KeepListHolds(format, original, rebuilt, n - 1, e);
    }
  }

  function Entries(exclude: seq<Excluded>): (r: seq<Entry>)
    ensures |r| == |exclude|
    ensures forall i :: 0 <= i < |r| ==> r[i] == exclude[i].entry
  {
    seq(|exclude|, i requires 0 <= i < |exclude| => exclude[i].entry)
  }

  lemma {:induction false} ExcludeListHolds(
    format: Format, original: seq<Row>, threads: seq<Thread>, out: Outputs, n: nat, e: Entry)
    requires n <= |original|
    ensures e in Entries(ExcludeList(format, original, threads, out, n))
       <==> exists i :: 0 <= i < n && EntryOf(original[i]) == e && !Kept(format, original, out.fixture, original[i])
  {
    if n > 0 {
      ExcludeListHolds(format, original, threads, out, n - 1, e);
      var before := Entries(ExcludeList(format, original, threads, out, n - 1));
      var after := Entries(ExcludeList(format, original, threads, out, n));
      if Kept(format, original, out.fixture, original[n - 1]) {
        assert after == before;
      } else {
        assert after == before + [EntryOf(original[n - 1])];
      }
    }
  }

  // --------------------------------------------------------------------- agreement

  /** The written corrections as the report parses them. */
  function Written(c: CorrectionSet): RawCorrections {
    RawCorrections(c.schema, c.fixtureSha, Some(c.keep), Some(Entries(c.exclude)))
  }

  lemma RowEntryMatches(rows: seq<Row>, row: Row)
    requires DistinctKeys(rows)
    requires row in rows
    ensures Matches(EntryOf(row), rows)
  {
    ByKeyHolds(rows, row);
  }

  lemma ListedKeys(format: Format, fixture: Fixture, threads: seq<Thread>, out: Outputs, k: (int, nat))
    ensures k in KeysIn(CorrectionSetOf(format, fixture, threads, out).keep)
       <==> exists i :: 0 <= i < |fixture.rows| && KeyOf(fixture.rows[i]) == k
                     && Kept(format, fixture.rows, out.fixture, fixture.rows[i])
    ensures k in KeysIn(Entries(CorrectionSetOf(format, fixture, threads, out).exclude))
       <==> exists i :: 0 <= i < |fixture.rows| && KeyOf(fixture.rows[i]) == k
                     && !Kept(format, fixture.rows, out.fixture, fixture.rows[i])
  {
    var rows := fixture.rows;
    forall e
      ensures e in KeepList(format, rows, out.fixture, |rows|)
         <==> exists i :: 0 <= i < |rows| && EntryOf(rows[i]) == e && Kept(format, rows, out.fixture, rows[i])
      ensures e in Entries(ExcludeList(format, rows, threads, out, |rows|))
         <==> exists i :: 0 <= i < |rows| && EntryOf(rows[i]) == e && !Kept(format, rows, out.fixture, rows[i])
    {
      KeepListHolds(format, rows, out.fixture, |rows|, e);
      ExcludeListHolds(format, rows, threads, out, |rows|, e);
    }
    var c := CorrectionSetOf(format, fixture, threads, out);
    forall i | 0 <= i < |rows| ensures EntryOf(rows[i]).Key() == KeyOf(rows[i]) {}
    forall i | 0 <= i < |rows| && KeyOf(rows[i]) == k
      ensures Kept(format, rows, out.fixture, rows[i]) ==> k in KeysIn(c.keep)
      ensures !Kept(format, rows, out.fixture, rows[i]) ==> k in KeysIn(Entries(c.exclude))
    {
      var e := EntryOf(rows[i]);
      assert Kept(format, rows, out.fixture, rows[i]) ==> e in c.keep;
      assert !Kept(format, rows, out.fixture, rows[i]) ==> e in Entries(c.exclude);
    }
  }

  /** Whatever the rebuild gives, the corrections of a fixture with unique keys pass every check of
      the report, and each row is in exactly one of the two lists. */
  lemma ProducedCorrectionsLoad(format: Format, fixture: Fixture, threads: seq<Thread>, out: Outputs)
    requires DistinctKeys(fixture.rows)
    ensures var c := CorrectionSetOf(format, fixture, threads, out);
            && Loadable(Written(c), fixture.rows, format.sha(fixture.text))
            && |c.keep| + |c.exclude| == |fixture.rows|
            && forall row :: row in fixture.rows ==>
                 (KeyOf(row) in KeysIn(c.keep) <==> Kept(format, fixture.rows, out.fixture, row))
  {
    var c := CorrectionSetOf(format, fixture, threads, out);
    var rows := fixture.rows;
    FieldsMatch(format, fixture, threads, out);
    forall k
      ensures k in KeysIn(c.keep) ==> k !in KeysIn(Entries(c.exclude))
      ensures k in ByKey(rows) <==> k in KeysIn(c.keep) || k in KeysIn(Entries(c.exclude))
    {
      ListedKeys(format, fixture, threads, out, k);
      if k in ByKey(rows) {
        ByKeyFrom(rows, k);
        var i :| 0 <= i < |rows| && rows[i] == ByKey(rows)[k];
      }
      forall i | 0 <= i < |rows| && KeyOf(rows[i]) == k ensures k in ByKey(rows) {
        ByKeyHolds(rows, rows[i]);
      }
    }
    forall row | row in rows
      ensures KeyOf(row) in KeysIn(c.keep) <==> Kept(format, rows, out.fixture, row)
    {
      ListedKeys(format, fixture, threads, out, KeyOf(row));
      var i :| 0 <= i < |rows| && rows[i] == row;
    }
    ListLengths(format, rows, threads, out, |rows|);
  }

  lemma FieldsMatch(format: Format, fixture: Fixture, threads: seq<Thread>, out: Outputs)
    requires DistinctKeys(fixture.rows)
    ensures ValidField(Written(CorrectionSetOf(format, fixture, threads, out)).keep, fixture.rows)
    ensures ValidField(Written(CorrectionSetOf(format, fixture, threads, out)).exclude, fixture.rows)
  {
    var raw := Written(CorrectionSetOf(format, fixture, threads, out));
    var rows := fixture.rows;
    forall e | e in raw.keep.value || e in raw.exclude.value ensures Matches(e, rows) {
      KeepListHolds(format, rows, out.fixture, |rows|, e);
      ExcludeListHolds(format, rows, threads, out, |rows|, e);
      var i :| 0 <= i < |rows| && EntryOf(rows[i]) == e;
      RowEntryMatches(rows, rows[i]);
    }
  }

  lemma {:induction false} ListLengths(format: Format, rows: seq<Row>, threads: seq<Thread>, out: Outputs, n: nat)
    requires n <= |rows|
    ensures |KeepList(format, rows, out.fixture, n)| + |ExcludeList(format, rows, threads, out, n)| == n
  {
    if n > 0 {
      ListLengths(format, rows, threads, out, n - 1);
    }
  }

  lemma {:induction false} RetainedHolds(rows: seq<ReportRow>, keep: set<(int, nat)>, row: ReportRow)
    ensures row in Retained(rows, keep) <==> row in rows && row.key in keep
  {
    if rows != [] {
      RetainedHolds(rows[..|rows| - 1], keep, row);
      assert rows == rows[..|rows| - 1] + [rows[|rows| - 1]];
    }
  }

  /** The rebuilt fixture has a row of this key with the same line, byte for byte. */
  ghost predicate RebuiltAlike(format: Format, out: Outputs, row: Row) {
    exists s :: s in out.fixture && KeyOf(s) == KeyOf(row) && format.line(s) == format.line(row)
  }

  lemma KeptIsRebuiltAlike(format: Format, original: seq<Row>, out: Outputs, row: Row)
    requires DistinctKeys(original) && DistinctKeys(out.fixture)
    requires row in original
    ensures Kept(format, original, out.fixture, row) <==> RebuiltAlike(format, out, row)
  {
    ByKeyHolds(original, row);
    if KeyOf(row) in ByKey(out.fixture) {
      ByKeyFrom(out.fixture, KeyOf(row));
    }
    if s :| s in out.fixture && KeyOf(s) == KeyOf(row) && format.line(s) == format.line(row) {
      ByKeyHolds(out.fixture, s);
    }
  }

  /** A row is kept if and only if its key is rebuilt with the very same line; every other row is
      excluded. */
  lemma KeptIff(format: Format, fixture: Fixture, threads: seq<Thread>, out: Outputs, row: Row)
    requires DistinctKeys(fixture.rows) && DistinctKeys(out.fixture)
    requires row in fixture.rows
    ensures var c := CorrectionSetOf(format, fixture, threads, out);
            var alike := exists s :: s in out.fixture && KeyOf(s) == KeyOf(row) && format.line(s) == format.line(row);
            && (EntryOf(row) in c.keep <==> alike)
            && (EntryOf(row) in Entries(c.exclude) <==> !alike)
  {
    KeptIsRebuiltAlike(format, fixture.rows, out, row);
    KeepListHolds(format, fixture.rows, out.fixture, |fixture.rows|, EntryOf(row));
    ExcludeListHolds(format, fixture.rows, threads, out, |fixture.rows|, EntryOf(row));
    var i :| 0 <= i < |fixture.rows| && fixture.rows[i] == row;
    forall j | 0 <= j < |fixture.rows| && EntryOf(fixture.rows[j]) == EntryOf(row) ensures j == i {
      assert KeyOf(fixture.rows[j]) == KeyOf(row);
    }
  }

  lemma {:induction false} ReasonGiven(
    format: Format, original: seq<Row>, threads: seq<Thread>, out: Outputs, n: nat, row: Row, reason: Reason)
    requires n <= |original| && DistinctKeys(original) && row in original
    ensures Excluded(EntryOf(row), reason) in ExcludeList(format, original, threads, out, n)
       <==> && row in original[..n] && !Kept(format, original, out.fixture, row)
            && reason == WhyNot(threads, out, row)
  {
    if n > 0 {
      ReasonGiven(format, original, threads, out, n - 1, row, reason);
      assert original[..n] == original[..n - 1] + [original[n - 1]];
      if EntryOf(original[n - 1]) == EntryOf(row) {
        OneRowPerKey(original, original[n - 1], row);
      }
    }
  }

  ghost predicate HasKey(rows: seq<Row>, k: (int, nat)) {
    exists s :: s in rows && KeyOf(s) == k
  }

  lemma HasKeyIff(rows: seq<Row>, k: (int, nat))
    ensures k in ByKey(rows) <==> HasKey(rows, k)
  {
    if k in ByKey(rows) {
      ByKeyFrom(rows, k);
    }
    if s :| s in rows && KeyOf(s) == k {
      ByKeyHolds(rows, s);
    }
  }

  /** What each reason says of the messages that are looked up and of the rebuilt outputs. */
  ghost predicate ReasonFits(format: Format, threads: seq<Thread>, out: Outputs, row: Row, reason: Reason) {
    var stands := HoldsMessage(MessagesOf(threads, row.threadId), row);
    match reason
    case SourceMessageMissing => !stands
    case NotAnEscalation => stands && !HasKey(out.population, KeyOf(row))
    case MovedToGateOnly => stands && HasKey(out.population, KeyOf(row)) && !HasKey(out.fixture, KeyOf(row))
    case RebuiltRowDiffers =>
      stands && exists s :: s in out.fixture && KeyOf(s) == KeyOf(row) && format.line(s) != format.line(row)
  }

  /** The reason of an excluded row, from the messages and the rebuilt outputs: in particular it is
      `RebuiltRowDiffers` exactly when the message stands there and its key is rebuilt with another
      line. */
  lemma ExcludedIff(
    format: Format, fixture: Fixture, threads: seq<Thread>, out: Outputs, all: seq<Row>, row: Row, reason: Reason)
    requires DistinctKeys(fixture.rows) && IsOutputs(all, Ok(out))
    requires row in fixture.rows
    ensures Excluded(EntryOf(row), reason) in CorrectionSetOf(format, fixture, threads, out).exclude
       <==> && !RebuiltAlike(format, out, row)
            && ReasonFits(format, threads, out, row, reason)
  {
    OutputsDistinct(all, out);
    KeptIsRebuiltAlike(format, fixture.rows, out, row);
    ReasonGiven(format, fixture.rows, threads, out, |fixture.rows|, row, reason);
    assert fixture.rows[..|fixture.rows|] == fixture.rows;
    HasKeyIff(out.population, KeyOf(row));
    HasKeyIff(out.fixture, KeyOf(row));
    assert forall s :: s in out.fixture ==> s in out.population;
  }

  /** From the builder to the report: what is counted after the corrections are exactly the rows,
      and exactly the labels, of fixture rows that the corrected code rebuilds byte for byte. */
  lemma ReportCountsRebuiltRows(
    format: Format, fixture: Fixture, threads: seq<Thread>, out: Outputs, loaded: Loaded,
    rows: seq<ReportRow>, labellers: map<string, Labels>, row: Row)
    requires DistinctKeys(fixture.rows) && DistinctKeys(out.fixture)
    requires row in fixture.rows
    requires var c := CorrectionSetOf(format, fixture, threads, out);
             loaded == Loaded(KeysIn(c.keep), KeysIn(Entries(c.exclude)))
    ensures var alike := exists s :: s in out.fixture && KeyOf(s) == KeyOf(row) && format.line(s) == format.line(row);
            var report := ApplyCorrections(rows, labellers, loaded);
            && (forall r: ReportRow :: r.key == KeyOf(row) ==> (r in report.0 <==> r in rows && alike))
            && report.1.Keys == labellers.Keys
            && forall n :: n in labellers ==>
                 && (KeyOf(row) in report.1[n] <==> KeyOf(row) in labellers[n] && alike)
                 && (KeyOf(row) in report.1[n] ==> report.1[n][KeyOf(row)] == labellers[n][KeyOf(row)])
  {
    ProducedCorrectionsLoad(format, fixture, threads, out);
    KeptIsRebuiltAlike(format, fixture.rows, out, row);
    forall r: ReportRow ensures r in Retained(rows, loaded.keep) <==> r in rows && r.key in loaded.keep {
      RetainedHolds(rows, loaded.keep, r);
    }
  }

  /** The lookup by id takes the last thread of the id. */
  lemma {:induction false} MessagesOfLast(threads: seq<Thread>, i: nat)
    requires i < |threads| && forall j :: i < j < |threads| ==> threads[j].id != threads[i].id
    ensures MessagesOf(threads, threads[i].id) == threads[i].messages
  {
    if i < |threads| - 1 {
      MessagesOfLast(threads[..|threads| - 1], i);
    }
  }

  // --------------------------------------------------------------------- reasons

  ghost predicate DistinctIds(threads: seq<Thread>) {
    forall i, j :: 0 <= i < j < |threads| ==> threads[i].id != threads[j].id
  }

  lemma {:induction false} MessagesFound(threads: seq<Thread>, t: Thread)
    requires t in threads && DistinctIds(threads)
    ensures MessagesOf(threads, t.id) == t.messages
  {
    var front, last := threads[..|threads| - 1], threads[|threads| - 1];
    assert threads == front + [last];
    if t != last {
      var i :| 0 <= i < |threads| && threads[i] == t;
      assert t == front[i] && t.id != last.id;
      MessagesFound(front, t);
    }
  }

  /** Some thread of this id builds a row at the position; `t` may be another one of the id. */
  ghost predicate RowUnderId(rules: Rules, threads: seq<Thread>, current: Roster, id: int, i: nat) {
    exists t :: t in threads && t.id == id && BuildsRow(rules, t, current, i)
  }

  lemma UnderId(rules: Rules, threads: seq<Thread>, current: Roster, id: int, i: nat)
    ensures RowUnderId(rules, threads, current, id, i)
       <==> exists row :: row in Everything(rules, threads, current) && KeyOf(row) == (id, i)
  {
    if t :| t in threads && t.id == id && BuildsRow(rules, t, current, i) {
      var row := RowAt(rules, t, i, current).value;
      RowsAreRowAt(rules, t, current, row);
      EverythingHolds(rules, threads, current, row);
    }
    if row :| row in Everything(rules, threads, current) && KeyOf(row) == (id, i) {
      EverythingHolds(rules, threads, current, row);
      var t :| t in threads && row in RowsOf(rules, t, current);
      RowsAreRowAt(rules, t, current, row);
      assert BuildsRow(rules, t, current, i);
    }
  }

  lemma OneRowPerKey(rows: seq<Row>, r: Row, s: Row)
    requires DistinctKeys(rows) && r in rows && s in rows && KeyOf(r) == KeyOf(s)
    ensures r == s
  {
    var i :| 0 <= i < |rows| && rows[i] == r;
    var j :| 0 <= j < |rows| && rows[j] == s;
    assert i == j;
  }

  lemma KeysOfOutputs(all: seq<Row>, out: Outputs, k: (int, nat), at: Option<Row>)
    requires IsOutputs(all, Ok(out))
    requires forall row :: KeyOf(row) == k ==> (row in all <==> at == Some(row))
    requires at.Some? ==> KeyOf(at.value) == k
    ensures k in ByKey(out.population) <==> at.Some?
    ensures k in ByKey(out.fixture) <==> at.Some? && !EvalPartOf(at.value).GateOnly?
  {
    SameElements(all, out.population);
    if k in ByKey(out.population) {
      ByKeyFrom(out.population, k);
    }
    if k in ByKey(out.fixture) {
      ByKeyFrom(out.fixture, k);
    }
    if at.Some? {
      ByKeyHolds(out.population, at.value);
      if !EvalPartOf(at.value).GateOnly? {
        ByKeyHolds(out.fixture, at.value);
      }
    }
  }

  /** A key is in the rebuilt outputs when some thread of its id builds a row there; if `t` does, the
      row is `t`'s, for the build accepts no second one. */
  lemma PopulationRow(rules: Rules, threads: seq<Thread>, current: Roster, out: Outputs, t: Thread, i: nat)
    requires BuildsOutputs(rules, threads, current, Ok(out))
    requires t in threads && i < |t.messages|
    ensures (t.id, i) in ByKey(out.population) <==> RowUnderId(rules, threads, current, t.id, i)
    ensures BuildsRow(rules, t, current, i) ==>
              ((t.id, i) in ByKey(out.fixture) <==> !EvalPartOf(RowAt(rules, t, i, current).value).GateOnly?)
  {
    var all, k := Everything(rules, threads, current), (t.id, i);
    UnderId(rules, threads, current, t.id, i);
    if BuildsRow(rules, t, current, i) {
      var made := RowAt(rules, t, i, current).value;
      RowsAreRowAt(rules, t, current, made);
      EverythingHolds(rules, threads, current, made);
      forall row | KeyOf(row) == k ensures row in all <==> Some(made) == Some(row) {
        if row in all {
          OneRowPerKey(all, row, made);
        }
      }
      KeysOfOutputs(all, out, k, Some(made));
    } else if row :| row in all && KeyOf(row) == k {
      SameElements(all, out.population);
      ByKeyHolds(out.population, row);
    } else {
      KeysOfOutputs(all, out, k, None);
    }
  }

  /** The conductor's roster sends the message to the human: it is an escalation. */
  predicate ToHuman(rules: Rules, t: Thread, current: Roster, i: nat) {
    i < |t.messages|
    && var m := t.messages[i];
       rules.handoff(m.content, RoutingRoster(rules, t.messages[..i + 1], current), m.next).human
  }

  /** What the reasons say: the row's message is not at its position; it does not go to the human; its
      rebuilt row is for the gate only; its rebuilt row is in the fixture. */
  ghost predicate MakesOf(rules: Rules, t: Thread, current: Roster, row: Row, reason: Reason) {
    var i := row.roundIndex;
    match reason
    case SourceMessageMissing => !HoldsMessage(t.messages, row)
    case NotAnEscalation => HoldsMessage(t.messages, row) && !ToHuman(rules, t, current, i)
    case MovedToGateOnly =>
      && HoldsMessage(t.messages, row) && BuildsRow(rules, t, current, i)
      && EvalPartOf(RowAt(rules, t, i, current).value).GateOnly?
    case RebuiltRowDiffers =>
      && HoldsMessage(t.messages, row) && BuildsRow(rules, t, current, i)
      && !EvalPartOf(RowAt(rules, t, i, current).value).GateOnly?
  }

  /** The messages hold the row's message at the row's position. */
  predicate HoldsMessage(messages: seq<Message>, row: Row) {
    row.roundIndex < |messages| && messages[row.roundIndex].id == row.msgId
  }

  /** Threads of two projects may share an id, and the lookup by id takes the last of them; and a
      message can go to the human and still belong to neither set. The reason given for an excluded row
      of `t` is true of `t`'s message if and only if the thread that is looked up holds the row's
      message exactly when `t` does, and where `t` builds no row for it, no other thread of the id
      does, and the message does not go to the human. */
  lemma ReasonIsTrueIff(rules: Rules, threads: seq<Thread>, current: Roster, out: Outputs, t: Thread, row: Row)
    requires BuildsOutputs(rules, threads, current, Ok(out))
    requires t in threads && row.threadId == t.id
    ensures MakesOf(rules, t, current, row, WhyNot(threads, out, row))
       <==> && (HoldsMessage(MessagesOf(threads, t.id), row) <==> HoldsMessage(t.messages, row))
            && (HoldsMessage(t.messages, row) && !BuildsRow(rules, t, current, row.roundIndex) ==>
                  && !RowUnderId(rules, threads, current, t.id, row.roundIndex)
                  && !ToHuman(rules, t, current, row.roundIndex))
  {
    if HoldsMessage(t.messages, row) {
      if BuildsRow(rules, t, current, row.roundIndex) {
        BuiltReason(rules, threads, current, out, t, row);
      } else {
        UnbuiltReason(rules, threads, current, out, t, row);
      }
    }
  }

  lemma BuiltReason(rules: Rules, threads: seq<Thread>, current: Roster, out: Outputs, t: Thread, row: Row)
    requires BuildsOutputs(rules, threads, current, Ok(out))
    requires t in threads && row.threadId == t.id
    requires HoldsMessage(t.messages, row) && BuildsRow(rules, t, current, row.roundIndex)
    ensures MakesOf(rules, t, current, row, WhyNot(threads, out, row)) <==> HoldsMessage(MessagesOf(threads, t.id), row)
  {
    PopulationRow(rules, threads, current, out, t, row.roundIndex);
    assert RowUnderId(rules, threads, current, t.id, row.roundIndex);
  }

  lemma UnbuiltReason(rules: Rules, threads: seq<Thread>, current: Roster, out: Outputs, t: Thread, row: Row)
    requires BuildsOutputs(rules, threads, current, Ok(out))
    requires t in threads && row.threadId == t.id
    requires HoldsMessage(t.messages, row) && !BuildsRow(rules, t, current, row.roundIndex)
    ensures MakesOf(rules, t, current, row, WhyNot(threads, out, row))
       <==> && HoldsMessage(MessagesOf(threads, t.id), row)
            && !RowUnderId(rules, threads, current, t.id, row.roundIndex)
            && !ToHuman(rules, t, current, row.roundIndex)
  {
    PopulationRow(rules, threads, current, out, t, row.roundIndex);
  }

  /** A row is built exactly for the messages that go to the human and belong to one of the sets. */
  lemma EscalationsBuild(rules: Rules, t: Thread, current: Roster, i: nat)
    requires i < |t.messages|
    ensures BuildsRow(rules, t, current, i) ==> ToHuman(rules, t, current, i)
    ensures ToHuman(rules, t, current, i) && rules.evalSince <= t.messages[i].timestamp <= rules.evalUntil
        ==> BuildsRow(rules, t, current, i)
  {
  }

  /** When the ids are distinct, only the second cause is left. */
  lemma ReasonsAreTrue(rules: Rules, threads: seq<Thread>, current: Roster, out: Outputs, t: Thread, row: Row)
    requires BuildsOutputs(rules, threads, current, Ok(out))
    requires DistinctIds(threads) && t in threads && row.threadId == t.id
    ensures MakesOf(rules, t, current, row, WhyNot(threads, out, row))
       <==> (HoldsMessage(t.messages, row) && ToHuman(rules, t, current, row.roundIndex)
             ==> BuildsRow(rules, t, current, row.roundIndex))
  {
    MessagesFound(threads, t);
    ReasonIsTrueIff(rules, threads, current, out, t, row);
    forall u | u in threads && u.id == t.id ensures u == t {
    }
  }

  /** So every reason is true for rows whose message stands in the evaluation window. */
  lemma WindowReasonsAreTrue(rules: Rules, threads: seq<Thread>, current: Roster, out: Outputs, t: Thread, row: Row)
    requires BuildsOutputs(rules, threads, current, Ok(out))
    requires DistinctIds(threads) && t in threads && row.threadId == t.id
    requires HoldsMessage(t.messages, row) ==>
               rules.evalSince <= t.messages[row.roundIndex].timestamp <= rules.evalUntil
    ensures MakesOf(rules, t, current, row, WhyNot(threads, out, row))
  {
    ReasonsAreTrue(rules, threads, current, out, t, row);
    if HoldsMessage(t.messages, row) {
      EscalationsBuild(rules, t, current, row.roundIndex);
    }
  }

  /** An escalation that is called none: it goes to the human, but it is older than the window and
      carries no label. */
  lemma UnlabelledEscalationIsCalledNone()
    returns (threads: seq<Thread>, t: Thread, row: Row, out: Outputs)
    ensures DistinctIds(threads) && t in threads && row.threadId == t.id
    ensures BuildsOutputs(Loud(), threads, [], Ok(out))
    ensures HoldsMessage(t.messages, row) && ToHuman(Loud(), t, [], row.roundIndex)
    ensures WhyNot(threads, out, row) == NotAnEscalation && !MakesOf(Loud(), t, [], row, NotAnEscalation)
  {
    t := Thread("p", 1, [Message("m", "a", "", 5, None, None)]);
    threads := [t];
    row := Row("p", 1, 0, "m", "a", 5, RetroSet, false, None, false, false, None, "");
    out := Outputs([], []);
    OneThread(t);
    assert RowAt(Loud(), t, 0, []) == None;
    assert RowsOf(Loud(), t, []) == [];
  }

  /** Rules under which nothing goes to the human. */
  function Quiet(): Rules {
    Rules(s => s, (c, r, n) => Handoff(false, None, false), c => None, (b, a, t) => None,
          (id, i, r, ms, g) => "", (h, r) => false, t => t, 0, 1)
  }

  /** The builder accepts two threads with one id as long as their rows do not meet. Then a row of the
      first can be called missing at the source although its message is there. */
  lemma SharedIdGivesFalseReason()
    returns (threads: seq<Thread>, t: Thread, row: Row, out: Outputs)
    ensures DistinctThreads(threads) && t in threads && row.threadId == t.id
    ensures BuildsOutputs(Quiet(), threads, [], Ok(out))
    ensures HoldsMessage(t.messages, row) && WhyNot(threads, out, row) == SourceMessageMissing
    ensures !MakesOf(Quiet(), t, [], row, SourceMessageMissing)
  {
    var one, two := Message("m1", "a", "", 0, None, None), Message("m2", "a", "", 0, None, None);
    t := Thread("p", 1, [one]);
    threads := [t, Thread("q", 1, [two])];
    row := Row("p", 1, 0, "m1", "a", 0, EvalSet, false, None, false, false, None, "");
    out := Outputs([], []);
    QuietRows(threads[0]);
    QuietRows(threads[1]);
    assert threads[..1] == [t] && [t][..0] == [];
    assert Everything(Quiet(), [t], []) == [];
    assert MessagesOf(threads, 1) == [two];
    assert one.id != two.id by { assert "m1"[1] != "m2"[1]; }
  }

  lemma QuietRows(t: Thread)
    ensures RowsOf(Quiet(), t, []) == []
  {
    CollectNothing(RowsAt(Quiet(), t, []), |t.messages|);
  }

  lemma {:induction false} CollectNothing(rowAt: nat -> Option<Row>, n: nat)
    requires forall i: nat :: rowAt(i) == None
    ensures Collect(rowAt, n) == []
  {
    if n > 0 {
      CollectNothing(rowAt, n - 1);
    }
  }

  // --------------------------------------------------------------------- nothing to correct

  lemma {:induction false} ChosenDistinct(rows: seq<Row>)
    requires DistinctKeys(rows)
    ensures DistinctKeys(Chosen(rows))
  {
    if rows != [] {
      var front, last := rows[..|rows| - 1], rows[|rows| - 1];
      assert rows == front + [last];
      ChosenDistinct(front);
      forall row | row in Chosen(front) ensures KeyOf(row) != KeyOf(last) {
        var i :| 0 <= i < |front| && front[i] == row;
        assert rows[i] == row;
      }
      assert forall i :: 0 <= i < |Chosen(front)| ==> Chosen(front)[i] in Chosen(front);
    }
  }

  lemma OutputsDistinct(all: seq<Row>, out: Outputs)
    requires IsOutputs(all, Ok(out))
    ensures DistinctKeys(out.population) && DistinctKeys(out.fixture)
    ensures forall row :: row in out.population <==> row in all
  {
    DistinctKeysPermuted(all, out.population);
    SameElements(all, out.population);
    ChosenDistinct(out.population);
  }

  lemma KeptWhenRebuilt(format: Format, original: seq<Row>, rebuilt: seq<Row>, row: Row)
    requires DistinctKeys(original) && DistinctKeys(rebuilt)
    requires row in original && row in rebuilt
    ensures Kept(format, original, rebuilt, row)
  {
    ByKeyHolds(original, row);
    ByKeyHolds(rebuilt, row);
  }

  lemma {:induction false} AllKept(format: Format, original: seq<Row>, threads: seq<Thread>, out: Outputs, n: nat)
    requires n <= |original|
    requires DistinctKeys(original) && DistinctKeys(out.fixture)
    requires forall row :: row in original ==> row in out.fixture
    ensures ExcludeList(format, original, threads, out, n) == []
    ensures |KeepList(format, original, out.fixture, n)| == n
    ensures forall i :: 0 <= i < n ==> KeepList(format, original, out.fixture, n)[i] == EntryOf(original[i])
  {
    if n > 0 {
      AllKept(format, original, threads, out, n - 1);
      KeptWhenRebuilt(format, original, out.fixture, original[n - 1]);
    }
  }

  ghost predicate KeepsAll(fixture: Fixture, c: CorrectionSet) {
    && c.exclude == [] && |c.keep| == |fixture.rows|
    && forall i :: 0 <= i < |fixture.rows| ==> c.keep[i] == EntryOf(fixture.rows[i])
  }

  /** A message that the first harvest missed and that belongs in the fixture. */
  ghost predicate MissedSelection(
    rules: Rules, before: seq<Thread>, view: seq<Thread>, current: Roster, v: Thread, i: nat)
  {
    v in view && i < |v.messages| && Selected(rules, v, i, current) && !Fetched(before, v, i)
  }

  /** The keys of exactly these messages. */
  ghost predicate AddsMissed(
    rules: Rules, before: seq<Thread>, view: seq<Thread>, current: Roster, added: set<(int, nat)>)
  {
    forall k :: k in added <==> exists v :: MissedSelection(rules, before, view, current, v, k.1) && v.id == k.0
  }

  lemma NothingAddedIff(rules: Rules, before: seq<Thread>, view: seq<Thread>, current: Roster, added: set<(int, nat)>)
    requires AddsMissed(rules, before, view, current, added)
    ensures added == {} <==> forall v, i :: !MissedSelection(rules, before, view, current, v, i)
  {
    forall v, i: nat | MissedSelection(rules, before, view, current, v, i) ensures (v.id, i) in added {
    }
  }

  /** The rebuilt fixture holds the original rows, and besides them one row for each selected message
      that the first harvest had missed. */
  lemma FixtureGrows(
    rules: Rules, before: seq<Thread>, later: seq<Thread>, cutoff: int, current: Roster,
    out: Outputs, again: Outputs, row: Row)
    requires OnlyGrew(before, later, cutoff)
    requires BuildsOutputs(rules, before, current, Ok(out))
    requires BuildsOutputs(rules, AsOf(later, cutoff), current, Ok(again))
    ensures row in out.fixture ==> row in again.fixture
    ensures row in again.fixture && row !in out.fixture
       <==> exists v :: MissedSelection(rules, before, AsOf(later, cutoff), current, v, row.roundIndex)
                     && RowAt(rules, v, row.roundIndex, current) == Some(row)
  {
    var view := AsOf(later, cutoff);
    OutputsDistinct(Everything(rules, before, current), out);
    OutputsDistinct(Everything(rules, view, current), again);
    RowsOfView(rules, before, later, cutoff, current, row);
    EverythingHolds(rules, view, current, row);
    forall v | v in view
      ensures row in RowsOf(rules, v, current)
         <==> row.roundIndex < |v.messages| && RowAt(rules, v, row.roundIndex, current) == Some(row)
      ensures row in RowsOf(rules, v, current) ==>
                (Selected(rules, v, row.roundIndex, current) <==> !EvalPartOf(row).GateOnly?)
    {
      RowsAreRowAt(rules, v, current, row);
      if row.roundIndex < |v.messages| {
        SelectedRow(rules, v, row.roundIndex, current);
      }
    }
    OneSource(rules, before, later, cutoff, current, row);
  }

  /** A row comes from one thread of the view only. */
  lemma OneSource(rules: Rules, before: seq<Thread>, later: seq<Thread>, cutoff: int, current: Roster, row: Row)
    requires OnlyGrew(before, later, cutoff)
    ensures forall v, w ::
              (v in AsOf(later, cutoff) && row in RowsOf(rules, v, current))
              && (w in AsOf(later, cutoff) && row in RowsOf(rules, w, current))
              ==> v == w
  {
    var view := AsOf(later, cutoff);
    AsOfDistinct(later, cutoff);
    forall v, w | v in view && w in view && row in RowsOf(rules, v, current) && row in RowsOf(rules, w, current)
      ensures v == w
    {
      RowsAreRowAt(rules, v, current, row);
      RowsAreRowAt(rules, w, current, row);
      RowDescribes(rules, v, row.roundIndex, current);
      RowDescribes(rules, w, row.roundIndex, current);
      SameThreadSame(view, v, w);
    }
  }

  /** Corrections of a fixture by the code that built it, from a history that only grew: they are
      refused exactly when the view has two rows of one key. Otherwise every row is kept and none is
      excluded, and what is added are exactly the selected messages that the first harvest missed. */
  lemma CorrectionsAfterGrowth(
    rules: Rules, format: Format, fixture: Fixture, current: Roster,
    before: seq<Thread>, later: seq<Thread>, cutoff: int, out: Outputs, r: Result<CorrectionSet, BuildError>)
    requires OnlyGrew(before, later, cutoff)
    requires BuildsOutputs(rules, before, current, Ok(out)) && fixture.rows == out.fixture
    requires Corrects(rules, format, fixture, AsOf(later, cutoff), current, r)
    ensures r.Ok? <==> NoClash(rules, AsOf(later, cutoff), current)
    ensures r.Ok? ==> KeepsAll(fixture, r.value)
    ensures r.Ok? ==> AddsMissed(rules, before, AsOf(later, cutoff), current, r.value.added)
  {
    var view := AsOf(later, cutoff);
    var rebuilt :| BuildsOutputs(rules, view, current, rebuilt) && Follows(format, fixture, view, rebuilt, r);
    AsOfDistinct(later, cutoff);
    DistinctIffNoClash(rules, view, current);
    if rebuilt.Ok? {
      var again := rebuilt.value;
      OutputsDistinct(Everything(rules, before, current), out);
      OutputsDistinct(Everything(rules, view, current), again);
      forall row | row in out.fixture ensures row in again.fixture {
        FixtureGrows(rules, before, later, cutoff, current, out, again, row);
      }
      AllKept(format, fixture.rows, view, again, |fixture.rows|);
      forall k ensures k in ByKey(again.fixture).Keys - ByKey(fixture.rows).Keys
        <==> exists v :: MissedSelection(rules, before, view, current, v, k.1) && v.id == k.0
      {
        AddedKey(rules, before, later, cutoff, current, out, again, k);
      }
    }
  }

  lemma AddedKey(
    rules: Rules, before: seq<Thread>, later: seq<Thread>, cutoff: int, current: Roster, out: Outputs, again: Outputs,
    k: (int, nat))
    requires OnlyGrew(before, later, cutoff)
    requires BuildsOutputs(rules, before, current, Ok(out))
    requires BuildsOutputs(rules, AsOf(later, cutoff), current, Ok(again))
    requires DistinctKeys(out.fixture) && DistinctKeys(again.fixture)
    ensures k in ByKey(again.fixture) && k !in ByKey(out.fixture)
       <==> exists v :: MissedSelection(rules, before, AsOf(later, cutoff), current, v, k.1) && v.id == k.0
  {
    var view := AsOf(later, cutoff);
    if k in ByKey(again.fixture) && k !in ByKey(out.fixture) {
      var row := ByKey(again.fixture)[k];
      ByKeyFrom(again.fixture, k);
      if row in out.fixture {
        ByKeyHolds(out.fixture, row);
      }
      FixtureGrows(rules, before, later, cutoff, current, out, again, row);
      var v :| MissedSelection(rules, before, view, current, v, k.1) && RowAt(rules, v, k.1, current) == Some(row);
      RowDescribes(rules, v, k.1, current);
    }
    if v :| MissedSelection(rules, before, view, current, v, k.1) && v.id == k.0 {
      SelectedRow(rules, v, k.1, current);
      var row := RowAt(rules, v, k.1, current).value;
      RowDescribes(rules, v, k.1, current);
      FixtureGrows(rules, before, later, cutoff, current, out, again, row);
      ByKeyHolds(again.fixture, row);
      if k in ByKey(out.fixture) {
        var had := ByKey(out.fixture)[k];
        ByKeyFrom(out.fixture, k);
        FixtureGrows(rules, before, later, cutoff, current, out, again, had);
        OneRowPerKey(again.fixture, row, had);
      }
    }
  }

  /** There is nothing to correct if and only if the view has no two rows of one key, and the first
      harvest missed no selected message. */
  lemma NothingToCorrectIff(
    rules: Rules, format: Format, fixture: Fixture, current: Roster,
    before: seq<Thread>, later: seq<Thread>, cutoff: int, out: Outputs, r: Result<CorrectionSet, BuildError>)
    requires OnlyGrew(before, later, cutoff)
    requires BuildsOutputs(rules, before, current, Ok(out)) && fixture.rows == out.fixture
    requires Corrects(rules, format, fixture, AsOf(later, cutoff), current, r)
    ensures r.Ok? && KeepsAll(fixture, r.value) && r.value.added == {}
       <==> && NoClash(rules, AsOf(later, cutoff), current)
            && forall v, i :: !MissedSelection(rules, before, AsOf(later, cutoff), current, v, i)
  {
    CorrectionsAfterGrowth(rules, format, fixture, current, before, later, cutoff, out, r);
    if r.Ok? {
      NothingAddedIff(rules, before, AsOf(later, cutoff), current, r.value.added);
    }
  }

  /** In particular there is nothing to correct when messages were posted only after the cutoff. */
  lemma NothingToCorrect(
    rules: Rules, format: Format, fixture: Fixture, current: Roster,
    before: seq<Thread>, later: seq<Thread>, cutoff: int, out: Outputs, r: Result<CorrectionSet, BuildError>)
    requires GrownAfter(before, later, cutoff)
    requires BuildsOutputs(rules, before, current, Ok(out)) && fixture.rows == out.fixture
    requires Corrects(rules, format, fixture, AsOf(later, cutoff), current, r)
    ensures r.Ok? && KeepsAll(fixture, r.value) && r.value.added == {}
  {
    var view := AsOf(later, cutoff);
    ViewIsRestored(before, later, cutoff);
    assert OnlyGrew(before, later, cutoff) by {
      forall t | t in before && t.messages != [] ensures exists u :: u in later && Extends(u, t) {
        var u :| u in later && Continues(u, t, cutoff);
        assert Extends(u, t);
      }
    }
    var rebuilt :| BuildsOutputs(rules, view, current, rebuilt) && Follows(format, fixture, view, rebuilt, r);
    RebuildIsIdentical(rules, before, later, cutoff, current, Ok(out), rebuilt);
    CorrectionsAfterGrowth(rules, format, fixture, current, before, later, cutoff, out, r);
    forall v, i: nat | v in view && i < |v.messages| ensures Fetched(before, v, i) {
      assert v in before;
    }
  }
}
