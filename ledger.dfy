/**
 * `aef_export/sqlite.py`: the local export ledger, a single append-only
 * `exports` table. The table is a sequence of records, each an
 * AUTOINCREMENT id and the row's column values; the SQL engine itself is
 * abstract.
 */
module Ledger {
  import opened Wrappers
  import opened Strings

  /** One export job, with its eight fields in declaration order. */
  datatype Row = Row(
    taskId: string,
    jobName: string,
    eecuSeconds: Option<real>,
    runtimeSeconds: Option<real>,
    status: string,
    imageId: string,
    year: int,
    s3Path: string)

  /** A value bound to a `?` placeholder. */
  datatype SqlValue = Text(text: string) | Float(number: real) | Integer(integer: int) | Null

  /**
   * What executing the INSERT can raise: the table is missing, an integer
   * does not fit sqlite's 64-bit INTEGER (Python's `OverflowError` while
   * binding), or the AUTOINCREMENT ids are used up (SQLITE_FULL).
   */
  datatype SqlError = NoSuchTable(table: string) | IntegerOverflow | DatabaseFull

  /** The range of sqlite's 64-bit INTEGER, which bounds bound integers and row ids alike. */
  const MinInteger: int := -0x8000_0000_0000_0000
  const MaxInteger: int := 0x7FFF_FFFF_FFFF_FFFF

  predicate FitsInteger(x: int)
  {
    MinInteger <= x <= MaxInteger
  }

  /** The field names of `Row`, in declaration order: the keys of `asdict(row)`. */
  const FieldNames: seq<string> :=
    ["task_id", "job_name", "eecu_seconds", "runtime_seconds", "status", "image_id", "year", "s3_path"]

  function OptionalFloat(x: Option<real>): SqlValue
  {
    match x
    case Some(v) => Float(v)
    case None => Null
  }

  /** The values of `asdict(row)`, in the same order as its keys. */
  function Values(row: Row): (values: seq<SqlValue>)
    ensures |values| == |FieldNames|
  {
    [Text(row.taskId), Text(row.jobName), OptionalFloat(row.eecuSeconds), OptionalFloat(row.runtimeSeconds),
     Text(row.status), Text(row.imageId), Integer(row.year), Text(row.s3Path)]
  }

  /** `", ".join(d.keys())` */
  function ColumnList(): string
  {
    Join(", ", FieldNames)
  }

  /** `", ".join(["?" for _ in d.values()])` */
  function Placeholders(row: Row): string
  {
    Join(", ", seq(|Values(row)|, _ => "?"))
  }

  /** `f"INSERT INTO exports ({columns}) VALUES ({placeholders})"` */
  function InsertQuery(row: Row): string
  {
    "INSERT INTO exports (" + ColumnList() + ") VALUES (" + Placeholders(row) + ")"
  }

  /**
   * How SQL reads a parenthesised list: the items between commas, each with
   * its leading blanks dropped.
   */
  function ParseList(s: string): seq<string>
  {
    var items := Split(s, ',');
    seq(|items|, i requires 0 <= i < |items| => TrimLeft(items[i]))
  }

  /**
   * The statement names the eight columns in declaration order and has one
   * `?` per column, so the i-th parameter fills the i-th column.
   */
  lemma InsertListsParse(row: Row)
    ensures ParseList(ColumnList()) == FieldNames
    ensures ParseList(Placeholders(row)) == seq(|FieldNames|, _ => "?")
  {
    JoinCommaSpaceSplits(FieldNames);
    var qs := seq(|Values(row)|, _ => "?");
    JoinCommaSpaceSplits(qs);
  }

  /** Items free of commas and of leading blanks come back from their ", "-joined list. */
  lemma JoinCommaSpaceSplits(parts: seq<string>)
    requires |parts| >= 1
    requires forall i :: 0 <= i < |parts| ==> ',' !in parts[i] && (|parts[i]| == 0 || parts[i][0] != ' ')
    ensures ParseList(Join(", ", parts)) == parts
  {
    var spaced := [parts[0]] + Indented(parts[1..]);
    assert parts == [parts[0]] + parts[1..];
    JoinWithBlank(parts[0], parts[1..]);
    SplitJoin(spaced, ',');
    var items := Split(Join(", ", parts), ',');
    assert items == spaced;
    forall i | 0 <= i < |parts|
      ensures TrimLeft(items[i]) == parts[i]
    {
      TrimLeftUnspaced(parts[i]);
    }
  }

  function TrimLeft(s: string): string
    decreases |s|
  {
    if |s| > 0 && s[0] == ' ' then TrimLeft(s[1..]) else s
  }

  lemma TrimLeftUnspaced(s: string)
    requires |s| == 0 || s[0] != ' '
    ensures TrimLeft(s) == s && TrimLeft(" " + s) == s
  {
    assert (" " + s)[1..] == s;
  }

  /** The stored record: the i-th bound value fills the i-th named column. */
  function Bind(columns: seq<string>, values: seq<SqlValue>): map<string, SqlValue>
    requires |columns| == |values|
    decreases |columns|
  {
    if |columns| == 0 then map[]
    else Bind(columns[1..], values[1..])[columns[0] := values[0]]
  }

  /** With distinct column names, the column named `columns[i]` holds `values[i]`. */
  lemma {:induction false} BindPairsInOrder(columns: seq<string>, values: seq<SqlValue>, i: nat)
    requires |columns| == |values|
    requires forall j, k :: 0 <= j < k < |columns| ==> columns[j] != columns[k]
    requires i < |columns|
    ensures columns[i] in Bind(columns, values) && Bind(columns, values)[columns[i]] == values[i]
    decreases |columns|
  {
    if i > 0 {
      BindPairsInOrder(columns[1..], values[1..], i - 1);
    }
  }

  function AsText(v: Option<SqlValue>): Option<string>
  {
    if v.Some? && v.value.Text? then Some(v.value.text) else None
  }

  /** A nullable FLOAT column: `Some(None)` for NULL, `None` for a value of another type. */
  function AsOptionalFloat(v: Option<SqlValue>): Option<Option<real>>
  {
    match v
    case Some(Float(x)) => Some(Some(x))
    case Some(Null) => Some(None)
    case _ => None
  }

  function AsInteger(v: Option<SqlValue>): Option<int>
  {
    if v.Some? && v.value.Integer? then Some(v.value.integer) else None
  }

  function Column(record: map<string, SqlValue>, name: string): Option<SqlValue>
  {
    if name in record then Some(record[name]) else None
  }

  /** Reads a stored record back as a `Row`; `None` when a column is missing or of the wrong type. */
  function ReadBack(record: map<string, SqlValue>): Option<Row>
  {
    var taskId := AsText(Column(record, "task_id"));
    var jobName := AsText(Column(record, "job_name"));
    var eecu := AsOptionalFloat(Column(record, "eecu_seconds"));
    var runtime := AsOptionalFloat(Column(record, "runtime_seconds"));
    var status := AsText(Column(record, "status"));
    var imageId := AsText(Column(record, "image_id"));
    var year := AsInteger(Column(record, "year"));
    var s3Path := AsText(Column(record, "s3_path"));
    if taskId.Some? && jobName.Some? && eecu.Some? && runtime.Some? && status.Some?
       && imageId.Some? && year.Some? && s3Path.Some?
    then Some(Row(taskId.value, jobName.value, eecu.value, runtime.value, status.value,
                  imageId.value, year.value, s3Path.value))
    else None
  }

  lemma FieldNamesDistinct()
    ensures forall j, k :: 0 <= j < k < |FieldNames| ==> FieldNames[j] != FieldNames[k]
  {
    forall j, k | 0 <= j < k < |FieldNames|
      ensures FieldNames[j] != FieldNames[k]
    {
      assert |FieldNames[j]| != |FieldNames[k]| || FieldNames[j][0] != FieldNames[k][0];
    }
  }

  /** Each column of a row's record holds the value of the field of that name. */
  lemma ColumnsOfRow(row: Row)
    ensures var record := Bind(FieldNames, Values(row));
      && Column(record, "task_id") == Some(Text(row.taskId))
      && Column(record, "job_name") == Some(Text(row.jobName))
      && Column(record, "eecu_seconds") == Some(OptionalFloat(row.eecuSeconds))
      && Column(record, "runtime_seconds") == Some(OptionalFloat(row.runtimeSeconds))
      && Column(record, "status") == Some(Text(row.status))
      && Column(record, "image_id") == Some(Text(row.imageId))
      && Column(record, "year") == Some(Integer(row.year))
      && Column(record, "s3_path") == Some(Text(row.s3Path))
  {
    var values := Values(row);
    FieldNamesDistinct();
    BindPairsInOrder(FieldNames, values, 0);
    BindPairsInOrder(FieldNames, values, 1);
    BindPairsInOrder(FieldNames, values, 2);
    BindPairsInOrder(FieldNames, values, 3);
    BindPairsInOrder(FieldNames, values, 4);
    BindPairsInOrder(FieldNames, values, 5);
    BindPairsInOrder(FieldNames, values, 6);
    BindPairsInOrder(FieldNames, values, 7);
  }

  /** Binding a row's values to its columns loses nothing: the record reads back as the row. */
  lemma RecordReadsBack(row: Row)
    ensures ReadBack(Bind(FieldNames, Values(row))) == Some(row)
  {
    ColumnsOfRow(row);
  }

  /**
   * A stored row: its AUTOINCREMENT id and the values bound to the columns
   * `FieldNames`, in that order; `Bind(FieldNames, values)` is the row seen
   * column by column.
   */
  datatype Record = Record(id: nat, values: seq<SqlValue>)

  /**
   * The database file: whether the `exports` table exists, its records in
   * insertion order, and the largest id ever handed out (sqlite_sequence).
   */
  datatype Store = Store(hasTable: bool, records: seq<Record>, lastId: nat)

  /** Ids are positive, strictly increasing, never above the largest handed out, which fits an INTEGER. */
  ghost predicate Consistent(s: Store)
  {
    && (forall i, j :: 0 <= i < j < |s.records| ==> s.records[i].id < s.records[j].id)
    && (forall i :: 0 <= i < |s.records| ==> 0 < s.records[i].id <= s.lastId)
    && s.lastId <= MaxInteger
    && (!s.hasTable ==> s.records == [])
  }

  /** `CREATE TABLE IF NOT EXISTS exports(...)` */
  function Init(s: Store): Store
  {
    s.(hasTable := true)
  }

  /** Creating the table a second time changes nothing, and creating it never touches the records. */
  lemma InitIdempotent(s: Store)
    requires Consistent(s)
    ensures Consistent(Init(s))
    ensures Init(Init(s)) == Init(s)
    ensures Init(s).records == s.records && Init(s).lastId == s.lastId
  {
  }

  /**
   * The error executing the INSERT of `row` raises, if any: preparing it
   * fails when the table does not exist, binding fails when `year` does not
   * fit an INTEGER, and the insert fails once the largest id has been
   * handed out.
   */
  function InsertError(s: Store, row: Row): Option<SqlError>
  {
    if !s.hasTable then Some(NoSuchTable("exports"))
    else if !FitsInteger(row.year) then Some(IntegerOverflow)
    else if s.lastId == MaxInteger then Some(DatabaseFull)
    else None
  }

  /** Executing the INSERT of `row`: the next id, the row's values bound to their columns. */
  function Insert(s: Store, row: Row): Result<Store, SqlError>
  {
    match InsertError(s, row)
    case Some(e) => Failure(e)
    case None =>
      var id := s.lastId + 1;
      Success(s.(records := s.records + [Record(id, Values(row))], lastId := id))
  }

  /**
   * A successful insert appends exactly one record, holding the row's values
   * under their column names (so it reads back as the row, by
   * `RecordReadsBack`), with an id greater than every id before it; earlier
   * records are unchanged. It fails exactly when the table is missing, the
   * year does not fit an INTEGER, or the ids are used up.
   */
  lemma InsertAppendsOne(s: Store, row: Row)
    requires Consistent(s)
    ensures Insert(s, row).Failure? <==> !s.hasTable || !FitsInteger(row.year) || s.lastId == MaxInteger
    ensures Insert(s, row).Success? ==>
      var t := Insert(s, row).value;
      && Consistent(t)
      && |t.records| == |s.records| + 1
      && t.records[..|s.records|] == s.records
      && t.records[|s.records|].values == Values(row)
      && (forall i :: 0 <= i < |s.records| ==> s.records[i].id < t.records[|s.records|].id)
  {
  }

  /** Inserting `rows` one after the other, stopping at the first failure. */
  function InsertAll(s: Store, rows: seq<Row>): Result<Store, SqlError>
    decreases |rows|
  {
    if |rows| == 0 then Success(s)
    else match InsertAll(s, rows[..|rows| - 1])
      case Failure(e) => Failure(e)
      case Success(t) => Insert(t, rows[|rows| - 1])
  }

  /**
   * Once the table exists, inserts of rows whose years fit an INTEGER, while
   * ids remain for all of them, succeed, hand out one id per row and keep
   * the records already there.
   */
  lemma {:induction false} InsertAllSucceeds(s: Store, rows: seq<Row>)
    requires Consistent(s) && s.hasTable
    requires forall i :: 0 <= i < |rows| ==> FitsInteger(rows[i].year)
    requires s.lastId + |rows| <= MaxInteger
    ensures InsertAll(s, rows).Success?
    ensures var t := InsertAll(s, rows).value;
      && Consistent(t) && t.hasTable && t.lastId == s.lastId + |rows|
      && |t.records| == |s.records| + |rows|
      && t.records[..|s.records|] == s.records
    decreases |rows|
  {
    if |rows| > 0 {
      var n := |rows| - 1;
      InsertAllSucceeds(s, rows[..n]);
      var t0 := InsertAll(s, rows[..n]).value;
      assert FitsInteger(rows[n].year);
      InsertAppendsOne(t0, rows[n]);
      var t := Insert(t0, rows[n]).value;
      assert t.lastId == t0.lastId + 1;
      assert InsertAll(s, rows) == Insert(t0, rows[n]);
      assert t.records[..|s.records|] == t.records[..|t0.records|][..|s.records|];
    }
  }

  /** A successful run of inserts is a successful run of all but the last, then the last. */
  lemma InsertAllLast(s: Store, rows: seq<Row>)
    requires |rows| > 0 && InsertAll(s, rows).Success?
    ensures InsertAll(s, rows[..|rows| - 1]).Success?
    ensures var t0 := InsertAll(s, rows[..|rows| - 1]).value;
      InsertAll(s, rows).value.records == t0.records + [Record(t0.lastId + 1, Values(rows[|rows| - 1]))]
  {
  }

  /**
   * Whenever the inserts succeed, they append one record per row, in order,
   * each holding that row's values under its column names (so each reads
   * back as its row, by `RecordReadsBack`), after the records already there.
   */
  lemma {:induction false} InsertAllAppends(s: Store, rows: seq<Row>)
    requires InsertAll(s, rows).Success?
    ensures var t := InsertAll(s, rows).value;
      && |t.records| == |s.records| + |rows|
      && t.records[..|s.records|] == s.records
      && (forall j :: |s.records| <= j < |t.records| ==> t.records[j].values == Values(rows[j - |s.records|]))
    decreases |rows|
  {
    if |rows| > 0 {
      InsertAllLast(s, rows);
      InsertAllAppends(s, rows[..|rows| - 1]);
      AppendedLast(s.records, InsertAll(s, rows[..|rows| - 1]).value.records, InsertAll(s, rows).value.records,
                   rows, Values);
    }
  }

  /**
   * The step of `InsertAllAppends`: the records of all rows but the last,
   * then the last row's, for any way `stored` of turning a row into a
   * record's values.
   */
  lemma AppendedLast(before: seq<Record>, middle: seq<Record>, after: seq<Record>,
                     rows: seq<Row>, stored: Row -> seq<SqlValue>)
    requires |rows| > 0
    requires |middle| == |before| + |rows| - 1 && middle[..|before|] == before
    requires forall j :: |before| <= j < |middle| ==> middle[j].values == stored(rows[..|rows| - 1][j - |before|])
    requires |after| == |middle| + 1 && after[..|middle|] == middle
    requires after[|middle|].values == stored(rows[|rows| - 1])
    ensures after[..|before|] == before
    ensures forall j :: |before| <= j < |after| ==> after[j].values == stored(rows[j - |before|])
  {
    forall j | |before| <= j < |middle|
      ensures after[j].values == stored(rows[j - |before|])
    {
      assert rows[j - |before|] == rows[..|rows| - 1][j - |before|];
      assert after[j] == after[..|middle|][j];
    }
    assert after[..|before|] == after[..|middle|][..|before|];
  }

  /** The ledger database, updated in place by `init_database` and `insert_row`. */
  class Database {
    var hasTable: bool
    var records: seq<Record>
    var lastId: nat

    function State(): Store
      reads this
    {
      Store(hasTable, records, lastId)
    }

    ghost predicate Valid()
      reads this
    {
      Consistent(State())
    }

    /** A database file that does not exist yet. */
    constructor ()
      ensures Valid() && State() == Store(false, [], 0)
    {
      hasTable := false;
      records := [];
      lastId := 0;
    }

    /** `init_database` */
    method InitDatabase()
      requires Valid()
      modifies this
      ensures Valid()
      ensures State() == Init(old(State()))
    {
      hasTable := true;
    }

    /**
     * `insert_row`: builds the statement and its parameters from the row's
     * fields, executes it and commits. Hands back the statement and its
     * parameters, and returns nothing or the error the execution raised.
     */
    method InsertRow(row: Row) returns (query: string, parameters: seq<SqlValue>, outcome: Result<(), SqlError>)
      requires Valid()
      modifies this
      ensures Valid()
      ensures query == InsertQuery(row) && parameters == Values(row)
      ensures Insert(old(State()), row).Failure? ==>
        outcome == Failure(Insert(old(State()), row).error) && State() == old(State())
      ensures Insert(old(State()), row).Success? ==>
        outcome == Success(()) && State() == Insert(old(State()), row).value
    {
      var columns := Join(", ", FieldNames);
      var placeholders := Join(", ", seq(|Values(row)|, _ => "?"));
      query := "INSERT INTO exports (" + columns + ") VALUES (" + placeholders + ")";
      parameters := Values(row);
      if !hasTable {
        outcome := Failure(NoSuchTable("exports"));
        return;
      }
      if !FitsInteger(row.year) {
        outcome := Failure(IntegerOverflow);
        return;
      }
      if lastId == MaxInteger {
        outcome := Failure(DatabaseFull);
        return;
      }
      InsertAppendsOne(State(), row);
      lastId := lastId + 1;
      records := records + [Record(lastId, parameters)];
      outcome := Success(());
    }
  }
}
