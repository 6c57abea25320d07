/**
 * The relational table a model reads and writes, reduced to the four
 * statements the model issues through the query builder: where/first,
 * insert, update and delete. Rows are kept in table order.
 */
module Storage {
  import opened Results

  /** A value as it appears in a record or in a column. */
  datatype Value = Undefined | Null | Bool(b: bool) | Num(n: int) | Str(s: string) | Time(t: int)

  /** The falsy values of JavaScript among those modelled (a date is always truthy). */
  predicate Falsy(v: Value) {
    v == Undefined || v == Null || v == Bool(false) || v == Num(0) || v == Str("")
  }

  /** A record or a stored row: field name to value. */
  type Row = map<string, Value>

  /** A property read on a record: a key the record does not have reads as `undefined`. */
  function Get(record: Row, key: string): Value {
    if key in record then record[key] else Undefined
  }

  /** A column read on a stored row: a column never written holds NULL. */
  function Column(row: Row, column: string): Value {
    if column in row then row[column] else Null
  }

  /** The auto-increment primary key column, which the model names literally. */
  const IdColumn: string := "id"

  function Id(row: Row): Value {
    Column(row, IdColumn)
  }

  /**
   * A where clause: `column = value` for every pair of `equal` (a null value
   * compiles to `column IS NULL`), and `column IS NULL` for every name in `isNull`.
   */
  datatype Where = Where(equal: Row, isNull: set<string>)

  /** `where(field, value)` */
  function ById(field: string, value: Value): Where {
    Where(map[field := value], {})
  }

  predicate Satisfies(row: Row, w: Where) {
    && (forall c :: c in w.equal ==> Column(row, c) == w.equal[c])
    && (forall c :: c in w.isNull ==> Column(row, c) == Null)
  }

  lemma SatisfiesById(row: Row, field: string, value: Value)
    ensures Satisfies(row, ById(field, value)) <==> Column(row, field) == value
  {
  }

  /** The query builder refuses to compile a where clause that binds `undefined`. */
  predicate Bindable(equal: Row) {
    forall c :: c in equal ==> equal[c] != Undefined
  }

  datatype StorageError =
    | UndefinedBinding     // a where clause bound `undefined`
    | ConstraintViolation  // a write left the primary key null or duplicated

  /** A table: its rows in table order, and the largest id the auto-increment has handed out. */
  datatype Table = Table(rows: seq<Row>, lastId: int)

  /** The primary key constraint: every row has a non-null id and no two rows share one. */
  predicate KeysOk(rows: seq<Row>) {
    && (forall i :: 0 <= i < |rows| ==> Id(rows[i]) != Null)
    && (forall i, j :: 0 <= i < j < |rows| ==> Id(rows[i]) != Id(rows[j]))
  }

  /** A table as the database keeps it: keys intact, and no `undefined` ever stored. */
  predicate Valid(t: Table) {
    && KeysOk(t.rows)
    && (forall i, c :: 0 <= i < |t.rows| && c in t.rows[i] ==> t.rows[i][c] != Undefined)
  }

  /** `where(w).first()`: the position of the first row satisfying `w`, or `|rows|` if none does. */
  function FirstIndex(rows: seq<Row>, w: Where): (i: nat)
    ensures i <= |rows|
    ensures i < |rows| ==> Satisfies(rows[i], w)
    ensures forall j :: 0 <= j < i ==> !Satisfies(rows[j], w)
  {
    if rows == [] then 0
    else if Satisfies(rows[0], w) then 0
    else 1 + FirstIndex(rows[1..], w)
  }

  /** The values a write stores: the query builder leaves out keys bound to `undefined`. */
  function Written(values: Row): Row {
    map c | c in values && values[c] != Undefined :: values[c]
  }

  /** The largest numeric id among the rows, or 0. */
  function MaxNumId(rows: seq<Row>): (m: int)
    ensures forall i :: 0 <= i < |rows| && Id(rows[i]).Num? ==> Id(rows[i]).n <= m
  {
    if rows == [] then 0
    else
      var rest := MaxNumId(rows[1..]);
      if Id(rows[0]).Num? && Id(rows[0]).n > rest then Id(rows[0]).n else rest
  }

  /**
   * The id an AUTOINCREMENT key generates: one more than both the largest id
   * ever handed out and the largest id present.
   */
  function NextId(t: Table): (n: int)
    ensures n > t.lastId
    ensures forall i :: 0 <= i < |t.rows| ==> Id(t.rows[i]) != Num(n)
  {
    1 + (if t.lastId < MaxNumId(t.rows) then MaxNumId(t.rows) else t.lastId)
  }

  /** The caller supplies the primary key itself. */
  predicate ExplicitId(values: Row) {
    IdColumn in values && values[IdColumn] != Undefined && values[IdColumn] != Null
  }

  /** `insert(values, ["id"])`: appends one row and yields its id column. */
  function Insert(t: Table, values: Row): (r: Result<(Table, Value), StorageError>)
    ensures r.Err? <==> ExplicitId(values) && exists i :: 0 <= i < |t.rows| && Id(t.rows[i]) == values[IdColumn]
    ensures r.Err? ==> r.error == ConstraintViolation
    ensures r.Ok? ==> |r.value.0.rows| == |t.rows| + 1 && r.value.0.rows[..|t.rows|] == t.rows
    ensures r.Ok? ==> Id(r.value.0.rows[|t.rows|]) == r.value.1
    ensures r.Ok? ==> r.value.1 == if ExplicitId(values) then values[IdColumn] else Num(NextId(t))
    ensures r.Ok? ==> forall c :: c != IdColumn ==> Get(r.value.0.rows[|t.rows|], c) == Get(values, c)
    ensures r.Ok? ==> forall c :: c in r.value.0.rows[|t.rows|] ==> r.value.0.rows[|t.rows|][c] != Undefined
  {
    var row := Written(values);
    if ExplicitId(values) then
      var id := values[IdColumn];
      if exists i :: 0 <= i < |t.rows| && Id(t.rows[i]) == id then Err(ConstraintViolation)
      else Ok((Table(t.rows + [row], if id.Num? && id.n > t.lastId then id.n else t.lastId), id))
    else
      var n := NextId(t);
      Ok((Table(t.rows + [row[IdColumn := Num(n)]], n), Num(n)))
  }

  /** The rows after `where(w).update(values)`, before the key constraint is checked. */
  function UpdatedRows(rows: seq<Row>, w: Where, values: Row): seq<Row> {
    seq(|rows|, i requires 0 <= i < |rows| => if Satisfies(rows[i], w) then rows[i] + Written(values) else rows[i])
  }

  /** `where(w).update(values)`: every row satisfying `w` takes the values written, and no other row changes. */
  function Update(t: Table, w: Where, values: Row): (r: Result<Table, StorageError>)
    ensures r.Err? ==> r.error == ConstraintViolation && Get(values, IdColumn) != Undefined
    ensures r.Ok? ==> |r.value.rows| == |t.rows| && r.value.lastId == t.lastId
    ensures r.Ok? ==> forall i :: 0 <= i < |t.rows| && !Satisfies(t.rows[i], w) ==> r.value.rows[i] == t.rows[i]
    ensures r.Ok? ==> forall i, c :: 0 <= i < |t.rows| && Satisfies(t.rows[i], w) ==>
      Get(r.value.rows[i], c) == if Get(values, c) != Undefined then values[c] else Get(t.rows[i], c)
    ensures r.Ok? ==> forall i, c :: 0 <= i < |t.rows| && Satisfies(t.rows[i], w) ==>
      Column(r.value.rows[i], c) == if Get(values, c) != Undefined then values[c] else Column(t.rows[i], c)
  {
    var rows := UpdatedRows(t.rows, w, values);
    if IdColumn in Written(values) && !KeysOk(rows) then Err(ConstraintViolation)
    else Ok(Table(rows, t.lastId))
  }

  /** The number of rows satisfying `w`. */
  function CountWhere(rows: seq<Row>, w: Where): nat {
    if rows == [] then 0
    else (if Satisfies(rows[0], w) then 1 else 0) + CountWhere(rows[1..], w)
  }

  /** `a` is `b` with some rows left out: the rows of `a` occur in `b`, in the same order. */
  predicate Subsequence(a: seq<Row>, b: seq<Row>)
    decreases |b|
  {
    if b == [] then a == []
    else (a != [] && a[0] == b[0] && Subsequence(a[1..], b[1..])) || Subsequence(a, b[1..])
  }

  /** `where(w).delete()`: the rows that do not satisfy `w`, in table order. */
  function DeleteWhere(rows: seq<Row>, w: Where): (r: seq<Row>)
    ensures |r| == |rows| - CountWhere(rows, w)
    ensures forall row :: row in r <==> row in rows && !Satisfies(row, w)
    ensures Subsequence(r, rows)
  {
    if rows == [] then []
    else if Satisfies(rows[0], w) then DeleteWhere(rows[1..], w)
    else [rows[0]] + DeleteWhere(rows[1..], w)
  }

  /** A successful insert keeps the primary key constraint and stores no `undefined`. */
  lemma InsertKeepsValid(t: Table, values: Row)
    requires Valid(t) && Insert(t, values).Ok?
    ensures Valid(Insert(t, values).value.0)
  {
  }

  /** A successful update keeps the primary key constraint and stores no `undefined`. */
  lemma UpdateKeepsValid(t: Table, w: Where, values: Row)
    requires Valid(t) && Update(t, w, values).Ok?
    ensures Valid(Update(t, w, values).value)
  {
  }

  /** Dropping the first row keeps a table valid. */
  lemma TailKeepsValid(t: Table)
    requires Valid(t) && t.rows != []
    ensures Valid(Table(t.rows[1..], t.lastId))
  {
  }

  /** Putting a row with a new non-null id and no `undefined` in front keeps a table valid. */
  lemma ConsKeepsValid(row: Row, rest: seq<Row>, lastId: int)
    requires Valid(Table(rest, lastId))
    requires Id(row) != Null && forall c :: c in row ==> row[c] != Undefined
    requires forall j :: 0 <= j < |rest| ==> Id(row) != Id(rest[j])
    ensures Valid(Table([row] + rest, lastId))
  {
  }

  /** Deleting rows keeps the primary key constraint and stores no `undefined`. */
  lemma {:induction false} DeleteWhereKeepsValid(t: Table, w: Where)
    requires Valid(t)
    ensures Valid(Table(DeleteWhere(t.rows, w), t.lastId))
    decreases |t.rows|
  {
    if t.rows != [] {
      var tail := Table(t.rows[1..], t.lastId);
      TailKeepsValid(t);
      DeleteWhereKeepsValid(tail, w);
      var rest := DeleteWhere(tail.rows, w);
      if !Satisfies(t.rows[0], w) {
        forall j | 0 <= j < |rest|
          ensures Id(t.rows[0]) != Id(rest[j])
        {
          assert rest[j] in tail.rows;
          var k :| 0 <= k < |tail.rows| && tail.rows[k] == rest[j];
          assert t.rows[k + 1] == rest[j];
        }
        assert forall c :: c in t.rows[0] ==> t.rows[0][c] != Undefined;
        ConsKeepsValid(t.rows[0], rest, t.lastId);
      }
    }
  }

  /** A database handle: the tables it reaches, by name. */
  class Database {
    var tables: map<string, Table>
  }
}
