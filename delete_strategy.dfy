/**
 * Delete strategies a model may be configured with. The one built-in
 * strategy, `hard`, physically removes the found record's row; a custom
 * strategy is opaque and is given by its effect on the tables.
 */
module DeleteStrategy {
  import opened Results
  import opened Storage

  datatype Strategy =
    | Hard
    | Custom(run: (Row, map<string, Table>) -> map<string, Table>)

  /**
   * The table after the hard strategy has run for `record` on a model whose
   * id field is `idField`: only the record's id value is consulted.
   */
  function HardDeleted(t: Table, record: Row, idField: string): (r: Result<Table, StorageError>)
    ensures r.Err? <==> Get(record, idField) == Undefined
    ensures r.Err? ==> r.error == UndefinedBinding
    ensures r.Ok? ==> r.value.lastId == t.lastId
    ensures r.Ok? ==> forall row :: row in r.value.rows <==> row in t.rows && Column(row, idField) != record[idField]
    ensures r.Ok? ==> |r.value.rows| == |t.rows| - CountWhere(t.rows, ById(idField, record[idField]))
    ensures r.Ok? ==> Subsequence(r.value.rows, t.rows)
  {
    var id := Get(record, idField);
    if id == Undefined then Err(UndefinedBinding)
    else
      var rows := DeleteWhere(t.rows, ById(idField, id));
      assert forall row :: Satisfies(row, ById(idField, id)) <==> Column(row, idField) == id by {
        forall row { SatisfiesById(row, idField, id); }
      }
      Ok(Table(rows, t.lastId))
  }

  /**
   * The closure `hard()` returns: deletes from the model's table, through
   * the handle it is given, every row whose id field equals the record's.
   */
  method RunHard(record: Row, db: Database, table: string, idField: string) returns (r: Result<(), StorageError>)
    requires table in db.tables
    modifies db
    ensures HardDeleted(old(db.tables[table]), record, idField).Err? ==>
      r == Err(UndefinedBinding) && unchanged(db)
    ensures HardDeleted(old(db.tables[table]), record, idField).Ok? ==>
      r == Ok(()) && db.tables == old(db.tables)[table := HardDeleted(old(db.tables[table]), record, idField).value]
  {
    var id := Get(record, idField);
    if id == Undefined {
      return Err(UndefinedBinding);
    }
    var t := db.tables[table];
    db.tables := db.tables[table := Table(DeleteWhere(t.rows, ById(idField, id)), t.lastId)];
    r := Ok(());
  }

  /** The hard strategy reads nothing of the record but its id field. */
  lemma HardReadsOnlyId(t: Table, a: Row, b: Row, idField: string)
    requires Get(a, idField) == Get(b, idField)
    ensures HardDeleted(t, a, idField) == HardDeleted(t, b, idField)
  {
  }
}
