/**
 * The `Model` record store over one table: save, saveAndFetch, fetch,
 * fetchOrThrow and delete. The current time is the parameter `now`, and
 * a transaction handle is a `Database` passed in place of the model's own.
 */
module Models {
  import opened Results
  import opened Storage
  import DeleteStrategy

  datatype Failure =
    | NothingToSave
    | FailedToSave
    | RecordNotFound
    | DeleteNotImplemented
    | DbError(cause: StorageError)

  /** A model's configuration, fixed at construction. */
  datatype ModelOptions = ModelOptions(
    table: string,
    idField: string,
    createdField: Option<string>,
    updatedField: Option<string>,
    deletedField: Option<string>,
    deleteStrategy: Option<DeleteStrategy.Strategy>,
    parseStrategy: Option<Row -> Row>)

  /** The record with every `undefined` non-id value replaced by null. */
  function Normalized(record: Row, idField: string): (r: Row)
    ensures r.Keys == record.Keys
    ensures forall k :: k in r && k != idField ==> r[k] != Undefined
    ensures forall k :: k in r && record[k] == Undefined && k != idField ==> r[k] == Null
    ensures forall k :: k in r && (record[k] != Undefined || k == idField) ==> r[k] == record[k]
  {
    map k | k in record :: if k != idField && record[k] == Undefined then Null else record[k]
  }

  /** The copy `save` writes from: turns `undefined` into null, one key at a time. */
  method NormalizeUndefined(record: Row, idField: string) returns (saveRecord: Row)
    ensures saveRecord == Normalized(record, idField)
  {
    saveRecord := record;
    var keysWithoutId := record.Keys - {idField};
    var todo := keysWithoutId;
    while todo != {}
      invariant todo <= keysWithoutId
      invariant saveRecord.Keys == record.Keys
      invariant forall k :: k in saveRecord ==>
        saveRecord[k] == if k in keysWithoutId - todo && record[k] == Undefined then Null else record[k]
      decreases todo
    {
      var key :| key in todo;
      if saveRecord[key] == Undefined {
        saveRecord := saveRecord[key := Null];
      }
      todo := todo - {key};
    }
  }

  /** Sets `field` to the current time when the caller's value for it is falsy. */
  function Stamp(values: Row, field: Option<string>, record: Row, now: int): Row {
    if field.Some? && Falsy(Get(record, field.value)) then values[field.value := Time(now)] else values
  }

  /** The existence probe: an id was supplied and some row carries it in the id field. */
  predicate Exists(o: ModelOptions, t: Table, id: Value) {
    id != Undefined && FirstIndex(t.rows, ById(o.idField, id)) < |t.rows|
  }

  /** The table after a successful write, and the id `save` then fetches by. */
  datatype Saved = Saved(table: Table, id: Value)

  /** The write `save` performs: an update of the rows with the supplied id, or an insert. */
  function SaveWrite(o: ModelOptions, t: Table, record: Row, now: int): (r: Result<Saved, Failure>)
    ensures r == Err(NothingToSave) <==> record.Keys <= {o.idField}
  {
    if record.Keys <= {o.idField} then Err(NothingToSave)
    else
      var saveRecord := Normalized(record, o.idField);
      var id := Get(record, o.idField);
      if Exists(o, t, id) then
        match Update(t, ById(o.idField, id), Stamp(saveRecord - {o.idField}, o.updatedField, record, now))
        case Err(e) => Err(DbError(e))
        case Ok(updated) => Ok(Saved(updated, id))
      else
        match Insert(t, Stamp(saveRecord, o.createdField, record, now))
        case Err(e) => Err(DbError(e))
        case Ok(inserted) => Ok(Saved(inserted.0, Get(map[IdColumn := inserted.1], o.idField)))
  }

  /** The table once `save` has run: unchanged when it failed. */
  function SavedTable(o: ModelOptions, t: Table, record: Row, now: int): Table {
    var w := SaveWrite(o, t, record, now);
    if w.Ok? then w.value.table else t
  }

  /** The where clause `fetch` runs: the query, and the deleted field IS NULL when one is configured. */
  function FetchWhere(o: ModelOptions, query: Row): Where {
    Where(query, if o.deletedField.Some? then {o.deletedField.value} else {})
  }

  function Parse(o: ModelOptions, row: Row): Row {
    if o.parseStrategy.Some? then o.parseStrategy.value(row) else row
  }

  /** What `fetch` yields on the given rows: the first visible row matching every pair of the query, parsed. */
  function FetchFrom(o: ModelOptions, rows: seq<Row>, query: Row): (r: Result<Option<Row>, Failure>)
    ensures r.Err? <==> !Bindable(query)
    ensures r.Err? ==> r.error == DbError(UndefinedBinding)
    ensures r == Ok(None) <==> Bindable(query) && forall i :: 0 <= i < |rows| ==> !Satisfies(rows[i], FetchWhere(o, query))
    ensures r.Ok? && r.value.Some? ==>
      exists i :: 0 <= i < |rows| && Satisfies(rows[i], FetchWhere(o, query)) && r.value.value == Parse(o, rows[i])
        && forall j :: 0 <= j < i ==> !Satisfies(rows[j], FetchWhere(o, query))
  {
    if !Bindable(query) then Err(DbError(UndefinedBinding))
    else
      var i := FirstIndex(rows, FetchWhere(o, query));
      if i == |rows| then Ok(None) else Ok(Some(Parse(o, rows[i])))
  }

  /** What `save` resolves to: null, or with `returnNew` the row fetched back by the saved id. */
  function SaveResult(o: ModelOptions, t: Table, record: Row, returnNew: bool, now: int): Result<Option<Row>, Failure> {
    match SaveWrite(o, t, record, now)
    case Err(e) => Err(e)
    case Ok(s) => if returnNew then FetchFrom(o, s.table.rows, map[o.idField := s.id]) else Ok(None)
  }

  /** A lookup whose missing row is the failure `missing`. */
  function Required(r: Result<Option<Row>, Failure>, missing: Failure): (q: Result<Row, Failure>)
    ensures q.Ok? <==> r.Ok? && r.value.Some?
    ensures q.Ok? ==> q.value == r.value.value
    ensures r == Ok(None) ==> q == Err(missing)
    ensures r.Err? ==> q == Err(r.error)
  {
    match r
    case Err(e) => Err(e)
    case Ok(None) => Err(missing)
    case Ok(Some(row)) => Ok(row)
  }

  /** The lookup found a row. */
  predicate Found(r: Result<Option<Row>, Failure>) {
    r.Ok? && r.value.Some?
  }

  class Model {
    const db: Database
    const options: ModelOptions

    constructor(db: Database, options: ModelOptions)
      ensures this.db == db && this.options == options
    {
      this.db := db;
      this.options := options;
    }

    /** The handle an operation acts on: the one passed in, else the model's own. */
    function Handle(handle: Option<Database>): Database {
      if handle.Some? then handle.value else db
    }

    /** The model's table as seen through a handle. */
    function Rows(handle: Option<Database>): seq<Row>
      reads Handle(handle)
      requires options.table in Handle(handle).tables
    {
      Handle(handle).tables[options.table].rows
    }

    method Save(record: Row, returnNew: bool, handle: Option<Database>, now: int) returns (r: Result<Option<Row>, Failure>)
      requires options.table in Handle(handle).tables
      modifies Handle(handle)
      ensures Handle(handle).tables ==
        old(Handle(handle).tables)[options.table := SavedTable(options, old(Handle(handle).tables[options.table]), record, now)]
      ensures r == SaveResult(options, old(Handle(handle).tables[options.table]), record, returnNew, now)
    {
      var target := Handle(handle);
      var saveRecord := NormalizeUndefined(record, options.idField);
      var keysWithoutId := record.Keys - {options.idField};
      if keysWithoutId == {} {
        return Err(NothingToSave);
      }
      var id := Get(record, options.idField);
      var recordExists := false;
      if id != Undefined {
        var rows := target.tables[options.table].rows;
        recordExists := FirstIndex(rows, ById(options.idField, id)) < |rows|;
      }
      if recordExists {
        saveRecord := saveRecord - {options.idField};
        if options.updatedField.Some? && Falsy(Get(record, options.updatedField.value)) {
          saveRecord := saveRecord[options.updatedField.value := Time(now)];
        }
        var updated := Update(target.tables[options.table], ById(options.idField, id), saveRecord);
        if updated.Err? {
          return Err(DbError(updated.error));
        }
        target.tables := target.tables[options.table := updated.value];
      } else {
        if options.createdField.Some? && Falsy(Get(record, options.createdField.value)) {
          saveRecord := saveRecord[options.createdField.value := Time(now)];
        }
        var inserted := Insert(target.tables[options.table], saveRecord);
        if inserted.Err? {
          return Err(DbError(inserted.error));
        }
        target.tables := target.tables[options.table := inserted.value.0];
        var result := map[IdColumn := inserted.value.1];
        id := Get(result, options.idField);
      }
      if returnNew {
        r := Fetch(map[options.idField := id], handle);
      } else {
        r := Ok(None);
      }
    }

    method SaveAndFetch(record: Row, handle: Option<Database>, now: int) returns (r: Result<Row, Failure>)
      requires options.table in Handle(handle).tables
      modifies Handle(handle)
      ensures Handle(handle).tables ==
        old(Handle(handle).tables)[options.table := SavedTable(options, old(Handle(handle).tables[options.table]), record, now)]
      ensures r == Required(SaveResult(options, old(Handle(handle).tables[options.table]), record, true, now), FailedToSave)
    {
      var result := Save(record, true, handle, now);
      if result.Err? {
        return Err(result.error);
      }
      if result.value.None? {
        return Err(FailedToSave);
      }
      r := Ok(result.value.value);
    }

    method Fetch(query: Row, handle: Option<Database>) returns (r: Result<Option<Row>, Failure>)
      requires options.table in Handle(handle).tables
      ensures r == FetchFrom(options, Rows(handle), query)
    {
      var rows := Handle(handle).tables[options.table].rows;
      if !Bindable(query) {
        return Err(DbError(UndefinedBinding));
      }
      var i := FirstIndex(rows, FetchWhere(options, query));
      if i == |rows| {
        return Ok(None);
      }
      var fetchedRecord := rows[i];
      if options.parseStrategy.Some? {
        fetchedRecord := options.parseStrategy.value(rows[i]);
      }
      r := Ok(Some(fetchedRecord));
    }

    method FetchOrThrow(query: Row, handle: Option<Database>) returns (r: Result<Row, Failure>)
      requires options.table in Handle(handle).tables
      ensures r == Required(FetchFrom(options, Rows(handle), query), RecordNotFound)
    {
      var result := Fetch(query, handle);
      if result.Err? {
        return Err(result.error);
      }
      if result.value.None? {
        return Err(RecordNotFound);
      }
      r := Ok(result.value.value);
    }

    method Delete(query: Row, handle: Option<Database>, now: int) returns (r: Result<(), Failure>)
      requires options.table in Handle(handle).tables
      requires options.deleteStrategy.None? && options.deletedField.Some? ==> options.table in db.tables
      modifies Handle(handle), db
      // the lookup failed: nothing changes
      ensures old(FetchFrom(options, Rows(handle), query)).Err? ==>
        r == Err(old(FetchFrom(options, Rows(handle), query)).error) && unchanged(Handle(handle), db)
      // no visible row matches: nothing changes, and that is not an error
      ensures old(FetchFrom(options, Rows(handle), query)) == Ok(None) ==>
        r == Ok(()) && unchanged(Handle(handle), db)
      // the hard strategy removes the found record's id from the handle's table
      ensures Found(old(FetchFrom(options, Rows(handle), query))) && options.deleteStrategy.Some? && options.deleteStrategy.value.Hard? ==>
        var found := old(FetchFrom(options, Rows(handle), query)).value.value;
        var h := DeleteStrategy.HardDeleted(old(Handle(handle).tables[options.table]), found, options.idField);
        && (h.Err? ==> r == Err(DbError(h.error)) && unchanged(Handle(handle), db))
        && (h.Ok? ==> r == Ok(()) && Handle(handle).tables == old(Handle(handle).tables)[options.table := h.value])
        && (db != Handle(handle) ==> unchanged(db))
      // a custom strategy has its effect on the handle's tables
      ensures Found(old(FetchFrom(options, Rows(handle), query))) && options.deleteStrategy.Some? && options.deleteStrategy.value.Custom? ==>
        var found := old(FetchFrom(options, Rows(handle), query)).value.value;
        && r == Ok(())
        && Handle(handle).tables == options.deleteStrategy.value.run(found, old(Handle(handle).tables))
        && (db != Handle(handle) ==> unchanged(db))
      // otherwise a soft delete saves the query with the deleted field set, through the model's own handle
      ensures Found(old(FetchFrom(options, Rows(handle), query))) && options.deleteStrategy.None? && options.deletedField.Some? ==>
        var soft := query[options.deletedField.value := Time(now)];
        var before := old(db.tables[options.table]);
        && db.tables == old(db.tables)[options.table := SavedTable(options, before, soft, now)]
        && r == (if SaveWrite(options, before, soft, now).Err? then Err(SaveWrite(options, before, soft, now).error) else Ok(()))
        && (db != Handle(handle) ==> unchanged(Handle(handle)))
      // with neither, deleting a found record is not implemented
      ensures Found(old(FetchFrom(options, Rows(handle), query))) && options.deleteStrategy.None? && options.deletedField.None? ==>
        r == Err(DeleteNotImplemented) && unchanged(Handle(handle), db)
    {
      var target := Handle(handle);
      var found := Fetch(query, handle);
      if found.Err? {
        return Err(found.error);
      }
      if found.value.Some? {
        var record := found.value.value;
        if options.deleteStrategy.Some? {
          match options.deleteStrategy.value
          case Hard =>
            var done := DeleteStrategy.RunHard(record, target, options.table, options.idField);
            if done.Err? {
              return Err(DbError(done.error));
            }
          case Custom(run) =>
            target.tables := run(record, target.tables);
        } else if options.deletedField.Some? {
          var saved := Save(query[options.deletedField.value := Time(now)], false, None, now);
          if saved.Err? {
            return Err(saved.error);
          }
        } else {
          return Err(DeleteNotImplemented);
        }
      }
      r := Ok(());
    }
  }
}
