/**
 * What `save`, `fetch` and `delete` guarantee, stated over the functions
 * the `Model` methods are proved against.
 */
module ModelProperties {
  import opened Results
  import opened Storage
  import opened Models
  import DeleteStrategy

  /** A record holding nothing but the id is refused, and the table is left as it was. */
  lemma SaveRejectsIdOnly(o: ModelOptions, t: Table, record: Row, returnNew: bool, now: int)
    requires record.Keys <= {o.idField}
    ensures SaveResult(o, t, record, returnNew, now) == Err(NothingToSave)
    ensures SavedTable(o, t, record, now) == t
  {
  }

  /**
   * Without an id, or with an id no row has, `save` appends exactly one row:
   * no existing row changes, the new row holds the supplied values with
   * `undefined` turned into null and nothing the caller did not supply, and
   * the created field is stamped exactly when the caller's value is falsy.
   */
  lemma SaveInsertAppendsOneRow(o: ModelOptions, t: Table, record: Row, now: int)
    requires !Exists(o, t, Get(record, o.idField))
    requires SaveWrite(o, t, record, now).Ok?
    ensures |SaveWrite(o, t, record, now).value.table.rows| == |t.rows| + 1
    ensures SaveWrite(o, t, record, now).value.table.rows[..|t.rows|] == t.rows
    ensures var row := SaveWrite(o, t, record, now).value.table.rows[|t.rows|];
      && (forall c :: c != IdColumn && Some(c) != o.createdField ==> Get(row, c) == Get(Normalized(record, o.idField), c))
      && (o.createdField.Some? && o.createdField.value != IdColumn ==>
            Get(row, o.createdField.value) == if Falsy(Get(record, o.createdField.value)) then Time(now) else record[o.createdField.value])
      && SaveWrite(o, t, record, now).value.id == (if o.idField == IdColumn then Id(row) else Undefined)
    ensures Valid(t) ==> Valid(SaveWrite(o, t, record, now).value.table)
  {
  }

  /** An insert without a caller-supplied primary key takes an id no existing row has. */
  lemma SaveInsertTakesFreshId(o: ModelOptions, t: Table, record: Row, now: int)
    requires !Exists(o, t, Get(record, o.idField))
    requires !(record.Keys <= {o.idField})
    requires Get(record, IdColumn) == Undefined || Get(record, IdColumn) == Null
    requires o.createdField != Some(IdColumn)
    ensures SaveWrite(o, t, record, now).Ok?
    ensures var row := SaveWrite(o, t, record, now).value.table.rows[|t.rows|];
      Id(row).Num? && forall i :: 0 <= i < |t.rows| ==> Id(t.rows[i]) != Id(row)
  {
  }

  /**
   * When the supplied id matches rows, `save` updates those rows only: the
   * row count is unchanged and every row with another id is unchanged.
   */
  lemma SaveUpdateKeepsOtherRows(o: ModelOptions, t: Table, record: Row, now: int)
    requires Exists(o, t, Get(record, o.idField))
    requires SaveWrite(o, t, record, now).Ok?
    ensures |SaveWrite(o, t, record, now).value.table.rows| == |t.rows|
    ensures SaveWrite(o, t, record, now).value.id == record[o.idField]
    ensures forall i :: 0 <= i < |t.rows| && Column(t.rows[i], o.idField) != record[o.idField] ==>
      SaveWrite(o, t, record, now).value.table.rows[i] == t.rows[i]
    ensures Valid(t) ==> Valid(SaveWrite(o, t, record, now).value.table)
  {
  }

  /**
   * On a row carrying the supplied id, `save` does not rewrite the id,
   * overwrites the supplied fields (`undefined` as null), keeps the others,
   * and stamps the updated field exactly when the caller's value is falsy.
   */
  lemma SaveUpdateRewritesMatchingRow(o: ModelOptions, t: Table, record: Row, now: int, i: nat)
    requires Exists(o, t, Get(record, o.idField))
    requires SaveWrite(o, t, record, now).Ok?
    requires o.updatedField != Some(o.idField)
    requires i < |t.rows| && Column(t.rows[i], o.idField) == record[o.idField]
    ensures var row := SaveWrite(o, t, record, now).value.table.rows[i];
      && Get(row, o.idField) == Get(t.rows[i], o.idField)
      && (forall c :: c != o.idField && Some(c) != o.updatedField ==>
            Get(row, c) == if c in record then Normalized(record, o.idField)[c] else Get(t.rows[i], c))
      && (o.updatedField.Some? ==>
            Get(row, o.updatedField.value) == if Falsy(Get(record, o.updatedField.value)) then Time(now) else record[o.updatedField.value])
  {
    var normalized := Normalized(record, o.idField);
    var values := Stamp(normalized - {o.idField}, o.updatedField, record, now);
    var w := ById(o.idField, record[o.idField]);
    SatisfiesById(t.rows[i], o.idField, record[o.idField]);
    assert Update(t, w, values).Ok?;
    var updated := Update(t, w, values).value;
    assert SaveWrite(o, t, record, now).value.table == updated;
    var row := updated.rows[i];
    assert Get(values, o.idField) == Undefined;
    forall c | c != o.idField && Some(c) != o.updatedField
      ensures Get(row, c) == if c in record then normalized[c] else Get(t.rows[i], c)
    {
      assert Get(values, c) == Get(normalized, c);
    }
    if o.updatedField.Some? {
      var uf := o.updatedField.value;
      if Falsy(Get(record, uf)) {
        assert Get(values, uf) == Time(now);
      } else {
        assert Get(values, uf) == normalized[uf] == record[uf];
      }
    }
  }

  /**
   * Saving without an id and fetching back finds the inserted row, parsed,
   * under the generated id, when the id field is the primary key and the row
   * is visible.
   */
  lemma InsertedRowIsFetched(o: ModelOptions, t: Table, record: Row, now: int)
    requires o.idField == IdColumn
    requires o.createdField != Some(IdColumn) && o.deletedField != Some(IdColumn)
    requires Get(record, IdColumn) == Undefined && !(record.Keys <= {IdColumn})
    requires o.deletedField.Some? ==>
      && o.createdField != o.deletedField
      && (Get(record, o.deletedField.value) == Undefined || Get(record, o.deletedField.value) == Null)
    ensures SaveWrite(o, t, record, now).Ok?
    ensures var rows := SaveWrite(o, t, record, now).value.table.rows;
      && |rows| == |t.rows| + 1
      && Id(rows[|t.rows|]) == SaveWrite(o, t, record, now).value.id == Num(NextId(t))
      && SaveResult(o, t, record, true, now) == Ok(Some(Parse(o, rows[|t.rows|])))
  {
  }

  /** Two row sequences that agree, position by position, on `w` have the same first match. */
  lemma FirstIndexAgrees(a: seq<Row>, b: seq<Row>, w: Where)
    requires |a| == |b|
    requires forall i :: 0 <= i < |a| ==> (Satisfies(a[i], w) <==> Satisfies(b[i], w))
    ensures FirstIndex(a, w) == FirstIndex(b, w)
  {
  }

  /**
   * Saving with an id that matches rows and fetching back finds the row that
   * was first visible under that id, now rewritten: the update neither
   * touches the id nor the deleted field, so the same row stays first.
   */
  lemma UpdatedRowIsFetched(o: ModelOptions, t: Table, record: Row, now: int)
    requires o.updatedField != Some(o.idField)
    requires o.deletedField.Some? ==>
      && o.deletedField.value != o.idField
      && o.deletedField.value !in record
      && o.updatedField != o.deletedField
    requires Exists(o, t, Get(record, o.idField))
    requires SaveWrite(o, t, record, now).Ok?
    ensures var i := FirstIndex(t.rows, FetchWhere(o, map[o.idField := record[o.idField]]));
      var rows := SaveWrite(o, t, record, now).value.table.rows;
      SaveResult(o, t, record, true, now) == if i < |t.rows| then Ok(Some(Parse(o, rows[i]))) else Ok(None)
  {
    var x := record[o.idField];
    var values := Stamp(Normalized(record, o.idField) - {o.idField}, o.updatedField, record, now);
    var u := ById(o.idField, x);
    var w := FetchWhere(o, map[o.idField := x]);
    SaveUpdateKeepsOtherRows(o, t, record, now);
    assert Update(t, u, values).Ok?;
    var rows := Update(t, u, values).value.rows;
    assert SaveWrite(o, t, record, now).value.table.rows == rows;
    forall i | 0 <= i < |t.rows|
      ensures Satisfies(rows[i], w) <==> Satisfies(t.rows[i], w)
    {
      SatisfiesById(t.rows[i], o.idField, x);
      if Column(t.rows[i], o.idField) == x {
        assert Get(values, o.idField) == Undefined;
        assert Column(rows[i], o.idField) == Column(t.rows[i], o.idField);
        if o.deletedField.Some? {
          assert Get(values, o.deletedField.value) == Undefined;
          assert Column(rows[i], o.deletedField.value) == Column(t.rows[i], o.deletedField.value);
        }
      }
    }
    FirstIndexAgrees(rows, t.rows, w);
  }

  /**
   * `saveAndFetch` can fail for real: a new record saved with its deleted
   * field already set is stored as one more row, but the fetch back by the
   * generated id hides it, so the call fails with `FAILED_TO_SAVE`.
   */
  lemma SaveAndFetchFailsOnSoftDeletedRecord(o: ModelOptions, t: Table, record: Row, now: int)
    requires o.idField == IdColumn && o.createdField != Some(IdColumn)
    requires o.deletedField.Some? && o.deletedField.value != IdColumn
    requires Get(record, IdColumn) == Undefined
    requires Get(record, o.deletedField.value) != Undefined && Get(record, o.deletedField.value) != Null
    ensures |SavedTable(o, t, record, now).rows| == |t.rows| + 1
    ensures Required(SaveResult(o, t, record, true, now), FailedToSave) == Err(FailedToSave)
  {
  }

  /**
   * The insert returns only the "id" column, so on a model whose id field is
   * another column `save` loses the new id, and fetching it back fails.
   */
  lemma InsertUnderOtherIdFieldLosesId(o: ModelOptions, t: Table, record: Row, now: int)
    requires o.idField != IdColumn
    requires !Exists(o, t, Get(record, o.idField))
    requires SaveWrite(o, t, record, now).Ok?
    ensures SaveWrite(o, t, record, now).value.id == Undefined
    ensures SaveResult(o, t, record, true, now) == Err(DbError(UndefinedBinding))
  {
  }

  /** After a soft delete by id, fetching that id finds nothing. */
  lemma SoftDeleteByIdHidesRecord(o: ModelOptions, t: Table, x: Value, now: int)
    requires o.deleteStrategy.None? && o.deletedField.Some? && o.deletedField.value != o.idField
    requires o.updatedField != Some(o.idField)
    requires x != Undefined
    requires Found(FetchFrom(o, t.rows, map[o.idField := x]))
    requires SaveWrite(o, t, map[o.idField := x][o.deletedField.value := Time(now)], now).Ok?
    ensures FetchFrom(o, SavedTable(o, t, map[o.idField := x][o.deletedField.value := Time(now)], now).rows, map[o.idField := x]) == Ok(None)
    ensures |SavedTable(o, t, map[o.idField := x][o.deletedField.value := Time(now)], now).rows| == |t.rows|
  {
    var df := o.deletedField.value;
    var query := map[o.idField := x];
    var soft := query[df := Time(now)];
    assert Get(soft, o.idField) == x;
    var w := FetchWhere(o, query);
    assert Exists(o, t, x) by {
      var k :| 0 <= k < |t.rows| && Satisfies(t.rows[k], w);
      assert o.idField in w.equal;
      SatisfiesById(t.rows[k], o.idField, x);
      assert Satisfies(t.rows[k], ById(o.idField, x));
    }
    SaveUpdateKeepsOtherRows(o, t, soft, now);
    var rows := SavedTable(o, t, soft, now).rows;
    forall i | 0 <= i < |rows|
      ensures !Satisfies(rows[i], w)
    {
      assert o.idField in w.equal && df in w.isNull;
      if Column(t.rows[i], o.idField) == x {
        SaveUpdateRewritesMatchingRow(o, t, soft, now, i);
        assert df in soft && soft[df] == Time(now);
        if Some(df) != o.updatedField {
          assert Get(rows[i], df) == Normalized(soft, o.idField)[df];
        }
        assert Get(rows[i], df) == Time(now);
      } else {
        assert Get(rows[i], o.idField) == Get(t.rows[i], o.idField);
      }
    }
  }

  /**
   * A soft delete saves the caller's query, not the found row: a query
   * without the id inserts a new, deleted row and leaves the found one visible.
   */
  lemma SoftDeleteWithoutIdInserts(o: ModelOptions, t: Table, query: Row, now: int)
    requires o.deletedField.Some? && o.deletedField.value != o.idField && o.deletedField.value != IdColumn
    requires o.idField !in query && IdColumn !in query
    requires o.createdField != Some(IdColumn)
    ensures var soft := query[o.deletedField.value := Time(now)];
      && SaveWrite(o, t, soft, now).Ok?
      && |SaveWrite(o, t, soft, now).value.table.rows| == |t.rows| + 1
      && SaveWrite(o, t, soft, now).value.table.rows[..|t.rows|] == t.rows
  {
    var soft := query[o.deletedField.value := Time(now)];
    assert o.deletedField.value in soft;
    assert Get(soft, o.idField) == Undefined;
    SaveInsertTakesFreshId(o, t, soft, now);
    SaveInsertAppendsOneRow(o, t, soft, now);
  }

  /**
   * After the hard strategy runs on the record fetched by id, the row is
   * physically gone and fetching that id finds nothing, provided the parse
   * strategy keeps the id.
   */
  lemma HardDeleteByIdRemovesRecord(o: ModelOptions, t: Table, x: Value)
    requires x != Undefined && x != Null
    requires o.parseStrategy.Some? ==> forall row :: Get(o.parseStrategy.value(row), o.idField) == Get(row, o.idField)
    requires Found(FetchFrom(o, t.rows, map[o.idField := x]))
    ensures var found := FetchFrom(o, t.rows, map[o.idField := x]).value.value;
      var h := DeleteStrategy.HardDeleted(t, found, o.idField);
      && h.Ok?
      && (forall row :: row in h.value.rows ==> Column(row, o.idField) != x)
      && FetchFrom(o, h.value.rows, map[o.idField := x]) == Ok(None)
  {
    var query := map[o.idField := x];
    var w := FetchWhere(o, query);
    var found := FetchFrom(o, t.rows, query).value.value;
    var k :| 0 <= k < |t.rows| && Satisfies(t.rows[k], w) && found == Parse(o, t.rows[k]);
    assert o.idField in w.equal;
    assert Get(found, o.idField) == x;
    var h := DeleteStrategy.HardDeleted(t, found, o.idField);
    forall i | 0 <= i < |h.value.rows|
      ensures !Satisfies(h.value.rows[i], w)
    {
      assert h.value.rows[i] in h.value.rows;
    }
  }
}
