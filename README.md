# tiny-knex-orm `Model` in Dafny

This project models the record store `Model<T>` of tiny-knex-orm and the built-in
hard-delete strategy. A model wraps one table of a relational database. It offers:

- `save`: insert or update a partial record;
- `saveAndFetch`: save, then return the stored row;
- `fetch`: return the first visible row matching a query;
- `fetchOrThrow`: like `fetch`, but a missing row is an error;
- `delete`: delete through a strategy, or soft-delete with a timestamp.

The query builder and SQLite are replaced by an abstract table (module `Storage`):

- A table is a sequence of rows. Each row maps column names to values.
- The table also keeps the largest id its auto-increment key has handed out.
- The four statements the model issues are `where/first`, `insert`, `update` and
  `delete`. Each is a function on tables: `FirstIndex`, `Insert`, `Update`,
  `DeleteWhere`.

The table follows the rules SQLite enforces, through knex, on these statements:

- The primary key column is literally `"id"`. It is never null and never repeated.
- An insert that leaves `"id"` undefined or null is given a fresh auto-increment id.
- An update drops keys bound to `undefined`. An insert binds `undefined` as NULL
  (knex's `useNullAsDefault`), which a where clause reads the same as an unwritten
  column, so the model leaves such a key out in both cases. Only an undefined id
  reaches an insert this way, because `save` turns every other `undefined` into null.
- A where clause with a null value tests `IS NULL`.
- A where clause that binds `undefined` is refused by the query builder
  (`UndefinedBinding`).
- A write that breaks the key constraint fails (`ConstraintViolation`).

Values are JavaScript values. "Falsy" means `undefined`, `null`, `false`, `0` or `""`. A date
is always truthy.

The other modules:

- `DeleteStrategy` holds the `hard()` closure (`RunHard`) and the function `HardDeleted`
  that specifies it.
- `Models` holds the model's configuration (`ModelOptions`) and the class `Model`.
- A database handle is a `Database` object holding tables by name.
- Every `Model` method acts on the handle passed as `handle`, or on the model's own `db`.
  This mirrors `opts?.db || this._db`.
- Each method is proved against a specification function: `SaveWrite`, `SaveResult`,
  `FetchFrom`, `Required` and `HardDeleted`.
- The module `ModelProperties` proves what `save`, `fetch` and `delete` promise about
  those functions.
- The current time is the parameter `now`.

In these cases the model follows the code, which a reader might not expect:

- The created and updated fields are stamped when the caller's value is falsy, not
  only when it is absent.
- `saveAndFetch` can really fail with `FAILED_TO_SAVE`. Saving a record whose deleted
  field is already set stores the row, and then `fetch` hides it.
- The insert returns the `"id"` column. On a model whose id field is another column, the
  new id is therefore lost, and fetching it back fails.
- A soft delete re-saves the caller's query through the model's own handle, not through
  the handle passed to `delete`.

## Model

| member | source | states |
|---|---|---|
| Storage.FirstIndex | src/model.ts:114-118 | `where(...).first()`: the index of the first row satisfying the clause; no earlier row satisfies it; `|rows|` when none does |
| Storage.SatisfiesById | src/model.ts:76-79 | `where(field, value)` selects exactly the rows whose column equals the value (null compares as `IS NULL`) |
| Storage.MaxNumId | fixtures/migrations/00001.cjs:3 | bounds every numeric id present in the table |
| Storage.NextId | fixtures/migrations/00001.cjs:3 | the auto-increment id exceeds every id handed out before and differs from the id of every row present |
| Storage.Insert | src/model.ts:94-95 | appends exactly one row and leaves the others in place; the row holds the written values (no `undefined`) and a caller-supplied id or a fresh generated one; yields that id; fails only on a duplicate caller-supplied id |
| Storage.Update | src/model.ts:87-89 | rows satisfying the clause take every non-`undefined` value written and keep their other columns; every other row and the row count are unchanged (as read by a property read and by a column read); fails only when the id column is written |
| Storage.DeleteWhere | src/DeleteStrategy.ts:17-19 | keeps exactly the rows not satisfying the clause, in table order (a subsequence of the table); the count drops by the number that do |
| Storage.InsertKeepsValid | src/model.ts:94 | an insert preserves the primary key constraint and never stores `undefined` |
| Storage.UpdateKeepsValid | src/model.ts:87-89 | an update preserves the primary key constraint and never stores `undefined` |
| Storage.DeleteWhereKeepsValid | src/DeleteStrategy.ts:17-19 | a delete preserves the primary key constraint |
| DeleteStrategy.HardDeleted | src/DeleteStrategy.ts:16-20 | removes exactly the rows whose id field equals the record's id value and keeps every other row, in table order; an `undefined` id is refused by the query builder |
| DeleteStrategy.RunHard | src/DeleteStrategy.ts:16-20 | the closure replaces the model's table in the handle by `HardDeleted` and touches no other table; nothing changes on failure |
| DeleteStrategy.HardReadsOnlyId | src/DeleteStrategy.ts:18 | two records with the same id value delete the same rows, whatever their other fields (a deleted field included) |
| Models.Normalized | src/model.ts:56-66 | same keys as the record; no non-id value is `undefined`; non-id `undefined` becomes null; every other value is kept |
| Models.NormalizeUndefined | src/model.ts:56-66 | the loop over the non-id keys yields exactly `Normalized` |
| Models.SaveWrite | src/model.ts:54-96 | fails with `NOTHING_TO_SAVE` if and only if the record has no key other than the id field |
| Models.FetchFrom | src/model.ts:112-127 | the first row matching every query pair whose deleted field (when configured) is null, passed through the parse strategy; null if and only if no such row; refused when the query binds `undefined` |
| Models.Required | src/model.ts:128-134 | a found row is returned as is; a missing one becomes the given failure; a failure is passed on |
| Models.Model.constructor | src/model.ts:39-48 | the model keeps the handle and the configuration it is given |
| Models.Model.Save | src/model.ts:50-101 | acts on the handle passed in, else on the model's own db (`opts?.db || this._db`); that handle's table becomes the table `SaveWrite` yields (unchanged on failure), no other table changes, and the result is `SaveResult`: null, or with `returnNew` the row fetched back by the saved id |
| Models.Model.SaveAndFetch | src/model.ts:102-111 | saves with `returnNew` forced and fails with `FAILED_TO_SAVE` when the fetch back yields null |
| Models.Model.Fetch | src/model.ts:112-127 | reads the table through the handle passed in, else the model's own db, and yields `FetchFrom` of it; changes nothing |
| Models.Model.FetchOrThrow | src/model.ts:128-134 | `fetch`, but fails with `RECORD_NOT_FOUND` instead of yielding null |
| Models.Model.Delete | src/model.ts:135-147 | no visible match (or a failed lookup): nothing changes. Otherwise dispatch in order: a configured strategy on the found record through the handle (hard or custom), then a soft delete that saves the query with the deleted field set to `now` through the model's own handle, then `DELETE_NOT_IMPLEMENTED` with nothing changed |
| ModelProperties.SaveRejectsIdOnly | src/model.ts:57-70 | a record holding only the id field fails with `NOTHING_TO_SAVE` and leaves the table unchanged |
| ModelProperties.SaveInsertAppendsOneRow | src/model.ts:90-96 | insert path: exactly one row is appended and no existing row changes. The new row holds the supplied values, with `undefined` turned to null, and no key the caller did not supply. The created field is `now` exactly when the caller's value is falsy. The id fetched back is the new row's id, or `undefined` when the id field is not `"id"` |
| ModelProperties.SaveInsertTakesFreshId | src/model.ts:94-95 | without a caller-supplied primary key the insert succeeds and takes an id no existing row has |
| ModelProperties.SaveUpdateKeepsOtherRows | src/model.ts:82-89 | update path: row count unchanged, every row with another id unchanged, table constraints preserved |
| ModelProperties.SaveUpdateRewritesMatchingRow | src/model.ts:82-89 | update path, on a row with the supplied id: the id is not rewritten; supplied fields are overwritten (`undefined` as null); other fields keep their values; the updated field is `now` exactly when the caller's value is falsy |
| ModelProperties.InsertedRowIsFetched | src/model.ts:90-100 | saving a visible record without an id with `returnNew` yields the inserted row, passed through the parse strategy, whose id is the generated one |
| ModelProperties.UpdatedRowIsFetched | src/model.ts:82-100 | saving with an id that matches rows, with `returnNew`, yields the rewritten row at the position of the first row visible under that id before the save (parsed), or null when no such row was visible |
| ModelProperties.SaveAndFetchFailsOnSoftDeletedRecord | src/model.ts:90-118 | for every new record (no `"id"`) saved with its deleted field set: the table gains one row, yet `saveAndFetch` fails with `FAILED_TO_SAVE` |
| ModelProperties.InsertUnderOtherIdFieldLosesId | src/model.ts:94-98 | when the id field is not `"id"`, an insert yields an `undefined` id and `returnNew` fails on the undefined binding |
| ModelProperties.SoftDeleteByIdHidesRecord | src/model.ts:141-142 | after a successful soft delete of a found id, `fetch` for that id yields null, yet the table keeps every row (the count is unchanged) |
| ModelProperties.SoftDeleteWithoutIdInserts | src/model.ts:142 | a soft delete whose query lacks the id appends a new row and leaves every existing row, the found one included, unchanged |
| ModelProperties.HardDeleteByIdRemovesRecord | src/DeleteStrategy.ts:16-20 | after the hard strategy on the record fetched by id, no row carries that id and `fetch` for it yields null |

## Left out

- The query builder and SQLite are out. Only the effect of the four statements is modelled.
- Column types, schema defaults and storage-level value coercion are out. For example,
  `created_at`/`updated_at` default to the current time in the schema, and timestamps
  come back as strings.
- A column never written reads as NULL in a where clause. A fetched row holds only the
  columns written to it, so an unwritten column of a fetched row reads as `undefined`.
  The database would return null.
- `first()` returns the first row in insertion order. SQL promises no order without
  `ORDER BY`.
- The existence probe selects the `"id"` column. Only whether a row was found is modelled,
  because that is all the code uses. A table without an `"id"` column is not modelled.
- Asynchrony, promises and transaction semantics are out. A transaction handle is a second
  `Database` object, with no commit or rollback.
- The model's table must exist in the handle (a `requires`). A missing table is an error
  of the database, not of the model.
- Numbers are unbounded integers. Floating point, `NaN` and `-0` are out.
- The parse strategy and custom delete strategies are opaque functions. A custom strategy
  that fails, or a parse strategy that returns a falsy value, is not modelled.
- `saveAndFetch` spreads the caller's options after `returnNew: true`. The typed caller
  passes only `db`, so the model always forces `returnNew`.
- Concurrent saves racing between the probe and the write are out. Every call is modelled
  as one atomic step.
- Models.Model.Delete: a custom strategy is modelled as a function of the found row and
  the tables of the handle passed to `delete`. The `model` argument it also receives is
  dropped, so its writes to the model's own db (through `_db` or `model.save`) are not
  modelled. The contract's claim that the model's own db is unchanged when it is not the
  passed handle holds only for that restricted strategy.
- DeleteStrategy.HardDeleted: on a row fetched without its id column, it reads the id as
  `undefined` and fails with `UndefinedBinding`, and `delete` then changes nothing. The
  database would return the column as null, and the hard strategy would delete every row
  whose id field IS NULL. This happens on a model whose id field is not `"id"`, for a row
  inserted without that field and fetched by another column. It follows from the row
  representation above.
- HardDeleteByIdRemovesRecord: assumes the id value is neither `undefined` nor null. A null
  id would meet the same representation gap as `DeleteStrategy.HardDeleted` above. It also
  assumes the parse strategy keeps the id field, because the strategy reads the id from
  the parsed record.
- InsertedRowIsFetched: stated for models whose id field is `"id"`, and for a record whose
  deleted field is unset.
- UpdatedRowIsFetched: assumes the updated field is not the id field, and that a configured
  deleted field is neither the id field, nor the updated field, nor supplied by the record.
- SaveUpdateRewritesMatchingRow: assumes the updated field is not the id field.
- SaveAndFetchFailsOnSoftDeletedRecord: stated for models whose id field is `"id"`, with the
  created and deleted fields not `"id"`; a record that supplies its own id is not covered.
- SoftDeleteByIdHidesRecord: assumes the deleted and updated fields are not the id field,
  and that the re-save succeeded.
