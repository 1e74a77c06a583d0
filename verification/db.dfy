/**
 * The `expenses` table of `backend/src/db.ts`, as a value.
 *
 * The table is a map from idempotency key to row, so the UNIQUE constraint on
 * `idempotency_key` holds by construction, together with the next id
 * AUTOINCREMENT will hand out. `Insert` is SQLite's INSERT as one atomic
 * step: it checks the CHECK constraint, then the UNIQUE constraint, and on
 * any failure writes nothing (the statement rolls back, so no id is used up).
 */
module Db {
  import opened Wrappers

  /** A row of `expenses`; every column is NOT NULL. */
  datatype ExpenseRow = ExpenseRow(
    id: nat,
    amountPaise: int,
    category: string,
    description: string,
    date: string,
    createdAt: string,
    idempotencyKey: string)

  /** The values an INSERT supplies; `id` is left to the store. */
  datatype NewExpense = NewExpense(
    amountPaise: int,
    category: string,
    description: string,
    date: string,
    createdAt: string,
    idempotencyKey: string)

  datatype Store = Store(rows: map<string, ExpenseRow>, nextId: nat)

  /** Why an INSERT failed, other than a duplicate key. */
  datatype StoreError = CheckViolation | IoFailure(message: string)

  /** The INSERT as a tagged outcome instead of an exception. */
  datatype InsertOutcome = Created(row: ExpenseRow, store: Store) | DuplicateKey | Failed(error: StoreError)

  /** A table in which no rows exist and the first id handed out is 1. */
  const EmptyStore := Store(map[], 1)

  /**
   * What the schema guarantees of the table: each row is filed under its own
   * key, amounts satisfy CHECK(amount_paise >= 0), ids are distinct, and they
   * are exactly 1..nextId-1 because ids are only consumed by committed inserts.
   */
  ghost predicate Consistent(st: Store) {
    && st.nextId >= 1
    && (forall k :: k in st.rows ==> st.rows[k].idempotencyKey == k)
    && (forall k :: k in st.rows ==> st.rows[k].amountPaise >= 0)
    && (forall k :: k in st.rows ==> 1 <= st.rows[k].id < st.nextId)
    && (forall k1, k2 :: k1 in st.rows && k2 in st.rows && st.rows[k1].id == st.rows[k2].id ==> k1 == k2)
    && |st.rows| == st.nextId - 1
  }

  lemma EmptyStoreConsistent()
    ensures Consistent(EmptyStore)
  {
  }

  /** `SELECT * FROM expenses WHERE idempotency_key = ?`. */
  function FindByKey(st: Store, key: string): (r: Option<ExpenseRow>)
    ensures r.Some? <==> key in st.rows
    ensures r.Some? ==> r.value in st.rows.Values
    ensures Consistent(st) && r.Some? ==> r.value.idempotencyKey == key
  {
    if key in st.rows then Some(st.rows[key]) else None
  }

  /**
   * In a consistent table the lookup returns the row filed under the key:
   * no other stored row carries that key.
   */
  lemma FindByKeyIsStoredRow(st: Store, key: string)
    requires Consistent(st) && key in st.rows
    ensures FindByKey(st, key) == Some(st.rows[key])
  {
    var r := FindByKey(st, key);
    var k :| k in st.rows && st.rows[k] == r.value;
    assert st.rows[k].idempotencyKey == k;
  }

  /** The row an INSERT of `e` creates when it is given id `id`. */
  function RowOf(e: NewExpense, id: nat): ExpenseRow {
    ExpenseRow(id, e.amountPaise, e.category, e.description, e.date, e.createdAt, e.idempotencyKey)
  }

  /**
   * `INSERT INTO expenses ...`. An `io` fault stands for any failure of the
   * storage engine itself; it is a parameter because the model has no disk.
   */
  function Insert(st: Store, e: NewExpense, io: Option<string>): (out: InsertOutcome)
    ensures out.Created? <==> io.None? && e.amountPaise >= 0 && e.idempotencyKey !in st.rows
    ensures out.DuplicateKey? <==> io.None? && e.amountPaise >= 0 && e.idempotencyKey in st.rows
    ensures out.Created? ==>
      && out.row == RowOf(e, st.nextId)
      && out.store == Store(st.rows[e.idempotencyKey := out.row], st.nextId + 1)
  {
    if io.Some? then Failed(IoFailure(io.value))
    else if e.amountPaise < 0 then Failed(CheckViolation)
    else if e.idempotencyKey in st.rows then DuplicateKey
    else
      var row := RowOf(e, st.nextId);
      Created(row, Store(st.rows[e.idempotencyKey := row], st.nextId + 1))
  }

  /** A committed insert keeps the schema's guarantees, and its id is above every earlier one. */
  lemma InsertPreservesConsistent(st: Store, e: NewExpense, io: Option<string>)
    requires Consistent(st)
    requires Insert(st, e, io).Created?
    ensures Consistent(Insert(st, e, io).store)
    ensures forall k :: k in st.rows ==> st.rows[k].id < Insert(st, e, io).row.id
  {
    var out := Insert(st, e, io);
    var rows := out.store.rows;
    assert rows.Keys == st.rows.Keys + {e.idempotencyKey};
    assert |rows| == |st.rows| + 1;
  }
}
