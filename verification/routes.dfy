/**
 * The `POST /expenses` handler of `backend/src/routes/expenses.ts` and its
 * `formatExpense`.
 *
 * A request is handled in three steps: the Idempotency-Key header is checked,
 * the body is validated, and the expense is inserted. An insert that hits the
 * UNIQUE constraint is a replay: the row already stored under the key is
 * returned with status 200 instead of 201. Any other store failure is thrown
 * on to the framework rather than turned into a reply.
 *
 * The clock (`new Date().toISOString()`) is the parameter `now`; the header
 * is a `Value`, since Node may hand the handler a missing, a string or a
 * non-string header.
 */
module ExpenseRoutes {
  import opened Wrappers
  import opened JsText
  import opened Money
  import opened Validators
  import opened Db

  const MissingKeyCode := "MISSING_IDEMPOTENCY_KEY"
  const MissingKeyMessage := "Idempotency-Key header is required"

  /** The JSON object a reply carries for an expense: the row without its idempotency key. */
  datatype ExpenseView = ExpenseView(
    id: nat,
    amountPaise: int,
    category: string,
    description: string,
    date: string,
    createdAt: string)

  datatype ReplyBody =
    | ExpenseBody(expense: ExpenseView)
    | MissingKeyBody(code: string, message: string)
    | ValidationBody(error: ValidationError)

  datatype Reply = Reply(status: nat, body: ReplyBody)

  /** Either a reply was sent, or a store error was thrown; `store` is the table afterwards. */
  datatype PostOutcome = Replied(reply: Reply, store: Store) | Threw(error: StoreError, store: Store)

  /** `formatExpense(row)`: every column but the idempotency key, under its camel-case name. */
  function FormatExpense(row: ExpenseRow): (v: ExpenseView)
    ensures v.id == row.id && v.amountPaise == row.amountPaise && v.category == row.category
    ensures v.description == row.description && v.date == row.date && v.createdAt == row.createdAt
  {
    ExpenseView(row.id, row.amountPaise, row.category, row.description, row.date, row.createdAt)
  }

  /** Rows that differ only in their key are shown identically: the key is never echoed. */
  lemma FormatHidesKey(row: ExpenseRow, key: string)
    ensures FormatExpense(row.(idempotencyKey := key)) == FormatExpense(row)
  {
  }

  /** Two rows with the same shown fields and the same key are the same row. */
  lemma FormatWithKeyIsFaithful(a: ExpenseRow, b: ExpenseRow)
    requires FormatExpense(a) == FormatExpense(b) && a.idempotencyKey == b.idempotencyKey
    ensures a == b
  {
  }

  /** The header is usable when it is a string with something other than whitespace in it. */
  predicate KeyUsable(header: Value) {
    header.Str? && !AllWhitespace(header.s)
  }

  /** The header test of the handler: falsy, non-string, or blank after trimming. */
  function KeyMissing(header: Value): (missing: bool)
    ensures missing <==> !KeyUsable(header)
  {
    header.Missing? || header.Null? || header == Str("") || !header.Str? || Utf16Length(Trim(header.s)) == 0
  }

  /** The row values the handler inserts for a validated expense. */
  function ToInsert(e: ValidatedExpense, now: string, key: string): NewExpense {
    NewExpense(e.amountPaise, e.category, e.description, e.date, now, key)
  }

  /**
   * The handler of `POST /expenses` once the body has been validated: the
   * header check comes first, then the validation outcome, then the insert.
   */
  function Handle(st: Store, header: Value, result: Validation, now: string, io: Option<string>): (out: PostOutcome)
    ensures !KeyUsable(header) ==>
      out == Replied(Reply(400, MissingKeyBody(MissingKeyCode, MissingKeyMessage)), st)
    ensures KeyUsable(header) && result.Invalid? ==>
      out == Replied(Reply(400, ValidationBody(result.error)), st)
    ensures KeyUsable(header) && result.Valid? && io.Some? ==>
      out == Threw(IoFailure(io.value), st)
    ensures KeyUsable(header) && result.Valid? && io.None? && header.s in st.rows ==>
      out == Replied(Reply(200, ExpenseBody(FormatExpense(st.rows[header.s]))), st)
    ensures KeyUsable(header) && result.Valid? && io.None? && header.s !in st.rows ==>
      var row := RowOf(ToInsert(result.expense, now, header.s), st.nextId);
      out == Replied(Reply(201, ExpenseBody(FormatExpense(row))), Store(st.rows[header.s := row], st.nextId + 1))
  {
    if KeyMissing(header) then
      Replied(Reply(400, MissingKeyBody(MissingKeyCode, MissingKeyMessage)), st)
    else
      var key := header.s;
      if result.Invalid? then
        Replied(Reply(400, ValidationBody(result.error)), st)
      else
        match Insert(st, ToInsert(result.expense, now, key), io)
        case Created(_, st') =>
          var inserted := FindByKey(st', key);
          Replied(Reply(201, ExpenseBody(FormatExpense(inserted.value))), st')
        case DuplicateKey =>
          var existing := FindByKey(st, key);
          Replied(Reply(200, ExpenseBody(FormatExpense(existing.value))), st)
        case Failed(err) =>
          Threw(err, st)
  }

  /**
   * The handler of `POST /expenses`: `Handle` applied to what
   * `validateExpenseBody` makes of the body. An expense is only ever answered
   * (201 or 200) for a usable key and a body whose every field is accepted;
   * an unusable key is refused before the body is looked at; with a usable
   * key, a refused body gets the validator's 400, listing exactly the fields
   * that failed, and changes nothing.
   */
  function Post(st: Store, header: Value, body: Body, now: string, io: Option<string>): (out: PostOutcome)
    ensures out.Replied? && out.reply.body.ExpenseBody? ==> KeyUsable(header) && BodyAccepted(body)
    ensures !KeyUsable(header) ==>
      out == Replied(Reply(400, MissingKeyBody(MissingKeyCode, MissingKeyMessage)), st)
    ensures KeyUsable(header) && !BodyAccepted(body) ==>
      out == Replied(Reply(400, ValidationBody(ValidateExpenseBody(body).error)), st)
    ensures KeyUsable(header) && body.JsonObject? && !BodyAccepted(body) ==>
      out.reply.body.error.fields == FieldErrors(body) && ReportsEachField(body, out.reply.body.error.fields)
  {
    Handle(st, header, ValidateExpenseBody(body), now, io)
  }

  // ---------------------------------------------------------------------
  // The store invariants across requests

  /** Every request leaves the schema's guarantees intact and never changes a stored row. */
  lemma HandlePreservesStore(st: Store, header: Value, result: Validation, now: string, io: Option<string>)
    requires Consistent(st)
    ensures var out := Handle(st, header, result, now, io);
      && Consistent(out.store)
      && (forall k :: k in st.rows ==> k in out.store.rows && out.store.rows[k] == st.rows[k])
      && (out.store != st ==> out.Replied? && out.reply.status == 201)
  {
    var out := Handle(st, header, result, now, io);
    HandleInsertsOrKeeps(st, header, result, now, io);
    if out.store != st {
      CommitKeepsRows(st, ToInsert(result.expense, now, header.s), io);
    }
  }

  lemma CommitKeepsRows(st: Store, e: NewExpense, io: Option<string>)
    requires Consistent(st) && Insert(st, e, io).Created?
    ensures var after := Insert(st, e, io).store;
      && Consistent(after)
      && (forall k :: k in st.rows ==> k in after.rows && after.rows[k] == st.rows[k])
  {
    InsertPreservesConsistent(st, e, io);
  }

  /** The table after a request is the one before it, or the one a committed insert leaves. */
  lemma HandleInsertsOrKeeps(st: Store, header: Value, result: Validation, now: string, io: Option<string>)
    ensures var out := Handle(st, header, result, now, io);
      || out.store == st
      || (&& KeyUsable(header) && result.Valid?
          && Insert(st, ToInsert(result.expense, now, header.s), io).Created?
          && out.store == Insert(st, ToInsert(result.expense, now, header.s), io).store
          && out.Replied? && out.reply.status == 201)
  {
  }

  /** A request of a sequence of requests: header, body, clock reading and storage fault. */
  datatype Request = Request(header: Value, body: Body, now: string, io: Option<string>)

  /** The table after handling `reqs` in order. */
  function HandleAll(st: Store, reqs: seq<Request>): Store
    decreases |reqs|
  {
    if |reqs| == 0 then st
    else
      var r := reqs[0];
      HandleAll(Post(st, r.header, r.body, r.now, r.io).store, reqs[1..])
  }

  /**
   * After any sequence of submissions the table still has at most one row per
   * key, dense increasing ids and non-negative amounts, and no earlier row
   * has changed.
   */
  lemma {:induction false} HandleAllPreservesStore(st: Store, reqs: seq<Request>)
    requires Consistent(st)
    ensures Consistent(HandleAll(st, reqs))
    ensures forall k :: k in st.rows ==> k in HandleAll(st, reqs).rows && HandleAll(st, reqs).rows[k] == st.rows[k]
    decreases |reqs|
  {
    if |reqs| > 0 {
      var r := reqs[0];
      HandlePreservesStore(st, r.header, ValidateExpenseBody(r.body), r.now, r.io);
      HandleAllPreservesStore(Post(st, r.header, r.body, r.now, r.io).store, reqs[1..]);
    }
  }

  // ---------------------------------------------------------------------
  // Idempotent replay

  /** The row a new key stores for an accepted body: its normalised fields, the clock reading and the key. */
  function StoredRow(st: Store, key: string, body: Body, now: string): ExpenseRow
    requires BodyAccepted(body)
  {
    ExpenseRow(st.nextId, AmountValue(body.amount.s), Trim(body.category.s),
      if body.description.Str? then body.description.s else "", body.date.s, now, key)
  }

  /**
   * An accepted body whose key is already stored is answered 200 with the
   * stored row, whatever the new body holds, and the table is unchanged.
   */
  lemma ReplayReturnsStoredRow(st: Store, header: Value, body: Body, now: string)
    requires KeyUsable(header) && header.s in st.rows
    requires BodyAccepted(body)
    ensures Post(st, header, body, now, None) == Replied(Reply(200, ExpenseBody(FormatExpense(st.rows[header.s]))), st)
  {
    assert ValidateExpenseBody(body).Valid?;
  }

  /**
   * An accepted body with a new key is answered 201 with a row that holds
   * the body's normalised fields, the key and the clock reading, under the
   * next id; exactly that row is added.
   */
  lemma NovelKeyCreatesRow(st: Store, header: Value, body: Body, now: string)
    requires KeyUsable(header) && header.s !in st.rows
    requires BodyAccepted(body)
    ensures var row := StoredRow(st, header.s, body, now);
      Post(st, header, body, now, None) == Replied(Reply(201, ExpenseBody(FormatExpense(row))), Store(st.rows[header.s := row], st.nextId + 1))
  {
    var v := ValidateExpenseBody(body);
    ValidatedRow(st, header.s, body, now);
    CreatedReply(st, header, v, now, StoredRow(st, header.s, body, now));
  }

  /** The row inserted for an accepted body is the one `StoredRow` describes. */
  lemma ValidatedRow(st: Store, key: string, body: Body, now: string)
    requires BodyAccepted(body)
    ensures var v := ValidateExpenseBody(body);
      v.Valid? && RowOf(ToInsert(v.expense, now, key), st.nextId) == StoredRow(st, key, body, now)
  {
    var v := ValidateExpenseBody(body);
    assert NormalisedFrom(v.expense, body);
  }

  lemma CreatedReply(st: Store, header: Value, v: Validation, now: string, row: ExpenseRow)
    requires KeyUsable(header) && header.s !in st.rows && v.Valid?
    requires RowOf(ToInsert(v.expense, now, header.s), st.nextId) == row
    ensures Handle(st, header, v, now, None) == Replied(Reply(201, ExpenseBody(FormatExpense(row))), Store(st.rows[header.s := row], st.nextId + 1))
  {
  }

  /**
   * Submitting the same key twice gives 201 and then 200 with the same id,
   * even when the second body differs, and only one row is added.
   */
  lemma SecondSubmissionReplays(st: Store, header: Value, b1: Body, b2: Body, t1: string, t2: string)
    requires KeyUsable(header) && header.s !in st.rows
    requires BodyAccepted(b1) && BodyAccepted(b2)
    ensures var first := Post(st, header, b1, t1, None);
      var second := Post(first.store, header, b2, t2, None);
      && first.Replied? && first.reply.status == 201
      && second.Replied? && second.reply.status == 200
      && second.reply.body == first.reply.body
      && second.store == first.store
      && |second.store.rows| == |st.rows| + 1
  {
    NovelKeyCreatesRow(st, header, b1, t1);
    var first := Post(st, header, b1, t1, None);
    ReplayReturnsStoredRow(first.store, header, b2, t2);
  }

  /**
   * A replay does not use up an id: key A, key A again, then key B on an
   * empty table gives B the id 2. Stated for any successful validation `v`,
   * so it holds for `Post` on every accepted body.
   */
  lemma ReplayConsumesNoId(a: Value, b: Value, v: Validation, t1: string, t2: string, t3: string)
    requires KeyUsable(a) && KeyUsable(b) && a.s != b.s
    requires v.Valid?
    ensures var r1 := Handle(EmptyStore, a, v, t1, None);
      var r2 := Handle(r1.store, a, v, t2, None);
      var r3 := Handle(r2.store, b, v, t3, None);
      && r1.Replied? && r1.reply.body.ExpenseBody? && r1.reply.body.expense.id == 1
      && r2.Replied? && r2.reply.status == 200 && r2.reply.body == r1.reply.body
      && r3.Replied? && r3.reply.status == 201 && r3.reply.body.ExpenseBody? && r3.reply.body.expense.id == 2
  {
    var r1 := Handle(EmptyStore, a, v, t1, None);
    var row1 := RowOf(ToInsert(v.expense, t1, a.s), 1);
    assert r1.store == Store(map[a.s := row1], 2);
    var r2 := Handle(r1.store, a, v, t2, None);
    assert r2.store == r1.store;
    assert b.s !in r2.store.rows;
  }
}
