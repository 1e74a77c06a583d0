/**
 * The submit logic of `frontend/src/components/ExpenseForm.tsx`.
 *
 * `validate()` is a short-circuit check of the form's fields whose amount test
 * is the server's regular expression. A valid submit builds a trimmed payload,
 * records it under a fresh idempotency key as the pending submission and sends
 * it; a retry resends the pending key and payload unchanged; only a successful
 * send clears the pending submission and resets the form.
 *
 * React state is a value `FormState`, each handler a function from the state
 * before to the state after plus the request it sends, if any. The fresh key
 * (`crypto.randomUUID()`) and today's date are parameters.
 */
module ExpenseForm {
  import opened Wrappers
  import opened Money
  import opened JsText
  import opened Validators

  datatype FormFields = FormFields(amount: string, category: string, description: string, date: string)

  /** `CreateExpensePayload`; an absent description is `undefined`. */
  datatype Payload = Payload(amount: string, category: string, description: Option<string>, date: string)

  /** The pending submission kept for retries, and the request `doSubmit` sends. */
  datatype Submission = Submission(key: string, payload: Payload)

  datatype FormState = FormState(
    fields: FormFields,
    submitting: bool,
    error: Option<string>,
    pending: Option<Submission>)

  /** The state after a handler, and the request it started, if any. */
  datatype Step = Step(state: FormState, sent: Option<Submission>)

  /** How `createExpense` settled: resolved, or rejected with an `Error`'s message or a non-`Error` value. */
  datatype SendResult = Succeeded | Failed(message: Option<string>)

  const AmountRequired := "Amount is required"
  const AmountMalformed := "Amount must be a positive number (e.g. 199.50)"
  const CategoryRequired := "Category is required"
  const DateRequired := "Date is required"
  const SaveFailed := "Failed to save expense"

  // ---------------------------------------------------------------------
  // validate()

  /** What the form lets through: a well-shaped trimmed amount, a non-blank category and some date. */
  predicate FormAccepted(f: FormFields) {
    MatchesAmountPattern(Trim(f.amount)) && Trim(f.category) != "" && f.date != ""
  }

  /** `validate()`: the message of the first check that fails, in order amount, amount shape, category, date. */
  function Validate(f: FormFields): (msg: Option<string>)
    ensures msg.None? <==> FormAccepted(f)
    ensures msg == Some(AmountRequired) <==> Trim(f.amount) == ""
    ensures msg == Some(AmountMalformed) <==> Trim(f.amount) != "" && !MatchesAmountPattern(Trim(f.amount))
    ensures msg == Some(CategoryRequired) <==> MatchesAmountPattern(Trim(f.amount)) && Trim(f.category) == ""
    ensures msg == Some(DateRequired) <==>
      MatchesAmountPattern(Trim(f.amount)) && Trim(f.category) != "" && f.date == ""
  {
    PatternIsShape("");
    if Trim(f.amount) == "" then Some(AmountRequired)
    else if !MatchesAmountPattern(Trim(f.amount)) then Some(AmountMalformed)
    else if Trim(f.category) == "" then Some(CategoryRequired)
    else if f.date == "" then Some(DateRequired)
    else None
  }

  /**
   * The form and the server agree on amounts: the form accepts a trimmed amount
   * exactly when the server's `parsePaise` does, since both use one pattern.
   */
  lemma AmountCheckAgreesWithServer(f: FormFields)
    ensures MatchesAmountPattern(Trim(f.amount)) <==> ParsePaise(Trim(f.amount)).Some?
    ensures FormAccepted(f) ==> AmountAccepted(Str(Trim(f.amount)))
  {
    PatternIsShape(Trim(f.amount));
  }

  // ---------------------------------------------------------------------
  // The payload

  /** The payload `handleSubmit` builds: amount and category trimmed, a blank description dropped. */
  function BuildPayload(f: FormFields): (p: Payload)
    ensures p.amount == Trim(f.amount) && p.category == Trim(f.category) && p.date == f.date
    ensures p.description.None? <==> AllWhitespace(f.description)
    ensures p.description.Some? ==> p.description.value == Trim(f.description)
  {
    var description := Trim(f.description);
    Payload(Trim(f.amount), Trim(f.category), if description == "" then None else Some(description), f.date)
  }

  /** The payload's strings are already trimmed, and a description it carries is not blank. */
  lemma PayloadIsTrimmed(f: FormFields)
    ensures var p := BuildPayload(f);
      && Trim(p.amount) == p.amount
      && Trim(p.category) == p.category
      && (p.description.Some? ==> p.description.value != "" && Trim(p.description.value) == p.description.value)
  {
    var p := BuildPayload(f);
    assert p.amount == Trim(f.amount) && p.category == Trim(f.category);
    TrimIdempotent(f.amount);
    TrimIdempotent(f.category);
    if p.description.Some? {
      assert p.description.value == Trim(f.description);
      TrimIdempotent(f.description);
    }
  }

  /** `JSON.stringify(payload)` as the server reads it: `undefined` properties and `user` are absent. */
  function PayloadBody(p: Payload): (b: Body)
    ensures b.JsonObject? && b.user.Missing?
    ensures b.amount == Str(p.amount) && b.category == Str(p.category) && b.date == Str(p.date)
    ensures b.description.Missing? <==> p.description.None?
    ensures p.description.Some? ==> b.description == Str(p.description.value)
  {
    JsonObject(
      Str(p.amount),
      Str(p.category),
      Str(p.date),
      if p.description.Some? then Str(p.description.value) else Missing,
      Missing)
  }

  /**
   * The server accepts the amount of every payload the form sends, and reads
   * from it the paise the trimmed amount denotes.
   */
  lemma AcceptedPayloadAmountParses(f: FormFields)
    requires FormAccepted(f)
    ensures var b := PayloadBody(BuildPayload(f));
      AmountAccepted(b.amount) && ParsePaise(b.amount.s) == Some(AmountValue(Trim(f.amount)))
  {
    AmountCheckAgreesWithServer(f);
  }

  /**
   * The form's payload has no `user` property, and the server requires one:
   * every body the form sends is refused with "user is required".
   */
  lemma FormPayloadLacksUser(f: FormFields)
    ensures var r := ValidateExpenseBody(PayloadBody(BuildPayload(f)));
      r.Invalid? && User in r.error.fields && r.error.fields[User] == Required("user")
  {
    var b := PayloadBody(BuildPayload(f));
    assert b.user == Missing;
    assert Check(b, User) == CheckLabel("user", b.user, MaxUserLength);
    assert FieldErrors(b)[User] == Required("user");
  }

  // ---------------------------------------------------------------------
  // Pending submissions: handleSubmit, handleRetry, doSubmit

  /** `handleSubmit`: validates, then records a fresh key and payload as pending and sends them. */
  function HandleSubmit(s: FormState, freshKey: string): (r: Step)
    ensures s.submitting ==> r == Step(s, None)
    ensures !s.submitting && !FormAccepted(s.fields) ==>
      r.sent.None? && r.state == s.(error := Validate(s.fields))
    ensures !s.submitting && FormAccepted(s.fields) ==>
      && r.sent == Some(Submission(freshKey, BuildPayload(s.fields)))
      && r.state.pending == r.sent
      && r.state.submitting && r.state.error.None? && r.state.fields == s.fields
  {
    if s.submitting then Step(s, None)
    else
      var problem := Validate(s.fields);
      if problem.Some? then Step(s.(error := problem), None)
      else
        var submission := Submission(freshKey, BuildPayload(s.fields));
        Step(s.(pending := Some(submission), submitting := true, error := None), Some(submission))
  }

  /** `handleRetry`: resends the pending key and payload, unless a send is in flight or nothing is pending. */
  function HandleRetry(s: FormState): (r: Step)
    ensures s.submitting || s.pending.None? ==> r == Step(s, None)
    ensures !s.submitting && s.pending.Some? ==>
      r.sent == s.pending && r.state == s.(submitting := true, error := None)
  {
    if s.submitting || s.pending.None? then Step(s, None)
    else Step(s.(submitting := true, error := None), s.pending)
  }

  /**
   * How `doSubmit` settles: success clears the pending submission and resets
   * the fields (the date to `today`); failure shows the error and keeps the
   * pending submission for a retry.
   */
  function FinishSend(s: FormState, result: SendResult, today: string): (r: FormState)
    ensures !r.submitting
    ensures r.pending.None? <==> result.Succeeded? || s.pending.None?
    ensures result.Failed? ==> r.pending == s.pending && r.fields == s.fields && r.error.Some?
    ensures result.Succeeded? ==> r.fields == FormFields("", "", "", today) && r.error == s.error
  {
    match result
    case Succeeded =>
      s.(pending := None, submitting := false, fields := FormFields("", "", "", today))
    case Failed(message) =>
      s.(submitting := false, error := Some(message.GetOr(SaveFailed)))
  }

  /** A failed send followed by a retry. */
  function FailAndRetry(s: FormState, message: Option<string>, today: string): Step {
    HandleRetry(FinishSend(s, Failed(message), today))
  }

  /** The state after a run of failed sends, each followed by a retry. */
  function FailAndRetryAll(s: FormState, messages: seq<Option<string>>, today: string): FormState
    decreases |messages|
  {
    if |messages| == 0 then s
    else FailAndRetryAll(FailAndRetry(s, messages[0], today).state, messages[1..], today)
  }

  /**
   * However many sends fail and are retried, the pending submission stays the
   * one the submit recorded, each retry sends it again with the same key, and
   * the form is left waiting on that send.
   */
  lemma {:induction false} RetriesResendSameSubmission(s: FormState, messages: seq<Option<string>>, today: string)
    requires s.submitting && s.pending.Some?
    ensures var t := FailAndRetryAll(s, messages, today);
      t.pending == s.pending && t.submitting && t.fields == s.fields
    ensures |messages| > 0 ==> FailAndRetry(s, messages[0], today).sent == s.pending
    decreases |messages|
  {
    if |messages| > 0 {
      var next := FailAndRetry(s, messages[0], today);
      assert next.sent == s.pending && next.state.pending == s.pending && next.state.submitting;
      RetriesResendSameSubmission(next.state, messages[1..], today);
    }
  }

  /** After a valid submit, a failure and a retry, the retry sends exactly what the submit sent. */
  lemma RetryReusesKeyAndPayload(s: FormState, freshKey: string, message: Option<string>, today: string)
    requires !s.submitting && FormAccepted(s.fields)
    ensures var first := HandleSubmit(s, freshKey);
      var retry := FailAndRetry(first.state, message, today);
      first.sent == Some(Submission(freshKey, BuildPayload(s.fields))) && retry.sent == first.sent
  {
  }

  /** No handler but a successful send ever drops the pending submission. */
  lemma OnlySuccessClearsPending(s: FormState, freshKey: string, result: SendResult, today: string)
    requires s.pending.Some?
    ensures HandleSubmit(s, freshKey).state.pending.Some?
    ensures HandleRetry(s).state.pending == s.pending
    ensures FinishSend(s, result, today).pending.None? <==> result.Succeeded?
  {
  }
}
