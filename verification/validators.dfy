/**
 * `validateExpenseBody` of `backend/src/validators.ts`: checks the five fields
 * of a request body independently and returns either the normalised expense or
 * a map from field name to message.
 *
 * The untyped JSON body is modelled by `Body`, and each property of it by
 * `Value`: absent (`undefined`), `null`, a string, or any other JSON value.
 */
module Validators {
  import opened Wrappers
  import opened Money
  import opened JsText
  import opened Calendar

  const MaxDescriptionLength: nat := 200
  const MaxCategoryLength: nat := 50
  const MaxUserLength: nat := 50
  const ValidationErrorCode := "VALIDATION_ERROR"

  /** One property of the request body. */
  datatype Value = Missing | Null | Str(s: string) | Other

  /**
   * The request body: anything falsy or not an object, or an object with the
   * five properties the validator reads (an array reads as all `Missing`).
   */
  datatype Body =
    | NotAnObject
    | JsonObject(amount: Value, category: Value, date: Value, description: Value, user: Value)

  datatype ValidatedExpense = ValidatedExpense(
    amountPaise: nat,
    category: string,
    description: string,
    date: string,
    user: string)

  /** The five properties of a request body, the keys of a field-error map. */
  datatype Field = Amount | Category | Date | Description | User {
    /** The property name as it appears in the JSON body and in error maps. */
    function Name(): string {
      match this
      case Amount => "amount"
      case Category => "category"
      case Date => "date"
      case Description => "description"
      case User => "user"
    }
  }

  /** Each field has its own property name, so the error map's keys name distinct properties. */
  lemma FieldNamesDistinct(f: Field, g: Field)
    ensures f.Name() == g.Name() <==> f == g
  {
    match f
    case Amount =>
    case Category =>
    case Date =>
    case Description =>
    case User =>
  }

  datatype ValidationError = ValidationError(code: string, message: string, fields: map<Field, string>)

  datatype Validation = Valid(expense: ValidatedExpense) | Invalid(error: ValidationError)

  // ---------------------------------------------------------------------
  // What each field must be

  /** `undefined`, `null` and `""` all count as "not given". */
  predicate IsAbsent(v: Value) {
    v.Missing? || v.Null? || v == Str("")
  }

  predicate AmountAccepted(v: Value) {
    v.Str? && IsAmountShape(v.s)
  }

  /** The rule shared by category and user: a string whose trimmed length is 1..max. */
  predicate LabelAccepted(v: Value, max: nat) {
    v.Str? && 1 <= Utf16Length(Trim(v.s)) <= max
  }

  predicate DateAccepted(v: Value) {
    v.Str? && IsValidDate(v.s)
  }

  /** Description is optional; when given it is measured untrimmed. */
  predicate DescriptionAccepted(v: Value) {
    v.Missing? || v.Null? || (v.Str? && Utf16Length(v.s) <= MaxDescriptionLength)
  }

  predicate BodyAccepted(b: Body) {
    && b.JsonObject?
    && AmountAccepted(b.amount)
    && LabelAccepted(b.category, MaxCategoryLength)
    && DateAccepted(b.date)
    && DescriptionAccepted(b.description)
    && LabelAccepted(b.user, MaxUserLength)
  }

  // ---------------------------------------------------------------------
  // The per-field checks, in the source's order of tests

  function Required(name: string): string {
    name + " is required"
  }

  function AtMost(name: string, max: nat): string {
    name + " must be at most " + NatDigits(max) + " characters"
  }

  /** The length messages spell their bounds in decimal, as the template literals do. */
  lemma LengthMessages(name: string)
    ensures AtMost(name, MaxCategoryLength) == name + " must be at most 50 characters"
    ensures AtMost(name, MaxDescriptionLength) == name + " must be at most 200 characters"
  {
    BoundDigits();
  }

  lemma BoundDigits()
    ensures NatDigits(50) == "50" && NatDigits(200) == "200"
  {
    assert NatDigits(5) == "5";
    assert NatDigits(2) == "2";
    assert NatDigits(20) == "20";
  }

  function CheckAmount(v: Value): (issue: Option<string>)
    ensures issue.None? <==> AmountAccepted(v)
    ensures IsAbsent(v) ==> issue == Some(Required("amount"))
    ensures v.Other? ==> issue == Some("amount must be a string (e.g. \"199.50\")")
    ensures v.Str? && v.s != "" && !IsAmountShape(v.s) ==>
      issue == Some("amount must be a non-negative decimal with up to 2 decimal places")
  {
    if IsAbsent(v) then Some(Required("amount"))
    else if !v.Str? then Some("amount must be a string (e.g. \"199.50\")")
    else if ParsePaise(v.s).None? then Some("amount must be a non-negative decimal with up to 2 decimal places")
    else None
  }

  /** The category and user checks, which differ only in the field name and the bound. */
  function CheckLabel(name: string, v: Value, max: nat): (issue: Option<string>)
    ensures issue.None? <==> LabelAccepted(v, max)
    ensures IsAbsent(v) ==> issue == Some(Required(name))
    ensures v.Other? ==> issue == Some(name + " must be a string")
    ensures v.Str? && v.s != "" && AllWhitespace(v.s) ==> issue == Some(name + " must not be blank")
    ensures v.Str? && Utf16Length(Trim(v.s)) > max ==> issue == Some(AtMost(name, max))
  {
    if IsAbsent(v) then Some(Required(name))
    else if !v.Str? then Some(name + " must be a string")
    else if Utf16Length(Trim(v.s)) == 0 then Some(name + " must not be blank")
    else if Utf16Length(Trim(v.s)) > max then Some(AtMost(name, max))
    else None
  }

  function CheckDate(v: Value): (issue: Option<string>)
    ensures issue.None? <==> DateAccepted(v)
    ensures IsAbsent(v) ==> issue == Some(Required("date"))
    ensures v.Other? ==> issue == Some("date must be a string in YYYY-MM-DD format")
    ensures v.Str? && v.s != "" && !MatchesDatePattern(v.s) ==> issue == Some("date must be in YYYY-MM-DD format")
    ensures v.Str? && MatchesDatePattern(v.s) && !IsValidDate(v.s) ==> issue == Some("date is not a valid calendar date")
  {
    if IsAbsent(v) then Some(Required("date"))
    else if !v.Str? then Some("date must be a string in YYYY-MM-DD format")
    else if !MatchesDatePattern(v.s) then Some("date must be in YYYY-MM-DD format")
    else CheckRoundTrip(v.s)
  }

  /** The second date test: the `Date` round trip, which fails exactly on days the calendar lacks. */
  function CheckRoundTrip(s: string): (issue: Option<string>)
    requires MatchesDatePattern(s)
    ensures issue.None? <==> IsCalendarDay(Fields(s))
    ensures issue.Some? ==> issue == Some("date is not a valid calendar date")
  {
    RoundTripIsCalendarDay(s);
    if !RoundTrips(s) then Some("date is not a valid calendar date")
    else None
  }

  function CheckDescription(v: Value): (issue: Option<string>)
    ensures issue.None? <==> DescriptionAccepted(v)
    ensures v.Other? ==> issue == Some("description must be a string")
    ensures v.Str? && Utf16Length(v.s) > MaxDescriptionLength ==> issue == Some(AtMost("description", MaxDescriptionLength))
  {
    if v.Missing? || v.Null? then None
    else if !v.Str? then Some("description must be a string")
    else if Utf16Length(v.s) > MaxDescriptionLength then Some(AtMost("description", MaxDescriptionLength))
    else None
  }

  /** The check that applies to field `f` of an object body. */
  function Check(b: Body, f: Field): Option<string>
    requires b.JsonObject?
  {
    match f
    case Amount => CheckAmount(b.amount)
    case Category => CheckLabel("category", b.category, MaxCategoryLength)
    case Date => CheckDate(b.date)
    case Description => CheckDescription(b.description)
    case User => CheckLabel("user", b.user, MaxUserLength)
  }

  /** The rule field `f` of an object body must satisfy. */
  predicate FieldAccepted(b: Body, f: Field)
    requires b.JsonObject?
  {
    match f
    case Amount => AmountAccepted(b.amount)
    case Category => LabelAccepted(b.category, MaxCategoryLength)
    case Date => DateAccepted(b.date)
    case Description => DescriptionAccepted(b.description)
    case User => LabelAccepted(b.user, MaxUserLength)
  }

  lemma CheckFollowsRule(b: Body, f: Field)
    requires b.JsonObject?
    ensures Check(b, f).None? <==> FieldAccepted(b, f)
  {
    match f
    case Amount =>
    case Category =>
    case Date =>
    case Description =>
    case User =>
  }

  /** `fields` records exactly the fields whose check failed. */
  predicate ReportsEachField(b: Body, fields: map<Field, string>)
    requires b.JsonObject?
  {
    forall f :: f in fields <==> !FieldAccepted(b, f)
  }

  /**
   * The field-to-message map the validator builds for an object body: each
   * check runs whatever the others found.
   */
  function FieldErrors(b: Body): (fields: map<Field, string>)
    requires b.JsonObject?
    ensures ReportsEachField(b, fields)
    ensures forall f :: f in fields ==> fields[f] == Check(b, f).value
  {
    forall f ensures Check(b, f).None? <==> FieldAccepted(b, f) {
      CheckFollowsRule(b, f);
    }
    map f: Field | Check(b, f).Some? :: Check(b, f).value
  }

  /** No field is recorded exactly when the whole body is accepted. */
  lemma NoFieldErrorsIffAccepted(b: Body)
    requires b.JsonObject?
    ensures |FieldErrors(b)| == 0 <==> BodyAccepted(b)
  {
    ReportsNothingIffAccepted(b, FieldErrors(b));
  }

  lemma ReportsNothingIffAccepted(b: Body, fields: map<Field, string>)
    requires b.JsonObject? && ReportsEachField(b, fields)
    ensures |fields| == 0 <==> BodyAccepted(b)
  {
    if BodyAccepted(b) {
      forall f ensures f !in fields {
        EveryFieldAccepted(b, f);
      }
      assert fields == map[];
    } else {
      var f :| !FieldAccepted(b, f);
      assert f in fields;
    }
  }

  lemma EveryFieldAccepted(b: Body, f: Field)
    requires BodyAccepted(b)
    ensures FieldAccepted(b, f)
  {
  }

  /** What a normalised expense is: the accepted fields, trimmed where the source trims. */
  predicate NormalisedFrom(e: ValidatedExpense, b: Body)
    requires BodyAccepted(b)
  {
    && e.amountPaise == AmountValue(b.amount.s)
    && e.category == Trim(b.category.s)
    && e.description == (if b.description.Str? then b.description.s else "")
    && e.date == b.date.s
    && e.user == Trim(b.user.s)
  }

  /** `validateExpenseBody(body)`. */
  function ValidateExpenseBody(body: Body): (r: Validation)
    ensures body.NotAnObject? ==>
      r == Invalid(ValidationError(ValidationErrorCode, "Request body must be a JSON object", map[]))
    ensures r.Valid? <==> BodyAccepted(body)
    ensures r.Invalid? ==> r.error.code == ValidationErrorCode
    ensures body.JsonObject? && r.Invalid? ==>
      && r.error.message == "Validation failed" && r.error.fields == FieldErrors(body)
      && |r.error.fields| > 0 && ReportsEachField(body, r.error.fields)
    ensures r.Valid? ==> NormalisedFrom(r.expense, body)
  {
    if body.NotAnObject? then
      Invalid(ValidationError(ValidationErrorCode, "Request body must be a JSON object", map[]))
    else
      var fields := FieldErrors(body);
      NoFieldErrorsIffAccepted(body);
      if |fields| > 0 then
        Invalid(ValidationError(ValidationErrorCode, "Validation failed", fields))
      else
        Valid(ValidatedExpense(
          ParsePaise(body.amount.s).value,
          Trim(body.category.s),
          if body.description.Str? then body.description.s else "",
          body.date.s,
          Trim(body.user.s)))
  }

  /** Every normalised expense keeps the bounds its fields were checked against. */
  lemma ValidatedWithinBounds(body: Body)
    requires ValidateExpenseBody(body).Valid?
    ensures var e := ValidateExpenseBody(body).expense;
      && 1 <= Utf16Length(e.category) <= MaxCategoryLength
      && 1 <= Utf16Length(e.user) <= MaxUserLength
      && Utf16Length(e.description) <= MaxDescriptionLength
      && IsValidDate(e.date)
      && ParsePaise(body.amount.s) == Some(e.amountPaise)
  {
  }

  // ---------------------------------------------------------------------
  // The backend tests' bodies

  /** A word with no surrounding whitespace, within the bound, is an acceptable label. */
  lemma PlainLabelAccepted(s: string, max: nat)
    requires 0 < |s| <= max && !IsJsWhitespace(s[0]) && !IsJsWhitespace(s[|s| - 1])
    requires forall k :: 0 <= k < |s| ==> s[k] as int <= 0xFFFF
    ensures LabelAccepted(Str(s), max) && Trim(s) == s
  {
    TrimOfUnpadded(s);
    Utf16LengthOfBmp(s);
  }

  /** A description within the Basic Multilingual Plane and at most 200 characters long is accepted. */
  lemma ShortDescriptionAccepted(v: Value)
    requires v.Str? && |v.s| <= MaxDescriptionLength
    requires forall k :: 0 <= k < |v.s| ==> v.s[k] as int <= 0xFFFF
    ensures DescriptionAccepted(v)
  {
    Utf16LengthOfBmp(v.s);
  }

  lemma TestAmount(v: Value)
    requires v == Str("199.50")
    ensures AmountAccepted(v) && AmountValue(v.s) == 19950
  {
    ParseExampleWithPaise();
  }

  lemma TestDate(v: Value)
    requires v == Str("2025-03-15")
    ensures DateAccepted(v)
  {
    DateExampleValid();
  }

  lemma TestLabel(v: Value, word: string, max: nat)
    requires (word == "Food" || word == "alice") && v == Str(word) && max == 50
    ensures LabelAccepted(v, max) && Trim(v.s) == word
  {
    PlainLabelAccepted(word, max);
  }

  lemma TestDescription(v: Value)
    requires v == Str("Lunch")
    ensures DescriptionAccepted(v)
  {
    ShortDescriptionAccepted(v);
  }

  /** The backend tests' well-formed body is accepted and normalised to 19950 paise with its strings unchanged. */
  lemma TestBodyValidates(b: Body)
    requires b.JsonObject? && b.amount == Str("199.50") && b.category == Str("Food")
    requires b.date == Str("2025-03-15") && b.description == Str("Lunch") && b.user == Str("alice")
    ensures ValidateExpenseBody(b) == Valid(ValidatedExpense(19950, "Food", "Lunch", "2025-03-15", "alice"))
  {
    TestAmount(b.amount);
    TestDate(b.date);
    TestLabel(b.category, "Food", MaxCategoryLength);
    TestLabel(b.user, "alice", MaxUserLength);
    TestDescription(b.description);
    NoFieldErrorsIffAccepted(b);
    assert FieldErrors(b) == map[];
  }

  /** A signed amount is reported on `amount`, with the format message. */
  lemma NegativeAmountRejected(b: Body)
    requires b.JsonObject? && b.amount == Str("-10.00")
    ensures var r := ValidateExpenseBody(b);
      r.Invalid? && Amount in r.error.fields
      && r.error.fields[Amount] == "amount must be a non-negative decimal with up to 2 decimal places"
  {
    RejectSigned();
    assert Check(b, Amount) == CheckAmount(b.amount);
  }

  /** A missing amount is reported as required. */
  lemma MissingAmountRejected(b: Body)
    requires b.JsonObject? && b.amount.Missing?
    ensures var r := ValidateExpenseBody(b);
      r.Invalid? && Amount in r.error.fields && r.error.fields[Amount] == "amount is required"
  {
    assert Check(b, Amount) == CheckAmount(b.amount);
  }

  /** A day-first date is reported on `date` as badly formatted. */
  lemma DayFirstDateRejected(b: Body)
    requires b.JsonObject? && b.date == Str("15-03-2025")
    ensures var r := ValidateExpenseBody(b);
      r.Invalid? && Date in r.error.fields && r.error.fields[Date] == "date must be in YYYY-MM-DD format"
  {
    assert !MatchesDatePattern("15-03-2025") by { assert "15-03-2025"[4] != '-'; }
    assert Check(b, Date) == CheckDate(b.date);
  }

  /** February 30th is reported on `date` as not a calendar date. */
  lemma February30Rejected(b: Body)
    requires b.JsonObject? && b.date == Str("2025-02-30")
    ensures var r := ValidateExpenseBody(b);
      r.Invalid? && Date in r.error.fields && r.error.fields[Date] == "date is not a valid calendar date"
  {
    DateExampleFebruary30();
    assert MatchesDatePattern("2025-02-30");
    assert Check(b, Date) == CheckDate(b.date);
  }

  /** A 201-character description is reported on `description`. */
  lemma LongDescriptionRejected(b: Body)
    requires b.JsonObject? && b.description == Str(seq(201, _ => 'a'))
    ensures var r := ValidateExpenseBody(b);
      r.Invalid? && Description in r.error.fields
  {
    Utf16LengthOfBmp(seq(201, _ => 'a'));
  }

  /** A body missing amount, category and user gets all three reported, and nothing else. */
  lemma ErrorsAreCollected(b: Body)
    requires b.JsonObject? && b.amount.Missing? && b.category.Missing? && b.user.Missing?
    requires DateAccepted(b.date) && DescriptionAccepted(b.description)
    ensures var r := ValidateExpenseBody(b);
      && r.Invalid?
      && Amount in r.error.fields && Category in r.error.fields && User in r.error.fields
      && Date !in r.error.fields && Description !in r.error.fields
  {
    assert FieldAccepted(b, Date) && FieldAccepted(b, Description);
    assert !FieldAccepted(b, Amount) && !FieldAccepted(b, Category) && !FieldAccepted(b, User);
  }
}
