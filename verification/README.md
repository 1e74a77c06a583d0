# Expense ledger write path, in Dafny

A model of the write path of a small expense ledger (a Fastify + SQLite
backend with a React form). A raw expense submission becomes at most one stored
row per idempotency key. The model covers six parts:

- **Money codec** (`money.dfy`, module `Money`). `parsePaise` turns a decimal
  rupee string such as `"199.50"` into integer paise. Its regular expression
  `^\d+(\.\d{1,2})?$` is written once, as a small automaton. The automaton is
  proved to accept exactly a declarative shape. `Number` on digit strings is
  modelled as well.
- **JavaScript strings** (`jstext.dfy`, module `JsText`). `trim` uses the
  ECMAScript whitespace set, and `length` counts UTF-16 code units.
  `split`, `join` and `padEnd`, which the money codec uses, live here too.
- **Calendar** (`calendar.dfy`, module `Calendar`). The date check replaces the
  JavaScript `Date` round trip with an explicit proleptic Gregorian calendar.
  The round trip is proved to accept exactly the real calendar days.
- **Body validator** (`validators.dfy`, module `Validators`). `validateExpenseBody`
  takes an untyped body (`Missing | Null | Str(s) | Other` per property). It
  returns either a normalised expense or a field-to-message error map.
- **Store and POST handler** (`db.dfy`, `routes.dfy`, modules `Db` and
  `ExpenseRoutes`). The `expenses` table is a map from idempotency key to row,
  plus the next AUTOINCREMENT id. An insert returns `Created | DuplicateKey |
  Failed`. The POST handler checks the key, validates, then inserts or replays.
  The clock and storage faults are parameters.
- **Form submit guard** (`form.dfy`, module `ExpenseForm`). This covers
  `validate()`, the payload `handleSubmit` builds, and the pending-submission
  machine that lets a retry reuse its key and payload.

The wire name of the amount is `amount_paise`, following the code.

## Model

| member | source | states |
|---|---|---|
| Money.DecimalValue | backend/src/money.ts:12-13 | `Number` of a string of k ASCII digits is a natural number below 10^k |
| Money.ScanTracksShape | backend/src/money.ts:7 | after reading any string, the regex automaton is in the state its declarative shape predicts (start, whole digits, point, tenths, hundredths, dead) |
| Money.PatternIsShape | backend/src/money.ts:7-9 | the regex test accepts a string exactly when it is one or more digits, optionally followed by '.' and exactly one or two digits |
| Money.ParsePaise | backend/src/money.ts:5-17 | `parsePaise` returns null exactly for strings without that shape; otherwise it returns 100 × the whole digits' value plus the fractional digits padded to two places |
| JsText.Split | backend/src/money.ts:11 | `split` always yields at least one part and no part contains the separator |
| JsText.SplitJoin | backend/src/money.ts:11 | joining the parts of `split` with the separator gives back the original string |
| JsText.PadEnd | backend/src/money.ts:13 | `padEnd(n, c)` keeps the string as a prefix, reaches length n when shorter, and fills only with c |
| Money.ParseSplitsIntoRupeesAndPaise | backend/src/money.ts:12-14 | the result is non-negative, result / 100 is the whole rupees and result % 100 the fractional paise |
| Money.PaddingEquivalence | backend/src/money.ts:13 | "x.d" is accepted and parses to the same paise as "x.d0": one fractional digit means tenths |
| Money.NatDigits | backend/src/money.ts:12 | every natural number has a digit run whose `Number` value is that number |
| Money.ParseRendered | backend/src/money.ts:11-14 | every paise amount is reached: the parser maps its two-decimal spelling back to it |
| Money.ParseExampleWithPaise | backend/src/tests/expenses.test.ts:38 | "199.50" parses to 19950 |
| Money.ParseExampleWhole | backend/src/tests/expenses.test.ts:186 | "200" parses to 20000 |
| Money.ParseExampleTenths | backend/src/money.ts:13 | "0.1" parses to 10, not 1 |
| Money.RejectSigned | backend/src/tests/expenses.test.ts:117-127 | "" and "-10.00" do not parse |
| Money.RejectLongFractions | backend/src/money.ts:7-9 | "10.999" and "1.2.3" do not parse: one '.', at most two decimals |
| Money.RejectNonDecimals | backend/src/money.ts:7-9 | "abc", "1e5", ".5" and "5." do not parse |
| JsText.Trim | backend/src/validators.ts:51 | `trim` returns a contiguous piece of the string with only whitespace before and after it; the piece is empty exactly when the string is all whitespace, and otherwise starts and ends with a non-whitespace character |
| JsText.TrimIdempotent | backend/src/validators.ts:108 | trimming an already trimmed string changes nothing |
| JsText.Utf16Length | backend/src/validators.ts:82 | `length` lies between the number of characters and twice that number |
| JsText.Utf16LengthOfChar | backend/src/validators.ts:82 | one character counts one code unit, or two when it lies outside the Basic Multilingual Plane |
| JsText.Utf16LengthConcat | backend/src/validators.ts:82 | `length` of a concatenation is the sum of the lengths, so `length` is the sum of every character's code units |
| JsText.Utf16LengthOfBmp | backend/src/validators.ts:82 | for Basic Multilingual Plane text, `length` is the number of characters |
| Calendar.ParseUtcMidnight | backend/src/validators.ts:66-67 | `new Date(s + "T00:00:00Z")` is an invalid time value or a real calendar day |
| Calendar.PadDigits | backend/src/validators.ts:71 | the zero-padded rendering has the requested width, is all digits, and reads back as the number |
| Calendar.IsoDateOfFields | backend/src/validators.ts:71-72 | rendering the year, month and day of a `\d{4}-\d{2}-\d{2}` string gives the string back |
| Calendar.IsoDate | backend/src/validators.ts:71 | `toISOString().slice(0, 10)` of a day with a four-digit year matches `DATE_RE` and reads back as the same year, month and day |
| Calendar.RoundTripIsCalendarDay | backend/src/validators.ts:62-75 | the `Date` round trip of a pattern-matching string succeeds exactly when it names a real Gregorian day |
| Calendar.DateExampleValid | backend/src/tests/expenses.test.ts:23 | "2025-03-15" is a valid date |
| Calendar.DateExampleFebruary30 | backend/src/tests/expenses.test.ts:141-151 | "2025-02-30" is not a valid date |
| Calendar.DateExampleDayFirst | backend/src/tests/expenses.test.ts:129-139 | "15-03-2025" is not a valid date |
| Calendar.DateExampleLeapDay | backend/src/validators.ts:62-75 | February 29th is valid in 2024 and invalid in 2025 |
| Validators.CheckAmount | backend/src/validators.ts:35-44 | no message exactly when the amount is a string of the accepted shape; absent, null or "" gives "amount is required"; a non-string gives the type message; any other string of the wrong shape gives the format message |
| Validators.CheckLabel | backend/src/validators.ts:47-55 | for category (and user, lines 88-96), no message exactly when the trimmed length is 1..50; absent gives "is required"; a non-string gives "must be a string"; an all-whitespace string gives "must not be blank"; a trimmed length above the bound gives "must be at most 50 characters" |
| Validators.LengthMessages | backend/src/validators.ts:53-54 | the length message built from a bound of 50 or 200 reads "<field> must be at most 50 characters" or "… 200 characters", as the template literals here and at lines 83-84 and 94-95 render |
| Validators.CheckDate | backend/src/validators.ts:58-76 | no message exactly when the date has the shape and names a real day; absent, non-string, format and calendar failures each get their own message |
| Validators.CheckRoundTrip | backend/src/validators.ts:64-75 | for a pattern-matching date, the round trip reports "date is not a valid calendar date" exactly when the day is not a real Gregorian day |
| Validators.CheckDescription | backend/src/validators.ts:79-85 | no message exactly when the description is absent, null, or a string of at most 200 UTF-16 units, measured untrimmed; a non-string gives "description must be a string" and a longer string "description must be at most 200 characters" |
| Validators.FieldNamesDistinct | backend/src/validators.ts:32-96 | the five error-map keys are the distinct property names "amount", "category", "date", "description" and "user" |
| Validators.FieldErrors | backend/src/validators.ts:32-96 | the error map holds exactly the fields whose own rule fails, each with its check's message |
| Validators.NoFieldErrorsIffAccepted | backend/src/validators.ts:98-104 | the error map is empty exactly when all five fields are accepted |
| Validators.ValidateExpenseBody | backend/src/validators.ts:22-113 | a non-object gives VALIDATION_ERROR with an empty map; otherwise success exactly when every field is accepted; a failure carries "Validation failed" and exactly the per-field messages of `FieldErrors`; a success holds the parsed paise, trimmed category and user, the date unchanged and the description or "" |
| Validators.ValidatedWithinBounds | backend/src/validators.ts:106-112 | a normalised expense has category and user of trimmed length 1..50, a description of at most 200, a real date, and the paise `parsePaise` gives |
| Validators.TestBodyValidates | backend/src/tests/expenses.test.ts:19-43 | the tests' body normalises to 19950 paise, "Food", "Lunch", "2025-03-15", "alice" |
| Validators.NegativeAmountRejected | backend/src/tests/expenses.test.ts:117-127 | "-10.00" is reported on amount with the format message |
| Validators.MissingAmountRejected | backend/src/tests/expenses.test.ts:104-115 | a missing amount is reported as required |
| Validators.DayFirstDateRejected | backend/src/tests/expenses.test.ts:129-139 | "15-03-2025" is reported on date as badly formatted |
| Validators.February30Rejected | backend/src/tests/expenses.test.ts:141-151 | "2025-02-30" is reported on date as not a calendar date |
| Validators.LongDescriptionRejected | backend/src/tests/expenses.test.ts:165-175 | a 201-character description is reported on description |
| Validators.ErrorsAreCollected | backend/src/validators.ts:32-104 | a body missing amount, category and user gets all three reported at once, and no other field |
| Db.FindByKey | backend/src/routes/expenses.ts:12-14 | the lookup finds a row exactly when the key is stored; the row it returns is one of the table's rows, and in a consistent table it carries the key |
| Db.FindByKeyIsStoredRow | backend/src/routes/expenses.ts:12-14 | in a consistent table the lookup returns exactly the row stored under the key |
| Db.Insert | backend/src/db.ts:4-13 | the insert creates a row exactly when there is no fault, the amount is non-negative and the key is new; with a stored key it is a DuplicateKey; a created row gets the next id and nothing else changes |
| Db.InsertPreservesConsistent | backend/src/db.ts:6-12 | a committed insert keeps keys unique, amounts non-negative and ids exactly 1..n, and its id is above every earlier id |
| ExpenseRoutes.FormatExpense | backend/src/routes/expenses.ts:63-72 | the reply carries the row's id, paise, category, description, date and creation time unchanged |
| ExpenseRoutes.KeyMissing | backend/src/routes/expenses.ts:18-19 | the header counts as missing exactly when it is not a string with a non-whitespace character |
| ExpenseRoutes.Handle | backend/src/routes/expenses.ts:16-59 | the outcome in each case. A bad key gives 400 MISSING_IDEMPOTENCY_KEY. A failed validation gives 400 with the validator's error. A storage fault is thrown. A stored key gives 200 with the stored row. A new key gives 201 with a row holding the next id, and exactly that row is added. Only the 201 case changes the table |
| ExpenseRoutes.Post | backend/src/routes/expenses.ts:16-33 | an expense is only ever answered for a usable key and a body whose every field is accepted; an unusable key gets 400 MISSING_IDEMPOTENCY_KEY whatever the body; with a usable key, a refused body gets 400 with the validator's error, whose map lists exactly the failing fields, and the table is left alone |
| ExpenseRoutes.FormatHidesKey | backend/src/routes/expenses.ts:63-72 | the reply is the same whatever the row's idempotency key: the key is never echoed |
| ExpenseRoutes.FormatWithKeyIsFaithful | backend/src/routes/expenses.ts:63-72 | the reply plus the key determines the row: no other column is dropped |
| ExpenseRoutes.HandlePreservesStore | backend/src/db.ts:6-12 | every request keeps the table consistent and never changes a stored row; only a 201 changes the table |
| ExpenseRoutes.HandleAllPreservesStore | backend/src/db.ts:6-12 | after any sequence of requests there is still at most one row per key, with dense increasing ids and non-negative amounts, and no earlier row has changed |
| ExpenseRoutes.ReplayReturnsStoredRow | backend/src/routes/expenses.ts:49-57 | an accepted body under a stored key gets 200 with the stored row, whatever the new body holds, and the table is unchanged |
| ExpenseRoutes.NovelKeyCreatesRow | backend/src/routes/expenses.ts:35-48 | an accepted body under a new key gets 201 with a row holding the body's parsed paise, trimmed category, description or "", date, the clock reading, the key and the next id, and exactly that row is added |
| ExpenseRoutes.SecondSubmissionReplays | backend/src/tests/expenses.test.ts:45-63 | the same key twice gives 201 then 200 with the same body and id, and adds one row |
| ExpenseRoutes.ReplayConsumesNoId | backend/src/tests/expenses.test.ts:65-91 | for any successful validation, key A, key A again, then key B on an empty table gives B the id 2 |
| ExpenseForm.Validate | frontend/src/components/ExpenseForm.tsx:29-35 | returns the message of the first failing check, in order amount required, amount shape, category required, date required; returns nothing exactly when all pass |
| ExpenseForm.AmountCheckAgreesWithServer | frontend/src/components/ExpenseForm.tsx:31 | the form accepts a trimmed amount exactly when the server's `parsePaise` does |
| ExpenseForm.BuildPayload | frontend/src/components/ExpenseForm.tsx:48-53 | amount and category are the trimmed inputs, the date is passed as typed, and the description is its trimmed text, dropped exactly when it is all whitespace |
| ExpenseForm.PayloadIsTrimmed | frontend/src/components/ExpenseForm.tsx:48-53 | the payload's amount and category are trimmed, and a description it carries is trimmed and not blank |
| ExpenseForm.PayloadBody | frontend/src/api.ts:43 | the JSON body the server reads carries the payload's strings as given, has no description exactly when the payload has none, and never a user |
| ExpenseForm.AcceptedPayloadAmountParses | frontend/src/components/ExpenseForm.tsx:48-53 | the server accepts the amount of every payload the form sends, and reads the paise of the trimmed amount from it |
| ExpenseForm.FormPayloadLacksUser | frontend/src/components/ExpenseForm.tsx:48-53 | the payload has no user property, so the server refuses every form body with "user is required" |
| ExpenseForm.HandleSubmit | frontend/src/components/ExpenseForm.tsx:37-59 | a submit in flight does nothing; an invalid form only shows the message; a valid form records and sends a fresh key with the built payload |
| ExpenseForm.HandleRetry | frontend/src/components/ExpenseForm.tsx:61-64 | a retry in flight or with nothing pending does nothing; otherwise it resends the pending key and payload |
| ExpenseForm.FinishSend | frontend/src/components/ExpenseForm.tsx:66-85 | a settled send is no longer in flight; the pending submission is cleared exactly on success; a failure keeps it and the fields and shows an error |
| ExpenseForm.RetriesResendSameSubmission | frontend/src/components/ExpenseForm.tsx:61-64 | however many sends fail and are retried, each retry resends the submission recorded at submit time |
| ExpenseForm.RetryReusesKeyAndPayload | frontend/src/components/ExpenseForm.tsx:54-64 | a valid submit, a failure and a retry send the same key and payload twice |
| ExpenseForm.OnlySuccessClearsPending | frontend/src/components/ExpenseForm.tsx:72-81 | submit and retry never drop a pending submission, and settling drops it exactly on success |

## Left out

- Read path: `backend/src/routes/expenses.ts` registers only `POST /expenses`. The listing, filtering, sorting, summary and user queries the backend tests exercise have no implementation to model.
- Persisting `user`: the validator checks and normalises it, but the INSERT and the table have no user column. So the stored row has none.
- HTTP and process wiring: Fastify routing, `app.ts`, `server.ts`, `createDb`'s path resolution and pragmas, and the two indexes are I/O or performance details.
- Clock and key generation: `new Date().toISOString()` in the handler is the parameter `now`. `crypto.randomUUID()` in the form is the parameter `freshKey`.
- Storage faults: disk and driver failures are the parameter `io`. The model has no storage engine, so they cannot arise on their own.
- Concurrency: SQLite's check-and-insert is one atomic step. Interleavings of concurrent requests are not modelled.
- Number precision: `parsePaise` computes `whole * 100 + fractional` in IEEE-754 doubles. Once the result exceeds 2^53 paise (about 9 × 10^13 rupees), it is rounded even when the whole part was read exactly; "90071992547410.01" is such an amount. The model computes in unbounded naturals, so its results are the exact paise.
- Unpaired surrogates: a JSON string may hold a lone UTF-16 surrogate, but a Dafny `char` is a Unicode scalar value. Such strings are not modelled; every other string is, with `length` counting code units.
- Calendar.ParseUtcMidnight: it assumes the engine rolls days 29..31 past a month's end into the next month and rejects other out-of-range days. An engine that rejects all out-of-range days gives the same verdict; `RoundTripIsCalendarDay` holds either way.
- ExpenseForm.FinishSend: `onCreated()` is a callback into page code and is not modelled. A success leaves the previously shown error as it was, since `doSubmit` cleared it when the send started.
- React and browser I/O: rendering, hooks and the `maxLength` input attribute are left out. So are `savePending`/`clearPending` in localStorage, the fetch client and the UI primitives. React applies `setSubmitting` at the next render; the model applies every state update at once.
