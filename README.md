# Referral signup service — a verified model

The repository is a small Express server whose core is one handler,
`POST /signup`, backed by two sqlite tables (the other route, `GET /signup`,
only serves the form). A visitor submits a phone number and, optionally, the
referral code of the person who invited them. The handler does four things:

* it normalises the number to the `+1…` form;
* it refuses a number that is already signed up;
* it stores the new user with one giveaway entry and a freshly generated code;
* when the referral code belongs to an existing user, it gives that user one
  more entry, logs the referral and texts them their new count.

The answer is a link built from the new code.

The model has six modules:

* `Phone` (`phone.dfy`): the normaliser of `server.js` line 55 and its
  digit-stripping step, as pure functions with lemmas.
* `Store` (`store.dfy`): one row datatype per table (`User`, `Referral`) and
  three of the five SQL statements the handler runs, as functions on
  sequences of rows. These are the lookup by column (used by both SELECTs),
  the insert into `users` under the two UNIQUE constraints, and the
  `entries = entries + 1` update. The fifth, the insert into `referrals`, is
  an append to the edge sequence in `Signup.Registry.CreditReferrer`. The module also holds
  `Consistent`, the invariant the flow keeps: both columns are unique, every
  edge credits an existing code, and every user's entries equal 1 plus the
  number of edges crediting their code.
* `Notify` (`notify.dfy`): the text-message request of line 94. It covers
  the decimal rendering of the count and a parser that reads the count back.
* `Signup` (`signup.dfy`): class `Registry` holds the two tables as fields.
  Its `Signup` method is the handler, and `InsertUser` and `CreditReferrer`
  are its two database callbacks. Each method states the new tables in
  terms of the old ones and keeps `Consistent`.
* `Scenarios` (`scenarios.dfy`): end-to-end flows, each stated for all inputs
  of its shape. Most start from a fresh database and use ten-digit numbers
  and distinct codes; `SelfReferral` takes any non-empty number, and
  `RepeatRefused` starts from any consistent database.
* `Wrappers` (`wrappers.dfy`): the `Option` datatype.

Inputs the handler takes from its environment are parameters:

* `freshCode` is the generator's output.
* `newUserId` is the value the handler binds as the edge's new-user id.
* `Faults` says which storage calls report an error.

The handler reads `this.lastID` inside an arrow function, so that value is
lexical `this` and not the statement's row id. The model carries it without
interpreting it.

Behaviour of the handler worth noting:

* An input that already starts with `+1` is stored verbatim, punctuation
  included (`Phone.NormalizeKeepsPrefixedPunctuation`). So `+1-555-123-4567`
  and `5551234567` are different users.
* A generated code that collides with an existing one fails the signup with
  "Error signing up". There is no retry.
* The message reports the count read before the update, plus one. In a
  single request this is the count after the update (`Notify.Reports` in
  the `Signup` contract).
* The referrer is looked up after the insert. A request whose `ref` is the
  code generated for that same request therefore credits the new user
  (`Scenarios.SelfReferral`).

## Model

| member | source | states |
|---|---|---|
| `Phone.DigitsOf` | server.js:55 | `replace(/\D/g, '')` leaves only ASCII digits and never lengthens the string |
| `Phone.DigitsOfCounts` | server.js:55 | each digit survives as often as it occurs in the input; no non-digit survives |
| `Phone.DigitsOfConcat` | server.js:55 | stripping works piecewise over concatenation, so digits keep their order |
| `Phone.DigitsOfFixed` | server.js:55 | stripping leaves a string unchanged exactly when it is all digits |
| `Phone.Normalize` | server.js:55 | the result always starts with `+1`; a `+1…` input is returned unchanged; any other input becomes `+1` followed by digits only |
| `Phone.NormalizeUnprefixed` | server.js:55 | an unprefixed input becomes `+1` followed by exactly its digits in order |
| `Phone.NormalizeIdempotent` | server.js:55 | normalising twice equals normalising once |
| `Phone.NormalizeCanonical` | server.js:55 | any ten digits, bare or with `+1`, normalise to the same `+1`-prefixed string |
| `Phone.NormalizeExampleBare` | server.js:54-55 | the sample number `"1234567890"` becomes `"+11234567890"` |
| `Phone.NormalizeExamplePrefixed` | server.js:54-55 | the sample number `"+11234567890"` is kept as it is |
| `Phone.DigitsOfJoin` | server.js:55 | a non-digit between two digit runs is dropped |
| `Phone.NormalizeDropsSeparators` | server.js:55 | `ddd-ddd-dddd` with any non-digit separator becomes `+1` and the ten digits |
| `Phone.NormalizeKeepsPrefixedPunctuation` | server.js:55 | `"+1-555-123-4567"` is stored verbatim and differs from `"+15551234567"` |
| `Store.SelectWhere` | server.js:58 | the lookup by column returns a matching row (the first one) or none; none exactly when no row matches |
| `Store.SelectUnique` | server.js:30-31 | under a UNIQUE column the lookup finds the one row holding the value |
| `Store.Insert` | server.js:68-72 | the insert fails exactly when the number or the code is already present; otherwise it appends the row |
| `Store.InsertKeepsUnique` | server.js:28-34 | a successful insert keeps each UNIQUE constraint |
| `Store.DistinctCodes` | server.js:31 | under the UNIQUE constraint on `referral_code`, two different rows hold different codes |
| `Store.IncrementEntries` | server.js:82 | the update adds one entry to every row holding the code and leaves every other row as it was |
| `Store.IncrementOneRow` | server.js:82 | with unique codes, the update changes exactly the found row, by exactly one entry |
| `Store.IncrementNoRow` | server.js:80-82 | an unknown code changes no row |
| `Store.TotalEntriesBump` | server.js:81-82 | crediting a row raises the total of all entries by exactly one |
| `Store.TotalEntriesAppend` | server.js:68-70 | a new row adds its own entries to the total |
| `Store.ReferralsOfAbsent` | server.js:85 | a code no edge names has no referrals |
| `Store.GrowsTransitive` | server.js:82 | "no row lost, number and code kept, entries not decreased" composes across steps |
| `Store.EmptyConsistent` | server.js:27-44 | the empty tables satisfy the invariant |
| `Store.InsertKeepsConsistent` | server.js:68-72 | inserting a new user with one entry keeps the invariant |
| `Store.SameKeys` | server.js:82 | changing only entries keeps every lookup's answer and both UNIQUE constraints |
| `Store.CreditKeepsConsistent` | server.js:82-85 | one more entry for a user plus one edge naming their code keeps the invariant |
| `Store.CreditByCode` | server.js:78-85 | for an existing code, the update bumps exactly the found row, keeps the invariant with the new edge, and grants one entry in total |
| `Notify.Decimal` | server.js:94 | the rendered count is one or more digits with no leading zero |
| `Notify.DecimalRoundTrip` | server.js:94 | parsing the rendered digits gives back the number |
| `Notify.NotificationBody` | server.js:94 | the body is the fixed sentence whose count slot holds the pre-read entries plus one, written in decimal with no leading zero as the template literal renders it |
| `Notify.NotificationBodyInjective` | server.js:94 | different counts give different bodies |
| `Signup.Credits` | server.js:77-80 | a referrer is credited exactly when a non-empty code was given, its lookup did not fail, and some row of the table as it is after the insert (the new user's row included) holds that code |
| `Signup.ReferralLink` | server.js:116 | the link is the fixed base followed by the new code, which can be read back |
| `Signup.ReferralLinkInjective` | server.js:116 | different codes give different links |
| `Signup.Registry.constructor` | server.js:27-44 | both tables start empty and consistent |
| `Signup.Registry.InsertUser` | server.js:68-72 | the insert succeeds exactly when number and code are free; on success one row with one entry is appended; referrals are unchanged |
| `Signup.Registry.CreditReferrer` | server.js:78-94 | a known code gets exactly one more entry on its row and one edge; other rows are untouched; the message goes to that user's number with the pre-read count plus one; an unknown code changes nothing |
| `Signup.Registry.Signup` | server.js:47-122 | a missing number (`PhoneMissing`: absent or `""`, as `!phone_number`), lookup error, duplicate number, insert failure and code collision each give their message and leave both tables alone; success appends the normalised user with one entry and answers `entries: 1` with the link; a known `ref` (`RefGiven`: present and not `""`, as `if (ref)`) credits exactly one user and appends one edge; an unknown, absent or empty `ref` changes nothing; entries never decrease; the total grows by one per user and one per edge; the message reports the referrer's current count |
| `Scenarios.FirstSignup` | server.js:55-70 | a first ten-digit signup stores `+1` and the digits with one entry |
| `Scenarios.MissingNumber` | server.js:50-52 | a request without a number answers "Phone number required" and stores no user and no referral |
| `Scenarios.ReferredSignup` | server.js:77-94 | a signup referred by the first user leaves that user with two entries and one edge, and texts them a count of 2 |
| `Scenarios.UnknownReferral` | server.js:77-80 | an unknown code still signs up the user, with no edge and no entries changed |
| `Scenarios.SelfReferral` | server.js:68-85 | a `ref` equal to the request's own generated code credits the new user, while the response still says one entry |
| `Scenarios.RepeatRefused` | server.js:58-62 | after a successful signup, any number that normalises the same way, such as `5551234567` after `+15551234567`, is refused as already signed up; across both requests `users` gains exactly one row (the first number, normalised, with the first code), no existing row loses entries or changes key, and `referrals` gains at most one edge |

## Left out

- Express plumbing: middleware, static files, `GET /signup` (server.js:10-13, 125-129). HTTP status codes and JSON encoding are also out; responses are the `Response` datatype.
- SQL text, table creation, row ids and `created_at` defaults (server.js:16-44). The tables are sequences of rows in insertion order.
- Concurrency between requests and the atomicity of the `UPDATE`. Each request is one step on the state.
- `shortid.generate()` (server.js:65) is a source of randomness. Its output is the `freshCode` parameter, and nothing forces it to be non-empty.
- The value bound as the edge's new-user id (server.js:74) is the `newUserId` parameter. The model does not claim it equals the new row's id.
- The SlickText call (server.js:87-108): the network, the credentials and the swallowed failure. Only the request the handler builds, `Notify.Sms`, is modelled.
- The order of events after the insert: the response is sent before the referral callbacks complete. The model applies the referral effects within the same step, and the response does not depend on them.
- Errors from the `UPDATE` and from the referral `INSERT` (server.js:82, 85). The handler passes no callback to either and does not handle their errors. The model treats both as succeeding.
- A request body whose `phone_number` or `ref` is not a string (a JSON number or array). For such a `phone_number`, `startsWith` at server.js:55 throws. Such a `ref` passes `if (ref)` when truthy and is bound as-is into the lookup at server.js:78. The model takes both fields as optional strings.
- Integer width: entries are unbounded. sqlite's 64-bit column and the rendering of very large JavaScript numbers are not modelled.
