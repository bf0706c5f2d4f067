# Item store of the DevOps portfolio API, in Dafny

This project models the one part of the Express service in `src/index.js` that has logic of its own:

- the `validateItem` check on a submitted `{name, description}` body;
- the in-memory `items` collection;
- the five item handlers (list, get by id, create, update, delete), with the HTTP layer stripped away.

A handler takes three inputs: the id parsed from the path, the request body, and the current time. It answers with an `Outcome`:

- `Ok(item)` is sent with 200;
- `Created(item)` is sent with 201;
- `NotFound(id)` is sent with 404;
- `ValidationFailed(details)` is sent with 400.

Files:

- `wrappers.dfy`: `Option`.
- `text.dfy` (module `Text`): JavaScript's `String.prototype.trim`. It removes the ECMAScript white-space and line-terminator code points from both ends.
- `validation.dfy` (module `Validation`): `validateItem` as a pure function. Each field gets at most one error, chosen by priority: missing or not a string, then too short, then too long. The trimmed-length bounds are 3..100 for `name` and 5..500 for `description`.
- `item_store.dfy` (module `ItemStore`): the `Item` record and the `Outcome` type. It also holds the first-match search that `find`/`findIndex` perform, and the `max(ids, 0) + 1` id rule. The class `Store` holds the `items` sequence, which its methods reassign the way the handlers mutate the array (`push`, indexed assignment, `splice`). Its invariant `Valid()` says that ids are unique and that every record is trimmed and within the validation bounds. The constructor establishes it from the two seed records, and every handler preserves it.
- `scenarios.dfy` (module `Scenarios`): client methods that use only the handlers' contracts. `ListSeeded`, `GetCases`, `CreateValid` and `CreateInvalid` walk through the item cases of `src/__tests__/api.test.js`. `UpdateThenDelete`, `IdResetsWhenEmpty` and `IdReusedAfterMaxDeleted` show further behaviour the handlers promise: an update followed by a delete, the next id dropping back to 1 once every record is deleted, and an id handed out again after the record holding the largest id is deleted.

Inputs the model takes as parameters:

- Time: `new Date().toISOString()` becomes the `now` parameter.
- Path id: `parseInt(req.params.id)` becomes an `Option<int>`, where `None` stands for `NaN`. `NaN` equals nothing under `===`, so `None` finds nothing.
- Body fields: each field is `Absent` (undefined or null), `Str(s)`, or `NonString` (any other JSON value).

`!data.name` is true for exactly one string, the empty string. So `Str("")` gets the "is required" error, while a string of spaces passes that test and then fails the length check.

Ids are not reserved. Create takes the largest stored id plus one, so deleting the record with the largest id lets the next create reuse that id (create 3, delete 3, create answers 3 again).

The code accepts a trimmed length of exactly 100 for `name` and exactly 500 for `description`, because its tests are `> 100` and `> 500`. The error message, however, says "less than 100/500". The model follows the code: the bounds are inclusive and the message texts are kept as written.

## Model

| member | source | states |
|---|---|---|
| Text.TrimStart | src/index.js:36 | what is left after dropping leading white space is no longer than the input and does not start with white space |
| Text.TrimEnd | src/index.js:38 | what is left after dropping trailing white space is no longer than the input and does not end with white space |
| Text.TrimStartIsSuffix | src/index.js:36 | the leading trim keeps a suffix of the input and drops only white space |
| Text.TrimEndIsPrefix | src/index.js:38 | the trailing trim keeps a prefix of the input and drops only white space |
| Text.Trim | src/index.js:36-38 | `trim()` leaves a string with no white space at either end, no longer than the input |
| Text.TrimSplit | src/index.js:36-38 | the input is white space, then the trimmed string, then white space; the trimmed string is empty exactly when the input is all white space |
| Text.TrimmedIsFixpoint | src/index.js:139-140 | a string with no white space at either end is unchanged by `trim()` |
| Text.TrimIdempotent | src/index.js:139-140 | trimming twice gives the same as trimming once, so a stored (already trimmed) field trims to itself |
| Validation.CheckField | src/index.js:34-40 | a field gets no error exactly when it is a non-empty string whose trimmed length is within [min, max], both ends included; otherwise it gets exactly one error, chosen in priority order: "is required", then "at least", then "less than" |
| Validation.ValidateItem | src/index.js:31-54 | `isValid` holds exactly when the error list is empty, and exactly when both the name and the description rule accept their field; the list has at most two entries |
| Validation.MessagesDisjoint | src/index.js:35-47 | no message of the name rule is a message of the description rule |
| Validation.FieldsIndependent | src/index.js:34-48 | the name messages in the error list are exactly the name's own error, whatever the description is, and the same holds for the description |
| Validation.ErrorOrder | src/index.js:34-48 | every error is one of the six messages; a name error is first, a description error is last, and with two errors the name's comes before the description's; an accepted field contributes no message |
| Validation.ShortNameReported | src/index.js:36-37 | a non-empty name whose trimmed length is below 3 makes the body invalid, with "name must be at least 3 characters" as `errors[0]` |
| Validation.MissingNameReported | src/index.js:34-35 | a missing, non-string or empty name puts "name is required and must be a string" first and no other name error |
| Validation.MissingDescriptionReported | src/index.js:42-43 | a missing, non-string or empty description puts "description is required and must be a string" last and no other description error |
| ItemStore.IndexOf | src/index.js:109 | the first index whose record has the requested id, or none exactly when no record has it; a `NaN` id matches nothing |
| ItemStore.FindIndex | src/index.js:156 | the linear search answers the first matching index, or -1 exactly when there is no match |
| ItemStore.MaxId | src/index.js:138 | `Math.max(...ids, 0)` is at least 0 and at least every id, and it is 0 or one of the ids |
| ItemStore.NextIdFresh | src/index.js:137-144 | the id create assigns is greater than every stored id, so appending the new record keeps ids unique |
| ItemStore.Status | src/index.js:99-205 | the status each handler sends, each exactly for its outcome: 200 for Ok, 201 for Created, 404 for NotFound, 400 for ValidationFailed; a 2xx status is sent exactly for the success outcomes |
| ItemStore.LookupOwnId | src/index.js:107-125 | with unique ids, a lookup of a stored record's id finds exactly that record |
| ItemStore.AppendKeepsValid | src/index.js:144 | appending a well-formed record with an id above all stored ids keeps the store invariant |
| ItemStore.ReplaceKeepsValid | src/index.js:175-180 | replacing a record by a well-formed one with the same id keeps the store invariant |
| ItemStore.AcceptedBodyWellFormed | src/index.js:137-142 | the trimmed fields of an accepted body are trimmed and within the validation bounds |
| ItemStore.StoredItemRevalidates | src/index.js:175-180 | a stored record's name and description, sent back as a body, pass validation with no errors and trim to themselves |
| ItemStore.RemoveAtForgetsId | src/index.js:202 | splicing out the record at an index keeps ids unique and leaves no record with that id, so a later lookup is not found |
| ItemStore.Store.constructor | src/index.js:25-28 | the store starts with the two seed records (ids 1 and 2, no timestamps) and satisfies the invariant |
| ItemStore.Store.List | src/index.js:96-105 | list answers every record in order and their count, and the ids in the answer are unique |
| ItemStore.Store.Get | src/index.js:107-125 | get answers the first record with the id, or not-found echoing the id exactly when no record has it |
| ItemStore.Store.Create | src/index.js:127-152 | create with an invalid body answers the validation errors and leaves the store unchanged; with a valid body it appends one record, leaving the earlier records unchanged and in order; the record gets id `max(ids, 0) + 1`, which is above every earlier id, the trimmed fields, `createdAt = now` and no `updatedAt`; the invariant is kept |
| ItemStore.Store.Update | src/index.js:154-188 | update checks not-found before validation; not-found and invalid bodies leave the store unchanged; otherwise only the found record changes: it gets the trimmed fields and `updatedAt = now`, keeps its id and `createdAt`, and is answered; the length and the invariant are kept |
| ItemStore.Store.Delete | src/index.js:190-210 | delete of an absent id answers not-found and leaves the store unchanged; otherwise it answers the record exactly as it was and removes exactly that one, keeping the others in order; the length drops by one and a later lookup of the id finds nothing |

## Left out

- Express setup, CORS, body parsing and the request-logging middleware (src/index.js:6-22): framework configuration and console output.
- The error middleware (src/index.js:57-73): it reacts to exceptions thrown by the framework and to the environment name. It holds no store logic. It is registered before every route (src/index.js:77-210), and Express passes an error only to error middleware registered after the layer that threw. So an exception raised inside an item handler never reaches it: Express's built-in final handler answers 500 instead, without the app's `{success:false, error:"Internal server error"}` JSON.
- The `console.log` calls inside the item handlers (src/index.js:97, 119, 145, 182, 203): console output only.
- The `/health` and `/ready` probes (src/index.js:77-92): they only read the clock, the process uptime and the environment.
- The catch-all 404 handler (src/index.js:213-220): it depends on Express route matching.
- Server start-up and SIGTERM handling (src/index.js:223-244): I/O and process lifecycle.
- The `parseInt` parse of the path segment: it is a library call. The model takes its result as `Option<int>`, so leading-digit parsing such as "12abc" becoming 12 is not modelled.
- The timestamp values: `new Date().toISOString()` is a clock read and becomes the `now` parameter.
- The response envelope fields `success`, `message` and the `error` strings ("Item not found", "Validation failed"): fixed per outcome and carrying no logic. The model keeps the outcome kind, the echoed id, the details list and the status code.
- Text.Trim: lengths are counted in Unicode code points. JavaScript's `length` counts UTF-16 code units, so a character outside the Basic Multilingual Plane counts once here and twice in the source. A JSON string may also carry an unpaired surrogate (`"\uD800"`). JavaScript keeps it as a string of `length` 1, but a Dafny `char` cannot hold a surrogate code point. So names and descriptions containing one cannot be written as `Field.Str` at all, and the model says nothing about them.
- ItemStore.MaxId: `Math.max(...ids)` throws a RangeError when the id array is too large to spread as arguments. The model has no such limit.
- Validation.ValidateItem: a request with no body at all (`req.body` undefined) would throw inside `validateItem`. Because the app's error middleware is registered before the routes, that exception goes to Express's built-in final handler, which answers 500 without the app's JSON shape. The model always receives a body. This rests on the assumption that `express.json()` sets `req.body` to `{}` when there is none, which Express 4's body parser does; `src/index.js` does not pin the Express version.
- Numbers: ids are unbounded integers. JavaScript numbers lose precision above 2^53, which the model does not capture.
