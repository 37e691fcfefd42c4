# Bug tracker core in Dafny

This project models the core of a small issue tracker's bug service in Dafny and proves properties of that model. The pieces are:

- the field validator, `validateBugInput` in full and partial mode and `validateBugStatus`;
- the Mongoose schema of a bug record, with its `trim` setters, required and length validators, enums, defaults and timestamps;
- the five request handlers of the bug controller, over a store that stands for the Mongo collection;
- the Express `notFound` and `errorHandler` middleware;
- the client's `bugReducer`, together with its `initialState`.

Files:

- `wrappers.dfy`: `Option`.
- `validation.dfy`: module `Validation` models `server/utils/validation.js`. It represents a JSON field as `Absent` (undefined), `Str(s)`, or `Other(truthy)` for any other JSON value. JavaScript's `trim` and `length` are written out: whitespace is the ECMAScript set, and length counts UTF-16 code units. `FieldOk` states each field's rule independently of the validator's chain of early returns. The lemmas connect the two: the validator passes exactly when no checked field fails, and it reports exactly the first failing field.
- `bug_model.dfy`: module `BugModel` models `server/models/Bug.js`. `Create` is `Bug.create` and `Patch` is `findByIdAndUpdate` with `runValidators`. Both run the setters and then the validators; `None` stands for Mongoose's validation error. `WellFormed` is the schema invariant of every stored record.
- `bug_controller.dfy`: module `BugController` models `server/controllers/bugController.js`.
  - The class `BugStore` holds `records: map<Id, Bug>`, the next fresh id and an abstract clock. Each handler is a method that returns how it ends: `Sent(status, body)`, or `Thrown(statusCode, message)` with the status code the handler had set.
  - `CollectUpdate` builds `updateData` field by field, as the handler does.
  - The invariant `Valid()` says every stored record is `WellFormed`, is stored under its own id, and was issued an id below the counter. Every handler preserves it.
- `error_handler.dfy`: module `ErrorHandler` models `server/middleware/errorHandler.js`. `NotFound` is `notFound` and `Respond` is `errorHandler`. The response is a record, and `NODE_ENV` is a parameter.
- `bug_context.dfy`: module `BugContext` models the reducer of `client/debug/src/context/BugContext.jsx`. `BugReducer` is `bugReducer`, `InitialState` is `initialState`, and `ReplaceById` and `RemoveById` are its `map` and `filter`.
- `client_sync.dfy`: module `ClientSync` connects the reducer to the handlers, taking the listing order to be ascending id. Suppose the client list equals what `getBugs` returns. Applying a handler's successful reply to it then gives what `getBugs` returns after that handler.

Three behaviours of the code are worth knowing, and the model keeps them as written:

- **Update validation mode.** The update handler validates the merged record in partial mode (server/controllers/bugController.js:85), although the comment above it (lines 82-83) speaks of re-validating the combined data. `UpdateCheckIsFullCheck` shows this makes no difference: the merged record has every field defined.
- **Unreachable defaults.** The schema defaults `open` and `medium` (server/models/Bug.js:24 and 29) are never reached through the create handler. Full-mode validation refuses a body without status or priority first, with 400 (server/utils/validation.js:30-40; `CreateWithoutStatusRefused`, `CreateNeverDefaults`).
- **Whitespace-only description.** A description made only of whitespace passes the validator, which tests the untrimmed string for emptiness (server/utils/validation.js:25). The schema's `required` validator then refuses the trimmed empty string (server/models/Bug.js:17-18), and the error surfaces as a 500 (`SchemaAfterValidator`, `WhitespaceDescriptionIsServerError`).

## Model

| member | source | states |
|---|---|---|
| Validation.JsLength | server/utils/validation.js:19 | `.length` counts UTF-16 code units, between one and two per character |
| Validation.JsLengthOfBmp | server/utils/validation.js:19 | on a string with no character above U+FFFF, `.length` is the number of characters |
| Validation.TrimStart | server/utils/validation.js:19 | the result is no longer than the input and does not start with whitespace |
| Validation.TrimEnd | server/utils/validation.js:19 | the result is no longer than the input, keeps its first character and does not end with whitespace |
| Validation.TrimStartDropsWhitespace | server/utils/validation.js:19 | `trimStart` removes a prefix, and that prefix is all whitespace |
| Validation.TrimEndDropsWhitespace | server/utils/validation.js:19 | `trimEnd` removes a suffix, and that suffix is all whitespace |
| Validation.Trim | server/utils/validation.js:19 | `trim` leaves no whitespace at either end and never lengthens |
| Validation.TrimEmptyIff | server/utils/validation.js:43 | `trim` gives the empty string exactly on strings made only of whitespace |
| Validation.TrimFixesTrimmed | server/models/Bug.js:11 | a string with no whitespace at its ends is its own trim, so trimming twice changes nothing |
| Validation.ValidateBugInput | server/utils/validation.js:15-49 | the result is a pass or one of the five field messages |
| Validation.ValidateBugStatus | server/utils/validation.js:56-61 | passes exactly on the four statuses, and otherwise fails with the "Invalid status." message |
| Validation.RejectedIffNotOk | server/utils/validation.js:19-43 | each field's guard fires exactly when the value breaks that field's rule |
| Validation.FailsIffGuardFires | server/utils/validation.js:18-46 | a field fails exactly when it is checked in this mode and its guard fires |
| Validation.ReportsFirstFailure | server/utils/validation.js:18-46 | the validator reports field f's message exactly when f is the first failing field in the order title, description, status, priority, reporter |
| Validation.PassesIffNoFailure | server/utils/validation.js:15-49 | the validator passes exactly when no checked field fails |
| Validation.FullModeAccepts | server/utils/validation.js:15-49 | full mode passes iff title trims to 3..100 units, description is non-empty and trims to at most 500, status and priority are in their lists, and reporter trims to 1..50 |
| Validation.FullPassFieldsOk | server/utils/validation.js:15-49 | a full-mode pass means every field meets its rule |
| Validation.PartialEmptyPasses | server/utils/validation.js:18-48 | partial mode checks no undefined field, so an empty body passes |
| Validation.FullImpliesPartial | server/utils/validation.js:18-48 | whatever passes full mode passes partial mode |
| Validation.PartialIsFullWhenComplete | server/utils/validation.js:18-48 | on a body with every field defined, partial and full mode give the same result |
| Validation.LetterRun | server/utils/validation.js:19 | a run of a letter is its own trim and its length is the run's length |
| Validation.TitleBounds | server/utils/validation.js:19 | a title of n letters is accepted iff 3 <= n <= 100, so 3 and 100 pass and 2 and 101 fail |
| Validation.ReporterBounds | server/utils/validation.js:43 | a reporter of n letters is accepted iff 1 <= n <= 50, so 50 passes and 51 fails |
| Validation.TrimStartPadded | server/utils/validation.js:19 | `trimStart` removes exactly a whitespace prefix in front of a non-whitespace character |
| Validation.TrimEndPadded | server/utils/validation.js:19 | `trimEnd` removes exactly a whitespace suffix after a non-whitespace character |
| Validation.TrimPadded | server/utils/validation.js:19 | `trim` removes exactly the whitespace around a string with none at its ends |
| Validation.TitlePaddingIgnored | server/utils/validation.js:19 | whitespace around a title does not count toward its length bounds |
| Validation.WhitespaceReporterRejected | server/utils/validation.js:43 | a reporter made only of whitespace is rejected |
| Validation.DescriptionLowerBound | server/utils/validation.js:25 | "" is rejected as a description, but a non-empty whitespace-only one of any length is accepted, since only the trimmed length is capped |
| Validation.EnumsAreCaseExact | server/utils/validation.js:31-37 | "Open" and "HIGH" are rejected and "open" and "high" accepted, by both validators |
| BugModel.EnumsAgree | server/models/Bug.js:23-28 | the schema's enums list the same words as the validator's lists |
| BugModel.WellFormed | server/models/Bug.js:6-41 | the schema invariant of a stored record: every trimmed path holds its trimmed value, every path passes its required, length and enum validators, and createdAt <= updatedAt |
| BugModel.SetPath | server/models/Bug.js:8-36 | a value the schema accepts is the trimmed input where the path trims, and it is storable |
| BugModel.InitPath | server/models/Bug.js:21-30 | an undefined path takes its default, and whatever is stored is storable |
| BugModel.Create | server/models/Bug.js:6-41 | a created record is well-formed, carries the new id, and has createdAt = updatedAt = now |
| BugModel.CreateSucceedsIff | server/models/Bug.js:6-41 | creation succeeds exactly when every path accepts its value or default |
| BugModel.Patch | server/models/Bug.js:6-41 | a patch succeeds iff every supplied path accepts its value; the result is well-formed, keeps the id and createdAt, and sets updatedAt to now |
| BugModel.AsInput | server/controllers/bugController.js:84 | `bug.toObject()` presents every field of the stored record, as a defined string |
| BugModel.PatchTouchesOnlySupplied | server/controllers/bugController.js:91-95 | a patch rewrites exactly the supplied fields, to their trimmed values where the path trims, and keeps every other field |
| BugModel.CreateStoresInput | server/controllers/bugController.js:40-48 | a created record stores each supplied field through its setter and the default for an undefined enum |
| BugModel.CreateAppliesDefaults | server/models/Bug.js:24-29 | with status and priority undefined, a record is created with `open` and `medium` |
| BugModel.AcceptedValueStores | server/models/Bug.js:8-36 | a value the validator accepts is accepted by the schema, except a whitespace-only description |
| BugModel.AcceptedLengthStores | server/models/Bug.js:8-14 | a title or reporter the validator accepts passes the schema's required and length checks |
| BugModel.AcceptedDescriptionStores | server/models/Bug.js:15-20 | an accepted description is stored unless it is only whitespace, which `required` refuses after trimming |
| BugModel.AcceptedEnumStores | server/models/Bug.js:21-30 | a status or priority the validator accepts is in the schema's enum |
| BugModel.SchemaAfterValidator | server/controllers/bugController.js:34-48 | after a full-mode pass, creation fails exactly when the description is only whitespace |
| BugModel.StoredRecordValid | server/models/Bug.js:6-41 | every well-formed record, as a plain object, passes full-mode validation |
| BugController.InsertKeepsStoreOk | server/controllers/bugController.js:42-48 | inserting a well-formed record under the next id keeps the store invariant |
| BugController.ReplaceKeepsStoreOk | server/controllers/bugController.js:91-95 | replacing a stored record with a well-formed one keeps the store invariant |
| BugController.RemoveKeepsStoreOk | server/controllers/bugController.js:111 | removing a record keeps the store invariant |
| BugController.Listing | server/controllers/bugController.js:12 | `Bug.find({})` over the ids issued so far: at most one entry per id below the counter (order assumed ascending, see Left out) |
| BugController.ListingSound | server/controllers/bugController.js:12 | the listing holds every stored record, each under its own id, in strictly ascending id order |
| BugController.Supplied | server/controllers/bugController.js:68-80 | `updateData` holds exactly the fields that are not undefined, with the body's values |
| BugController.Overlay | server/controllers/bugController.js:84 | `{ ...bug.toObject(), ...updateData }`: each field is the supplied value if there is one, else the stored value |
| BugController.UpdateCheck | server/controllers/bugController.js:71-89 | the update's validation decision: a supplied invalid status fails first, otherwise the merged record is validated in partial mode |
| BugController.SameFieldsIsSupplied | server/controllers/bugController.js:68-80 | any map holding exactly the defined fields of the body is `updateData` |
| BugController.CollectUpdate | server/controllers/bugController.js:67-80 | the status check fails iff a status is supplied outside the enum, with the "Invalid status." message; otherwise the map built holds exactly the supplied fields |
| BugController.CollectedCheck | server/controllers/bugController.js:67-89 | what `CollectUpdate` reports decides the update as the status pre-check followed by the merged validation does |
| BugController.StatusCheckedFirst | server/controllers/bugController.js:71-76 | a supplied invalid status gives the "Invalid status." failure whatever else the body holds |
| BugController.OverlayComplete | server/controllers/bugController.js:84 | the stored record overlaid with the supplied fields has every field defined |
| BugController.UpdateCheckIsFullCheck | server/controllers/bugController.js:84-85 | once the status pre-check passes, the partial-mode check of the merged record equals the full-mode check |
| BugController.EmptyUpdatePasses | server/controllers/bugController.js:67-95 | an update supplying no field passes and rewrites only updatedAt |
| BugController.CreateNeverDefaults | server/controllers/bugController.js:34-48 | a body that passes create's validation supplies status and priority, and they are stored as given |
| BugController.CreateWithoutStatusRefused | server/controllers/bugController.js:34-38 | a create body without status is refused, with the status message when title and description are valid |
| BugController.WhitespaceDescriptionIsServerError | server/controllers/bugController.js:42-48 | a valid body with a whitespace-only description is refused by the schema and reported as 500 |
| BugController.ResolveAccepted | server/controllers/bugController.js:67-89 | an update setting status "resolved" passes both checks on any stored record |
| BugController.ResolveWritesStatus | server/controllers/bugController.js:91-95 | that update writes the status and updatedAt and nothing else |
| BugController.BugStore.constructor | server/models/Bug.js:43 | an empty collection satisfies the invariant |
| BugController.BugStore.GetBugs | server/controllers/bugController.js:11-14 | 200 with exactly `Listing(records, nextId)`: every stored record, each as stored, in ascending id order (an assumed order, see Left out); the store is untouched |
| BugController.BugStore.GetBugById | server/controllers/bugController.js:19-28 | the stored record with 200, or 404 "Bug not found" on an unknown id |
| BugController.BugStore.CreateBug | server/controllers/bugController.js:33-51 | 400 with the validator's message and no change on a failed check; a thrown schema error with the status unset and no change when the schema refuses; otherwise 201 with the new record under a fresh id and no other record changed |
| BugController.BugStore.UpdateBug | server/controllers/bugController.js:56-98 | 404 on an unknown id; 400 with the status pre-check's or the merged validation's message and no change; a thrown schema error with no change; otherwise 200 with the patched record, written under its id, and no other record changed |
| BugController.BugStore.UpdateRecord | server/controllers/bugController.js:67-97 | the update handler once the record is found, with the same outcomes |
| BugController.BugStore.Replace | server/controllers/bugController.js:91-97 | writes the updated record under its id, ticks the clock and replies 200 with it |
| BugController.BugStore.DeleteBug | server/controllers/bugController.js:103-114 | 404 on an unknown id; otherwise exactly that id is removed and the reply is 200 "Bug removed" |
| ErrorHandler.NotFound | server/middleware/errorHandler.js:5-9 | `notFound` sets 404 and forwards an error whose message is "Not Found - " followed by the URL |
| ErrorHandler.Respond | server/middleware/errorHandler.js:12-23 | the status is never 200, any status other than 200 is kept, the message is the error's, and the stack is withheld exactly in production |
| ErrorHandler.UnsetStatusIsServerError | server/middleware/errorHandler.js:14 | an error thrown before any status was set is sent as 500 |
| ErrorHandler.UnmatchedRoute | server/middleware/errorHandler.js:5-9 | an unmatched route ends as 404 with "Not Found - " and the URL |
| BugContext.BugReducer | client/debug/src/context/BugContext.jsx:16-51 | for every known action, the new state is loading exactly on a request and has an error exactly on a failure, the failure's message; only the success actions change the list |
| BugContext.ReplaceById | client/debug/src/context/BugContext.jsx:31-33 | same length; each entry with the payload's id becomes the payload, and every other entry is kept in place |
| BugContext.RemoveById | client/debug/src/context/BugContext.jsx:39 | filtering never lengthens the list |
| BugContext.RemoveByIdKeeps | client/debug/src/context/BugContext.jsx:39 | the entries kept are exactly those with another id |
| BugContext.RequestStartsLoading | client/debug/src/context/BugContext.jsx:18-22 | any request action sets loading, clears the error and keeps the list |
| BugContext.FetchReplacesList | client/debug/src/context/BugContext.jsx:23-24 | a fetched list replaces the old one, with loading off and no error |
| BugContext.CreateAppends | client/debug/src/context/BugContext.jsx:25-26 | a created bug is appended: the list grows by one, the old list is its prefix, and the payload is last |
| BugContext.UpdateReplacesInPlace | client/debug/src/context/BugContext.jsx:27-35 | same length and order; entries with the payload's id become the payload, and the rest are unchanged |
| BugContext.DeleteFilters | client/debug/src/context/BugContext.jsx:36-42 | exactly the entries with the deleted id are dropped |
| BugContext.RemoveKeepsOrder | client/debug/src/context/BugContext.jsx:39 | filtering distributes over concatenation, so the survivors keep their relative order |
| BugContext.RemoveAbsentId | client/debug/src/context/BugContext.jsx:39 | deleting an id no entry carries leaves the list unchanged |
| BugContext.FailureRecordsError | client/debug/src/context/BugContext.jsx:43-47 | any failure stops loading, records the message and keeps the list |
| BugContext.UnknownActionIgnored | client/debug/src/context/BugContext.jsx:48-49 | an unknown action leaves the state unchanged |
| ClientSync.StartsInSync | client/debug/src/context/BugContext.jsx:9-13 | `initialState` holds no bugs, is not loading and has no error, so it matches the listing of the empty collection a new store starts with |
| ClientSync.ListingAgrees | server/controllers/bugController.js:12 | two collections that agree below n list the same records |
| ClientSync.InsertListsLast | client/debug/src/context/BugContext.jsx:25-26 | after a create, appending the reply to the old listing gives the new listing |
| ClientSync.ReplaceInListing | client/debug/src/context/BugContext.jsx:27-35 | after an update, replacing by id in the old listing gives the new listing |
| ClientSync.ReplaceSplits | client/debug/src/context/BugContext.jsx:31-33 | replacing by id distributes over concatenation |
| ClientSync.RemoveFromListing | client/debug/src/context/BugContext.jsx:36-42 | after a delete, filtering the id out of the old listing gives the new listing |

## Left out

- I/O and asynchrony are not modelled: the HTTP transport, Express routing, `express-async-handler`, and the awaits on MongoDB. Each handler is one sequential step.
- Mongo ids are not modelled as ObjectIds. They are fresh naturals, so a malformed id, which makes Mongoose throw a cast error that surfaces as 500, is not modelled.
- Wall-clock timestamps are not modelled. `createdAt` and `updatedAt` come from an abstract counter that ticks once per write.
- Mongoose's casting of non-string values is not modelled. A number or boolean body field would be cast to a string; in the model the schema refuses any non-string value.
- The schema's error message texts and the `errors` object of a Mongoose validation error are not modelled. A schema refusal carries one fixed message, and `errorHandler` sends it as 500.
- Concurrent requests are not modelled: a record deleted between `findById` and `findByIdAndUpdate`, where the handler would reply 200 with `null`.
- BugController.Listing: the model fixes the order of `Bug.find({})` to ascending id, which is insertion order. MongoDB does not document any order for an unsorted find. The ascending-order clause of `GetBugs` and the ClientSync lemmas (`InsertListsLast`, `ReplaceInListing`, `RemoveFromListing`) hold under that assumption.
- Lone UTF-16 surrogates are not modelled, because a Dafny `char` is a Unicode scalar value.
- The client's async callbacks (`fetchBugs`, `createBug`, `updateBug`, `updateBugStatus`, `deleteBug`) are network calls that only dispatch actions, so the reducer is modelled instead. The React components, the axios instance and the server bootstrap are not modelled either.
- Mongoose's update-validator mechanics are not modelled separately. On `findByIdAndUpdate` with `runValidators`, each supplied path goes through the same setter and validators as on create; only the supplied paths are checked.
