# Issue tracker: request handling over an abstract record store

This project models the issue-tracker API of `routes/api.js`: the route
`/api/issues/:project` with its four handlers (list with filters, create,
update, delete) and the Mongoose `Issue` model they call. The store is an
in-memory collection: a map from `_id` to issue, the ids in insertion order
(the order in which the model lists them), a counter that hands out fresh ids and an
abstract clock that stands for `Date.now`.

- `schema.dfy` (module `Schema`): the issue record with the schema's fields
  and defaults, the values a field or a query condition holds (`Text`,
  `Flag`, `Stamp`), exact-equality matching of an issue against a filter,
  and the hexadecimal ids the store hands out, with a proof that distinct
  counters give distinct ids.
- `store.dfy` (module `Store`): the four store operations the routes use.
  They are insert (`new Issue(...).save()`), find by a conjunction of
  equalities, `findByIdAndUpdate` with `{new: true}` and `findByIdAndDelete`.
  The class `IssueStore` holds the state; its invariant `Valid()` says that
  ids are unique and listed once in insertion order, that every stored issue
  sits under its own id, has its four required strings non-empty and
  `created_on <= updated_on <= clock`, and that no stored id comes from a
  counter value not yet handed out.
- `api.dfy` (module `Api`): request bodies with each field `Option<string>`
  (absent or present), the PUT `open` as text or boolean, the reply bodies,
  the truthiness tests, the `open` coercion on GET and on PUT, the handlers
  `List`, `Post`, `Put` and `Delete`, and two client walkthroughs that run
  the handlers in sequence on a fresh store.

Where the code and its tests disagree, the model follows the code:

- PUT has no "no update field(s) sent" reply (expected by
  `tests/2_functional-tests.js:148-161`). A body with only `_id` succeeds
  and refreshes `updated_on` (`Api.OnlyIdRefreshesTimestamp`).
- DELETE of an unknown id replies `{result: 'could not delete', _id}`.
  The test at `tests/2_functional-tests.js:213` expects the key `error`.
- PUT and DELETE find the issue by `_id` alone. The project in the path is
  read by neither handler (`Api.CrossProjectWalkthrough`).
- GET coerces `open` only when it is non-empty. An empty `open` stays the
  empty text. On PUT, any `open` that is sent is coerced, so the JSON
  boolean `true` becomes `false` (`Api.TrueFlagCloses`).

GET changes nothing: `Api.List` is a method without a `modifies` clause.

## Model

| member | source | states |
|---|---|---|
| `Schema.FieldValue` | routes/api.js:10-20 | exactly the ten keys of the issue (`_id` and the schema's nine paths) hold a value: `open` holds the issue's `open` flag, the two dates hold time stamps, every other key holds text; any other key holds nothing |
| `Schema.Matches` | routes/api.js:39 | an issue satisfies a filter only when every filter key is one of the issue's fields, each compared by exact equality |
| `Schema.NewIssue` | routes/api.js:15-19 | a new document has `open` true and both timestamps equal to the current time, and is well formed when its required strings are non-empty |
| `Schema.HexId` | routes/api.js:55-64 | every id the store hands out is non-empty text |
| `Schema.HexIdInjective` | routes/api.js:55-64 | distinct counter values give distinct ids, so every inserted issue gets a fresh id |
| `Store.Select` | routes/api.js:39 | a find returns exactly the issues under the listed ids that satisfy every condition, never more than there are ids |
| `Store.SelectDistinct` | routes/api.js:39 | over distinct ids, each id keying its own issue, a find lists no issue twice |
| `Store.SelectAppend` | routes/api.js:39-41 | listing a collection grown by one id is the old listing followed by the new issue when it matches |
| `Store.SelectFrame` | routes/api.js:39-41 | a listing depends only on the issues under the listed ids |
| `Store.InsertListedLast` | routes/api.js:39-64 | after an insertion under a fresh id, every listing is the earlier one, with the new issue appended when it matches |
| `Store.Without` | routes/api.js:111 | removing an id from the order keeps exactly the other ids, keeps the order unchanged when the id is absent, and keeps the ids distinct |
| `Store.Override` | routes/api.js:90 | a text field keeps its value unless the update sets it, and then takes the update's value |
| `Store.Apply` | routes/api.js:90 | an update keeps `_id`, `project` and `created_on`, sets `updated_on` and each field the patch sets, and leaves every other field as it was |
| `Store.ApplyKeepsWellFormed` | routes/api.js:11-14 | a patch that sets no required field to empty and carries a later time keeps the issue well formed |
| `Store.DropId` | routes/api.js:111 | a listing without an id keeps exactly the other issues of the listing |
| `Store.SelectWithout` | routes/api.js:39-41 | after a delete, every listing is the earlier one, in the same order, with the deleted issue taken out |
| `Store.IssueStore.constructor` | routes/api.js:23 | the collection starts empty, with the id counter and the clock at zero |
| `Store.IssueStore.Tick` | routes/api.js:17-18 | time advances by the given amount and nothing else changes |
| `Store.IssueStore.Find` | routes/api.js:39-41 | a find returns exactly the stored issues that match every condition, each once |
| `Store.IssueStore.Insert` | routes/api.js:55-64 | a save adds one issue under a fresh id at the end of the collection, with both timestamps at the current time, and changes no existing issue |
| `Store.IssueStore.FindByIdAndUpdate` | routes/api.js:90-92 | an update by id returns the updated issue and replaces only that issue; for an unknown id it returns nothing and changes nothing |
| `Store.IssueStore.FindByIdAndDelete` | routes/api.js:111-113 | a delete by id returns the removed issue and removes only that one; for an unknown id it returns nothing and changes nothing |
| `Api.Truthy` | routes/api.js:75 | a body field counts as sent exactly when it is neither absent nor the empty string |
| `Api.OrEmpty` | routes/api.js:48 | an optional create field reads as its text when sent non-empty and as the empty string otherwise |
| `Api.MissingRequired` | routes/api.js:50 | the required-field check passes only when title, text and author are all present and non-empty, and fails when any of them is absent or empty |
| `Api.Conditions` | routes/api.js:31-39 | the filter is the path project with every query entry spread over it, so a `project` query key wins; a non-empty `open` becomes the boolean `open === 'true'`, every other entry stays text |
| `Api.List` | routes/api.js:30-43 | GET replies with exactly the stored issues matching `Conditions(project, query)`: the query's `project` if it has one, else the path project, plus every other query entry; they come in the order the model keeps (insertion order) and the store is left alone |
| `Api.EmptyQueryListsProject` | routes/api.js:31-39 | a list request without a query string matches exactly the issues of the path project |
| `Api.OpenTrueListsOpen` | routes/api.js:34-39 | a query `open=true` lists exactly the open issues of the project |
| `Api.OpenOtherListsClosed` | routes/api.js:34-39 | any other non-empty `open` text, such as `false`, lists exactly the closed issues of the project |
| `Api.OpenAndAssigneeFilter` | routes/api.js:34-39 | a query `open=true&assigned_to=a` lists exactly the open issues of the project assigned to `a` |
| `Api.ProjectQueryOverridesPath` | routes/api.js:39 | a `project` query entry overrides the project of the path |
| `Api.Post` | routes/api.js:46-65 | a body missing or emptying any required field gets `{error: 'required field(s) missing'}` and the store is unchanged; otherwise exactly one issue is added under a fresh id, with the path project, the submitted fields, `assigned_to` and `status_text` defaulting to empty, `open` true and both timestamps at the current time, and the reply is that issue |
| `Api.IfTruthy` | routes/api.js:80-84 | a text field of an update body is kept exactly when it is present and non-empty |
| `Api.PatchOf` | routes/api.js:79-87 | the update sets each of the five text fields only when it is sent non-empty, `open` whenever it is sent, true exactly for the text `'true'`, and always `updated_on` |
| `Api.BuildPatch` | routes/api.js:79-87 | the update built field by field is the update described by `PatchOf` |
| `Api.Put` | routes/api.js:72-100 | an absent or empty `_id` gets `{error: 'missing _id'}`; an unknown `_id` gets `{error: 'could not update', _id}`; in both cases the store is unchanged; otherwise only the issue with that `_id`, in any project, gets the patch and the reply is `{result: 'successfully updated', _id}` |
| `Api.OnlyIdRefreshesTimestamp` | routes/api.js:79-90 | an update body with nothing but `_id` changes only `updated_on` |
| `Api.StatusOnlyUpdate` | routes/api.js:79-90 | an update of only `status_text` changes it and `updated_on`, nothing else |
| `Api.TrueFlagCloses` | routes/api.js:85 | a boolean `true` sent as `open` closes the issue, because only the text `'true'` coerces to true |
| `Api.Delete` | routes/api.js:103-121 | an absent or empty `_id` gets `{error: 'missing _id'}`; an unknown `_id` gets `{result: 'could not delete', _id}`; in both cases the store is unchanged; otherwise only the issue with that `_id`, in any project, is removed and the reply is `{result: 'successfully deleted', _id}` |
| `Api.Walkthrough` | routes/api.js:30-121 | create, list, update, delete, delete again and list on a fresh store: the new issue is open with empty defaults and is the only one listed, the update and the first delete succeed, the second delete cannot delete, and the final list is empty |
| `Api.CrossProjectWalkthrough` | routes/api.js:72-121 | an issue created in one project is updated and deleted through the path of another project, after which its own project lists nothing |

## Left out

- MongoDB connection and model construction (`routes/api.js:3-7, 23`): library plumbing, replaced by the in-memory `IssueStore`.
- Express routing and HTTP status codes: transport. Only the reply bodies are modelled.
- The "Server error" replies (`routes/api.js:40, 66-67`): foreign store faults, not modelled.
- Ids are compared as exact strings. Mongoose casts an `_id` text to an ObjectId, so an upper-case spelling of a stored hexadecimal id would find the same issue; in the model it names no issue.
- Cast errors on a malformed `_id` (`routes/api.js:97-98, 118-119`): they give the same reply as an unknown id, so the model has one not-found case. Any string is a possible `_id`, and one that names no stored issue is unknown.
- Mongoose casting of query values: a filter value is compared exactly. A date text never equals a stored timestamp, and an empty `open` matches nothing. Mongoose would cast such values, or fail the query with a cast error.
- Filter keys outside the schema never match in the model. Mongoose's `strictQuery` setting could instead drop them from the filter.
- Mongo query operators smuggled in through the query string, and repeated query keys that parse to arrays: only exact equality on text values is modelled.
- Non-string JSON values in request bodies, such as numbers or `null`: every body field is absent or a string. The one exception is the PUT `open`, which may also be a boolean.
- ObjectId generation: ids are a counter rendered in hexadecimal. Real ObjectIds also encode a timestamp and random bytes and have a fixed 24-digit form.
- Listing order: the model fixes it to insertion order, so `Store.InsertListedLast` and `Store.SelectWithout` speak of that order. The `find` at `routes/api.js:39` has no sort, and MongoDB does not promise that an unsorted find returns documents in insertion order.
- Real `Date` values and `Date.now`: the clock is a natural number that only `IssueStore.Tick` advances.
- The `__v` version key and the JSON serialisation of issues.
- `async`/`await` and interleaving of concurrent requests: each handler runs to completion.
- `tests/2_functional-tests.js`: an HTTP test harness, not modelled. `Api.Walkthrough` runs its own sequence on a fresh store: one create, a list, an update, the same delete twice and a final list.
- Api.Post: requires a non-empty path project. Express never matches an empty `:project` segment, and Mongoose's `required` check would reject an empty project through the left-out server-error path.
