# Issue tracker API — a Dafny model

This project models the issue resource of a small REST issue tracker: the four
handlers on `/api/issues/:project` (GET lists, POST creates, PUT updates, DELETE
removes) and the `convertIssue` field mapper. The document store behind them is a
value: a map from project name to project id, a map from object id to issue
record, an abstract clock and a supply of fresh object ids. Each handler is a pure
function from the store, the route's project name and the request's fields
(`map<string, string>`) to a `Reply` holding the JSON response and the store
afterwards.

Modules, one per concept:

- `Wrappers` — `Option`, for request fields that may be `undefined`.
- `ObjectIds` — object ids as 96-bit values, the cast from their 24-digit hex
  text (`ValidId`, `ParseObjectId`) and the lower-case rendering responses use.
- `Text` — JavaScript truthiness of a field, `given || old`, and the rule
  `open.toLowerCase() === "true"`.
- `Issues` — the stored `Issue` record and the `IssueView` responses carry.
- `Stores` — the store, its invariant `Valid`, and find-or-create of a project.
- `IssueApi` — the handlers `Get`, `Post`, `Put`, `Delete`.
- `ApiProperties` — what the handlers guarantee, against independent statements.
- `Scenarios` — the functional tests' scenarios over any valid store.

Behaviour of `routes/api.js` that the model keeps as written:

- `routes/api.js` has no length bounds, no trimming and no aggregated error
  lists. POST only asks that issue_title, issue_text and created_by be truthy,
  and answers a single MISSING_FIELD.
- PUT and DELETE look the issue up by id alone, so they can change or remove an
  issue of another project. The route project only has to exist.
- A malformed id is not checked ahead of the store. The cast fails and the catch
  block answers COULD_NOT_UPDATE or COULD_NOT_DELETE. GET answers with the cast's
  error message, and by then it has already saved a new project.
- There is no separate "not found" or "invalid identifier" error. Both are
  COULD_NOT_UPDATE / COULD_NOT_DELETE.
- GET does not sort its results.
- In GET a filter counts as given when its key is present, even with value "".
  POST, PUT and DELETE go by truthiness, so "" counts as absent there.

## Model

| member | source | states |
|---|---|---|
| `ObjectIds.ParseObjectId` | routes/api.js:61 | the cast accepts a text exactly when it is 24 hex digits, and then yields a 96-bit id |
| `ObjectIds.HexValueOfHex` | routes/api.js:61 | reading back the rendered digits of a value gives that value modulo 16^width |
| `ObjectIds.ParseRendered` | tests/2_functional-tests.js:26-27 | the id text a response carries casts back to the same id, so a client can name an issue it was given |
| `ObjectIds.HexOfHexValue` | routes/api.js:61 | rendering the value of lower-case hex text gives that text back, so distinct lower-case texts name distinct ids |
| `ObjectIds.HexValueIgnoresCase` | routes/api.js:61 | lowering the letters of hex text keeps its value |
| `ObjectIds.CastIgnoresCase` | routes/api.js:182 | a text and its lower-case form cast to the same result: an upper-case digit reads as its lower-case one |
| `ObjectIds.CastNamesRenderedId` | routes/api.js:235 | every text the cast accepts names the id whose rendering is that text in lower case |
| `Text.OrElse` | routes/api.js:191-195 | the JavaScript `or` of a field and a fallback is the given value when that is non-empty, and the fallback otherwise |
| `Text.IsTrueTextCharacterised` | routes/api.js:74-76 | `open` reads as true for exactly the sixteen upper/lower-case spellings of "true"; every other text reads as false |
| `Issues.ConvertIssue` | routes/api.js:8-32 | the view keeps the id and every stored field except project_id under its response name: `Restore` takes it back to the record |
| `Issues.ConvertInjective` | routes/api.js:8-32 | two issues of one project with equal views are the same issue, so the mapper loses nothing but the project |
| `Stores.FindOrCreateProject` | routes/api.js:50-59 | yields the named project's id; an existing project leaves the store as it is, a missing one is saved under the next fresh id |
| `Stores.FindOrCreateProjectValid` | routes/api.js:111-120 | finding or creating a project keeps the invariant and touches no issue |
| `Stores.FreshIdIsNoProject` | routes/api.js:114-117 | in a valid store no project and no issue's project has the next fresh id |
| `IssueApi.BuildFilter` | routes/api.js:61-86 | building the pipeline fails exactly when an `_id` filter is present and malformed |
| `IssueApi.Collect` | routes/api.js:63-96 | the list holds the converted form of every issue below the bound that passes the filter, and nothing else, with no id twice |
| `IssueApi.Get` | routes/api.js:37-100 | GET creates a missing project and keeps an existing store as it is; it never touches issues; it fails exactly on a malformed `_id` filter |
| `IssueApi.Post` | routes/api.js:101-141 | a failed POST changes nothing. A successful one stores one new open issue under an id from the fresh supply, leaves every other issue and every other project as it was, and returns the new issue's view |
| `IssueApi.Put` | routes/api.js:142-216 | PUT never adds or removes an issue or a project, and every answer but success leaves the store unchanged |
| `IssueApi.Delete` | routes/api.js:217-256 | DELETE never adds anything or touches projects, and every answer but success leaves the store unchanged |
| `ApiProperties.MatchesIffSelects` | routes/api.js:63-86 | an issue passes the pipeline exactly when it is in the route project and its view equals every supplied query key of the same name |
| `ApiProperties.GetListsExactlySelected` | routes/api.js:63-96 | GET lists the converted form of exactly the selected issues of the route project, each once; keys outside the filter set and unsupplied keys do not constrain |
| `ApiProperties.CollectNone` | routes/api.js:88-90 | when no issue passes the filter the list is empty |
| `ApiProperties.CollectOne` | routes/api.js:63-67 | when exactly one issue passes the filter the list is that issue alone |
| `ApiProperties.GetOfNewProjectIsEmpty` | routes/api.js:53-59 | GET on a project it has to create answers [] whatever the filters, when any `_id` filter casts |
| `ApiProperties.GetByIdListsOne` | routes/api.js:65-67 | GET by the rendered id of an issue of the route project lists exactly that issue |
| `ApiProperties.PostMissingField` | routes/api.js:106-108 | POST answers MISSING_FIELD exactly when issue_title, issue_text or created_by is absent or empty, and then changes nothing |
| `ApiProperties.PostAddsOneIssue` | routes/api.js:111-137 | a successful POST adds exactly one issue under a fresh id. The issue is open, has the given fields and "" for a missing assigned_to or status_text, and belongs to the route project. That project is created under a fresh id if absent, and every other project keeps its id. The response is its view |
| `ApiProperties.PostThenGetById` | routes/api.js:122-137 | after a POST, a GET by the returned id lists exactly the issue POST returned |
| `ApiProperties.PutNothingToUpdateMeans` | routes/api.js:158-165 | the NO_UPDATE_FIELD guard holds exactly when each of issue_title, issue_text, created_by, assigned_to, status_text and open is absent or empty |
| `ApiProperties.PutValidationOrder` | routes/api.js:154-170 | a falsy `_id` gives MISSING_ID whatever else is sent. Otherwise NO_UPDATE_FIELD carrying the id comes exactly when all six update fields are absent or empty. Neither changes the store |
| `ApiProperties.PutCouldNotUpdate` | routes/api.js:172-215 | past validation, PUT answers COULD_NOT_UPDATE with the id exactly when the project is missing, the id is malformed or no issue has it, and the store is then unchanged. It answers UPDATE_SUCCESS with the id exactly when the project exists and the id names a stored issue |
| `ApiProperties.PutMergesFields` | routes/api.js:191-209 | on success each string field takes the given value when non-empty and keeps the old one otherwise. `open` changes only for a non-empty `open`, by the text rule. updated_on is refreshed and not earlier than before. The id, project, created_on and every other issue are kept |
| `ApiProperties.DeleteFailures` | routes/api.js:221-255 | a falsy `_id` gives MISSING_ID. Otherwise COULD_NOT_DELETE with the id comes exactly when the project is missing, the id is malformed or no issue has it, and changes nothing. DELETE_SUCCESS with the id comes exactly when the project exists and the id names a stored issue |
| `ApiProperties.DeleteRemovesOne` | routes/api.js:244-249 | a successful DELETE removes exactly the named issue and answers DELETE_SUCCESS with the id |
| `ApiProperties.DeleteTwice` | routes/api.js:235-249 | deleting a stored issue of an existing project answers DELETE_SUCCESS, and the same DELETE again answers COULD_NOT_DELETE and changes nothing |
| `ApiProperties.GetPreservesValid` | routes/api.js:50-59 | GET keeps the store invariant |
| `ApiProperties.PostPreservesValid` | routes/api.js:122-134 | POST keeps the store invariant: fresh ids, issues in existing projects, non-empty required fields, created_on <= updated_on |
| `ApiProperties.PutPreservesValid` | routes/api.js:191-204 | PUT keeps the store invariant, in particular required fields stay non-empty and updated_on never precedes created_on |
| `ApiProperties.DeletePreservesValid` | routes/api.js:244 | DELETE keeps the store invariant |
| `ApiProperties.GetIgnoresOtherKeys` | routes/api.js:39-47 | GET reads only _id, issue_title, issue_text, created_by, assigned_to, open and status_text |
| `ApiProperties.PostIgnoresOtherKeys` | routes/api.js:103-104 | POST reads only issue_title, issue_text, created_by, assigned_to and status_text |
| `ApiProperties.PutIgnoresOtherKeys` | routes/api.js:144-152 | PUT reads only _id and the six update fields |
| `ApiProperties.DeleteIgnoresOtherKeys` | routes/api.js:219 | DELETE reads only _id |
| `Scenarios.CreateWithEveryField` | tests/2_functional-tests.js:14-36 | POST with all five fields echoes them, open |
| `Scenarios.CreateWithRequiredFields` | tests/2_functional-tests.js:38-56 | POST with only the required fields answers "" for assigned_to and status_text |
| `Scenarios.CreateWithEmptyRequiredFields` | tests/2_functional-tests.js:58-74 | POST with empty required fields answers MISSING_FIELD and changes nothing |
| `Scenarios.UnknownFilterKeyIgnored` | tests/2_functional-tests.js:102-119 | the query key `title` is not a filter, so only created_by filters |
| `Scenarios.UpdateStatusOnly` | tests/2_functional-tests.js:123-137 | PUT with an id and status_text changes only that issue's status and updated_on, even for an issue of another project |
| `Scenarios.UpdateRejections` | tests/2_functional-tests.js:156-195 | PUT without an id, with nothing to update, or with a malformed id answers MISSING_ID, NO_UPDATE_FIELD or COULD_NOT_UPDATE |
| `Scenarios.CreateThenDeleteTwice` | tests/2_functional-tests.js:199-210 | deleting a new issue by the id POST returned succeeds and restores the issue collection; a second delete fails |
| `Scenarios.DeleteRejections` | tests/2_functional-tests.js:212-233 | DELETE with a malformed id answers COULD_NOT_DELETE, without an id MISSING_ID, and neither changes the store |

## Left out

- HTTP and Express plumbing, server start-up, static files, the 404 handler and the test runner in `server.js`: the handlers receive the route's project name and the request's fields directly.
- The database connection in `utils/database.js` and every store failure other than the id cast: the store never fails. The catch blocks are modelled only for the cast.
- `models/project.js` is not part of this model: a project is its name and its id.
- Concurrency and atomicity: requests are applied one at a time.
- The message texts of `constants/messages`: they are the tags of `ErrorTag` and `ResultTag`. The error message text in GET's catch is `CastFailure`.
- Request values that are not strings, such as a JSON boolean `open` or a repeated query key that arrives as an array: every field is a string.
- `ObjectIds.ParseObjectId`: the driver also accepts any 12-character string as a binary id. That form is treated as malformed here. For PUT and DELETE the answer is the same unless its bytes happen to name a stored issue. For GET the model answers the cast error, where the program would run the query, normally answering [].
- Object id generation: fresh ids come from a counter shared by projects and issues. The counter is unbounded, while real ids have 96 bits. The round-trip lemmas assume the counter stays below 2^96.
- Timestamps: the clock is a natural number that each reading advances by a caller-supplied `elapsed`. POST's two `new Date()` calls are one reading.
- `IssueApi.Get`: the order of the listed issues is the store's. The model lists them by ascending id, which is creation order, and no property depends on it.
- `Text.IsTrueTextCharacterised`: lowering handles the ASCII letters only. This gives the same verdict as full Unicode `toLowerCase` for the comparison with "true".
- Mongoose's save-time validation of required fields: it cannot fail, because the handlers only store non-empty title and text.
