# todo-server core in Dafny

A model of the core of todo-server, a small C++ HTTP service that keeps task
records in PostgreSQL. It covers four parts:

- The task record and its JSON conversions (`database::Task`, `from_json`,
  `to_json`, and the `adl_serializer` for time points).
- The task store (`database::Database`). The `tasks` table is a map from id to
  row, and the `SERIAL` id sequence is a counter.
- The handler predicates (`can_handle` of the five handlers) and the
  first-match scan of `HandlerFactory::create_handler`.
- The JSON response builders of `utils`.

Layout, one module per source unit:

| file | module | source |
|---|---|---|
| wrappers.dfy | `Wrappers` | `std::optional` and exceptions, as `Option`, `Result`, `Outcome` |
| ints.dfy | `Ints` | `int` and `long long` with C++20 narrowing casts |
| json_model.dfy | `JsonModel` | the nlohmann::json values and conversions the core uses |
| time_point_json.dfy | `TimePointJson` | include/database.hpp, `adl_serializer<time_point>` |
| tasks.dfy | `Tasks` | `Task`, `from_json`, `to_json` (src/database.cpp, include/database.hpp) |
| database.dfy | `Storage` | `Database` (src/database.cpp) |
| requests.dfy | `Requests` | method, target and body of a Beast request; `starts_with` |
| get_tasks_handler.dfy … delete_task_handler.dfy | `GetTasksHandler` … `DeleteTaskHandler` | src/handlers/*.cpp |
| handler_factory.dfy | `Handlers` | src/handler_factory.cpp |
| http_utils.dfy | `HttpUtils` | src/utils/http_utils.cpp |

Modelling choices:

- `Task` is a class, because its setters and `from_json` change it in place.
  `TaskValue` is its value: `Database` returns it and the JSON specification
  functions work on it. The getters are plain reads of the class's fields.
- `Decode` states what `from_json` does to the task it fills. When
  `from_json` throws, the fields it already assigned keep their new values;
  `DecodeOutcome.Threw` carries that partial task.
- The current time (`system_clock::now()`) is a parameter.
- The date parse (`%Y-%m-%dT%H:%M:%SZ` followed by `timegm`) is a function
  parameter, and so is the date format (`gmtime` and
  `put_time("%Y-%m-%d %H:%M:%S")`).
- A time point counts nanoseconds, as libstdc++'s `system_clock` does.
  `duration_cast<seconds>` truncates toward zero.
- `get<int>` and `get<long long>` accept numbers and booleans and narrow
  modulo 2^32 or 2^64. `get<std::string>` accepts only strings. Every other
  JSON type raises nlohmann's type error.
- The table enforces its column types as PostgreSQL does. A value too long for
  `VARCHAR(255)` (title) or `VARCHAR(50)` (status) is an error, unless every
  extra character is a space; then it is cut to length.
- The id sequence fails after 2^31 - 1.
- A NULL description reads back as `""` in `row_to_task`.
- `get_all_tasks` reads the `ORDER BY created_at DESC` result one row at a
  time. Each step takes a newest remaining row. The choice among rows with the
  same `created_at` is left open, because PostgreSQL does not fix it.
- A registered handler is a descriptor naming one handler class. Its predicate
  is that class's `can_handle`, and its product is a new handler of the same
  class. A null product is `None`.
- A response body is the JSON value whose `dump()` would be the body text.

Points where the code behaves differently from what a reader might expect, all followed by the model:

- Route matching is a plain prefix test, not an exact token match. `/task`
  therefore also accepts `/tasks`, and DELETE wants `/delete`, not `/task/{id}`.
- The factory's constructor registers no handler, so every request resolves
  to null.
- Storage fills a missing status with `"In progress"`. It does not reject a
  missing status.
- A task's own JSON does not decode back. `to_json` writes `created_at` as
  `%Y-%m-%d %H:%M:%S` (src/database.cpp:65), while `from_json` reads
  `%Y-%m-%dT%H:%M:%SZ` (src/database.cpp:100), so the literal `T` fails on the
  space and `from_json` throws "Invalid date format"
  (`DecodeOfToJsonWithForeignDateFormat`).

## Model

| member | source | states |
|---|---|---|
| `Tasks.Task.Value` | src/database.cpp:20-43 | the getters read back exactly the id, title, description, status and `created_at` the task holds |
| `Tasks.Task.constructor` | include/database.hpp:32-50 | a default task has no id, title, description or status, and `created_at` at the epoch |
| `Tasks.Task.WithId` | src/database.cpp:3-9 | `Task(int id)` sets the id, leaves the other optional fields empty and takes the current time |
| `Tasks.Task.Make` | src/database.cpp:11-18 | the five-argument constructor builds a complete task holding exactly its arguments |
| `Tasks.Task.SetTitle` | src/database.cpp:45-48 | sets the title and changes no other field |
| `Tasks.Task.SetDescription` | src/database.cpp:50-53 | sets the description and changes no other field |
| `Tasks.Task.SetStatus` | src/database.cpp:55-58 | sets the status and changes no other field |
| `Tasks.Decode` | src/database.cpp:76-114 | `from_json` on a task: each of id, title, description and status is read in order when present and non-null; the first type error throws with the fields read so far; `created_at` is the parsed date, "now" when absent, or "Invalid date format" |
| `Tasks.FromJson` | src/database.cpp:76-114 | the in-place `from_json` leaves the task as `Decode` says; it returns the thrown error exactly when `Decode` throws, and then the task holds the partial value |
| `Tasks.DecodeSucceedsIff` | src/database.cpp:78-113 | `from_json` returns normally iff every present non-null field has the right JSON type and a present `created_at` parses |
| `Tasks.DecodeCopiesOnlyPresentFields` | src/database.cpp:78-113 | id, title, description and status are overwritten only when the key is present and non-null, else kept; `created_at` is the parsed time, or "now" when absent or null |
| `Tasks.DecodeRejectsMalformedDate` | src/database.cpp:94-109 | a `created_at` string that does not parse always throws; the error is "Invalid date format" iff the four fields before it were read without error; `created_at` stays as it was |
| `Tasks.DecodeThrowLeavesPartialTask` | src/database.cpp:76-113 | after a throw, `created_at` is untouched and each other field holds its old value or the one from the JSON |
| `Tasks.DecodeNonObject` | src/database.cpp:78-112 | a JSON value that is not an object contains no key, so only `created_at` changes, to "now" |
| `Tasks.ToJson` | src/database.cpp:60-74 | `to_json` succeeds iff all four optional fields are present (otherwise `bad_optional_access`), giving an object with exactly the keys id, title, description, status, created_at |
| `Tasks.DecodeOfToJson` | src/database.cpp:60-113 | only when the date parser accepts what the date formatter wrote does decoding an encoded complete task restore every field, with `created_at` truncated to whole seconds; the program's own formats never agree (see `DecodeOfToJsonWithForeignDateFormat`) |
| `Tasks.DecodeOfToJsonWithForeignDateFormat` | src/database.cpp:60-113 | when the parser rejects the output date format, decoding an encoded task throws "Invalid date format" after taking over id, title, description and status |
| `JsonModel.GetInt` | src/database.cpp:80 | `get<int>` succeeds iff the value is a number or a boolean, and returns an in-range integer unchanged |
| `JsonModel.GetInt64` | include/database.hpp:21 | `get<long long>` succeeds iff the value is a number or a boolean, and returns an in-range integer unchanged |
| `JsonModel.GetString` | src/database.cpp:84 | `get<std::string>` succeeds exactly on strings and returns the string |
| `TimePointJson.Seconds` | include/database.hpp:15 | the whole seconds since the epoch, the division truncating toward zero |
| `TimePointJson.ToJson` | include/database.hpp:13-16 | a time point serializes as the JSON integer of its whole seconds |
| `TimePointJson.FromJson` | include/database.hpp:19-23 | a JSON number or boolean n deserializes to n seconds after the epoch; every other JSON value is a type error |
| `TimePointJson.FromSeconds` | include/database.hpp:22 | `time_point(seconds(n))` lies on a whole second |
| `TimePointJson.SecondsTruncatesTowardZero` | include/database.hpp:15 | whole seconds of a time point truncate toward zero: less than a second away, on the epoch's side |
| `TimePointJson.WholeSecondsRoundTrip` | include/database.hpp:15-22 | a whole-second time point survives the trip to seconds and back |
| `TimePointJson.SecondsOfFromSeconds` | include/database.hpp:15-22 | converting n seconds to a time point and back gives n |
| `TimePointJson.FromJsonOfInteger` | include/database.hpp:19-23 | deserializing the integer n gives the time point n seconds after the epoch |
| `TimePointJson.FromJsonRejectsNonNumbers` | include/database.hpp:21 | deserialization fails exactly on JSON values that are neither numbers nor booleans |
| `TimePointJson.RoundTrip` | include/database.hpp:13-23 | deserializing a serialized time point gives it truncated to seconds, and the identity for whole-second points |
| `Storage.Varchar` | src/database.cpp:147-149 | a value stored in a VARCHAR(n) column is a prefix of the input at most n long, the input itself when it fits, and an error iff a non-space character lies past n |
| `Storage.RowToTask` | src/database.cpp:335-346 | a row reads as a complete task with that id; a NULL description reads as `""`; `created_at` is a whole-second time point with the row's seconds |
| `Storage.InsertedRow` | src/database.cpp:169-182 | the inserted row fits its columns and stores `created_at` as whole epoch seconds |
| `Storage.InsertedRowDefaults` | src/database.cpp:177-180 | absent title, description and status are stored as `""`, `""` and `"In progress"` |
| `Storage.InsertedRowKeepsFittingValues` | src/database.cpp:172-182 | title and status that fit their columns are stored exactly as given |
| `Storage.MergedRowReplacesOnlySupplied` | src/database.cpp:265-298 | the update's merge replaces only the supplied fields; the others keep their value (a NULL description becomes `""`) and `created_at` never changes |
| `Storage.MergedRow` | src/database.cpp:259-298 | the merged row of an update; for a stored row it is an error exactly when a supplied title or status does not fit its column |
| `Storage.ListingHasOneEntryPerRow` | src/database.cpp:201-209 | a newest-first listing has exactly one entry per row, and an empty table lists nothing |
| `Storage.TwoRowListing` | src/database.cpp:201-204 | with two rows, the newer row is listed first, whatever the insertion order |
| `Storage.Database.constructor` | src/database.cpp:116-119 | a new database has an empty table and its id sequence starts at 1 |
| `Storage.Database.CheckIdExists` | src/database.cpp:348-367 | true exactly when a row has the id |
| `Storage.Database.GetTaskById` | src/database.cpp:219-244 | none exactly when no row has the id; otherwise that row as a complete task with that id |
| `Storage.Database.GetAllTasks` | src/database.cpp:193-217 | every row exactly once, as a complete task, ordered by `created_at` non-increasing |
| `Storage.Database.CreateTask` | src/database.cpp:162-191 | on success, inserts the defaulted row under the sequence's next id, which no row had, and changes no other row; it fails exactly when a value does not fit or the sequence is exhausted, and then the table is unchanged |
| `Storage.Database.UpdateTask` | src/database.cpp:246-305 | no id gives bad_optional_access; a missing row gives not-found before the emptiness check; nothing supplied gives "Nothing to update"; a value too long gives a storage failure; each failure leaves the table unchanged; otherwise only that row receives the merge |
| `Storage.Database.DeleteTask` | src/database.cpp:307-333 | a missing id gives not-found and changes nothing; otherwise exactly that row is removed |
| `Storage.CreateReadDelete` | tests/test_database.cpp:95-107 | a created task reads back with its title, status and defaulted description; after deleting it the lookup gives none and a second delete gives not-found |
| `GetTasksHandler.CanHandle` | src/handlers/get_tasks_handler.cpp:3-6 | GET with a target starting with `/tasks` |
| `GetTasksHandler.AcceptsOnlyGet` | src/handlers/get_tasks_handler.cpp:5 | any method other than GET is refused, whatever the target |
| `GetTasksHandler.AcceptsExtensions` | src/handlers/get_tasks_handler.cpp:5 | a prefix test: whatever follows an accepted target is accepted too |
| `GetTasksHandler.IgnoresBody` | src/handlers/get_tasks_handler.cpp:3-6 | the result depends only on method and target |
| `GetTasksHandler.Examples` | src/handlers/get_tasks_handler.cpp:5 | accepts GET `/tasks`, `/tasks/1`, `/tasksX`; rejects GET `/task` and `/` |
| `GetTaskHandler.CanHandle` | src/handlers/get_task_handler.cpp:3-6 | GET with a target starting with `/task` |
| `GetTaskHandler.AcceptsOnlyGet` | src/handlers/get_task_handler.cpp:5 | any method other than GET is refused |
| `GetTaskHandler.AcceptsExtensions` | src/handlers/get_task_handler.cpp:5 | a prefix test: whatever follows an accepted target is accepted too |
| `GetTaskHandler.IgnoresBody` | src/handlers/get_task_handler.cpp:3-6 | the result depends only on method and target |
| `GetTaskHandler.Examples` | src/handlers/get_task_handler.cpp:5 | accepts GET `/task`, `/task/42` and `/tasks`; rejects GET `/` and `/delete/1` |
| `PostTaskHandler.CanHandle` | src/handlers/post_task_handler.cpp:3-6 | POST with a target starting with `/task` |
| `PostTaskHandler.AcceptsOnlyPost` | src/handlers/post_task_handler.cpp:5 | any method other than POST is refused |
| `PostTaskHandler.AcceptsExtensions` | src/handlers/post_task_handler.cpp:5 | a prefix test: whatever follows an accepted target is accepted too |
| `PostTaskHandler.IgnoresBody` | src/handlers/post_task_handler.cpp:3-6 | the result depends only on method and target |
| `PostTaskHandler.Examples` | src/handlers/post_task_handler.cpp:5 | accepts POST `/task`, `/tasks` and `/task/1` |
| `PutTaskHandler.CanHandle` | src/handlers/put_task_handler.cpp:3-6 | PUT with a target starting with `/task` |
| `PutTaskHandler.AcceptsOnlyPut` | src/handlers/put_task_handler.cpp:5 | any method other than PUT is refused |
| `PutTaskHandler.AcceptsExtensions` | src/handlers/put_task_handler.cpp:5 | a prefix test: whatever follows an accepted target is accepted too |
| `PutTaskHandler.IgnoresBody` | src/handlers/put_task_handler.cpp:3-6 | the result depends only on method and target |
| `PutTaskHandler.Examples` | src/handlers/put_task_handler.cpp:5 | accepts PUT `/task`, `/tasks` and `/task/7`; rejects PUT `/` |
| `DeleteTaskHandler.CanHandle` | src/handlers/delete_task_handler.cpp:3-6 | DELETE with a target starting with `/delete` |
| `DeleteTaskHandler.AcceptsOnlyDelete` | src/handlers/delete_task_handler.cpp:5 | any method other than DELETE is refused |
| `DeleteTaskHandler.AcceptsExtensions` | src/handlers/delete_task_handler.cpp:5 | a prefix test: whatever follows an accepted target is accepted too |
| `DeleteTaskHandler.IgnoresBody` | src/handlers/delete_task_handler.cpp:3-6 | the result depends only on method and target |
| `DeleteTaskHandler.Examples` | src/handlers/delete_task_handler.cpp:5 | accepts DELETE `/delete`, `/delete/5` and `/deleteall`; rejects DELETE `/task/5` |
| `Handlers.CanHandle` | src/handler_factory.cpp:11 | the virtual `can_handle` call: the predicate of the handler's own class |
| `Handlers.Resolve` | src/handler_factory.cpp:9-16 | a resolved handler is registered and accepts the request |
| `Handlers.ResolveFirstMatch` | src/handler_factory.cpp:9-14 | the result is the lowest-index handler whose `can_handle` holds |
| `Handlers.ResolveNoneIff` | src/handler_factory.cpp:9-16 | the result is null exactly when no registered handler accepts the request |
| `Handlers.ResolveIgnoresLaterHandlers` | src/handler_factory.cpp:11-13 | handlers after the first match are never consulted: appending any handlers changes nothing |
| `Handlers.HandlerFactory.constructor` | src/handler_factory.cpp:3-5 | the registry is empty |
| `Handlers.HandlerFactory.CreateHandler` | src/handler_factory.cpp:7-17 | the scan returns the first accepting handler, or null when none accepts; it changes nothing (const) |
| `Handlers.ResolveWithNewFactory` | src/handler_factory.cpp:3-16 | as written, every request resolves to null |
| `Handlers.GetTasksOverlapsGetTask` | src/handlers/get_task_handler.cpp:5 | every request GetTasksHandler accepts, GetTaskHandler accepts too; which one gets GET `/tasks` depends on registration order |
| `Handlers.PostAndPutShareTargets` | src/handlers/post_task_handler.cpp:5 | POST and PUT accept the same targets, each with its own method |
| `Handlers.PostExcludesOthers` | src/handlers/post_task_handler.cpp:5 | no request PostTaskHandler accepts is accepted by the PUT, GET or DELETE handlers |
| `Handlers.DeleteOfTaskPathMatchesNothing` | src/handlers/delete_task_handler.cpp:5 | DELETE `/task/5` matches no handler in any registry |
| `HttpUtils.CreateErrorResponse` | src/utils/http_utils.cpp:3-18 | the given status over HTTP version 11, the two JSON header fields, and the body `{error: true, message, status}` |
| `HttpUtils.CreateJsonResponse` | src/utils/http_utils.cpp:20-29 | the given status over HTTP version 11, the two JSON header fields, and the given value as body |
| `HttpUtils.ResponseEnvelopeHeaders` | src/utils/http_utils.cpp:3-29 | both builders answer with the given status over HTTP version 11; the two header fields the builders set are Content-Type `application/json` and Access-Control-Allow-Origin `*` (Content-Length, added by `prepare_payload`, is not modelled) |
| `HttpUtils.ErrorEnvelopeReadsBack` | src/utils/http_utils.cpp:9-15 | the error body reads back as error = true, the message argument and the status's integer value |
| `HttpUtils.ErrorResponseIsJsonResponse` | src/utils/http_utils.cpp:3-29 | an error response is the JSON response of its envelope |
| `HttpUtils.JsonResponseCarriesValue` | src/utils/http_utils.cpp:20-29 | the JSON response's body is exactly the given value |
| `HttpUtils.ErrorResponsesDistinguish` | src/utils/http_utils.cpp:9-13 | different statuses or messages give different error responses |

## Left out

- src/server.cpp, include/server.hpp, src/main.cpp: sockets, the accept loop, sessions and the thread pool are network I/O and concurrency.
- src/logger.cpp and include/logger.hpp: console output and time formatting.
- `db_mutex_`: operations run one after another; concurrent readers and writers are out of scope.
- `initialize_database` and the pqxx connection: the model starts with the `tasks` table in place (the new `Database` has it empty). The column types of its CREATE TABLE are the limits `Varchar` and `RowFits` enforce.
- Connection loss and other PostgreSQL failures: the model produces `StorageFailure` only for values too long for their column and for an exhausted id sequence.
- Storage.Database.CreateTask: when the INSERT fails, the model leaves the id sequence unchanged, though PostgreSQL may already have used a value.
- Strings with NUL characters, which PostgreSQL text columns do not accept, and invalid UTF-8, which nlohmann's `dump()` rejects: strings here are sequences of Unicode characters.
- The 64-bit range of `time_point`: tick counts are unbounded, so `seconds(n)` for very large n does not overflow as it would in C++. The round-trip lemmas assume a representable time point.
- The clock's real tick length varies by platform; the model uses libstdc++'s nanosecond.
- `gmtime`, `put_time`, `get_time`, `timegm` and `system_clock::now()` are library calls. They are parameters here, so the exact date texts are not modelled.
- Floating-point JSON numbers and nlohmann's `dump()` text, including the `Content-Length` that `prepare_payload` derives from it.
- The handlers' `handle_request` and `create` definitions are not part of this model. Only `can_handle` is defined in the handler source files.
- The libpq-style `Database` declared in include/database.hpp:56-76 contradicts src/database.cpp. The model follows src/database.cpp.
- include/utils/http_utils.hpp declares `create_response`, `parse_parameters` and the status helpers, but http_utils.cpp defines none of them. They are not modelled.
