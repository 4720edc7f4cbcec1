# go-todolist: dispatch and store model

This project models a small to-do service. The service exposes CRUD operations on one `todos` table over HTTP. Two parts are modelled.

- **The HTTP layer** (`APIServer`, `internal/api/handlers.go`):
  - how the mux selects the exact route `/todos` or the subtree `/todos/`;
  - how the id is extracted from the path;
  - method dispatch, with 405 for other methods and 400 for an empty id;
  - payload validation, with 400 for a malformed body or an empty title;
  - how store results become status codes, including the `"não encontrado"` substring test that chooses 404 or 500.

  Each handler is a function (module `Api`). It takes the request and a `Store` value, which holds what each of the five store operations answers. It returns an `Exchange`: the one response written, plus the store call made, if any. So "the store is never called" is a checkable fact.
- **The store** (`PostgresStore`, `internal/storage/postgres.go`), in module `Storage`:
  - Each SQL statement is a function over all rows: `Inserted`, `SelectWhere`, `UpdateWhere`, `DeleteWhere`, `CountWhere` and `OrderByCreatedDesc`.
  - Each `fmt.Errorf` branch is a message function.
  - The class `Storage.PostgresStore` holds the table as a `seq<Todo>` field, with the primary key as its invariant.
  - Its five methods are the `Store` interface. Each is proved against the statement functions.
  - `ListTodos` keeps the source's loop. It appends scanned rows to a slice that starts out nil.

Module `Service` connects the two layers:
- `TableStore` gives the answers a table yields.
- `Serve` runs a request against a live `PostgresStore` and proves that each method's reply equals that answer.
- It also holds end-to-end lemmas: over the table, 404 happens exactly when the id is absent; a driver failure gives 500; and the create, read, update, delete, read scenario.

Module `Text` models the Go `strings` functions the handlers use. `Todos` holds the record (`todo.Todo`), Go's nil-or-not slice, and the `(value, error)` pair.

Clock, id generation and driver failures are parameters:
- `now` is the value of `NOW()`, in integer ticks.
- `freshId` is the id the database generates.
- Each `...Error` parameter is the driver's error text when that call fails.

Notes on the code:
- The routes are `/todos` and `/todos/`.
- The store's `ListTodos` returns a nil slice for an empty table. Only the handler turns nil into `[]`.
- The store does not check titles. Only the handlers refuse an empty one.
- Delete success passes the payload nil with status 204. This is modelled as `NullJson`; net/http writes no body for a 204.

## Model

| member | source | states |
|---|---|---|
| Text.TrimPrefix | internal/api/handlers.go:50 | one leading copy of the prefix is removed when present (`s == p + r`), and the string is returned unchanged otherwise |
| Text.ContainsIffOccurs | internal/api/handlers.go:108 | the recursive `strings.Contains` holds exactly when the substring occurs at some position |
| Text.ContainsMiddle | internal/api/handlers.go:108 | a substring placed anywhere inside a string is found by `Contains` |
| Text.ContainsAfterPrefix | internal/storage/postgres.go:78 | text put in front of a string keeps every occurrence the string holds, so a wrapped driver text keeps its marker |
| Text.SealedPrefixAddsNoOccurrence | internal/storage/postgres.go:60 | a fixed message prefix that cannot start a marker occurrence adds no occurrence to the wrapped driver text |
| Storage.GetNotFoundCarriesMarker | internal/storage/postgres.go:76 | the get not-found error contains "não encontrado" for every id |
| Storage.UpdateNotFoundCarriesMarker | internal/storage/postgres.go:126 | the update not-found error contains "não encontrado" for every id |
| Storage.DeleteNotFoundCarriesMarker | internal/storage/postgres.go:147 | the delete not-found error contains "não encontrado" for every id |
| Storage.NotFoundMessagesCarryMarker | internal/storage/postgres.go:76-147 | all three not-found branches carry the marker the handlers search for |
| Storage.CreateFailedLacksMarker | internal/storage/postgres.go:60 | the insert failure text contains the marker only if the driver's text does |
| Storage.GetFailedLacksMarker | internal/storage/postgres.go:78 | the select failure text contains the marker only if the driver's text does |
| Storage.ListQueryFailedLacksMarker | internal/storage/postgres.go:92 | the list query failure text contains the marker only if the driver's text does |
| Storage.ListScanFailedLacksMarker | internal/storage/postgres.go:100 | the row scan failure text contains the marker only if the driver's text does |
| Storage.IterationPrefixLacksMarker | internal/storage/postgres.go:106 | the row iteration failure text contains the marker only if the driver's text does |
| Storage.UpdateFailedLacksMarker | internal/storage/postgres.go:128 | the update failure text contains the marker only if the driver's text does |
| Storage.DeleteFailedLacksMarker | internal/storage/postgres.go:138 | the delete failure text contains the marker only if the driver's text does |
| Storage.RowsAffectedPrefixLacksMarker | internal/storage/postgres.go:143 | the rows-affected failure text contains the marker only if the driver's text does |
| Storage.OtherFailuresLackMarker | internal/storage/postgres.go:60-143 | with a driver text free of the marker, none of the eight other failure texts contains it, so the handlers classify them as 500 |
| Storage.Find | internal/storage/postgres.go:66-72 | the lookup by id yields the first position holding that id, or none exactly when no row has it |
| Storage.SelectUnique | internal/storage/postgres.go:66-80 | under the primary key, `SELECT ... WHERE id = $1` yields exactly the one row with that id |
| Storage.SelectNone | internal/storage/postgres.go:75-76 | a select on an absent id yields no row, which is the no-rows case |
| Storage.OverwrittenFields | internal/storage/postgres.go:114-118 | the update keeps `id` and `created_at`, takes title, description and completed from the request, and sets `updated_at` to now |
| Storage.UpdateWherePointwise | internal/storage/postgres.go:114-118 | the UPDATE statement rewrites exactly the rows whose id matches; every other row and the row order stay the same |
| Storage.UpdateAt | internal/storage/postgres.go:114-118 | under the primary key, the UPDATE is a single write at the matching row's position |
| Storage.UpdateKeepsIds | internal/storage/postgres.go:114-118 | the UPDATE preserves the primary key |
| Storage.DeleteWhereMembers | internal/storage/postgres.go:135 | the DELETE keeps exactly the rows whose id differs, and the rows removed number `RowsAffected` |
| Storage.DeleteAt | internal/storage/postgres.go:135 | under the primary key, the DELETE cuts out the one matching row and keeps the order of the rest |
| Storage.DeleteNone | internal/storage/postgres.go:146-147 | a DELETE on an absent id leaves the table unchanged |
| Storage.DeleteKeepsUnique | internal/storage/postgres.go:135 | removing a row preserves the primary key |
| Storage.InsertByCreatedDesc | internal/storage/postgres.go:88 | inserting a row gives the old rows plus that row, as a multiset |
| Storage.InsertKeepsSorted | internal/storage/postgres.go:88 | inserting into a newest-first sequence keeps it newest-first |
| Storage.OrderByCreatedDesc | internal/storage/postgres.go:85-88 | `ORDER BY created_at DESC` yields every row exactly once (a permutation), sorted by `created_at` descending |
| Storage.PostgresStore.CreateTodo | internal/storage/postgres.go:52-63 | the new row has the store's id and `created_at == updated_at == now`, plus the caller's title, description and completed (the caller's id and timestamps are ignored); it is appended and returned; a driver failure or a taken id leaves the table unchanged with an insert failure |
| Storage.PostgresStore.GetTodo | internal/storage/postgres.go:66-81 | the result succeeds exactly when the id exists and is then the unique matching row; a missing id gives the not-found text, a driver failure gives the select failure text |
| Storage.PostgresStore.ListTodos | internal/storage/postgres.go:84-110 | a query, scan or iteration failure gives its own error and no partial list; otherwise the result is the rows ordered by `created_at` descending, and it is the nil slice exactly when the table is empty |
| Storage.PostgresStore.UpdateTodo | internal/storage/postgres.go:113-131 | an existing id: the table becomes the UPDATE applied to all rows, and the matching row, overwritten, is returned; a missing id gives the not-found text and no change; a driver failure gives no change |
| Storage.PostgresStore.DeleteTodo | internal/storage/postgres.go:134-151 | the table becomes the DELETE applied to all rows; zero matching rows gives the not-found text; an exec failure changes nothing; a rows-affected failure is reported after the delete has run |
| Api.HandleCreateTodo | internal/api/handlers.go:68-87 | the store is called exactly when the body decodes and has a non-empty title, with that record; the status is 201, 400 or 500 |
| Api.HandleListTodos | internal/api/handlers.go:89-102 | the store's list is always called; the status is 200 or 500, and a 200 always carries a JSON array |
| Api.HandleGetTodo | internal/api/handlers.go:104-116 | the store is asked for the given id; the status is 200, 404 or 500; a successful lookup is answered 200 with the record the store returned |
| Api.HandleUpdateTodo | internal/api/handlers.go:118-140 | the store is called exactly when the body is valid, with the URL id and the body's record; the status is 200, 400, 404 or 500; a successful update is answered 200 with the record the store returned |
| Api.HandleDeleteTodo | internal/api/handlers.go:142-153 | the store is asked to delete the given id; the status is 204, 404 or 500 |
| Api.HandleTodos | internal/api/handlers.go:36-45 | the store is reached only for GET and POST |
| Api.HandleTodoByID | internal/api/handlers.go:48-66 | the store is reached only for GET, PUT and DELETE |
| Api.ServeHTTP | internal/api/handlers.go:30-33 | the store is reached only through the `/todos` and `/todos/` patterns |
| ApiProperties.ItemPathYieldsId | internal/api/handlers.go:50 | `/todos/` followed by an id selects the id route and yields exactly that id: one prefix is removed, even when the id itself starts with `/todos/` |
| ApiProperties.CollectionDispatch | internal/api/handlers.go:36-45 | on `/todos`, GET lists, POST creates or is refused by validation, and every other method is 405 with no store call |
| ApiProperties.ItemDispatch | internal/api/handlers.go:56-65 | on `/todos/<id>` with a non-empty id, GET, PUT and DELETE reach get, update and delete with that id; every other method is 405 with no store call |
| ApiProperties.EmptyIdRejectedBeforeMethod | internal/api/handlers.go:48-54 | `/todos/` gives 400 with the empty-id message for every method, including POST, and makes no store call |
| ApiProperties.UnroutedPaths | internal/api/handlers.go:30-33 | any other path gets the mux's plain-text 404 and makes no store call |
| ApiProperties.ValidationBeforeStore | internal/api/handlers.go:68-78 | POST `/todos` and PUT `/todos/<id>` answer 400 to a malformed body (invalid-payload message) or an empty title (title-required message), and never call the store |
| ApiProperties.CreateOutcome | internal/api/handlers.go:80-86 | a valid create passes the decoded record to the store; any store error is 500, whatever its text; success is 201 with the created record |
| ApiProperties.ListOutcome | internal/api/handlers.go:89-102 | a list error is 500; success is 200 with a JSON array of the slice's elements, so nil is sent as `[]` |
| ApiProperties.ErrorClassification | internal/api/handlers.go:104-151 | for get, update and delete, a store error is 404 exactly when its text contains "não encontrado", and 500 exactly when it does not |
| ApiProperties.ItemSuccessOutcome | internal/api/handlers.go:115-139 | through the router, a successful get or update is answered 200 with the exact record the store returned |
| ApiProperties.UpdateUsesUrlIdDeleteAnswers204 | internal/api/handlers.go:130-152 | update sends the URL id to the store, not the body's id; a successful delete is 204 with the nil payload |
| ApiProperties.StatusReflectsStoreOutcome | internal/api/handlers.go:36-153 | every status is one of 200, 201, 204, 400, 404, 405 and 500; a status is 2xx exactly when a store call was made and succeeded |
| ApiProperties.StoredTitlesNonEmpty | internal/api/handlers.go:75-78 | the store is only ever asked to create or update a record with a non-empty title |
| Service.Create | internal/storage/postgres.go:52-63 | the table method's insert reply and new rows are those of the statement-level model |
| Service.Get | internal/storage/postgres.go:66-81 | the table method's select reply is that of the statement-level model |
| Service.List | internal/storage/postgres.go:84-110 | the table method's list reply is that of the statement-level model |
| Service.Update | internal/storage/postgres.go:113-131 | the table method's update reply and new rows are those of the statement-level model |
| Service.Delete | internal/storage/postgres.go:134-151 | the table method's delete reply and new rows are those of the statement-level model |
| Service.Serve | cmd/server/main.go:41-51 | a request served through the handlers against a live store writes the response computed from the table's answers and leaves the table as the store call changes it |
| Service.NotFoundExactlyWhenAbsent | internal/api/handlers.go:104-151 | over the table, GET and DELETE with any body, and PUT with a valid body, answer 404 exactly when no row has the id, and otherwise answer 200 or 204 |
| Service.DriverFailureIs500 | internal/storage/postgres.go:60-143 | when the driver fails with a text free of the marker, every request that reaches the store is answered 500, including a delete whose statement ran but whose affected-row count could not be read |
| Service.MarkerInDriverTextReads404 | internal/api/handlers.go:104-151 | a driver failure whose text holds "não encontrado" anywhere makes GET, PUT and DELETE answer 404, for a DELETE whether its statement or its affected-row count fails, so the classification depends on the driver's wording |
| Service.CreateThenGet | internal/storage/postgres.go:52-81 | on any table, the insert succeeds exactly when the generated id is free; the table changes exactly as the insert statement says, and the inserted row is then what a lookup of that id returns |
| Service.CreatedItemIsReadBack | internal/api/handlers.go:68-116 | on any table, POST `/todos` answers 201 with the new item, and a GET of its id afterwards answers 200 with that same item |
| Service.TitlesStayNonEmpty | internal/api/handlers.go:75-78 | if every stored row has a non-empty title, serving any request keeps it so, because create and update are refused before the store when the title is empty |
| Service.CreateReadUpdateDeleteScenario | internal/api/handlers.go:68-153 | POST gives 201 with the new item, not completed; GET gives 200 with the same item; PUT with completed gives 200 with it completed and a later `updated_at`; DELETE gives 204; a second GET gives 404 |

## Left out

- Process bootstrap in `cmd/server/main.go` is I/O and concurrency, and is not modelled: environment and `.env` loading, signal handling, the server goroutine and the graceful shutdown.
- Connection handling is a foreign library and is not modelled: `NewPostgresStore` opening and pinging the pool, `Close`, and context cancellation. A cancelled or failed call appears only as a driver error text.
- JSON encoding and decoding are not modelled. A body is `Decoded(todo)` or `Malformed`, and `respondWithJSON` is the `Response` value it would write. The marshal-failure 500 in `internal/api/helpers.go` cannot occur for these payloads. Headers and logging are not modelled.
- `net/http.ServeMux` path cleaning and redirects are not modelled; paths reach the patterns as given.
- `time.Time` is not modelled. Timestamps are integer ticks and `NOW()` is the `now` parameter, so nothing forces `updated_at` to move forward.
- Storage.PostgresStore.CreateTodo: id generation is a parameter. A generated id that is already taken fails the insert, as the primary key would.
- Storage.OrderByCreatedDesc: PostgreSQL leaves the order of rows with equal `created_at` unspecified. The model fixes one order: equal rows keep table order.
- Storage.PostgresStore.CreateTodo, Storage.PostgresStore.UpdateTodo: a failure after the statement ran is not modelled; the table is left unchanged. The exception is the rows-affected failure of delete.
- The schema's length bound on `title` and `NOT NULL` constraints are not modelled. The schema file is not part of this model.
- Storage.PostgresStore.ListTodos: a scan failure is modelled at a chosen row index, and an iteration failure is reported after the last row. The row at which `rows.Next` stops early is not modelled; the result, an error and no list, is the same.
- Go strings are byte sequences, and `strings.Contains` and `TrimPrefix` work on bytes. The model uses `seq<char>`. For valid UTF-8 the two agree, and every fixed message prefix ends in ASCII, so a marker cannot form across the boundary with the driver text. An id containing invalid UTF-8 bytes cannot be represented.
- Ids are treated as any string the `id` column accepts. The column type is not modelled because the schema is not part of this model. If the column were `uuid`, an id that is not a valid UUID would make the statement fail with a cast error, and the handlers would answer 500, not 404.
