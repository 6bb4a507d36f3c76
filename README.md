# Todo service — a verified model

This project models the business core of a small Spring Boot CRUD service
for one entity, the `Todo` (id, title, finished flag, creation time):

- **Entity** (`todo.dfy`): the `Todo` record with its defaults.
- **Store** (`todo_repository.dfy`): the `todo` table behind the MyBatis
  repository interface. `Table` is the table as a value (rows keyed by id,
  plus the identity counter), with one function per SQL statement; the
  class `TodoRepository` holds the same state in fields and changes it in
  place. Each of its methods is proved equal to the matching function.
- **TodoService** (`todo_service.dfy`): the five service operations as
  functions from the table before a call to the outcome and the table
  after it. This is where the business rules live: the cap of five
  unfinished Todos on `create`, the one-way `finish`, and NotFound for a
  missing id. The module also proves what holds over any sequence of calls.
- **ServiceImpl** (`todo_service_impl.dfy`): the class `TodoServiceImpl`.
  It holds its repository and makes the same checks and repository calls
  as the Kotlin class. Each method is proved to produce exactly the outcome
  and the new table that the matching `TodoService` function gives.
- **Resource** (`todo_resource.dfy`) and **Mapper** (`todo_mapper.dfy`):
  the wire resource, its title constraint, and the two field-copying
  conversions.

The exceptions `ResourceNotFoundException` and `BusinessException` become
the `NotFound` and `BusinessError` variants of `TodoService.Outcome`.
`BusinessError` carries which rule was broken (`TooManyUnfinished` or
`AlreadyFinished`). `LocalDateTime.now()` becomes the `now` parameter of
`Create`. A timestamp is an opaque integer.

Design choices where the source leaves something open:
- `findAll` has no `ORDER BY`. The model returns rows in ascending id
  order, the order of a primary-key scan (see "## Left out"). Every stored
  row appears exactly once.
- Generated ids come from a counter that starts at 1 and goes up by one on
  each insert. The lemmas use only that the id is fresh and larger than
  every stored id.
- `@Size` on a `String` counts UTF-16 code units (`String.length`). A
  character outside the Basic Multilingual Plane therefore counts twice
  toward the limit of 30.

## Model

| member | source | states |
|---|---|---|
| Entity.DefaultTodo | src/main/kotlin/com/example/tutorial/todo/Todo.kt:6-11 | A Todo built with no arguments has no id, title "", finished false and no creation time |
| Entity.TodoEquality | src/main/kotlin/com/example/tutorial/todo/Todo.kt:6-11 | Two Todos are equal exactly when all four fields are equal |
| Store.Scan | src/main/kotlin/com/example/tutorial/todo/TodoRepository.kt:10-11 | Scanning ids below n yields only stored rows (each under its own id, below n), yields every stored row below n, and yields them in strictly ascending id order |
| Store.Table.Find | src/main/kotlin/com/example/tutorial/todo/TodoRepository.kt:7-8 | A row is found exactly when some stored row carries that id, and the found row is a stored row carrying that id |
| Store.Table.All | src/main/kotlin/com/example/tutorial/todo/TodoRepository.kt:10-11 | The listing holds exactly the stored rows, with no duplicates (strictly ascending ids) |
| Store.Table.Count | src/main/kotlin/com/example/tutorial/todo/TodoRepository.kt:23-24 | The number of rows whose finished flag equals the argument; it is zero exactly when no row has that flag |
| Store.Table.Matching | src/main/kotlin/com/example/tutorial/todo/TodoRepository.kt:17-21 | The number of rows an UPDATE or DELETE by id touches is 1 when the id is stored and 0 otherwise |
| Store.Table.Insert | src/main/kotlin/com/example/tutorial/todo/TodoRepository.kt:13-15 | The insert adds exactly one row, under a fresh id larger than every stored id, holding the caller's title, finished flag and creation time with that id written in; other rows are unchanged; the table stays well formed |
| Store.Table.MarkFinished | src/main/kotlin/com/example/tutorial/todo/TodoRepository.kt:17-18 | The row with that id becomes finished whatever it was before; its other fields, every other row, the key set and the id counter are unchanged |
| Store.Table.Remove | src/main/kotlin/com/example/tutorial/todo/TodoRepository.kt:20-21 | Exactly that id leaves the key set; every remaining row is unchanged |
| Store.CountsPartition | src/main/kotlin/com/example/tutorial/todo/TodoRepository.kt:23-24 | The counts for finished = false and finished = true add up to the number of rows |
| Store.CountAfterInsert | src/main/kotlin/com/example/tutorial/todo/TodoRepository.kt:13-24 | An insert raises the count of the inserted row's flag by one and leaves the other count unchanged |
| Store.CountAfterMarkFinished | src/main/kotlin/com/example/tutorial/todo/TodoRepository.kt:17-24 | Marking an unfinished row finished moves one from the unfinished count to the finished count; otherwise the counts stay the same |
| Store.CountAfterRemove | src/main/kotlin/com/example/tutorial/todo/TodoRepository.kt:20-24 | Deleting a stored row lowers the count of its flag by one; deleting a missing id changes no count |
| Store.CountPut | src/main/kotlin/com/example/tutorial/todo/TodoRepository.kt:23-24 | Adding a row under a new key raises the count of that row's flag by one and leaves the other count unchanged |
| Store.ScanAgrees | src/main/kotlin/com/example/tutorial/todo/TodoRepository.kt:10-11 | Two tables that hold the same rows below an id list the same rows below it |
| Store.InsertAppends | src/main/kotlin/com/example/tutorial/todo/TodoRepository.kt:13-15 | After an insert, the listing is the old listing with the inserted row appended, so the new row is last in id order (the row `ORDER BY todo_id DESC LIMIT 1` picks) |
| Store.SampleTable | src/test/kotlin/com/example/tutorial/todo/TodoRepositoryTest.kt:44-112 | On the three sample rows: the table is well formed, 2 rows are unfinished and 1 is finished, and findById(1) returns row 1 |
| Store.TodoRepository.FindById | src/main/kotlin/com/example/tutorial/todo/TodoRepository.kt:7-8 | Returns what `Table.Find` gives on the current table and changes nothing |
| Store.TodoRepository.FindAll | src/main/kotlin/com/example/tutorial/todo/TodoRepository.kt:10-11 | Returns what `Table.All` gives on the current table and changes nothing |
| Store.TodoRepository.Create | src/main/kotlin/com/example/tutorial/todo/TodoRepository.kt:13-15 | The new table is `Table.Insert` of the old one, and the argument is handed back with the generated id written into it |
| Store.TodoRepository.UpdateById | src/main/kotlin/com/example/tutorial/todo/TodoRepository.kt:17-18 | The new table is `Table.MarkFinished` of the old one; returns 1 if the id was stored and 0 otherwise |
| Store.TodoRepository.DeleteById | src/main/kotlin/com/example/tutorial/todo/TodoRepository.kt:20-21 | The new table is `Table.Remove` of the old one; returns 1 if the id was stored and 0 otherwise |
| Store.TodoRepository.CountByFinished | src/main/kotlin/com/example/tutorial/todo/TodoRepository.kt:23-24 | Returns the number of rows whose flag equals the argument and changes nothing |
| TodoService.Outcome.PropagateFailure | src/main/kotlin/com/example/tutorial/todo/TodoServiceImpl.kt:45 | A NotFound or BusinessError from `findOne` reaches the caller unchanged |
| TodoService.FindOne | src/main/kotlin/com/example/tutorial/todo/TodoServiceImpl.kt:18-23 | Ok exactly when the store finds the id, and then the value is a stored row carrying that id; otherwise NotFound for that id; never a business error |
| TodoService.Create | src/main/kotlin/com/example/tutorial/todo/TodoServiceImpl.kt:29-42 | BusinessError(TooManyUnfinished) exactly when 5 or more Todos are unfinished, and then the table is unchanged; otherwise returns the caller's title with the new id, finished false whatever the caller sent, and creation time now, and the table gains exactly that row; never NotFound |
| TodoService.Finish | src/main/kotlin/com/example/tutorial/todo/TodoServiceImpl.kt:44-54 | NotFound exactly when the id is missing; BusinessError(AlreadyFinished) exactly when the row is already finished; both leave the table unchanged; on success returns the stored row with finished true and marks it finished in the table |
| TodoService.Delete | src/main/kotlin/com/example/tutorial/todo/TodoServiceImpl.kt:56-59 | NotFound exactly when the id is missing, with the table unchanged; otherwise exactly that row is removed; never a business error |
| TodoService.CreateBelowCap | src/main/kotlin/com/example/tutorial/todo/TodoServiceImpl.kt:29-41 | Below the cap, create succeeds, raises the unfinished count by exactly one and leaves the finished count unchanged |
| TodoService.FinishLowersUnfinished | src/main/kotlin/com/example/tutorial/todo/TodoServiceImpl.kt:44-54 | A successful finish lowers the unfinished count by one; a failed one leaves it unchanged |
| TodoService.DeleteNeverRaisesUnfinished | src/main/kotlin/com/example/tutorial/todo/TodoServiceImpl.kt:56-59 | Delete never raises the unfinished count |
| TodoService.CreateThenFindOne | src/main/kotlin/com/example/tutorial/todo/TodoServiceImpl.kt:18-42 | After a successful create, findOne of the new id returns exactly the Todo that create returned |
| TodoService.FinishTwiceFails | src/main/kotlin/com/example/tutorial/todo/TodoServiceImpl.kt:44-54 | After a successful finish, a second finish of the same id fails with BusinessError(AlreadyFinished) |
| TodoService.DeleteThenFindOne | src/main/kotlin/com/example/tutorial/todo/TodoServiceImpl.kt:18-59 | After delete of an id, whatever delete returned, findOne of that id fails with NotFound |
| TodoService.Step | src/main/kotlin/com/example/tutorial/todo/TodoService.kt:3-9 | Any one of the five service calls leaves a well-formed table |
| TodoService.Run | src/main/kotlin/com/example/tutorial/todo/TodoService.kt:3-9 | Any sequence of service calls leaves a well-formed table |
| TodoService.StepKeepsCap | src/main/kotlin/com/example/tutorial/todo/TodoServiceImpl.kt:10-59 | If at most 5 Todos are unfinished before a service call, at most 5 are unfinished after it |
| TodoService.CapInvariant | src/main/kotlin/com/example/tutorial/todo/TodoServiceImpl.kt:10-59 | If at most 5 Todos are unfinished at the start, at most 5 are unfinished after any sequence of service calls |
| TodoService.EvolvesTransitive | src/main/kotlin/com/example/tutorial/todo/TodoServiceImpl.kt:29-59 | The lifecycle relation between an earlier and a later table composes over consecutive stretches of calls |
| TodoService.StepEvolves | src/main/kotlin/com/example/tutorial/todo/TodoServiceImpl.kt:29-59 | One service call never lowers the id counter, never brings back a freed id, never changes a row's id, title or creation time, and never unfinishes a row |
| TodoService.RunEvolves | src/main/kotlin/com/example/tutorial/todo/TodoServiceImpl.kt:29-59 | The same holds over any sequence of calls: ids and creation times are immutable, finished goes only from false to true, and deleted ids are never reused |
| ServiceImpl.TodoServiceImpl.FindOne | src/main/kotlin/com/example/tutorial/todo/TodoServiceImpl.kt:18-23 | Returns exactly what `TodoService.FindOne` gives on the repository's table and changes nothing |
| ServiceImpl.TodoServiceImpl.FindAll | src/main/kotlin/com/example/tutorial/todo/TodoServiceImpl.kt:25-27 | Returns the repository's listing unchanged, in the repository's order, and changes nothing |
| ServiceImpl.TodoServiceImpl.Create | src/main/kotlin/com/example/tutorial/todo/TodoServiceImpl.kt:29-42 | Outcome and new table are exactly those of `TodoService.Create`; the cap of 5 unfinished Todos is kept if it held before |
| ServiceImpl.TodoServiceImpl.Finish | src/main/kotlin/com/example/tutorial/todo/TodoServiceImpl.kt:44-54 | Outcome and new table are exactly those of `TodoService.Finish`; the unfinished count never rises |
| ServiceImpl.TodoServiceImpl.Delete | src/main/kotlin/com/example/tutorial/todo/TodoServiceImpl.kt:56-59 | Outcome and new table are exactly those of `TodoService.Delete`; the unfinished count never rises |
| Resource.Utf16Length | src/main/kotlin/com/example/tutorial/todo/TodoResource.kt:10-12 | A title's UTF-16 length lies between its character count and twice that, and is zero only for the empty title |
| Resource.Utf16LengthOfBmp | src/main/kotlin/com/example/tutorial/todo/TodoResource.kt:11-12 | For a title of Basic Multilingual Plane characters, the UTF-16 length equals the character count |
| Resource.IsValid | src/main/kotlin/com/example/tutorial/todo/TodoResource.kt:10-12 | A resource is valid exactly when its title is non-empty (`@NotEmpty`) and its UTF-16 length is at most 30 (`@Size(max = 30)`); no other field is checked |
| Resource.ValidTitleBounds | src/main/kotlin/com/example/tutorial/todo/TodoResource.kt:10-12 | A valid resource has a non-empty title of at most 30 characters |
| Resource.ValidTitleExactly | src/main/kotlin/com/example/tutorial/todo/TodoResource.kt:10-12 | For Basic Multilingual Plane titles, valid exactly when 1 to 30 characters long; any title of 1 to 15 characters is valid |
| Resource.ValidityIgnoresOtherFields | src/main/kotlin/com/example/tutorial/todo/TodoResource.kt:8-16 | Validity does not depend on id, finished or createdAt |
| Resource.DefaultResource | src/main/kotlin/com/example/tutorial/todo/TodoResource.kt:8-16 | A default resource has no id, finished false, no createdAt and title "", so it is invalid |
| Mapper.ToResource | src/main/kotlin/com/example/tutorial/todo/TodoMapper.kt:8 | The resource has the Todo's id, title, finished flag and creation time |
| Mapper.ToTodo | src/main/kotlin/com/example/tutorial/todo/TodoMapper.kt:10-12 | The Todo has the resource's id and title, and the Todo defaults for finished (false) and createdAt (absent) |
| Mapper.ToTodoIgnoresServerFields | src/main/kotlin/com/example/tutorial/todo/TodoMapper.kt:10-12 | The inbound conversion gives the same Todo whatever the resource's finished and createdAt are |
| Mapper.TodoRoundTrip | src/main/kotlin/com/example/tutorial/todo/TodoMapper.kt:8-12 | Todo to resource and back gives the original Todo with finished reset to false and createdAt cleared |
| Mapper.ResourceRoundTrip | src/main/kotlin/com/example/tutorial/todo/TodoMapper.kt:8-12 | Resource to Todo and back gives the original resource with finished reset to false and createdAt cleared |
| Mapper.ToResourceInjective | src/main/kotlin/com/example/tutorial/todo/TodoMapper.kt:8 | Distinct Todos map to distinct resources: the outbound conversion loses nothing |

`ServiceImpl.CapScenario` is a client of the two classes. It shows, from
their contracts alone, a run of calls on an empty repository: five creates
succeed and the sixth is refused; a finish succeeds and a second finish of
the same id is refused; after that finish a create succeeds again; a
deleted id is then not found.

## Left out

- The controller (`TodoController.kt`): HTTP routing, status codes (404
  for NotFound, 409 for BusinessError, 201/204 on success), JSON
  marshalling, and triggering validation. Only the validity predicate and
  the conversions it calls are modelled.
- The `uuuu/MM/dd HH:mm:ss` JSON date format on `createdAt`. This is a
  Jackson formatting call. Timestamps are opaque integers.
- The message texts of the two exceptions. The model keeps the kind of
  failure, the id for NotFound, and the broken rule for BusinessError.
- `LocalDateTime.now()`: the clock reading is a parameter of `Create`.
- Store.TodoRepository.Create, TodoService.Create, ServiceImpl.TodoServiceImpl.Create:
  the source changes the caller's own `Todo` object. The service writes
  `createdAt` and `finished = false` into it, and the repository writes the
  generated id into it. The model returns an updated copy instead, so
  aliasing between that object and other references to it is not modelled.
  The same applies to the Todo that `finish` changes and returns.
- Store.Table.All: the `SELECT` behind `findAll` has no `ORDER BY`, so the
  source promises no order. The ascending-id order in the contract of
  `Store.Table.All` (and of `Store.Scan`) is the model's choice. So is the
  "appended last" part of `Store.InsertAppends`. Only "every stored row
  exactly once" is what the source promises.
- Resource.Utf16Length: Dafny's `char` is a Unicode scalar value, so a
  title holding an unpaired surrogate (a JSON `\uD800` escape) cannot be
  represented. `String.length()` would count such a code unit as 1.
- Integer widths: ids and counts are Kotlin `Long`. The model uses
  unbounded integers, so identity-column overflow is not modelled.
- H2 identity mechanics: the counter goes up by exactly one per insert. A
  database may skip values; only "fresh and larger than every stored id" is
  relied on.
- The `@Transactional` boundary and storage failures (connectivity,
  constraint violations): each call is modelled as an atomic step that
  cannot fail in storage.
- Concurrency: the check-then-act race between counting and inserting in
  `create`, and the read-then-act in `finish` and `delete`. The model is
  sequential, so the cap invariant is proved only for calls made one after
  another.
- Bean Validation, MapStruct and Spring wiring as frameworks: only the
  title predicate and the field copying they express are modelled. A JSON
  `null` title cannot reach the Kotlin non-null `String` and is not
  modelled.
- `TodoService.kt` holds only the five signatures; the `TodoService` module
  states their behaviour.
