/** The HTTP layer (`APIServer`): route selection, method dispatch, payload
    validation and the mapping of store results to responses. Each handler is
    a function of the request and of the store it calls, and returns the one
    response it writes together with the store call it made, if any. */
module Api {
  import opened Todos
  import opened Text

  const StatusOK := 200
  const StatusCreated := 201
  const StatusNoContent := 204
  const StatusBadRequest := 400
  const StatusNotFound := 404
  const StatusMethodNotAllowed := 405
  const StatusInternalServerError := 500

  const MethodGet := "GET"
  const MethodPost := "POST"
  const MethodPut := "PUT"
  const MethodDelete := "DELETE"

  /** The two patterns registered on the mux. */
  const CollectionPath := "/todos"
  const ItemPrefix := "/todos/"

  /** What the get, update and delete handlers look for in a store error. */
  const NotFoundText := "não encontrado"

  const MsgMethodNotAllowed := "Método não permitido"
  const MsgEmptyId := "ID do To-Do não pode ser vazio"
  const MsgInvalidPayload := "Payload da requisição inválido"
  const MsgTitleRequired := "O título é obrigatório"
  const MsgCreateFailed := "Falha ao criar to-do"
  const MsgListFailed := "Falha ao listar to-dos"
  const MsgGetNotFound := "To-do não encontrado"
  const MsgGetFailed := "Falha ao buscar to-do"
  const MsgUpdateNotFound := "To-do não encontrado para atualizar"
  const MsgUpdateFailed := "Falha ao atualizar to-do"
  const MsgDeleteNotFound := "To-do não encontrado para deletar"
  const MsgDeleteFailed := "Falha ao deletar to-do"

  /** The mux's reply for a path no pattern matches (`http.NotFound`). */
  const MuxNotFoundText := "404 page not found\n"

  /** The request body after JSON decoding into a `todo.Todo`: fields the
      client left out hold their zero values. */
  datatype Payload = Decoded(todo: Todo) | Malformed

  datatype Request = Request(verb: string, path: string, payload: Payload)

  /** What reaches the client: a JSON payload or, from the mux, plain text. */
  datatype Body =
    | ErrorJson(error: string)      // {"error": message}
    | TodoJson(todo: Todo)
    | ListJson(todos: seq<Todo>)    // a JSON array, never null
    | NullJson                      // the payload nil
    | PlainText(text: string)

  datatype Response = Response(status: int, body: Body)

  /** The `Store` interface as the handlers see it: what each of its five
      operations answers. */
  datatype Store = Store(
    create: Todo -> Result<Todo>,
    get: string -> Result<Todo>,
    list: Result<TodoSlice>,
    update: (string, Todo) -> Result<Todo>,
    delete: string -> Result<()>)

  datatype StoreCall =
    | CreateCall(todo: Todo)
    | GetCall(id: string)
    | ListCall
    | UpdateCall(id: string, todo: Todo)
    | DeleteCall(id: string)

  /** The response a handler writes and the store call it made, if any. */
  datatype Exchange = Exchange(call: Option<StoreCall>, response: Response)

  /** `respondWithError`: the status with body `{"error": message}`. */
  function RespondWithError(code: int, message: string): Response {
    Response(code, ErrorJson(message))
  }

  /** A store error that get, update and delete answer with 404. */
  predicate IsNotFoundError(message: string) {
    Contains(message, NotFoundText)
  }

  /** The statuses a handler can write. */
  predicate KnownStatus(code: int) {
    code in {StatusOK, StatusCreated, StatusNoContent, StatusBadRequest,
             StatusNotFound, StatusMethodNotAllowed, StatusInternalServerError}
  }

  /** `handleCreateTodo`: decode, require a title, then insert. */
  function HandleCreateTodo(payload: Payload, store: Store): (x: Exchange)
    ensures x.call.Some? <==> payload.Decoded? && payload.todo.title != ""
    ensures x.call.Some? ==> x.call.value == CreateCall(payload.todo)
    ensures x.response.status in {StatusCreated, StatusBadRequest, StatusInternalServerError}
  {
    match payload
    case Malformed => Exchange(None, RespondWithError(StatusBadRequest, MsgInvalidPayload))
    case Decoded(t) =>
      if t.title == "" then Exchange(None, RespondWithError(StatusBadRequest, MsgTitleRequired))
      else
        var call := Some(CreateCall(t));
        match store.create(t)
        case Err(_) => Exchange(call, RespondWithError(StatusInternalServerError, MsgCreateFailed))
        case Ok(created) => Exchange(call, Response(StatusCreated, TodoJson(created)))
  }

  /** `handleListTodos`: a nil slice is answered as an empty array. */
  function HandleListTodos(store: Store): (x: Exchange)
    ensures x.call == Some(ListCall)
    ensures x.response.status in {StatusOK, StatusInternalServerError}
    ensures x.response.status == StatusOK ==> x.response.body.ListJson?
  {
    match store.list
    case Err(_) => Exchange(Some(ListCall), RespondWithError(StatusInternalServerError, MsgListFailed))
    case Ok(todos) =>
      var nonNil := if todos.Nil? then Slice([]) else todos;
      Exchange(Some(ListCall), Response(StatusOK, ListJson(nonNil.items)))
  }

  function HandleGetTodo(id: string, store: Store): (x: Exchange)
    ensures x.call == Some(GetCall(id))
    ensures x.response.status in {StatusOK, StatusNotFound, StatusInternalServerError}
    ensures store.get(id).Ok? ==> x.response == Response(StatusOK, TodoJson(store.get(id).value))
  {
    var call := Some(GetCall(id));
    match store.get(id)
    case Err(message) =>
      if IsNotFoundError(message) then Exchange(call, RespondWithError(StatusNotFound, MsgGetNotFound))
      else Exchange(call, RespondWithError(StatusInternalServerError, MsgGetFailed))
    case Ok(found) => Exchange(call, Response(StatusOK, TodoJson(found)))
  }

  /** `handleUpdateTodo`: the store is told the id from the URL. */
  function HandleUpdateTodo(id: string, payload: Payload, store: Store): (x: Exchange)
    ensures x.call.Some? <==> payload.Decoded? && payload.todo.title != ""
    ensures x.call.Some? ==> x.call.value == UpdateCall(id, payload.todo)
    ensures x.response.status in {StatusOK, StatusBadRequest, StatusNotFound, StatusInternalServerError}
    ensures payload.Decoded? && payload.todo.title != "" && store.update(id, payload.todo).Ok? ==>
      x.response == Response(StatusOK, TodoJson(store.update(id, payload.todo).value))
  {
    match payload
    case Malformed => Exchange(None, RespondWithError(StatusBadRequest, MsgInvalidPayload))
    case Decoded(t) =>
      if t.title == "" then Exchange(None, RespondWithError(StatusBadRequest, MsgTitleRequired))
      else
        var call := Some(UpdateCall(id, t));
        match store.update(id, t)
        case Err(message) =>
          if IsNotFoundError(message) then Exchange(call, RespondWithError(StatusNotFound, MsgUpdateNotFound))
          else Exchange(call, RespondWithError(StatusInternalServerError, MsgUpdateFailed))
        case Ok(result) => Exchange(call, Response(StatusOK, TodoJson(result)))
  }

  /** `handleDeleteTodo`: success is 204 with the payload nil (net/http sends
      no body with a 204). */
  function HandleDeleteTodo(id: string, store: Store): (x: Exchange)
    ensures x.call == Some(DeleteCall(id))
    ensures x.response.status in {StatusNoContent, StatusNotFound, StatusInternalServerError}
  {
    var call := Some(DeleteCall(id));
    match store.delete(id)
    case Err(message) =>
      if IsNotFoundError(message) then Exchange(call, RespondWithError(StatusNotFound, MsgDeleteNotFound))
      else Exchange(call, RespondWithError(StatusInternalServerError, MsgDeleteFailed))
    case Ok(_) => Exchange(call, Response(StatusNoContent, NullJson))
  }

  /** `handleTodos`, registered for the exact path `/todos`. */
  function HandleTodos(r: Request, store: Store): (x: Exchange)
    ensures x.call.Some? ==> r.verb in {MethodGet, MethodPost}
  {
    if r.verb == MethodGet then HandleListTodos(store)
    else if r.verb == MethodPost then HandleCreateTodo(r.payload, store)
    else Exchange(None, RespondWithError(StatusMethodNotAllowed, MsgMethodNotAllowed))
  }

  /** `handleTodoByID`, registered for the subtree `/todos/`: the id is the
      path with one leading `/todos/` removed, and an empty id is refused
      before the method is looked at. */
  function HandleTodoByID(r: Request, store: Store): (x: Exchange)
    ensures x.call.Some? ==> r.verb in {MethodGet, MethodPut, MethodDelete}
  {
    var id := TrimPrefix(r.path, ItemPrefix);
    if id == "" then Exchange(None, RespondWithError(StatusBadRequest, MsgEmptyId))
    else if r.verb == MethodGet then HandleGetTodo(id, store)
    else if r.verb == MethodPut then HandleUpdateTodo(id, r.payload, store)
    else if r.verb == MethodDelete then HandleDeleteTodo(id, store)
    else Exchange(None, RespondWithError(StatusMethodNotAllowed, MsgMethodNotAllowed))
  }

  /** The mux after `RegisterRoutes`: the exact pattern `/todos`, the subtree
      pattern `/todos/`, and the mux's own 404 for every other path. */
  function ServeHTTP(r: Request, store: Store): (x: Exchange)
    ensures x.call.Some? ==> r.path == CollectionPath || HasPrefix(r.path, ItemPrefix)
  {
    if r.path == CollectionPath then HandleTodos(r, store)
    else if HasPrefix(r.path, ItemPrefix) then HandleTodoByID(r, store)
    else Exchange(None, Response(StatusNotFound, PlainText(MuxNotFoundText)))
  }
}
