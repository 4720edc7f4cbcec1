/** What the HTTP layer promises for every request and every store behaviour:
    which handler a method and path reach, that validation happens before the
    store is touched, and how store results become status codes. */
module ApiProperties {
  import opened Todos
  import opened Text
  import opened Api

  /** Whether the store call a handler made succeeded. */
  predicate CallSucceeded(store: Store, call: StoreCall) {
    match call
    case CreateCall(t) => store.create(t).Ok?
    case GetCall(id) => store.get(id).Ok?
    case ListCall => store.list.Ok?
    case UpdateCall(id, t) => store.update(id, t).Ok?
    case DeleteCall(id) => store.delete(id).Ok?
  }

  /** The error text of a failed store call. */
  function CallError(store: Store, call: StoreCall): string
    requires !CallSucceeded(store, call)
  {
    match call
    case CreateCall(t) => store.create(t).message
    case GetCall(id) => store.get(id).message
    case ListCall => store.list.message
    case UpdateCall(id, t) => store.update(id, t).message
    case DeleteCall(id) => store.delete(id).message
  }

  /** `/todos/` followed by `id` selects the id route and yields `id` back,
      with only the first `/todos/` removed. */
  lemma {:induction false} ItemPathYieldsId(id: string)
    ensures HasPrefix(ItemPrefix + id, ItemPrefix)
    ensures ItemPrefix + id != CollectionPath
    ensures TrimPrefix(ItemPrefix + id, ItemPrefix) == id
  {
    assert (ItemPrefix + id)[..|ItemPrefix|] == ItemPrefix;
    assert |ItemPrefix + id| != |CollectionPath|;
  }

  /** On the exact path `/todos`: GET lists, POST creates, and every other
      method is refused with 405 without touching the store. */
  lemma CollectionDispatch(m: string, payload: Payload, store: Store)
    ensures var x := ServeHTTP(Request(m, CollectionPath, payload), store);
      (m == MethodGet ==> x.call == Some(ListCall)) &&
      (m == MethodPost ==> x.call.None? || x.call == Some(CreateCall(payload.todo))) &&
      (m != MethodGet && m != MethodPost ==>
        x == Exchange(None, Response(StatusMethodNotAllowed, ErrorJson(MsgMethodNotAllowed))))
  {
  }

  /** On `/todos/<id>` with a non-empty id: GET, PUT and DELETE reach get,
      update and delete for that id, and every other method is 405. */
  lemma ItemDispatch(m: string, id: string, payload: Payload, store: Store)
    requires id != ""
    ensures var x := ServeHTTP(Request(m, ItemPrefix + id, payload), store);
      (m == MethodGet ==> x.call == Some(GetCall(id))) &&
      (m == MethodPut ==> x.call.None? || x.call == Some(UpdateCall(id, payload.todo))) &&
      (m == MethodDelete ==> x.call == Some(DeleteCall(id))) &&
      (m != MethodGet && m != MethodPut && m != MethodDelete ==>
        x == Exchange(None, Response(StatusMethodNotAllowed, ErrorJson(MsgMethodNotAllowed))))
  {
    ItemPathYieldsId(id);
  }

  /** `/todos/` itself has an empty id: 400 for every method, POST included,
      before the method is examined. */
  lemma EmptyIdRejectedBeforeMethod(m: string, payload: Payload, store: Store)
    ensures ServeHTTP(Request(m, ItemPrefix, payload), store)
      == Exchange(None, Response(StatusBadRequest, ErrorJson(MsgEmptyId)))
  {
    ItemPathYieldsId("");
    assert ItemPrefix + "" == ItemPrefix;
  }

  /** Paths outside both patterns get the mux's plain-text 404. */
  lemma UnroutedPaths(r: Request, store: Store)
    requires r.path != CollectionPath && !HasPrefix(r.path, ItemPrefix)
    ensures ServeHTTP(r, store) == Exchange(None, Response(StatusNotFound, PlainText(MuxNotFoundText)))
  {
  }

  /** Create (POST /todos) and update (PUT /todos/<id>) answer 400 to a body
      that does not decode or has an empty title, and then make no store call. */
  lemma ValidationBeforeStore(id: string, payload: Payload, store: Store)
    requires id != ""
    requires payload.Malformed? || payload.todo.title == ""
    ensures var message := if payload.Malformed? then MsgInvalidPayload else MsgTitleRequired;
      ServeHTTP(Request(MethodPost, CollectionPath, payload), store)
        == Exchange(None, Response(StatusBadRequest, ErrorJson(message))) &&
      ServeHTTP(Request(MethodPut, ItemPrefix + id, payload), store)
        == Exchange(None, Response(StatusBadRequest, ErrorJson(message)))
  {
    ItemPathYieldsId(id);
  }

  /** A valid create: every store error is 500 whatever its text, success is
      201 with the record the store returned. */
  lemma CreateOutcome(t: Todo, store: Store)
    requires t.title != ""
    ensures var x := ServeHTTP(Request(MethodPost, CollectionPath, Decoded(t)), store);
      x.call == Some(CreateCall(t)) &&
      x.response == match store.create(t)
        case Err(_) => Response(StatusInternalServerError, ErrorJson(MsgCreateFailed))
        case Ok(created) => Response(StatusCreated, TodoJson(created))
  {
  }

  /** List: an error is 500; success is 200 with a JSON array of the slice's
      elements, so a nil slice is sent as `[]` and never as null. */
  lemma ListOutcome(payload: Payload, store: Store)
    ensures var x := ServeHTTP(Request(MethodGet, CollectionPath, payload), store);
      x.response == match store.list
        case Err(_) => Response(StatusInternalServerError, ErrorJson(MsgListFailed))
        case Ok(todos) => Response(StatusOK, ListJson(todos.Elements()))
  {
  }

  /** Get, update and delete answer a store error with 404 exactly when its
      text contains "não encontrado", and with 500 otherwise. */
  lemma ErrorClassification(m: string, id: string, t: Todo, store: Store)
    requires id != "" && t.title != ""
    requires m in {MethodGet, MethodPut, MethodDelete}
    ensures var x := ServeHTTP(Request(m, ItemPrefix + id, Decoded(t)), store);
      x.call.Some? &&
      (!CallSucceeded(store, x.call.value) ==>
        (x.response.status == StatusNotFound <==> Contains(CallError(store, x.call.value), NotFoundText)) &&
        (x.response.status == StatusInternalServerError <==> !Contains(CallError(store, x.call.value), NotFoundText)))
  {
    ItemPathYieldsId(id);
  }

  /** Get and update through the router: a store success is answered 200
      with the very record the store returned. */
  lemma ItemSuccessOutcome(id: string, t: Todo, store: Store)
    requires id != "" && t.title != ""
    ensures store.get(id).Ok? ==>
      ServeHTTP(Request(MethodGet, ItemPrefix + id, Decoded(t)), store).response
        == Response(StatusOK, TodoJson(store.get(id).value))
    ensures store.update(id, t).Ok? ==>
      ServeHTTP(Request(MethodPut, ItemPrefix + id, Decoded(t)), store).response
        == Response(StatusOK, TodoJson(store.update(id, t).value))
  {
    ItemPathYieldsId(id);
  }

  /** Update sends the id from the URL, whatever id the body carries; delete
      success is 204 with no JSON value. */
  lemma UpdateUsesUrlIdDeleteAnswers204(id: string, t: Todo, store: Store)
    requires id != "" && t.title != ""
    ensures ServeHTTP(Request(MethodPut, ItemPrefix + id, Decoded(t)), store).call == Some(UpdateCall(id, t))
    ensures store.delete(id).Ok? ==>
      ServeHTTP(Request(MethodDelete, ItemPrefix + id, Decoded(t)), store).response == Response(StatusNoContent, NullJson)
  {
    ItemPathYieldsId(id);
  }

  /** Over all requests: every status is one of the handlers' seven or the
      mux's 404; a 2xx status means a store call was made and succeeded, and
      a store call that succeeded always gives a 2xx status. */
  lemma StatusReflectsStoreOutcome(r: Request, store: Store)
    ensures var x := ServeHTTP(r, store);
      KnownStatus(x.response.status) &&
      (200 <= x.response.status < 300 <==> x.call.Some? && CallSucceeded(store, x.call.value))
  {
  }

  /** The store is only ever asked to create or update a record with a
      non-empty title. */
  lemma StoredTitlesNonEmpty(r: Request, store: Store)
    ensures var x := ServeHTTP(r, store);
      (x.call.Some? && x.call.value.CreateCall? ==> x.call.value.todo.title != "") &&
      (x.call.Some? && x.call.value.UpdateCall? ==> x.call.value.todo.title != "")
  {
  }
}
