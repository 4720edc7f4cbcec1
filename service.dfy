/** The HTTP layer running over the PostgreSQL store: the answers the table
    gives the handlers, a request served against a live `PostgresStore`, and
    what the string-matching error classification yields end to end. */
module Service {
  import opened Todos
  import opened Text
  import opened Storage
  import opened Api
  import ApiProperties

  /** The answers a table with these rows gives when no driver call fails;
      `freshId` and `now` are the id and `NOW()` an insert or update would get. */
  function TableStore(rows: seq<Todo>, freshId: string, now: int): Store {
    Store(
      t => if HasId(rows, freshId) then Err(CreateFailed(UniqueViolationText)) else Ok(Inserted(t, freshId, now)),
      id => match Find(rows, id)
        case None => Err(GetNotFound(id))
        case Some(k) => Ok(rows[k]),
      Ok(if rows == [] then Nil else Slice(OrderByCreatedDesc(rows))),
      (id, t) => match Find(rows, id)
        case None => Err(UpdateNotFound(id))
        case Some(k) => Ok(Overwritten(rows[k], t, now)),
      id => if HasId(rows, id) then Ok(()) else Err(DeleteNotFound(id)))
  }

  /** The table after a store call, with no driver failure. */
  function ApplyCall(rows: seq<Todo>, call: Option<StoreCall>, freshId: string, now: int): seq<Todo> {
    match call
    case Some(CreateCall(t)) => if HasId(rows, freshId) then rows else rows + [Inserted(t, freshId, now)]
    case Some(UpdateCall(id, t)) => UpdateWhere(rows, id, t, now)
    case Some(DeleteCall(id)) => DeleteWhere(rows, id)
    case _ => rows
  }

  /** The answers of a store whose every driver call fails with `cause`. A
      delete fails at its statement, or, when `atRowsAffected`, after the
      statement ran, when the affected-row count is read. */
  function FailingStore(cause: string, atRowsAffected: bool): Store {
    Store(
      t => Err(CreateFailed(cause)),
      id => Err(GetFailed(cause)),
      Err(ListQueryFailed(cause)),
      (id, t) => Err(UpdateFailed(cause)),
      id => Err(if atRowsAffected then RowsAffectedFailed(cause) else DeleteFailed(cause)))
  }

  /** One request served against a live store: the handler's store call is
      carried out by the table's method, and the response is the one the
      handlers compute from the table's answers. */
  method Serve(db: PostgresStore, r: Request, freshId: string, now: int) returns (x: Exchange)
    requires db.Valid()
    modifies db
    ensures db.Valid()
    ensures x == ServeHTTP(r, TableStore(old(db.rows), freshId, now))
    ensures db.rows == ApplyCall(old(db.rows), x.call, freshId, now)
  {
    x := ServeHTTP(r, TableStore(db.rows, freshId, now));
    ghost var answers := TableStore(db.rows, freshId, now);
    match x.call {
      case None =>
      case Some(CreateCall(t)) =>
        var reply := Create(db, t, freshId, now);
        assert reply == answers.create(t);
      case Some(GetCall(id)) =>
        var reply := Get(db, id, freshId, now);
        assert reply == answers.get(id);
      case Some(ListCall) =>
        var reply := List(db, freshId, now);
        assert reply == answers.list;
      case Some(UpdateCall(id, t)) =>
        var reply := Update(db, id, t, freshId, now);
        assert reply == answers.update(id, t);
      case Some(DeleteCall(id)) =>
        var reply := Delete(db, id, freshId, now);
        assert reply == answers.delete(id);
    }
  }

  /** The table's insert answers as `TableStore` says and changes the rows as
      `ApplyCall` says. */
  method Create(db: PostgresStore, t: Todo, freshId: string, now: int) returns (reply: Result<Todo>)
    requires db.Valid()
    modifies db
    ensures db.Valid()
    ensures reply == TableStore(old(db.rows), freshId, now).create(t)
    ensures db.rows == ApplyCall(old(db.rows), Some(CreateCall(t)), freshId, now)
  {
    reply := db.CreateTodo(t, freshId, now, None);
  }

  method Get(db: PostgresStore, id: string, freshId: string, now: int) returns (reply: Result<Todo>)
    requires db.Valid()
    ensures reply == TableStore(db.rows, freshId, now).get(id)
  {
    reply := db.GetTodo(id, None);
    if reply.Ok? {
      SelectUnique(db.rows, id, Find(db.rows, id).value);
    }
  }

  method List(db: PostgresStore, freshId: string, now: int) returns (reply: Result<TodoSlice>)
    requires db.Valid()
    ensures reply == TableStore(db.rows, freshId, now).list
  {
    reply := db.ListTodos(None, None, None);
  }

  method Update(db: PostgresStore, id: string, t: Todo, freshId: string, now: int) returns (reply: Result<Todo>)
    requires db.Valid()
    modifies db
    ensures db.Valid()
    ensures reply == TableStore(old(db.rows), freshId, now).update(id, t)
    ensures db.rows == ApplyCall(old(db.rows), Some(UpdateCall(id, t)), freshId, now)
  {
    ghost var rows := db.rows;
    reply := db.UpdateTodo(id, t, now, None);
    if reply.Ok? {
      SelectUnique(rows, id, Find(rows, id).value);
    } else {
      UpdateWherePointwise(rows, id, t, now);
      assert UpdateWhere(rows, id, t, now) == rows;
    }
  }

  method Delete(db: PostgresStore, id: string, freshId: string, now: int) returns (reply: Result<()>)
    requires db.Valid()
    modifies db
    ensures db.Valid()
    ensures reply == TableStore(old(db.rows), freshId, now).delete(id)
    ensures db.rows == ApplyCall(old(db.rows), Some(DeleteCall(id)), freshId, now)
  {
    ghost var rows := db.rows;
    if HasId(rows, id) {
      SelectUnique(rows, id, Find(rows, id).value);
    } else {
      SelectNone(rows, id);
    }
    reply := db.DeleteTodo(id, None, None);
  }

  /** A created item is read back as created: on any table, once the insert
      succeeds, a lookup of the generated id answers the inserted row. */
  method CreateThenGet(db: PostgresStore, t: Todo, freshId: string, now: int)
    returns (created: Result<Todo>, read: Result<Todo>)
    requires db.Valid()
    modifies db
    ensures db.Valid()
    ensures db.rows == ApplyCall(old(db.rows), Some(CreateCall(t)), freshId, now)
    ensures created.Ok? <==> !HasId(old(db.rows), freshId)
    ensures created.Ok? ==> read == created && created.value == Inserted(t, freshId, now)
  {
    created := db.CreateTodo(t, freshId, now, None);
    if created.Ok? {
      SelectUnique(db.rows, freshId, |db.rows| - 1);
    }
    read := db.GetTodo(freshId, None);
  }

  /** The same through the handlers, over every table: POST `/todos` answers
      201 with the new item, and a GET of its id afterwards answers 200 with
      that same item. */
  lemma CreatedItemIsReadBack(rows: seq<Todo>, t: Todo, freshId: string, now: int)
    requires UniqueIds(rows) && !HasId(rows, freshId)
    requires freshId != "" && t.title != ""
    ensures var c := Inserted(t, freshId, now);
      var post := ServeHTTP(Request(MethodPost, CollectionPath, Decoded(t)), TableStore(rows, freshId, now));
      var rows1 := ApplyCall(rows, post.call, freshId, now);
      post.response == Response(StatusCreated, TodoJson(c)) &&
      ServeHTTP(Request(MethodGet, ItemPrefix + freshId, Malformed), TableStore(rows1, "", 0)).response
        == Response(StatusOK, TodoJson(c))
  {
    var c := Inserted(t, freshId, now);
    var rows1 := rows + [c];
    ApiProperties.ItemPathYieldsId(freshId);
    assert UniqueIds(rows1) by {
      forall i | 0 <= i < |rows| ensures rows1[i].id != freshId {
        assert rows1[i] == rows[i];
      }
    }
    SelectUnique(rows1, freshId, |rows|);
  }

  /** Every stored row has a non-empty title. */
  ghost predicate TitlesNonEmpty(rows: seq<Todo>) {
    forall i :: 0 <= i < |rows| ==> rows[i].title != ""
  }

  /** No request can store an empty title: if every row of the table has a
      title, every row after serving any request has one too. */
  lemma TitlesStayNonEmpty(rows: seq<Todo>, r: Request, freshId: string, now: int)
    requires TitlesNonEmpty(rows)
    ensures TitlesNonEmpty(ApplyCall(rows, ServeHTTP(r, TableStore(rows, freshId, now)).call, freshId, now))
  {
    var call := ServeHTTP(r, TableStore(rows, freshId, now)).call;
    ApiProperties.StoredTitlesNonEmpty(r, TableStore(rows, freshId, now));
    match call {
      case Some(UpdateCall(id, t)) =>
        UpdateWherePointwise(rows, id, t, now);
      case Some(DeleteCall(id)) =>
        DeleteWhereMembers(rows, id);
        var after := DeleteWhere(rows, id);
        forall i | 0 <= i < |after| ensures after[i].title != "" {
          assert after[i] in rows;
        }
      case _ =>
    }
  }

  /** Over the table, get, update and delete answer 404 exactly when no row has
      the id: every not-found branch of the store carries the text the
      handlers look for, and the found branches raise no error. Get and
      delete ignore the body; update needs a valid one. */
  lemma NotFoundExactlyWhenAbsent(m: string, id: string, payload: Payload, rows: seq<Todo>, freshId: string, now: int)
    requires id != ""
    requires m in {MethodGet, MethodPut, MethodDelete}
    requires m == MethodPut ==> payload.Decoded? && payload.todo.title != ""
    ensures ServeHTTP(Request(m, ItemPrefix + id, payload), TableStore(rows, freshId, now)).response.status
      == if HasId(rows, id) then (if m == MethodDelete then StatusNoContent else StatusOK) else StatusNotFound
  {
    ApiProperties.ItemPathYieldsId(id);
    NotFoundMessagesCarryMarker(id);
  }

  /** When every driver call fails with a text lacking "não encontrado", each
      request that reaches the store is answered 500, whichever of the two
      delete steps fails. */
  lemma DriverFailureIs500(r: Request, cause: string, atRowsAffected: bool)
    requires !Contains(cause, NotFoundMarker)
    ensures var x := ServeHTTP(r, FailingStore(cause, atRowsAffected));
      x.call.Some? ==> x.response.status == StatusInternalServerError
  {
    var x := ServeHTTP(r, FailingStore(cause, atRowsAffected));
    if x.call.Some? {
      match x.call.value
      case CreateCall(_) =>
      case ListCall =>
      case GetCall(_) => GetFailedLacksMarker(cause);
      case UpdateCall(_, _) => UpdateFailedLacksMarker(cause);
      case DeleteCall(_) =>
        DeleteFailedLacksMarker(cause);
        RowsAffectedPrefixLacksMarker(cause);
    }
  }

  /** The classification reads the driver's text too: a driver failure whose
      text holds "não encontrado" anywhere turns a get, update or delete into
      404, whether or not the row exists, and for a delete whichever of its
      two steps fails. */
  lemma MarkerInDriverTextReads404(m: string, id: string, payload: Payload, cause: string, atRowsAffected: bool)
    requires id != "" && Contains(cause, NotFoundMarker)
    requires m in {MethodGet, MethodPut, MethodDelete}
    requires m == MethodPut ==> payload.Decoded? && payload.todo.title != ""
    ensures ServeHTTP(Request(m, ItemPrefix + id, payload), FailingStore(cause, atRowsAffected)).response.status
      == StatusNotFound
  {
    ApiProperties.ItemPathYieldsId(id);
    ContainsAfterPrefix("storage: falha ao buscar todo: ", cause, NotFoundMarker);
    ContainsAfterPrefix("storage: falha ao atualizar todo: ", cause, NotFoundMarker);
    ContainsAfterPrefix("storage: falha ao deletar todo: ", cause, NotFoundMarker);
    ContainsAfterPrefix("storage: falha ao verificar linhas afetadas ao deletar: ", cause, NotFoundMarker);
  }

  /** Create, read, complete, delete and read again one item: 201 with the
      item as created and not completed, 200 with the same item, 200 with it
      completed and a later update time, 204, and finally 404. */
  lemma CreateReadUpdateDeleteScenario(id: string, created: int, updated: int)
    requires id != "" && created < updated
    ensures
      var item := Todo(id, "buy milk", "", false, created, created);
      var post := ServeHTTP(Request(MethodPost, CollectionPath, Decoded(Todo("", "buy milk", "", false, 0, 0))),
                            TableStore([], id, created));
      var rows1 := ApplyCall([], post.call, id, created);
      var get := ServeHTTP(Request(MethodGet, ItemPrefix + id, Malformed), TableStore(rows1, "", 0));
      var put := ServeHTTP(Request(MethodPut, ItemPrefix + id, Decoded(Todo("", "buy milk", "", true, 0, 0))),
                           TableStore(rows1, "", updated));
      var rows2 := ApplyCall(rows1, put.call, "", updated);
      var del := ServeHTTP(Request(MethodDelete, ItemPrefix + id, Malformed), TableStore(rows2, "", 0));
      var rows3 := ApplyCall(rows2, del.call, "", 0);
      var again := ServeHTTP(Request(MethodGet, ItemPrefix + id, Malformed), TableStore(rows3, "", 0));
      post.response == Response(StatusCreated, TodoJson(item)) &&
      get.response == Response(StatusOK, TodoJson(item)) &&
      put.response == Response(StatusOK, TodoJson(item.(completed := true, updatedAt := updated))) &&
      del.response == Response(StatusNoContent, NullJson) &&
      again.response.status == StatusNotFound
  {
    var item := Todo(id, "buy milk", "", false, created, created);
    ApiProperties.ItemPathYieldsId(id);
    ScenarioCreate(id, created);
    ScenarioRead(item);
    ScenarioComplete(item, updated);
    ScenarioDelete(item.(completed := true, updatedAt := updated));
    ScenarioReadDeleted(id);
  }

  lemma ScenarioCreate(id: string, created: int)
    ensures var post := ServeHTTP(Request(MethodPost, CollectionPath, Decoded(Todo("", "buy milk", "", false, 0, 0))),
                                  TableStore([], id, created));
      post.response == Response(StatusCreated, TodoJson(Todo(id, "buy milk", "", false, created, created))) &&
      ApplyCall([], post.call, id, created) == [Todo(id, "buy milk", "", false, created, created)]
  {
    assert !HasId([], id);
  }

  lemma ScenarioRead(item: Todo)
    requires item.id != ""
    ensures ServeHTTP(Request(MethodGet, ItemPrefix + item.id, Malformed), TableStore([item], "", 0)).response
      == Response(StatusOK, TodoJson(item))
  {
    ApiProperties.ItemPathYieldsId(item.id);
  }

  lemma ScenarioComplete(item: Todo, updated: int)
    requires item.id != "" && item.title == "buy milk" && item.description == ""
    ensures var put := ServeHTTP(Request(MethodPut, ItemPrefix + item.id, Decoded(Todo("", "buy milk", "", true, 0, 0))),
                                 TableStore([item], "", updated));
      put.response == Response(StatusOK, TodoJson(item.(completed := true, updatedAt := updated))) &&
      ApplyCall([item], put.call, "", updated) == [item.(completed := true, updatedAt := updated)]
  {
    ApiProperties.ItemPathYieldsId(item.id);
    UpdateWherePointwise([item], item.id, Todo("", "buy milk", "", true, 0, 0), updated);
  }

  lemma ScenarioDelete(item: Todo)
    requires item.id != ""
    ensures var del := ServeHTTP(Request(MethodDelete, ItemPrefix + item.id, Malformed), TableStore([item], "", 0));
      del.response == Response(StatusNoContent, NullJson) &&
      ApplyCall([item], del.call, "", 0) == []
  {
    ApiProperties.ItemPathYieldsId(item.id);
    assert HasId([item], item.id) by { assert [item][0].id == item.id; }
    DeleteAt([item], item.id, 0);
  }

  lemma ScenarioReadDeleted(id: string)
    requires id != ""
    ensures ServeHTTP(Request(MethodGet, ItemPrefix + id, Malformed), TableStore([], "", 0)).response.status
      == StatusNotFound
  {
    NotFoundExactlyWhenAbsent(MethodGet, id, Malformed, [], "", 0);
  }
}
