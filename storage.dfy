/** The persistence layer: what each SQL statement of `PostgresStore` does to
    the one `todos` table, the error texts each failure branch builds, and an
    in-memory table class whose five methods are the `Store` interface. */
module Storage {
  import opened Todos
  import opened Text

  // ---------------------------------------------------------------------
  // Error texts

  /** The text the HTTP layer searches store errors for. */
  const NotFoundMarker: string := "não encontrado"

  /** `sql.ErrNoRows.Error()`, wrapped by the get and update not-found errors. */
  const NoRowsText: string := "sql: no rows in result set"

  /** What PostgreSQL reports when an insert repeats a primary key. */
  const UniqueViolationText: string := "ERROR: duplicate key value violates unique constraint \"todos_pkey\" (SQLSTATE 23505)"

  function CreateFailed(cause: string): string { "storage: falha ao criar todo: " + cause }
  function GetNotFound(id: string): string { "storage: todo com id '" + id + "' não encontrado: " + NoRowsText }
  function GetFailed(cause: string): string { "storage: falha ao buscar todo: " + cause }
  function ListQueryFailed(cause: string): string { "storage: falha ao listar todos: " + cause }
  function ListScanFailed(cause: string): string { "storage: falha ao escanear linha do todo: " + cause }
  function ListIterationFailed(cause: string): string { "storage: erro durante iteração das linhas de todos: " + cause }
  function UpdateNotFound(id: string): string { "storage: impossível atualizar, todo com id '" + id + "' não encontrado: " + NoRowsText }
  function UpdateFailed(cause: string): string { "storage: falha ao atualizar todo: " + cause }
  function DeleteFailed(cause: string): string { "storage: falha ao deletar todo: " + cause }
  function RowsAffectedFailed(cause: string): string { "storage: falha ao verificar linhas afetadas ao deletar: " + cause }
  function DeleteNotFound(id: string): string { "storage: impossível deletar, todo com id '" + id + "' não encontrado" }

  /** Every not-found branch puts the marker in its message, whatever the id. */
  lemma NotFoundMessagesCarryMarker(id: string)
    ensures Contains(GetNotFound(id), NotFoundMarker)
    ensures Contains(UpdateNotFound(id), NotFoundMarker)
    ensures Contains(DeleteNotFound(id), NotFoundMarker)
  {
    GetNotFoundCarriesMarker(id);
    UpdateNotFoundCarriesMarker(id);
    DeleteNotFoundCarriesMarker(id);
  }

  lemma GetNotFoundCarriesMarker(id: string)
    ensures Contains(GetNotFound(id), NotFoundMarker)
  {
    var head := "storage: todo com id '" + id + "' ";
    assert GetNotFound(id) == head + NotFoundMarker + (": " + NoRowsText);
    ContainsMiddle(head, NotFoundMarker, ": " + NoRowsText);
  }

  lemma UpdateNotFoundCarriesMarker(id: string)
    ensures Contains(UpdateNotFound(id), NotFoundMarker)
  {
    var head := "storage: impossível atualizar, todo com id '" + id + "' ";
    assert UpdateNotFound(id) == head + NotFoundMarker + (": " + NoRowsText);
    ContainsMiddle(head, NotFoundMarker, ": " + NoRowsText);
  }

  lemma DeleteNotFoundCarriesMarker(id: string)
    ensures Contains(DeleteNotFound(id), NotFoundMarker)
  {
    var head := "storage: impossível deletar, todo com id '" + id + "' ";
    assert DeleteNotFound(id) == head + NotFoundMarker + "";
    ContainsMiddle(head, NotFoundMarker, "");
  }

  /** Every other failure branch puts a fixed prefix without the marker in front
      of the driver's text, so its message carries the marker only if the
      driver's text does. */
  lemma OtherFailuresLackMarker(cause: string)
    requires !Contains(cause, NotFoundMarker)
    ensures !Contains(CreateFailed(cause), NotFoundMarker)
    ensures !Contains(GetFailed(cause), NotFoundMarker)
    ensures !Contains(ListQueryFailed(cause), NotFoundMarker)
    ensures !Contains(ListScanFailed(cause), NotFoundMarker)
    ensures !Contains(ListIterationFailed(cause), NotFoundMarker)
    ensures !Contains(UpdateFailed(cause), NotFoundMarker)
    ensures !Contains(DeleteFailed(cause), NotFoundMarker)
    ensures !Contains(RowsAffectedFailed(cause), NotFoundMarker)
  {
    CreateFailedLacksMarker(cause);
    GetFailedLacksMarker(cause);
    ListQueryFailedLacksMarker(cause);
    ListScanFailedLacksMarker(cause);
    UpdateFailedLacksMarker(cause);
    DeleteFailedLacksMarker(cause);
    RowsAffectedPrefixLacksMarker(cause);
    IterationPrefixLacksMarker(cause);
  }

  lemma CreateFailedLacksMarker(cause: string)
    requires !Contains(cause, NotFoundMarker)
    ensures !Contains(CreateFailed(cause), NotFoundMarker)
  {
    SealedPrefix1("storage: falha ao criar todo: ", cause);
  }

  lemma GetFailedLacksMarker(cause: string)
    requires !Contains(cause, NotFoundMarker)
    ensures !Contains(GetFailed(cause), NotFoundMarker)
  {
    SealedPrefix1("storage: falha ao buscar todo: ", cause);
  }

  lemma ListQueryFailedLacksMarker(cause: string)
    requires !Contains(cause, NotFoundMarker)
    ensures !Contains(ListQueryFailed(cause), NotFoundMarker)
  {
    SealedPrefix1("storage: falha ao listar todos: ", cause);
  }

  lemma ListScanFailedLacksMarker(cause: string)
    requires !Contains(cause, NotFoundMarker)
    ensures !Contains(ListScanFailed(cause), NotFoundMarker)
  {
    SealedPrefix1("storage: falha ao escanear linha do todo: ", cause);
  }

  lemma UpdateFailedLacksMarker(cause: string)
    requires !Contains(cause, NotFoundMarker)
    ensures !Contains(UpdateFailed(cause), NotFoundMarker)
  {
    SealedPrefix1("storage: falha ao atualizar todo: ", cause);
  }

  lemma DeleteFailedLacksMarker(cause: string)
    requires !Contains(cause, NotFoundMarker)
    ensures !Contains(DeleteFailed(cause), NotFoundMarker)
  {
    SealedPrefix1("storage: falha ao deletar todo: ", cause);
  }

  lemma RowsAffectedPrefixLacksMarker(cause: string)
    requires !Contains(cause, NotFoundMarker)
    ensures !Contains(RowsAffectedFailed(cause), NotFoundMarker)
  {
    var p := "storage: falha ao verificar linhas afetadas ao deletar: ";
    assert p == "storage: falha ao verificar linhas " + "afetadas ao deletar: ";
    assert 'ã' !in "storage: falha ao verificar linhas ";
    assert 'ã' !in "afetadas ao deletar: ";
    SealedPrefix1(p, cause);
  }

  /** The iteration prefix holds 'ã' ("iteração") but no 'c', the marker's
      seventh character, and its last characters hold no 'n'. */
  lemma IterationPrefixLacksMarker(cause: string)
    requires !Contains(cause, NotFoundMarker)
    ensures !Contains(ListIterationFailed(cause), NotFoundMarker)
  {
    var front, back := "storage: erro durante iteração das linhas de ", "todos: ";
    IterationFrontLacksC();
    SealedPrefix6(front, back, cause);
    assert ListIterationFailed(cause) == front + back + cause;
  }

  lemma IterationFrontLacksC()
    ensures 'c' !in "storage: erro durante iteração das linhas de "
  {
    assert "storage: erro durante iteração das linhas de " == "storage: erro durante " + "iteração das linhas de ";
    assert 'c' !in "storage: erro durante ";
    assert 'c' !in "iteração das linhas de ";
  }

  /** A prefix without the marker's seventh character whose last six
      characters lack its first adds no marker to the driver's text. */
  lemma SealedPrefix6(front: string, back: string, cause: string)
    requires 'c' !in front && 'c' !in back && 'n' !in back && |back| >= 6
    requires !Contains(cause, NotFoundMarker)
    ensures !Contains(front + back + cause, NotFoundMarker)
  {
    SealedByMissingCharSplit(front, back, NotFoundMarker, 6);
    SealedPrefixAddsNoOccurrence(front + back, cause, NotFoundMarker);
  }

  /** A prefix without the marker's second character and not ending in its
      first adds no marker to the driver's text. */
  lemma SealedPrefix1(p: string, cause: string)
    requires 'ã' !in p
    requires |p| > 0 && p[|p| - 1] != 'n'
    requires !Contains(cause, NotFoundMarker)
    ensures !Contains(p + cause, NotFoundMarker)
  {
    SealedByMissingChar(p, NotFoundMarker, 1);
    SealedPrefixAddsNoOccurrence(p, cause, NotFoundMarker);
  }

  // ---------------------------------------------------------------------
  // What each SQL statement does to the table, stated over all rows

  /** The table's primary key: no two rows share an id. */
  ghost predicate UniqueIds(rows: seq<Todo>) {
    forall i, j :: 0 <= i < j < |rows| ==> rows[i].id != rows[j].id
  }

  predicate HasId(rows: seq<Todo>, id: string) {
    exists i :: 0 <= i < |rows| && rows[i].id == id
  }

  /** The position of the first row whose id is `id` (an index lookup). */
  function Find(rows: seq<Todo>, id: string): (k: Option<nat>)
    ensures k.Some? ==> k.value < |rows| && rows[k.value].id == id
    ensures k.Some? ==> forall j :: 0 <= j < k.value ==> rows[j].id != id
    ensures k.None? <==> !HasId(rows, id)
  {
    if rows == [] then None
    else if rows[0].id == id then Some(0)
    else match Find(rows[1..], id)
      case None => None
      case Some(k) => Some(k + 1)
  }

  /** `SELECT ... WHERE id = $1`: every row whose id matches, in table order. */
  function SelectWhere(rows: seq<Todo>, id: string): seq<Todo> {
    if rows == [] then []
    else (if rows[0].id == id then [rows[0]] else []) + SelectWhere(rows[1..], id)
  }

  /** `INSERT INTO todos (title, description, completed) VALUES (...)`: the
      database supplies the id, and both timestamps default to `NOW()`. */
  function Inserted(t: Todo, freshId: string, now: int): Todo {
    Todo(freshId, t.title, t.description, t.completed, now, now)
  }

  /** `SET title = $1, description = $2, completed = $3, updated_at = NOW()` on one row. */
  function Overwritten(row: Todo, t: Todo, now: int): Todo {
    row.(title := t.title, description := t.description, completed := t.completed, updatedAt := now)
  }

  /** `UPDATE todos SET ... WHERE id = $4` applied to every row. */
  function UpdateWhere(rows: seq<Todo>, id: string, t: Todo, now: int): seq<Todo> {
    if rows == [] then []
    else
      var head := if rows[0].id == id then Overwritten(rows[0], t, now) else rows[0];
      [head] + UpdateWhere(rows[1..], id, t, now)
  }

  /** `DELETE FROM todos WHERE id = $1`: the rows that survive. */
  function DeleteWhere(rows: seq<Todo>, id: string): seq<Todo> {
    if rows == [] then []
    else (if rows[0].id == id then [] else [rows[0]]) + DeleteWhere(rows[1..], id)
  }

  /** `RowsAffected()` of that delete (or update): how many rows match. */
  function CountWhere(rows: seq<Todo>, id: string): nat {
    |SelectWhere(rows, id)|
  }

  predicate SortedByCreatedDesc(s: seq<Todo>) {
    forall i, j :: 0 <= i < j < |s| ==> s[i].createdAt >= s[j].createdAt
  }

  /** Places `t` before the first row that is not newer than it. */
  function InsertByCreatedDesc(t: Todo, s: seq<Todo>): (r: seq<Todo>)
    ensures multiset(r) == multiset(s) + multiset{t}
  {
    if s == [] || s[0].createdAt <= t.createdAt then [t] + s
    else
      assert s == [s[0]] + s[1..];
      [s[0]] + InsertByCreatedDesc(t, s[1..])
  }

  /** Inserting into a newest-first sequence keeps it newest-first. */
  lemma {:induction false} InsertKeepsSorted(t: Todo, s: seq<Todo>)
    requires SortedByCreatedDesc(s)
    ensures SortedByCreatedDesc(InsertByCreatedDesc(t, s))
  {
    if s != [] && s[0].createdAt > t.createdAt {
      var rest := InsertByCreatedDesc(t, s[1..]);
      InsertKeepsSorted(t, s[1..]);
      forall x | x in rest ensures x.createdAt <= s[0].createdAt {
        assert x in multiset(rest);
        if x != t {
          assert x in multiset(s[1..]);
          var i :| 0 <= i < |s[1..]| && s[1..][i] == x;
          assert s[i + 1] == x;
        }
      }
      var r := [s[0]] + rest;
      forall i, j | 0 <= i < j < |r| ensures r[i].createdAt >= r[j].createdAt {
        if i == 0 {
          assert r[j] in rest;
        } else {
          assert r[i] == rest[i - 1] && r[j] == rest[j - 1];
        }
      }
    }
  }

  /** `ORDER BY created_at DESC`; rows with equal `created_at` keep table order. */
  function OrderByCreatedDesc(rows: seq<Todo>): (r: seq<Todo>)
    ensures SortedByCreatedDesc(r)
    ensures multiset(r) == multiset(rows)
  {
    if rows == [] then []
    else
      assert rows == [rows[0]] + rows[1..];
      var rest := OrderByCreatedDesc(rows[1..]);
      InsertKeepsSorted(rows[0], rest);
      InsertByCreatedDesc(rows[0], rest)
  }

  // ---------------------------------------------------------------------
  // Properties of the statements

  /** With unique ids, the select finds exactly the row at the found position. */
  lemma {:induction false} SelectUnique(rows: seq<Todo>, id: string, k: nat)
    requires UniqueIds(rows)
    requires k < |rows| && rows[k].id == id
    ensures SelectWhere(rows, id) == [rows[k]]
  {
    if k == 0 {
      SelectNone(rows[1..], id);
    } else {
      SelectUnique(rows[1..], id, k - 1);
    }
  }

  /** A select on an id that no row has is empty. */
  lemma {:induction false} SelectNone(rows: seq<Todo>, id: string)
    requires !HasId(rows, id)
    ensures SelectWhere(rows, id) == []
  {
    if rows != [] {
      assert !HasId(rows[1..], id) by {
        forall i | 0 <= i < |rows[1..]| ensures rows[1..][i].id != id {
          assert rows[1..][i] == rows[i + 1];
        }
      }
      SelectNone(rows[1..], id);
    }
  }

  /** The update statement changes exactly the matching rows, each as
      `Overwritten` says, and leaves every other row and the row order alone. */
  lemma {:induction false} UpdateWherePointwise(rows: seq<Todo>, id: string, t: Todo, now: int)
    ensures |UpdateWhere(rows, id, t, now)| == |rows|
    ensures forall i :: 0 <= i < |rows| ==>
      UpdateWhere(rows, id, t, now)[i] == if rows[i].id == id then Overwritten(rows[i], t, now) else rows[i]
  {
    if rows != [] {
      UpdateWherePointwise(rows[1..], id, t, now);
      forall i | 0 < i < |rows|
        ensures UpdateWhere(rows, id, t, now)[i] == if rows[i].id == id then Overwritten(rows[i], t, now) else rows[i]
      {
        assert UpdateWhere(rows, id, t, now)[i] == UpdateWhere(rows[1..], id, t, now)[i - 1];
        assert rows[1..][i - 1] == rows[i];
      }
    }
  }

  /** An overwrite keeps the identity and the creation time, takes the three
      client fields from `t` and stamps the update time. */
  lemma OverwrittenFields(row: Todo, t: Todo, now: int)
    ensures Overwritten(row, t, now).id == row.id
    ensures Overwritten(row, t, now).createdAt == row.createdAt
    ensures Overwritten(row, t, now).title == t.title
    ensures Overwritten(row, t, now).description == t.description
    ensures Overwritten(row, t, now).completed == t.completed
    ensures Overwritten(row, t, now).updatedAt == now
  {
  }

  /** With unique ids, the update statement is a single in-place row write. */
  lemma UpdateAt(rows: seq<Todo>, id: string, t: Todo, now: int, k: nat)
    requires UniqueIds(rows)
    requires k < |rows| && rows[k].id == id
    ensures UpdateWhere(rows, id, t, now) == rows[k := Overwritten(rows[k], t, now)]
  {
    UpdateWherePointwise(rows, id, t, now);
  }

  /** The update statement never changes an id, so it keeps the primary key. */
  lemma UpdateKeepsIds(rows: seq<Todo>, id: string, t: Todo, now: int)
    requires UniqueIds(rows)
    ensures UniqueIds(UpdateWhere(rows, id, t, now))
  {
    UpdateWherePointwise(rows, id, t, now);
  }

  /** The delete statement keeps exactly the rows whose id differs. */
  lemma {:induction false} DeleteWhereMembers(rows: seq<Todo>, id: string)
    ensures forall x :: x in DeleteWhere(rows, id) <==> x in rows && x.id != id
    ensures |DeleteWhere(rows, id)| + CountWhere(rows, id) == |rows|
  {
    if rows != [] {
      DeleteWhereMembers(rows[1..], id);
      assert rows == [rows[0]] + rows[1..];
    }
  }

  /** With unique ids, the delete statement cuts out the one matching row. */
  lemma {:induction false} DeleteAt(rows: seq<Todo>, id: string, k: nat)
    requires UniqueIds(rows)
    requires k < |rows| && rows[k].id == id
    ensures DeleteWhere(rows, id) == rows[..k] + rows[k + 1..]
  {
    if k == 0 {
      DeleteNone(rows[1..], id);
      assert rows[..0] + rows[1..] == rows[1..];
    } else {
      DeleteAt(rows[1..], id, k - 1);
      assert rows[..k] + rows[k + 1..] == [rows[0]] + (rows[1..][..k - 1] + rows[1..][k..]);
    }
  }

  /** A delete on an id that no row has leaves the table as it is. */
  lemma {:induction false} DeleteNone(rows: seq<Todo>, id: string)
    requires !HasId(rows, id)
    ensures DeleteWhere(rows, id) == rows
  {
    if rows != [] {
      assert !HasId(rows[1..], id) by {
        forall i | 0 <= i < |rows[1..]| ensures rows[1..][i].id != id {
          assert rows[1..][i] == rows[i + 1];
        }
      }
      DeleteNone(rows[1..], id);
      assert rows == [rows[0]] + rows[1..];
    }
  }

  /** Cutting one row out keeps the primary key. */
  lemma DeleteKeepsUnique(rows: seq<Todo>, k: nat)
    requires UniqueIds(rows)
    requires k < |rows|
    ensures UniqueIds(rows[..k] + rows[k + 1..])
  {
    var r := rows[..k] + rows[k + 1..];
    forall i, j | 0 <= i < j < |r| ensures r[i].id != r[j].id {
      var i' := if i < k then i else i + 1;
      var j' := if j < k then j else j + 1;
      assert r[i] == rows[i'] && r[j] == rows[j'];
    }
  }

  /** A scan failure while reading the `row`-th result row of a list query. */
  datatype ScanFault = ScanFault(row: nat, cause: string)

  // ---------------------------------------------------------------------
  // The table

  /** `PostgresStore` over one `todos` table held in memory. Driver failures
      (lost connection, cancelled context, a value `Scan` cannot convert) are
      the `...Error` parameters, holding the driver's error text; the
      database clock's `NOW()` and its generated id are `now` and `freshId`. */
  class PostgresStore {
    /** The rows of `todos`, in physical order. */
    var rows: seq<Todo>

    ghost predicate Valid()
      reads this
    {
      UniqueIds(rows)
    }

    /** A store over an empty table. */
    constructor ()
      ensures Valid() && rows == []
    {
      rows := [];
    }

    /** `CreateTodo`: inserts the caller's title, description and completion
        flag, ignoring any id or timestamps the caller sent. */
    method CreateTodo(t: Todo, freshId: string, now: int, driverError: Option<string>) returns (r: Result<Todo>)
      requires Valid()
      modifies this
      ensures Valid()
      ensures driverError.Some? ==> r == Err(CreateFailed(driverError.value)) && rows == old(rows)
      ensures driverError.None? && HasId(old(rows), freshId) ==>
        r == Err(CreateFailed(UniqueViolationText)) && rows == old(rows)
      ensures driverError.None? && !HasId(old(rows), freshId) ==>
        r == Ok(Inserted(t, freshId, now)) && rows == old(rows) + [r.value]
    {
      if driverError.Some? {
        return Err(CreateFailed(driverError.value));
      }
      if Find(rows, freshId).Some? {
        return Err(CreateFailed(UniqueViolationText));
      }
      var created := Inserted(t, freshId, now);
      rows := rows + [created];
      r := Ok(created);
    }

    /** `GetTodo`: the row with the given id, or the not-found error. */
    method GetTodo(id: string, driverError: Option<string>) returns (r: Result<Todo>)
      requires Valid()
      ensures driverError.Some? ==> r == Err(GetFailed(driverError.value))
      ensures driverError.None? ==> (r.Ok? <==> HasId(rows, id))
      ensures driverError.None? && !HasId(rows, id) ==> r == Err(GetNotFound(id))
      ensures r.Ok? ==> SelectWhere(rows, id) == [r.value]
    {
      if driverError.Some? {
        return Err(GetFailed(driverError.value));
      }
      var k := Find(rows, id);
      if k.None? {
        return Err(GetNotFound(id));
      }
      SelectUnique(rows, id, k.value);
      r := Ok(rows[k.value]);
    }

    /** `ListTodos`: walks the ordered result rows and appends each to a slice
        that starts nil, so an empty table gives the nil slice. Any failure
        returns an error and no partial list. */
    method ListTodos(queryError: Option<string>, scanError: Option<ScanFault>, iterationError: Option<string>)
      returns (r: Result<TodoSlice>)
      requires Valid()
      ensures queryError.Some? ==> r == Err(ListQueryFailed(queryError.value))
      ensures queryError.None? && scanError.Some? && scanError.value.row < |rows| ==>
        r == Err(ListScanFailed(scanError.value.cause))
      ensures queryError.None? && (scanError.None? || scanError.value.row >= |rows|) && iterationError.Some? ==>
        r == Err(ListIterationFailed(iterationError.value))
      ensures queryError.None? && (scanError.None? || scanError.value.row >= |rows|) && iterationError.None? ==>
        r.Ok? && r.value.Elements() == OrderByCreatedDesc(rows) && (r.value.Nil? <==> rows == [])
    {
      if queryError.Some? {
        return Err(ListQueryFailed(queryError.value));
      }
      var result := OrderByCreatedDesc(rows);
      assert |result| == |rows| by {
        assert |multiset(result)| == |multiset(rows)|;
      }
      var todos: TodoSlice := Nil;
      var i := 0;
      while i < |result|
        invariant 0 <= i <= |result|
        invariant todos.Elements() == result[..i]
        invariant todos.Nil? <==> i == 0
        invariant scanError.Some? ==> scanError.value.row >= i
      {
        if scanError.Some? && scanError.value.row == i {
          return Err(ListScanFailed(scanError.value.cause));
        }
        todos := todos.Append(result[i]);
        i := i + 1;
      }
      if iterationError.Some? {
        return Err(ListIterationFailed(iterationError.value));
      }
      assert result[..i] == result;
      r := Ok(todos);
    }

    /** `UpdateTodo`: overwrites title, description and completion flag of the
        row with the URL's id, refreshes `updated_at`, and returns that row. */
    method UpdateTodo(id: string, t: Todo, now: int, driverError: Option<string>) returns (r: Result<Todo>)
      requires Valid()
      modifies this
      ensures Valid()
      ensures driverError.Some? ==> r == Err(UpdateFailed(driverError.value)) && rows == old(rows)
      ensures driverError.None? && !HasId(old(rows), id) ==> r == Err(UpdateNotFound(id)) && rows == old(rows)
      ensures driverError.None? && HasId(old(rows), id) ==>
        rows == UpdateWhere(old(rows), id, t, now) &&
        |SelectWhere(old(rows), id)| == 1 &&
        r == Ok(Overwritten(SelectWhere(old(rows), id)[0], t, now)) &&
        SelectWhere(rows, id) == [r.value]
    {
      if driverError.Some? {
        return Err(UpdateFailed(driverError.value));
      }
      var k := Find(rows, id);
      if k.None? {
        return Err(UpdateNotFound(id));
      }
      ghost var before := rows;
      SelectUnique(rows, id, k.value);
      var updated := Overwritten(rows[k.value], t, now);
      rows := rows[k.value := updated];
      UpdateAt(before, id, t, now, k.value);
      UpdateKeepsIds(before, id, t, now);
      SelectUnique(rows, id, k.value);
      r := Ok(updated);
    }

    /** `DeleteTodo`: removes the row with the given id; zero rows affected is
        the not-found error. A failure reading the affected count comes after
        the delete has run. */
    method DeleteTodo(id: string, execError: Option<string>, rowsAffectedError: Option<string>) returns (r: Result<()>)
      requires Valid()
      modifies this
      ensures Valid()
      ensures execError.Some? ==> r == Err(DeleteFailed(execError.value)) && rows == old(rows)
      ensures execError.None? ==> rows == DeleteWhere(old(rows), id)
      ensures execError.None? && rowsAffectedError.Some? ==> r == Err(RowsAffectedFailed(rowsAffectedError.value))
      ensures execError.None? && rowsAffectedError.None? ==>
        r == (if CountWhere(old(rows), id) == 0 then Err(DeleteNotFound(id)) else Ok(()))
    {
      if execError.Some? {
        return Err(DeleteFailed(execError.value));
      }
      var k := Find(rows, id);
      var affected := 0;
      if k.Some? {
        SelectUnique(rows, id, k.value);
        DeleteAt(rows, id, k.value);
        DeleteKeepsUnique(rows, k.value);
        rows := rows[..k.value] + rows[k.value + 1..];
        affected := 1;
      } else {
        SelectNone(rows, id);
        DeleteNone(rows, id);
      }
      if rowsAffectedError.Some? {
        return Err(RowsAffectedFailed(rowsAffectedError.value));
      }
      if affected == 0 {
        return Err(DeleteNotFound(id));
      }
      r := Ok(());
    }
  }
}
