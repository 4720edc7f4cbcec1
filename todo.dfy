/** The to-do record (`todo.Todo`) and the two value shapes the store and
    the HTTP layer exchange: Go's `(value, error)` pair and a possibly-nil slice. */
module Todos {

  /** One row of the `todos` table. Timestamps are ticks of the database
      clock; `id` is the opaque identifier the database generates. */
  datatype Todo = Todo(
    id: string,
    title: string,
    description: string,
    completed: bool,
    createdAt: int,
    updatedAt: int)

  /** A Go `[]todo.Todo`: either the nil slice or a non-nil slice of items.
      Appending to nil yields a non-nil slice, so only a slice that nothing
      was ever appended to is nil. */
  datatype TodoSlice = Nil | Slice(items: seq<Todo>)
  {
    /** The elements, whichever form the slice has. */
    function Elements(): seq<Todo> {
      if Nil? then [] else items
    }

    /** Go's `append(s, t)`. */
    function Append(t: Todo): (r: TodoSlice)
      ensures r.Slice? && r.Elements() == Elements() + [t]
    {
      Slice(Elements() + [t])
    }
  }

  datatype Option<+T> = None | Some(value: T)

  /** A Go result pair: a value, or an `error` whose `Error()` text is `message`. */
  datatype Result<+T> = Ok(value: T) | Err(message: string)
}
