/**
 * The `Todo` entity: a plain record of four fields, each with the default
 * value the data class gives it.  The store and the service "change" a Todo by
 * building an updated copy of this value.
 */
module Entity {
  import opened Wrappers

  /** A reading of the clock.  The model never looks inside it; the service receives it as a parameter. */
  type Timestamp = int

  /**
   * A Todo row.  `todoId` stays absent until the store assigns one, and
   * `createdAt` until the service stamps it.
   */
  datatype Todo = Todo(
    todoId: Option<int> := None,
    todoTitle: string := "",
    finished: bool := false,
    createdAt: Option<Timestamp> := None
  )

  /** A Todo built with no arguments has no id, an empty title, is unfinished and has no creation time. */
  lemma DefaultTodo()
    ensures Todo().todoId == None
    ensures Todo().todoTitle == ""
    ensures !Todo().finished
    ensures Todo().createdAt == None
  {
  }

  /** Equality of Todos is equality of all four fields (the data class's generated `equals`). */
  lemma TodoEquality(a: Todo, b: Todo)
    ensures a == b <==>
      && a.todoId == b.todoId
      && a.todoTitle == b.todoTitle
      && a.finished == b.finished
      && a.createdAt == b.createdAt
  {
  }
}
