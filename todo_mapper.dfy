/**
 * The two conversions between a Todo and its resource.  Outbound, every
 * field is copied; inbound, `finished` and `createdAt` are not copied, so
 * the Todo keeps its defaults for them.
 */
module Mapper {
  import opened Wrappers
  import opened Entity
  import opened Resource

  /** `map(todo)`: every field copied unchanged. */
  function ToResource(todo: Todo): (r: TodoResource)
    ensures r.todoId == todo.todoId && r.todoTitle == todo.todoTitle
    ensures r.finished == todo.finished && r.createdAt == todo.createdAt
  {
    TodoResource(todo.todoId, todo.todoTitle, todo.finished, todo.createdAt)
  }

  /** `map(resource)`: id and title copied; `finished` and `createdAt` ignored, so they take the Todo's defaults. */
  function ToTodo(resource: TodoResource): (t: Todo)
    ensures t.todoId == resource.todoId && t.todoTitle == resource.todoTitle
    ensures t.finished == Todo().finished && t.createdAt == Todo().createdAt
  {
    Todo(todoId := resource.todoId, todoTitle := resource.todoTitle)
  }

  /** Whatever the resource says about `finished` and `createdAt` makes no difference to the Todo. */
  lemma ToTodoIgnoresServerFields(r: TodoResource, f: bool, c: Option<Timestamp>)
    ensures ToTodo(r.(finished := f, createdAt := c)) == ToTodo(r)
  {
  }

  /** To a resource and back: the same Todo, but unfinished and with no creation time. */
  lemma TodoRoundTrip(t: Todo)
    ensures ToTodo(ToResource(t)) == t.(finished := false, createdAt := None)
  {
  }

  /** From a resource and back: the same resource, but unfinished and with no creation time. */
  lemma ResourceRoundTrip(r: TodoResource)
    ensures ToResource(ToTodo(r)) == r.(finished := false, createdAt := None)
  {
  }

  /** The outbound conversion loses nothing: distinct Todos give distinct resources. */
  lemma ToResourceInjective(a: Todo, b: Todo)
    ensures ToResource(a) == ToResource(b) ==> a == b
  {
  }
}
