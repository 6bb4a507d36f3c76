/**
 * The service implementation: an object holding its repository, whose
 * methods make the checks and calls of the source in the same order and are
 * proved to do what the functions of `TodoService` say.  The clock is not
 * read here; `Create` is given its reading.
 */
module ServiceImpl {
  import opened Wrappers
  import opened Entity
  import opened Store
  import opened TodoService

  class TodoServiceImpl {
    var todoRepository: TodoRepository

    constructor (repository: TodoRepository)
      requires repository.Valid()
      ensures todoRepository == repository && Valid()
    {
      todoRepository := repository;
    }

    ghost predicate Valid()
      reads this, todoRepository
    {
      todoRepository.Valid()
    }

    method FindOne(todoId: int) returns (r: Outcome<Todo>)
      requires Valid()
      ensures r == TodoService.FindOne(todoRepository.State(), todoId)
    {
      var found := todoRepository.FindById(todoId);
      match found
      case Some(todo) => r := Ok(todo);
      case None => r := NotFound(todoId);
    }

    method FindAll() returns (r: seq<Todo>)
      requires Valid()
      ensures r == todoRepository.State().All()
    {
      r := todoRepository.FindAll();
    }

    method Create(todo: Todo, now: Timestamp) returns (r: Outcome<Todo>)
      requires Valid()
      modifies todoRepository
      ensures Valid()
      ensures Reply(r, todoRepository.State()) == TodoService.Create(old(todoRepository.State()), todo, now)
      ensures old(todoRepository.State().Count(false)) <= MAX_UNFINISHED_COUNT ==>
        todoRepository.State().Count(false) <= MAX_UNFINISHED_COUNT
    {
      ghost var before := todoRepository.State();
      var unfinished := todoRepository.CountByFinished(false);
      if unfinished >= MAX_UNFINISHED_COUNT {
        return BusinessError(TooManyUnfinished);
      }
      var stamped := todo.(createdAt := Some(now), finished := false);
      var saved := todoRepository.Create(stamped);
      r := Ok(saved);
      StepKeepsCap(before, CreateCall(todo, now));
    }

    method Finish(todoId: int) returns (r: Outcome<Todo>)
      requires Valid()
      modifies todoRepository
      ensures Valid()
      ensures Reply(r, todoRepository.State()) == TodoService.Finish(old(todoRepository.State()), todoId)
      ensures todoRepository.State().Count(false) <= old(todoRepository.State().Count(false))
    {
      ghost var before := todoRepository.State();
      var found := FindOne(todoId);
      if !found.Ok? {
        return found.PropagateFailure();
      }
      var todo := found.value;
      if todo.finished {
        return BusinessError(AlreadyFinished);
      }
      todo := todo.(finished := true);
      var _ := todoRepository.UpdateById(todoId);
      r := Ok(todo);
      FinishLowersUnfinished(before, todoId);
    }

    method Delete(todoId: int) returns (r: Outcome<()>)
      requires Valid()
      modifies todoRepository
      ensures Valid()
      ensures Reply(r, todoRepository.State()) == TodoService.Delete(old(todoRepository.State()), todoId)
      ensures todoRepository.State().Count(false) <= old(todoRepository.State().Count(false))
    {
      ghost var before := todoRepository.State();
      var found := FindOne(todoId);
      if !found.Ok? {
        return found.PropagateFailure();
      }
      var _ := todoRepository.DeleteById(todoId);
      r := Ok(());
      DeleteNeverRaisesUnfinished(before, todoId);
    }
  }

  /**
   * A client of the objects: with a fresh repository, five creates succeed,
   * the sixth is refused, and after one finish a create succeeds again; a
   * finished Todo cannot be finished twice and a deleted one is not found.
   */
  method CapScenario(now: Timestamp)
  {
    var repository := new TodoRepository();
    var service := new TodoServiceImpl(repository);
    CountsPartition(repository.State());
    CreateBelowCap(repository.State(), Todo(todoTitle := "sample todo 1"), now);
    var first := service.Create(Todo(todoTitle := "sample todo 1"), now);
    assert first == Ok(Todo(Some(1), "sample todo 1", false, Some(now)));
    var i := 1;
    while i < MAX_UNFINISHED_COUNT
      invariant 1 <= i <= MAX_UNFINISHED_COUNT
      invariant service.Valid() && service.todoRepository == repository
      invariant repository.State().Count(false) == i && 1 in repository.rows
      invariant repository.rows[1] == first.value
    {
      CreateBelowCap(repository.State(), Todo(todoTitle := "more"), now);
      var more := service.Create(Todo(todoTitle := "more"), now);
      i := i + 1;
    }
    var refused := service.Create(Todo(todoTitle := "sample todo 6"), now);
    assert refused == BusinessError(TooManyUnfinished);
    ghost var full := repository.State();
    var finished := service.Finish(1);
    assert finished == Ok(first.value.(finished := true));
    var again := service.Finish(1);
    assert again == BusinessError(AlreadyFinished);
    FinishLowersUnfinished(full, 1);
    CreateBelowCap(repository.State(), Todo(todoTitle := "sample todo 6"), now);
    var accepted := service.Create(Todo(todoTitle := "sample todo 6"), now);
    assert accepted.Ok?;
    var deleted := service.Delete(1);
    assert deleted == Ok(());
    var gone := service.FindOne(1);
    assert gone == NotFound(1);
  }
}
