/**
 * The five operations of the Todo service, stated as functions from the
 * table before the call to the reply and the table after it.  Each one
 * makes the decisions of the service implementation and calls the store
 * functions in the same order as the implementation calls the repository.
 * The class `ServiceImpl.TodoServiceImpl` is proved to behave as these
 * functions say.
 */
module TodoService {
  import opened Wrappers
  import opened Entity
  import opened Store

  /** The most unfinished Todos `Create` lets exist. */
  const MAX_UNFINISHED_COUNT: nat := 5

  /** The business rule a refused call broke. */
  datatype Violation = TooManyUnfinished | AlreadyFinished

  /**
   * What a service call ends in: a value, the not-found exception (for a
   * missing id) or the business exception.
   */
  datatype Outcome<+T> = Ok(value: T) | NotFound(todoId: int) | BusinessError(violation: Violation) {

    /** Carries a failure on unchanged, as a thrown exception passes through its caller. */
    function PropagateFailure<U>(): (r: Outcome<U>)
      requires !Ok?
      ensures NotFound? ==> r == NotFound(todoId)
      ensures BusinessError? ==> r == BusinessError(violation)
    {
      match this
      case NotFound(id) => NotFound(id)
      case BusinessError(v) => BusinessError(v)
    }
  }

  /** The outcome of a call together with the table it leaves behind. */
  datatype Reply<+T> = Reply(outcome: Outcome<T>, after: Table)

  /** `findOne`: the stored Todo with that id, or NotFound. */
  function FindOne(t: Table, todoId: int): (r: Outcome<Todo>)
    requires t.Valid()
    ensures r.Ok? <==> t.Find(todoId).Some?
    ensures r.Ok? ==> r.value.todoId == Some(todoId) && r.value in t.rows.Values
    ensures r.NotFound? ==> r.todoId == todoId
    ensures !r.BusinessError?
  {
    match t.Find(todoId)
    case Some(todo) => Ok(todo)
    case None => NotFound(todoId)
  }

  /**
   * `create`: refused while MAX_UNFINISHED_COUNT or more Todos are
   * unfinished; otherwise the Todo is stamped with `now`, made unfinished
   * whatever the caller said, and inserted under a new id.
   */
  function Create(t: Table, todo: Todo, now: Timestamp): (r: Reply<Todo>)
    requires t.Valid()
    ensures r.after.Valid()
    ensures !r.outcome.NotFound?
    ensures r.outcome.BusinessError? <==> t.Count(false) >= MAX_UNFINISHED_COUNT
    ensures r.outcome.BusinessError? ==> r.outcome.violation == TooManyUnfinished && r.after == t
    ensures r.outcome.Ok? ==>
      && r.outcome.value == Todo(Some(t.nextId), todo.todoTitle, false, Some(now))
      && r.after == t.Insert(r.outcome.value)
  {
    if t.Count(false) >= MAX_UNFINISHED_COUNT then
      Reply(BusinessError(TooManyUnfinished), t)
    else
      var stamped := todo.(createdAt := Some(now), finished := false);
      Reply(Ok(stamped.(todoId := Some(t.nextId))), t.Insert(stamped))
  }

  /**
   * `finish`: NotFound for a missing id, refused for a Todo that is already
   * finished; otherwise the row is marked finished and returned so.
   */
  function Finish(t: Table, todoId: int): (r: Reply<Todo>)
    requires t.Valid()
    ensures r.after.Valid()
    ensures r.outcome.NotFound? <==> todoId !in t.rows
    ensures r.outcome.NotFound? ==> r.outcome.todoId == todoId
    ensures r.outcome.BusinessError? <==> todoId in t.rows && t.rows[todoId].finished
    ensures r.outcome.BusinessError? ==> r.outcome.violation == AlreadyFinished
    ensures !r.outcome.Ok? ==> r.after == t
    ensures r.outcome.Ok? ==>
      && r.outcome.value == t.rows[todoId].(finished := true)
      && r.after == t.MarkFinished(todoId)
  {
    var found := FindOne(t, todoId);
    if !found.Ok? then
      Reply(found.PropagateFailure(), t)
    else if found.value.finished then
      Reply(BusinessError(AlreadyFinished), t)
    else
      Reply(Ok(found.value.(finished := true)), t.MarkFinished(todoId))
  }

  /** `delete`: NotFound for a missing id; otherwise that row is removed. */
  function Delete(t: Table, todoId: int): (r: Reply<()>)
    requires t.Valid()
    ensures r.after.Valid()
    ensures r.outcome.NotFound? <==> todoId !in t.rows
    ensures r.outcome.NotFound? ==> r.outcome.todoId == todoId && r.after == t
    ensures !r.outcome.BusinessError?
    ensures r.outcome.Ok? ==> r.after == t.Remove(todoId)
  {
    var found := FindOne(t, todoId);
    if !found.Ok? then
      Reply(found.PropagateFailure(), t)
    else
      Reply(Ok(()), t.Remove(todoId))
  }

  /** Below the cap, `create` succeeds and adds exactly one unfinished Todo. */
  lemma CreateBelowCap(t: Table, todo: Todo, now: Timestamp)
    requires t.Valid() && t.Count(false) < MAX_UNFINISHED_COUNT
    ensures var r := Create(t, todo, now);
      && r.outcome.Ok?
      && r.after.Count(false) == t.Count(false) + 1
      && r.after.Count(true) == t.Count(true)
  {
    var stamped := todo.(createdAt := Some(now), finished := false);
    CountAfterInsert(t, stamped, false);
    CountAfterInsert(t, stamped, true);
  }

  /** A successful `finish` takes one Todo off the unfinished count; a failed one changes nothing. */
  lemma FinishLowersUnfinished(t: Table, todoId: int)
    requires t.Valid()
    ensures var r := Finish(t, todoId);
      r.after.Count(false) == if r.outcome.Ok? then t.Count(false) - 1 else t.Count(false)
  {
    CountAfterMarkFinished(t, todoId, false);
  }

  /** `delete` never raises the unfinished count. */
  lemma DeleteNeverRaisesUnfinished(t: Table, todoId: int)
    requires t.Valid()
    ensures Delete(t, todoId).after.Count(false) <= t.Count(false)
  {
    CountAfterRemove(t, todoId, false);
  }

  /** What `create` returns is what `findOne` later finds under the new id. */
  lemma CreateThenFindOne(t: Table, todo: Todo, now: Timestamp)
    requires t.Valid()
    ensures var r := Create(t, todo, now);
      r.outcome.Ok? ==> FindOne(r.after, t.nextId) == Ok(r.outcome.value)
  {
  }

  /** A second `finish` of the same id is refused as already finished. */
  lemma FinishTwiceFails(t: Table, todoId: int)
    requires t.Valid()
    ensures var r := Finish(t, todoId);
      r.outcome.Ok? ==> Finish(r.after, todoId).outcome == BusinessError(AlreadyFinished)
  {
  }

  /** After `delete`, whatever it returned, `findOne` of that id fails with NotFound. */
  lemma DeleteThenFindOne(t: Table, todoId: int)
    requires t.Valid()
    ensures FindOne(Delete(t, todoId).after, todoId) == NotFound(todoId)
  {
  }

  /** One call to the service, with its arguments (and, for `create`, the clock reading). */
  datatype Call =
    | FindOneCall(todoId: int)
    | FindAllCall
    | CreateCall(todo: Todo, now: Timestamp)
    | FinishCall(todoId: int)
    | DeleteCall(todoId: int)

  /** The table after one call. */
  function Step(t: Table, c: Call): (u: Table)
    requires t.Valid()
    ensures u.Valid()
  {
    match c
    case FindOneCall(_) => t
    case FindAllCall => t
    case CreateCall(todo, now) => Create(t, todo, now).after
    case FinishCall(todoId) => Finish(t, todoId).after
    case DeleteCall(todoId) => Delete(t, todoId).after
  }

  /** The table after a sequence of calls made one after another. */
  function Run(t: Table, calls: seq<Call>): (u: Table)
    requires t.Valid()
    ensures u.Valid()
    decreases |calls|
  {
    if calls == [] then t else Run(Step(t, calls[0]), calls[1..])
  }

  /** No single call takes the unfinished count above the cap. */
  lemma StepKeepsCap(t: Table, c: Call)
    requires t.Valid() && t.Count(false) <= MAX_UNFINISHED_COUNT
    ensures Step(t, c).Count(false) <= MAX_UNFINISHED_COUNT
  {
    match c
    case FindOneCall(_) =>
    case FindAllCall =>
    case CreateCall(todo, now) =>
      if t.Count(false) < MAX_UNFINISHED_COUNT {
        CreateBelowCap(t, todo, now);
      }
    case FinishCall(todoId) => FinishLowersUnfinished(t, todoId);
    case DeleteCall(todoId) => DeleteNeverRaisesUnfinished(t, todoId);
  }

  /**
   * Calls made one after another never take the unfinished count above the
   * cap once it holds.
   */
  lemma {:induction false} CapInvariant(t: Table, calls: seq<Call>)
    requires t.Valid() && t.Count(false) <= MAX_UNFINISHED_COUNT
    ensures Run(t, calls).Count(false) <= MAX_UNFINISHED_COUNT
    decreases |calls|
  {
    if calls != [] {
      StepKeepsCap(t, calls[0]);
      CapInvariant(Step(t, calls[0]), calls[1..]);
    }
  }

  /**
   * `u` is a later state of `t`: the id counter has not gone back, no id that
   * was free below the counter has come into use, and a row present in both
   * has kept its id, title and creation time and, once finished, stays
   * finished.
   */
  ghost predicate Evolves(t: Table, u: Table) {
    && t.nextId <= u.nextId
    && (forall id :: id in u.rows && id < t.nextId ==> id in t.rows)
    && (forall id :: id in t.rows && id in u.rows ==>
          && u.rows[id].todoId == t.rows[id].todoId
          && u.rows[id].todoTitle == t.rows[id].todoTitle
          && u.rows[id].createdAt == t.rows[id].createdAt
          && (t.rows[id].finished ==> u.rows[id].finished))
  }

  lemma EvolvesTransitive(t: Table, u: Table, w: Table)
    requires t.Valid() && Evolves(t, u) && Evolves(u, w)
    ensures Evolves(t, w)
  {
  }

  lemma StepEvolves(t: Table, c: Call)
    requires t.Valid()
    ensures Evolves(t, Step(t, c))
  {
  }

  /**
   * Over any sequence of calls, a Todo's id, title and creation time never
   * change, `finished` only goes from false to true, and a deleted id is
   * never used again.
   */
  lemma {:induction false} RunEvolves(t: Table, calls: seq<Call>)
    requires t.Valid()
    ensures Evolves(t, Run(t, calls))
    decreases |calls|
  {
    if calls != [] {
      var u := Step(t, calls[0]);
      StepEvolves(t, calls[0]);
      RunEvolves(u, calls[1..]);
      EvolvesTransitive(t, u, Run(u, calls[1..]));
    }
  }
}
