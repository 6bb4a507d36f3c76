/**
 * The `todo` table behind the repository interface: rows keyed by their
 * generated id, and the identity counter that hands out the next id.
 *
 * `Table` is the table as a value, with one function per SQL statement of
 * the interface; the class `TodoRepository` holds the same state in fields
 * and changes it in place, each method proved equal to the function that
 * specifies it.
 */
module Store {
  import opened Wrappers
  import opened Entity

  /** Every row is stored under its own id. */
  ghost predicate KeyedById(rows: map<int, Todo>) {
    forall id :: id in rows ==> rows[id].todoId == Some(id)
  }

  /** The ids along `s` are present and strictly increasing. */
  ghost predicate Ascending(s: seq<Todo>) {
    forall i, j :: 0 <= i < j < |s| ==>
      s[i].todoId.Some? && s[j].todoId.Some? && s[i].todoId.value < s[j].todoId.value
  }

  /**
   * The rows whose ids lie in [0, n), in ascending id order: the order in
   * which a scan of the primary key meets them.
   */
  function Scan(rows: map<int, Todo>, n: int): (s: seq<Todo>)
    requires KeyedById(rows)
    ensures forall t :: t in s ==>
      t.todoId.Some? && t.todoId.value < n && t.todoId.value in rows && rows[t.todoId.value] == t
    ensures forall id :: 0 <= id < n && id in rows ==> rows[id] in s
    ensures Ascending(s)
    decreases n
  {
    if n <= 0 then []
    else
      var prefix := Scan(rows, n - 1);
      var s := prefix + (if n - 1 in rows then [rows[n - 1]] else []);
      assert forall i :: 0 <= i < |prefix| ==> s[i] == prefix[i] && prefix[i] in prefix;
      s
  }

  datatype Table = Table(rows: map<int, Todo>, nextId: int) {

    /**
     * The identity column starts at 1; every row is stored under its own id,
     * and every id lies below the next one the counter will hand out.
     */
    ghost predicate Valid() {
      && 1 <= nextId
      && forall id :: id in rows ==> 1 <= id < nextId && rows[id].todoId == Some(id)
    }

    /** `SELECT … WHERE todo_id = id`: the row carrying that id, or nothing. */
    function Find(id: int): (r: Option<Todo>)
      requires Valid()
      ensures r.Some? <==> exists k :: k in rows && rows[k].todoId == Some(id)
      ensures r.Some? ==> r.value.todoId == Some(id) && r.value in rows.Values
    {
      if id in rows then Some(rows[id]) else None
    }

    /** `SELECT … FROM todo`: every row exactly once, in ascending id order. */
    function All(): (s: seq<Todo>)
      requires Valid()
      ensures forall t :: t in s <==> t in rows.Values
      ensures Ascending(s)
    {
      Scan(rows, nextId)
    }

    /**
     * `SELECT COUNT(*) … WHERE finished = f`: the number of rows whose flag
     * equals `f`, which is zero exactly when no row has that flag.
     */
    function Count(f: bool): (n: nat)
      ensures n == 0 <==> forall id :: id in rows ==> rows[id].finished != f
    {
      var matching := set id | id in rows && rows[id].finished == f;
      assert matching == {} <==> forall id :: id in rows ==> rows[id].finished != f by {
        if exists id :: id in rows && rows[id].finished == f {
          var id :| id in rows && rows[id].finished == f;
          assert id in matching;
        }
      }
      |matching|
    }

    /**
     * The number of rows a statement with `WHERE todo_id = id` touches:
     * one when the id is stored, none otherwise.
     */
    function Matching(id: int): (n: nat)
      requires Valid()
      ensures n == if id in rows then 1 else 0
    {
      var matched := set k | k in rows && rows[k].todoId == Some(id);
      assert forall k :: k in matched ==> k == id;
      if id in rows then
        assert matched == {id};
        |matched|
      else
        assert matched == {};
        |matched|
    }

    /**
     * `INSERT INTO todo(todo_title, finished, created_at)`: the caller's id is
     * not inserted; the row gets the next generated id, which is fresh and
     * larger than every stored id, and no other row changes.
     */
    function Insert(todo: Todo): (r: Table)
      requires Valid()
      ensures r.Valid()
      ensures nextId !in rows && r.rows.Keys == rows.Keys + {nextId}
      ensures forall id :: id in rows ==> id < nextId && r.rows[id] == rows[id]
      ensures r.rows[nextId] == todo.(todoId := Some(nextId))
      ensures r.nextId > nextId
    {
      Table(rows[nextId := todo.(todoId := Some(nextId))], nextId + 1)
    }

    /**
     * `UPDATE todo SET finished = true WHERE todo_id = id`: that row becomes
     * finished whatever it was before; nothing else changes.
     */
    function MarkFinished(id: int): (r: Table)
      requires Valid()
      ensures r.Valid()
      ensures r.nextId == nextId && r.rows.Keys == rows.Keys
      ensures id in rows ==> r.rows[id] == rows[id].(finished := true)
      ensures forall k :: k in rows && k != id ==> r.rows[k] == rows[k]
    {
      if id in rows then Table(rows[id := rows[id].(finished := true)], nextId) else this
    }

    /** `DELETE FROM todo WHERE todo_id = id`: that row goes; nothing else changes. */
    function Remove(id: int): (r: Table)
      requires Valid()
      ensures r.Valid()
      ensures r.nextId == nextId && r.rows.Keys == rows.Keys - {id}
      ensures forall k :: k in r.rows ==> r.rows[k] == rows[k]
    {
      Table(rows - {id}, nextId)
    }
  }

  /** The two counts together cover every row. */
  lemma CountsPartition(t: Table)
    ensures t.Count(false) + t.Count(true) == |t.rows|
  {
    var unfinished := set id | id in t.rows && t.rows[id].finished == false;
    var finished := set id | id in t.rows && t.rows[id].finished == true;
    assert t.Count(false) == |unfinished| && t.Count(true) == |finished|;
    assert unfinished + finished == t.rows.Keys;
    assert unfinished * finished == {};
    assert |unfinished + finished| == |unfinished| + |finished|;
    assert |t.rows.Keys| == |t.rows|;
  }

  /** Putting a row under a new key adds one to the count of its flag and leaves the other count alone. */
  lemma CountPut(t: Table, id: int, row: Todo, f: bool)
    requires id !in t.rows
    ensures t.(rows := t.rows[id := row]).Count(f) == t.Count(f) + (if row.finished == f then 1 else 0)
  {
    var rows := t.rows;
    var before := set k | k in rows && rows[k].finished == f;
    var updated := rows[id := row];
    var after := set k | k in updated && updated[k].finished == f;
    if row.finished == f {
      assert after == before + {id};
    } else {
      assert after == before;
    }
  }

  /** Inserting a row adds one to the count of its own flag and leaves the other count alone. */
  lemma CountAfterInsert(t: Table, todo: Todo, f: bool)
    requires t.Valid()
    ensures t.Insert(todo).Count(f) == t.Count(f) + (if todo.finished == f then 1 else 0)
  {
    CountPut(t, t.nextId, todo.(todoId := Some(t.nextId)), f);
  }

  /** Marking an unfinished row finished moves it from the unfinished count to the finished count. */
  lemma CountAfterMarkFinished(t: Table, id: int, f: bool)
    requires t.Valid()
    ensures var moved := id in t.rows && !t.rows[id].finished;
      t.MarkFinished(id).Count(f) ==
        if !moved then t.Count(f) else if f then t.Count(f) + 1 else t.Count(f) - 1
  {
    if id in t.rows {
      var others := t.rows - {id};
      assert t.rows == others[id := t.rows[id]];
      assert t.MarkFinished(id).rows == others[id := t.rows[id].(finished := true)];
      CountPut(t.(rows := others), id, t.rows[id], f);
      CountPut(t.(rows := others), id, t.rows[id].(finished := true), f);
    }
  }

  /** Removing a row subtracts one from the count of its flag. */
  lemma CountAfterRemove(t: Table, id: int, f: bool)
    requires t.Valid()
    ensures t.Remove(id).Count(f) ==
      if id in t.rows && t.rows[id].finished == f then t.Count(f) - 1 else t.Count(f)
  {
    if id in t.rows {
      var others := t.rows - {id};
      assert t.rows == others[id := t.rows[id]];
      CountPut(t.(rows := others), id, t.rows[id], f);
    } else {
      assert t.Remove(id).rows == t.rows;
    }
  }

  /** Two tables that agree on every id below `n` scan alike below `n`. */
  lemma {:induction false} ScanAgrees(a: map<int, Todo>, b: map<int, Todo>, n: int)
    requires KeyedById(a) && KeyedById(b)
    requires forall k :: 0 <= k < n ==> (k in a <==> k in b) && (k in a ==> a[k] == b[k])
    ensures Scan(a, n) == Scan(b, n)
    decreases n
  {
    if n > 0 {
      ScanAgrees(a, b, n - 1);
    }
  }

  /**
   * An insert appends the new row to the listing and leaves the rest of it
   * as it was: the new row is the last one in id order, the row that
   * `ORDER BY todo_id DESC LIMIT 1` picks.
   */
  lemma InsertAppends(t: Table, todo: Todo)
    requires t.Valid()
    ensures t.Insert(todo).All() == t.All() + [todo.(todoId := Some(t.nextId))]
  {
    ScanAgrees(t.rows, t.Insert(todo).rows, t.nextId);
  }

  /**
   * The three sample rows the repository is exercised against (creation
   * times written as yyyyMMddHHmmss numbers).
   */
  const Sample: Table := Table(map[
    1 := Todo(Some(1), "sample todo 1", false, Some(20190919010101)),
    2 := Todo(Some(2), "sample todo 2", true, Some(20190919020202)),
    3 := Todo(Some(3), "sample todo 3", false, Some(20190919030303))], 4)

  /**
   * On the sample rows: the table is well formed, two rows are unfinished
   * and one is finished, and row 1 is found by its id.
   */
  lemma SampleTable()
    ensures Sample.Valid()
    ensures Sample.Count(false) == 2 && Sample.Count(true) == 1
    ensures Sample.Find(1) == Some(Todo(Some(1), "sample todo 1", false, Some(20190919010101)))
  {
    var rows := Sample.rows;
    assert (set id | id in rows && rows[id].finished == false) == {1, 3};
    assert (set id | id in rows && rows[id].finished == true) == {2};
  }

  /** The repository: the `todo` table, changed in place by INSERT, UPDATE and DELETE. */
  class TodoRepository {
    var rows: map<int, Todo>
    var nextId: int

    /** The table this object currently holds, as a value. */
    function State(): Table
      reads this
    {
      Table(rows, nextId)
    }

    ghost predicate Valid()
      reads this
    {
      State().Valid()
    }

    /** An empty table whose identity counter starts at 1. */
    constructor ()
      ensures Valid() && rows == map[] && nextId == 1
    {
      rows := map[];
      nextId := 1;
    }

    method FindById(todoId: int) returns (r: Option<Todo>)
      requires Valid()
      ensures r == State().Find(todoId)
    {
      r := if todoId in rows then Some(rows[todoId]) else None;
    }

    method FindAll() returns (r: seq<Todo>)
      requires Valid()
      ensures r == State().All()
    {
      r := Scan(rows, nextId);
    }

    /**
     * Inserts `todo` under a generated id.  The source writes the id back into
     * the argument; here the argument with its id set is returned as `saved`.
     */
    method Create(todo: Todo) returns (saved: Todo)
      requires Valid()
      modifies this
      ensures Valid()
      ensures saved == todo.(todoId := Some(old(nextId)))
      ensures State() == old(State()).Insert(todo)
    {
      saved := todo.(todoId := Some(nextId));
      rows := rows[nextId := saved];
      nextId := nextId + 1;
    }

    method UpdateById(todoId: int) returns (count: nat)
      requires Valid()
      modifies this
      ensures Valid()
      ensures count == old(State()).Matching(todoId)
      ensures State() == old(State()).MarkFinished(todoId)
    {
      count := State().Matching(todoId);
      if todoId in rows {
        rows := rows[todoId := rows[todoId].(finished := true)];
      }
    }

    method DeleteById(todoId: int) returns (count: nat)
      requires Valid()
      modifies this
      ensures Valid()
      ensures count == old(State()).Matching(todoId)
      ensures State() == old(State()).Remove(todoId)
    {
      count := State().Matching(todoId);
      rows := rows - {todoId};
    }

    method CountByFinished(finished: bool) returns (n: nat)
      ensures n == State().Count(finished)
    {
      n := |set id | id in rows && rows[id].finished == finished|;
    }
  }
}
