/**
 * The `tasks` table of the relational store and the SQL statements the task
 * routes send to it. The store is a collaborator: what is modelled here is only
 * what each statement does to the table and which rows it returns.
 */
module TaskStore {
  import opened Wrappers

  /**
   * One row of `tasks`. `createdAt` and `updatedAt` are ticks of an abstract
   * clock standing for CURRENT_TIMESTAMP.
   */
  datatype Task = Task(id: int, title: string, description: string, completed: bool, createdAt: nat, updatedAt: nat)

  /** `title VARCHAR(255)`: the store rejects a longer title. */
  const TitleWidth: nat := 255

  /**
   * What the schema guarantees of the table: SERIAL ids below the sequence's
   * next value, each row stored under its own id, `updated_at >= created_at`,
   * titles that fit the column, and creation times that grow with the id.
   */
  ghost predicate StoreInvariant(rows: map<int, Task>, nextId: int, clock: nat) {
    && nextId >= 1
    && KeyedById(rows)
    && (forall id :: id in rows ==> 1 <= id < nextId)
    && (forall id :: id in rows ==> rows[id].createdAt <= rows[id].updatedAt <= clock)
    && (forall id :: id in rows ==> |rows[id].title| <= TitleWidth)
    && (forall a, b :: a in rows && b in rows && a < b ==> rows[a].createdAt < rows[b].createdAt)
  }

  /** Every row is stored under its own id. */
  ghost predicate KeyedById(rows: map<int, Task>) {
    forall id :: id in rows ==> rows[id].id == id
  }

  // ---------------------------------------------------------------------------
  // SELECT * FROM tasks ORDER BY created_at DESC
  // ---------------------------------------------------------------------------

  /** The rows whose ids lie in [1, k), highest id first. */
  function Collect(rows: map<int, Task>, k: int): seq<Task>
    decreases k
  {
    if k <= 1 then [] else (if k - 1 in rows then [rows[k - 1]] else []) + Collect(rows, k - 1)
  }

  /** The reply to `SELECT * FROM tasks ORDER BY created_at DESC`. */
  function SelectAll(rows: map<int, Task>, nextId: int): seq<Task> {
    Collect(rows, nextId)
  }

  /** Collect lists exactly the rows with ids in [1, k), each once, in strictly descending id order. */
  lemma {:induction false} CollectRows(rows: map<int, Task>, k: int)
    requires KeyedById(rows)
    ensures forall i :: 0 <= i < |Collect(rows, k)| ==>
      1 <= Collect(rows, k)[i].id < k && Collect(rows, k)[i].id in rows && rows[Collect(rows, k)[i].id] == Collect(rows, k)[i]
    ensures forall id :: id in rows && 1 <= id < k ==> rows[id] in Collect(rows, k)
    ensures forall i, j :: 0 <= i < j < |Collect(rows, k)| ==> Collect(rows, k)[i].id > Collect(rows, k)[j].id
    decreases k
  {
    if k > 1 {
      CollectRows(rows, k - 1);
    }
  }

  /**
   * The listing is the whole table, newest first: it holds exactly the stored
   * rows, and strictly descending creation times mean no row appears twice.
   */
  lemma SelectAllOrdered(rows: map<int, Task>, nextId: int, clock: nat)
    requires StoreInvariant(rows, nextId, clock)
    ensures forall i, j :: 0 <= i < j < |SelectAll(rows, nextId)| ==>
      SelectAll(rows, nextId)[i].createdAt > SelectAll(rows, nextId)[j].createdAt
    ensures forall i :: 0 <= i < |SelectAll(rows, nextId)| ==>
      SelectAll(rows, nextId)[i].id in rows && rows[SelectAll(rows, nextId)[i].id] == SelectAll(rows, nextId)[i]
    ensures forall id :: id in rows ==> rows[id] in SelectAll(rows, nextId)
  {
    var s := SelectAll(rows, nextId);
    CollectRows(rows, nextId);
    forall i, j | 0 <= i < j < |s| ensures s[i].createdAt > s[j].createdAt {
      assert s[j].id < s[i].id;
    }
  }

  /** Collect only looks at ids below k. */
  lemma {:induction false} CollectAgree(m1: map<int, Task>, m2: map<int, Task>, k: int)
    requires forall id :: id < k ==> (id in m1 <==> id in m2)
    requires forall id :: id < k && id in m1 ==> m1[id] == m2[id]
    ensures Collect(m1, k) == Collect(m2, k)
    decreases k
  {
    if k > 1 {
      CollectAgree(m1, m2, k - 1);
    }
  }

  /** A row inserted under the sequence's next value heads the next listing. */
  lemma NewestFirst(rows: map<int, Task>, nextId: int, t: Task)
    requires nextId >= 1
    requires forall id :: id in rows ==> id < nextId
    ensures SelectAll(rows[nextId := t], nextId + 1) == [t] + SelectAll(rows, nextId)
  {
    CollectAgree(rows[nextId := t], rows, nextId);
  }

  /** The stored rows other than the one with id `id`, in the same order. */
  function Without(s: seq<Task>, id: int): (r: seq<Task>)
    ensures |r| <= |s|
  {
    if s == [] then [] else (if s[0].id == id then [] else [s[0]]) + Without(s[1..], id)
  }

  /** Deleting a row removes it from the listing and leaves the others in order. */
  lemma {:induction false} CollectRemove(rows: map<int, Task>, k: int, id: int)
    requires KeyedById(rows)
    ensures Collect(rows - {id}, k) == Without(Collect(rows, k), id)
    decreases k
  {
    if k > 1 {
      CollectRemove(rows, k - 1, id);
      var head := if k - 1 in rows then [rows[k - 1]] else [];
      assert Collect(rows, k) == head + Collect(rows, k - 1);
      WithoutConcat(head, Collect(rows, k - 1), id);
    }
  }

  lemma {:induction false} WithoutConcat(a: seq<Task>, b: seq<Task>, id: int)
    ensures Without(a + b, id) == Without(a, id) + Without(b, id)
    decreases |a|
  {
    if a != [] {
      assert (a + b)[0] == a[0] && (a + b)[1..] == a[1..] + b;
      WithoutConcat(a[1..], b, id);
    } else {
      assert a + b == b;
    }
  }

  /** An INSERT keeps the invariant, and the new row heads a listing that is therefore new. */
  lemma InsertKeepsInvariant(rows: map<int, Task>, nextId: int, clock: nat, t: Task)
    requires StoreInvariant(rows, nextId, clock)
    requires t.id == nextId && t.createdAt == clock + 1 && t.updatedAt == clock + 1 && |t.title| <= TitleWidth
    ensures nextId !in rows
    ensures StoreInvariant(rows[nextId := t], nextId + 1, clock + 1)
    ensures SelectAll(rows[nextId := t], nextId + 1) == [t] + SelectAll(rows, nextId)
    ensures SelectAll(rows[nextId := t], nextId + 1) != SelectAll(rows, nextId)
  {
    NewestFirst(rows, nextId, t);
    assert |[t] + SelectAll(rows, nextId)| == |SelectAll(rows, nextId)| + 1;
  }

  /**
   * Rewriting one row with its creation time kept and a fresh update time keeps
   * the invariant; the listing changes whenever the row does.
   */
  lemma RewriteKeepsInvariant(rows: map<int, Task>, nextId: int, clock: nat, t: Task)
    requires StoreInvariant(rows, nextId, clock) && t.id in rows
    requires t.createdAt == rows[t.id].createdAt && t.updatedAt == clock + 1 && |t.title| <= TitleWidth
    ensures StoreInvariant(rows[t.id := t], nextId, clock + 1)
    ensures t != rows[t.id] ==> SelectAll(rows[t.id := t], nextId) != SelectAll(rows, nextId)
  {
    var rows' := rows[t.id := t];
    CollectRows(rows, nextId);
    CollectRows(rows', nextId);
    if t != rows[t.id] {
      assert t.id in rows' && 1 <= t.id < nextId && rows'[t.id] == t;
      assert t in SelectAll(rows', nextId);
      assert t !in SelectAll(rows, nextId);
    }
  }

  /** A DELETE keeps the invariant and takes exactly that row out of the listing. */
  lemma DeleteKeepsInvariant(rows: map<int, Task>, nextId: int, clock: nat, id: int)
    requires StoreInvariant(rows, nextId, clock)
    ensures StoreInvariant(rows - {id}, nextId, clock)
    ensures SelectAll(rows - {id}, nextId) == Without(SelectAll(rows, nextId), id)
    ensures id in rows ==> SelectAll(rows - {id}, nextId) != SelectAll(rows, nextId)
  {
    CollectRemove(rows, nextId, id);
    CollectRows(rows, nextId);
    CollectRows(rows - {id}, nextId);
    if id in rows {
      assert rows[id] in SelectAll(rows, nextId);
      assert rows[id] !in SelectAll(rows - {id}, nextId);
    }
  }

  // ---------------------------------------------------------------------------
  // Single-row statements
  // ---------------------------------------------------------------------------

  /** What a statement sends back: the rows of its RETURNING clause or its SELECT, or a failure. */
  datatype Reply = Failure | Rows(rows: seq<Task>)

  /** The rows matched by `WHERE id = $1`: the row with that id, if any. */
  function Matching(rows: map<int, Task>, id: int): (r: seq<Task>)
    ensures |r| <= 1
    ensures r == [] <==> id !in rows
    ensures r != [] ==> r[0] == rows[id]
  {
    if id in rows then [rows[id]] else []
  }

  /**
   * `INSERT INTO tasks (title, description) VALUES ($1, $2) RETURNING *`: the id
   * is the sequence's next value, `completed` takes its default FALSE and both
   * timestamps the current time; a title longer than the column fails.
   */
  function Insert(nextId: int, title: string, description: string, now: nat): Reply {
    if |title| > TitleWidth then Failure
    else Rows([Task(nextId, title, description, false, now, now)])
  }

  // ---------------------------------------------------------------------------
  // UPDATE tasks SET <assignments>, updated_at = CURRENT_TIMESTAMP WHERE id = $n RETURNING *
  // ---------------------------------------------------------------------------

  datatype Column = TitleColumn | DescriptionColumn | CompletedColumn

  /** One entry `column = $param` of a SET list. */
  datatype Assignment = Assignment(column: Column, param: nat)

  /** A bound statement parameter. */
  datatype SqlValue = Text(text: string) | Flag(flag: bool) | Integer(n: int)

  /** Applies `column = $param` to a row; an unbound parameter or a value of the wrong type fails. */
  function Assign(t: Task, a: Assignment, values: seq<SqlValue>): Option<Task> {
    if !(1 <= a.param <= |values|) then None
    else match (a.column, values[a.param - 1])
      case (TitleColumn, Text(s)) => Some(t.(title := s))
      case (DescriptionColumn, Text(s)) => Some(t.(description := s))
      case (CompletedColumn, Flag(b)) => Some(t.(completed := b))
      case _ => None
  }

  /**
   * Applies a SET list one entry after another. For lists whose columns are
   * distinct and whose right sides are parameters, which is every list the
   * update handler builds, this is what SQL does: there every right side is
   * evaluated against the old row.
   */
  function AssignAll(t: Task, sets: seq<Assignment>, values: seq<SqlValue>): Option<Task>
    decreases |sets|
  {
    if sets == [] then Some(t)
    else match Assign(t, sets[0], values)
      case None => None
      case Some(t') => AssignAll(t', sets[1..], values)
  }

  /** Parameters that a SET list does not mention do not affect it. */
  lemma {:induction false} AssignAllExtend(t: Task, sets: seq<Assignment>, values: seq<SqlValue>, extra: seq<SqlValue>)
    requires forall i :: 0 <= i < |sets| ==> sets[i].param <= |values|
    ensures AssignAll(t, sets, values + extra) == AssignAll(t, sets, values)
    decreases |sets|
  {
    if sets != [] {
      var a := sets[0];
      if 1 <= a.param {
        assert (values + extra)[a.param - 1] == values[a.param - 1];
      }
      match Assign(t, a, values)
      case None =>
      case Some(t') => AssignAllExtend(t', sets[1..], values, extra);
    }
  }

  /** Appending an entry to a SET list applies it after the others. */
  lemma {:induction false} AssignAllSnoc(t: Task, sets: seq<Assignment>, a: Assignment, values: seq<SqlValue>)
    ensures AssignAll(t, sets + [a], values) ==
      match AssignAll(t, sets, values)
      case None => None
      case Some(t') => Assign(t', a, values)
    decreases |sets|
  {
    if sets == [] {
      assert sets + [a] == [a];
    } else {
      assert (sets + [a])[0] == sets[0] && (sets + [a])[1..] == sets[1..] + [a];
      match Assign(t, sets[0], values)
      case None =>
      case Some(t') => AssignAllSnoc(t', sets[1..], a, values);
    }
  }

  /** A SET entry appended after the others, with more parameters bound after theirs, applies to their result. */
  lemma AssignAllPush(t: Task, sets: seq<Assignment>, values: seq<SqlValue>, more: seq<SqlValue>, a: Assignment, t1: Task)
    requires forall i :: 0 <= i < |sets| ==> sets[i].param <= |values|
    requires AssignAll(t, sets, values) == Some(t1)
    ensures AssignAll(t, sets + [a], values + more) == Assign(t1, a, values + more)
  {
    AssignAllSnoc(t, sets, a, values + more);
    AssignAllExtend(t, sets, values, more);
  }

  /** Whether a SET entry binds to the title column a text longer than the column. */
  predicate LongTitleEntry(a: Assignment, values: seq<SqlValue>) {
    a.column == TitleColumn && 1 <= a.param <= |values| && values[a.param - 1].Text? && |values[a.param - 1].text| > TitleWidth
  }

  function BindsLongTitle(sets: seq<Assignment>, values: seq<SqlValue>): bool
    decreases |sets|
  {
    sets != [] && (LongTitleEntry(sets[0], values) || BindsLongTitle(sets[1..], values))
  }

  /** A SET list binds an over-long title exactly when one of its parts does. */
  lemma {:induction false} BindsLongTitleConcat(a: seq<Assignment>, b: seq<Assignment>, values: seq<SqlValue>)
    ensures BindsLongTitle(a + b, values) == (BindsLongTitle(a, values) || BindsLongTitle(b, values))
    decreases |a|
  {
    if a == [] {
      assert a + b == b;
    } else {
      assert (a + b)[0] == a[0] && (a + b)[1..] == a[1..] + b;
      BindsLongTitleConcat(a[1..], b, values);
    }
  }

  /**
   * The reply to the UPDATE statement whose id is bound as parameter `whereParam`.
   * The store coerces the bound values to their columns while planning the
   * statement, so a title too long for its column fails before any row is read,
   * whether or not the id matches.
   */
  function Update(rows: map<int, Task>, sets: seq<Assignment>, whereParam: nat, values: seq<SqlValue>, now: nat): Reply {
    if !(1 <= whereParam <= |values|) || !values[whereParam - 1].Integer? then Failure
    else if BindsLongTitle(sets, values) then Failure
    else
      var id := values[whereParam - 1].n;
      if id !in rows then Rows([])
      else match AssignAll(rows[id], sets, values)
        case None => Failure
        case Some(t) => if |t.title| > TitleWidth then Failure else Rows([t.(updatedAt := now)])
  }
}
