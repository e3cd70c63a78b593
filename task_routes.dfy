/**
 * The task service behind `/api/tasks`: list (read through the cache), get
 * (store only), and create, update and delete (store first, then delete the
 * cached list). Each request is one atomic step; whether each store or cache
 * call succeeds is a parameter of the step.
 */
module TaskRoutes {
  import opened Wrappers
  import opened JsString
  import opened TaskStore
  import opened RedisConfig

  /** The one cache key: the whole list, newest first. */
  const CacheKey: string := "all_tasks"
  /** Seconds the cached list lives. */
  const CacheTtl: nat := 60

  const TitleRequired: string := "Title is required"
  const NothingToUpdate: string := "No fields to update"
  const FetchTasksFailed: string := "Failed to fetch tasks"
  const CreateFailed: string := "Failed to create task"
  const UpdateFailed: string := "Failed to update task"
  const DeleteFailed: string := "Failed to delete task"
  const FetchTaskFailed: string := "Failed to fetch task"

  /** What a handler answers. */
  datatype Response =
    | Ok(task: Task)               // 200, one row
    | Listed(tasks: seq<Task>)     // 200, an array of rows
    | Created(task: Task)          // 201, the inserted row
    | Deleted                      // 200, { message: 'Task deleted successfully' }
    | BadRequest(message: string)  // 400, { error: message }
    | NotFound                     // 404, { error: 'Task not found' }
    | ServerError(message: string) // 500, { error: message }
  {
    function StatusCode(): int {
      match this
      case Ok(_) => 200
      case Listed(_) => 200
      case Created(_) => 201
      case Deleted => 200
      case BadRequest(_) => 400
      case NotFound => 404
      case ServerError(_) => 500
    }
  }

  /** A call the service makes to the store or the cache. */
  datatype Call =
    | CacheGet(key: string)
    | CacheSetEx(key: string, ttl: nat, value: seq<Task>)
    | CacheDel(key: string)
    | SelectAllRows
    | SelectRow(id: int)
    | InsertRow(title: string, description: string)
    | UpdateRow(sets: seq<Assignment>, values: seq<SqlValue>)
    | DeleteRow(id: int)

  /** A cache call is only made when there is a client. */
  function IfClient(client: Option<ClientId>, c: Call): seq<Call> {
    if client.Some? then [c] else []
  }

  // ---------------------------------------------------------------------------
  // Request validation
  // ---------------------------------------------------------------------------

  /** `!title || title.trim() === ''`: the title is absent, empty or blank. */
  predicate TitleMissing(title: Option<string>) {
    title.None? || title.value == "" || Trim(title.value) == ""
  }

  /** Create rejects exactly the absent titles and those made only of whitespace. */
  lemma TitleMissingIff(title: Option<string>)
    ensures TitleMissing(title) <==> title.None? || AllWhitespace(title.value)
  {
  }

  /** `description || ''`: an absent or empty description is stored as the empty string. */
  function DescriptionOrEmpty(description: Option<string>): (r: string)
    ensures description.None? ==> r == ""
    ensures description.Some? ==> r == description.value
  {
    if description.Some? && description.value != "" then description.value else ""
  }

  /** The body of PUT `/:id`: each field is present or absent (`undefined`). */
  datatype Patch = Patch(title: Option<string>, description: Option<string>, completed: Option<bool>)

  predicate NoFields(p: Patch) {
    p.title.None? && p.description.None? && p.completed.None?
  }

  /** The columns a patch supplies, in the order the handler tests them. */
  function SuppliedColumns(p: Patch): seq<Column> {
    (if p.title.Some? then [TitleColumn] else [])
    + (if p.description.Some? then [DescriptionColumn] else [])
    + (if p.completed.Some? then [CompletedColumn] else [])
  }

  /** The patch the handler binds: the title trimmed, the other fields as sent. */
  function Trimmed(p: Patch): (r: Patch)
    ensures SuppliedColumns(r) == SuppliedColumns(p) && NoFields(r) == NoFields(p)
  {
    p.(title := if p.title.Some? then Some(Trim(p.title.value)) else None)
  }

  /** A bound patch applied to a row: each supplied field replaced by its value, everything else kept. */
  function Applied(t: Task, p: Patch): Task {
    t.(title := if p.title.Some? then p.title.value else t.title,
       description := if p.description.Some? then p.description.value else t.description,
       completed := if p.completed.Some? then p.completed.value else t.completed)
  }

  /** What a PUT body means for a row: its supplied fields replaced, the title trimmed. */
  function Patched(t: Task, p: Patch): Task {
    Applied(t, Trimmed(p))
  }

  /** A patch changes nothing but the fields it supplies, and keeps the id and creation time. */
  lemma PatchedChangesOnlySupplied(t: Task, p: Patch)
    ensures Patched(t, p).id == t.id && Patched(t, p).createdAt == t.createdAt
    ensures p.title.None? ==> Patched(t, p).title == t.title
    ensures p.title.Some? ==> Patched(t, p).title == Trim(p.title.value)
    ensures p.description.None? ==> Patched(t, p).description == t.description
    ensures p.completed.None? ==> Patched(t, p).completed == t.completed
    ensures NoFields(p) ==> Patched(t, p) == t
  {
  }

  /** Unlike create, update does not reject a blank title: any title of whitespace is stored as the empty string. */
  lemma UpdateMayBlankTitle(t: Task, s: string, d: Option<string>, c: Option<bool>)
    requires AllWhitespace(s)
    ensures Patched(t, Patch(Some(s), d, c)).title == ""
  {
  }

  /** A bound patch whose title does not fit the title column. */
  predicate LongTitle(p: Patch) {
    p.title.Some? && |p.title.value| > TitleWidth
  }

  /** The SET entry and bound value each field contributes, numbered after the entries before it. */
  function TitleSet(p: Patch): seq<Assignment> {
    if p.title.Some? then [Assignment(TitleColumn, 1)] else []
  }

  function DescriptionSet(p: Patch): seq<Assignment> {
    if p.description.Some? then [Assignment(DescriptionColumn, |TitleSet(p)| + 1)] else []
  }

  function CompletedSet(p: Patch): seq<Assignment> {
    if p.completed.Some? then [Assignment(CompletedColumn, |TitleSet(p)| + |DescriptionSet(p)| + 1)] else []
  }

  function TitleValue(p: Patch): seq<SqlValue> {
    if p.title.Some? then [Text(p.title.value)] else []
  }

  function DescriptionValue(p: Patch): seq<SqlValue> {
    if p.description.Some? then [Text(p.description.value)] else []
  }

  function CompletedValue(p: Patch): seq<SqlValue> {
    if p.completed.Some? then [Flag(p.completed.value)] else []
  }

  /**
   * The SET list of PUT `/:id` as a value: one `column = $n` per supplied field,
   * in the order title, description, completed, numbered from 1.
   */
  function SetList(p: Patch): (r: seq<Assignment>)
    ensures |r| == |SuppliedColumns(p)|
    ensures r == [] <==> NoFields(p)
  {
    TitleSet(p) + DescriptionSet(p) + CompletedSet(p)
  }

  /** Entry i of the SET list sets the i-th supplied column from parameter i + 1. */
  lemma SetListShape(p: Patch)
    ensures forall i :: 0 <= i < |SetList(p)| ==> SetList(p)[i].column == SuppliedColumns(p)[i] && SetList(p)[i].param == i + 1
  {
  }

  /** The values bound to the parameters of the SET list, in the same order. */
  function Params(p: Patch): (r: seq<SqlValue>)
    ensures |r| == |SetList(p)|
  {
    TitleValue(p) + DescriptionValue(p) + CompletedValue(p)
  }

  /** The title stage alone sets the title. */
  lemma TitleStageApplies(t: Task, p: Patch)
    ensures AssignAll(t, TitleSet(p), TitleValue(p)) == Some(Applied(t, Patch(p.title, None, None)))
  {
  }

  /** Title and description stages together set the supplied ones of those two fields. */
  lemma DescriptionStageApplies(t: Task, p: Patch)
    ensures AssignAll(t, TitleSet(p) + DescriptionSet(p), TitleValue(p) + DescriptionValue(p))
      == Some(Applied(t, Patch(p.title, p.description, None)))
  {
    TitleStageApplies(t, p);
    if p.description.Some? {
      AssignAllPush(t, TitleSet(p), TitleValue(p), DescriptionValue(p), DescriptionSet(p)[0], Applied(t, Patch(p.title, None, None)));
    } else {
      assert TitleSet(p) + DescriptionSet(p) == TitleSet(p) && TitleValue(p) + DescriptionValue(p) == TitleValue(p);
    }
  }

  /**
   * The SET list means the patch: running it with its parameters on any row
   * gives exactly the row with the patch applied.
   */
  lemma SetListApplies(t: Task, p: Patch)
    ensures AssignAll(t, SetList(p), Params(p)) == Some(Applied(t, p))
  {
    var sets, values := TitleSet(p) + DescriptionSet(p), TitleValue(p) + DescriptionValue(p);
    DescriptionStageApplies(t, p);
    if p.completed.Some? {
      AssignAllPush(t, sets, values, CompletedValue(p), CompletedSet(p)[0], Applied(t, Patch(p.title, p.description, None)));
    } else {
      assert sets + CompletedSet(p) == sets && values + CompletedValue(p) == values;
    }
  }

  /** The SET list binds a title too long for its column exactly when the patch supplies one. */
  lemma SetListBindsLongTitle(p: Patch, extra: seq<SqlValue>)
    ensures BindsLongTitle(SetList(p), Params(p) + extra) == LongTitle(p)
  {
    var values := Params(p) + extra;
    BindsLongTitleConcat(TitleSet(p) + DescriptionSet(p), CompletedSet(p), values);
    BindsLongTitleConcat(TitleSet(p), DescriptionSet(p), values);
    if p.title.Some? {
      assert values[0] == Text(p.title.value);
    }
  }

  /**
   * What the UPDATE the handler sends means: a failure when the bound title does
   * not fit its column, whether or not the id matches; otherwise no row for an
   * absent id, and the patched row stamped with the statement's time.
   */
  lemma UpdateWithPatch(rows: map<int, Task>, patch: Patch, id: int, now: nat)
    ensures Update(rows, SetList(patch), |SetList(patch)| + 1, Params(patch) + [Integer(id)], now) ==
      if LongTitle(patch) then Failure
      else if id !in rows then Rows([])
      else if |Applied(rows[id], patch).title| > TitleWidth then Failure
      else Rows([Applied(rows[id], patch).(updatedAt := now)])
  {
    var sets, params := SetList(patch), Params(patch);
    var values := params + [Integer(id)];
    assert values[|sets|] == Integer(id);
    SetListBindsLongTitle(patch, [Integer(id)]);
    if id in rows {
      SetListShape(patch);
      SetListApplies(rows[id], patch);
      AssignAllExtend(rows[id], sets, params, [Integer(id)]);
      assert AssignAll(rows[id], sets, values) == Some(Applied(rows[id], patch));
    }
  }

  /**
   * The update handler's builder: the SET list and its values made by repeated
   * pushes while `paramCount` counts up; it ends as the number the id is bound to.
   */
  method BuildSetClause(p: Patch) returns (updates: seq<Assignment>, values: seq<SqlValue>, paramCount: nat)
    ensures updates == SetList(Trimmed(p)) && values == Params(Trimmed(p))
    ensures paramCount == |updates| + 1
  {
    updates, values, paramCount := [], [], 1;
    if p.title.Some? {
      updates := updates + [Assignment(TitleColumn, paramCount)];
      paramCount := paramCount + 1;
      values := values + [Text(Trim(p.title.value))];
    }
    if p.description.Some? {
      updates := updates + [Assignment(DescriptionColumn, paramCount)];
      paramCount := paramCount + 1;
      values := values + [Text(p.description.value)];
    }
    if p.completed.Some? {
      updates := updates + [Assignment(CompletedColumn, paramCount)];
      paramCount := paramCount + 1;
      values := values + [Flag(p.completed.value)];
    }
  }

  // ---------------------------------------------------------------------------
  // The service
  // ---------------------------------------------------------------------------

  /**
   * The state the handlers work on: the store's table (rows by id, the next
   * value of the id sequence, the clock that stamps rows), the value the cache
   * server holds under `all_tasks`, the calls made so far, and the shared cache
   * client reference through which the cache is reached.
   */
  class TaskService {
    var rows: map<int, Task>
    var nextId: int
    var clock: nat
    var cache: Option<seq<Task>>
    var calls: seq<Call>
    const redis: RedisConnection

    ghost predicate Valid()
      reads this, redis
    {
      StoreInvariant(rows, nextId, clock) && redis.Valid()
    }

    /** The cached list, when there is one, is the list the store would give. */
    ghost predicate Coherent()
      reads this
    {
      cache.None? || cache.value == SelectAll(rows, nextId)
    }

    /** A list request is answered from the cache: there is a client, the read succeeds and the key is set. */
    ghost predicate CacheHit(getOk: bool)
      reads this, redis
    {
      redis.client.Some? && getOk && cache.Some?
    }

    /** An empty table and no cached list. */
    constructor (redis: RedisConnection)
      requires redis.Valid()
      ensures Valid() && Coherent()
      ensures this.redis == redis && rows == map[] && nextId == 1 && clock == 0 && cache == None && calls == []
    {
      this.redis := redis;
      rows, nextId, clock, cache, calls := map[], 1, 0, None, [];
    }

    /**
     * GET `/`: the cached list when the cache answers, otherwise the store's
     * list, newest first, which is then written back to the cache for 60 seconds.
     * Cache errors fall through to the store; only a store error is a 500.
     */
    method ListTasks(getOk: bool, setOk: bool, dbOk: bool) returns (r: Response)
      requires Valid()
      modifies this
      ensures Valid() && rows == old(rows) && nextId == old(nextId) && clock == old(clock)
      ensures old(CacheHit(getOk)) ==>
        r == Listed(old(cache).value) && cache == old(cache) && calls == old(calls) + [CacheGet(CacheKey)]
      ensures !old(CacheHit(getOk)) && !dbOk ==>
        && r == ServerError(FetchTasksFailed) && cache == old(cache)
        && calls == old(calls) + IfClient(redis.client, CacheGet(CacheKey)) + [SelectAllRows]
      ensures !old(CacheHit(getOk)) && dbOk ==>
        && r == Listed(SelectAll(rows, nextId))
        && cache == (if redis.client.Some? && setOk then Some(SelectAll(rows, nextId)) else old(cache))
        && calls == old(calls) + IfClient(redis.client, CacheGet(CacheKey)) + [SelectAllRows]
                    + IfClient(redis.client, CacheSetEx(CacheKey, CacheTtl, SelectAll(rows, nextId)))
      ensures old(Coherent()) ==> Coherent() && (r.Listed? ==> r.tasks == SelectAll(rows, nextId))
    {
      var client := redis.GetRedisClient();
      if client.Some? {
        calls := calls + [CacheGet(CacheKey)];
        if getOk && cache.Some? {
          r := Listed(cache.value);
          return;
        }
      }
      calls := calls + [SelectAllRows];
      if !dbOk {
        r := ServerError(FetchTasksFailed);
        return;
      }
      var result := SelectAll(rows, nextId);
      if client.Some? {
        calls := calls + [CacheSetEx(CacheKey, CacheTtl, result)];
        if setOk {
          cache := Some(result);
        }
      }
      r := Listed(result);
    }

    /** GET `/:id`: the row from the store, never from the cache. */
    method GetTask(id: int, dbOk: bool) returns (r: Response)
      requires Valid()
      modifies this
      ensures Valid() && rows == old(rows) && nextId == old(nextId) && clock == old(clock) && cache == old(cache)
      ensures calls == old(calls) + [SelectRow(id)]
      ensures r == if !dbOk then ServerError(FetchTaskFailed) else if id in rows then Ok(rows[id]) else NotFound
    {
      calls := calls + [SelectRow(id)];
      var reply := if dbOk then Rows(Matching(rows, id)) else Failure;
      if reply.Failure? {
        r := ServerError(FetchTaskFailed);
        return;
      }
      if |reply.rows| == 0 {
        r := NotFound;
        return;
      }
      r := Ok(reply.rows[0]);
    }

    /** `redis.del('all_tasks')` when there is a client; a failing delete is swallowed. */
    method Invalidate(delOk: bool)
      requires Valid()
      modifies this
      ensures Valid()
      ensures rows == old(rows) && nextId == old(nextId) && clock == old(clock)
      ensures cache == (if redis.client.Some? && delOk then None else old(cache))
      ensures calls == old(calls) + IfClient(redis.client, CacheDel(CacheKey))
    {
      var client := redis.GetRedisClient();
      if client.Some? {
        calls := calls + [CacheDel(CacheKey)];
        if delOk {
          cache := None;
        }
      }
    }

    /** The table side of a successful INSERT: the row goes in under the sequence's next value. */
    method AddRow(row: Task)
      requires Valid()
      requires row.id == nextId && row.createdAt == clock + 1 && row.updatedAt == clock + 1 && |row.title| <= TitleWidth
      modifies this
      ensures Valid() && old(nextId) !in old(rows)
      ensures rows == old(rows)[old(nextId) := row] && nextId == old(nextId) + 1 && clock == old(clock) + 1
      ensures cache == old(cache) && calls == old(calls)
      ensures SelectAll(rows, nextId) == [row] + old(SelectAll(rows, nextId))
      ensures old(Coherent()) ==> (Coherent() <==> cache.None?)
    {
      InsertKeepsInvariant(rows, nextId, clock, row);
      rows := rows[nextId := row];
      nextId := nextId + 1;
      clock := clock + 1;
    }

    /**
     * The rest of a successful UPDATE: the row with that id is replaced, then the
     * cached list is deleted.
     */
    method CommitUpdate(row: Task, delOk: bool)
      requires Valid() && row.id in rows
      requires row.createdAt == rows[row.id].createdAt && row.updatedAt == clock + 1 && |row.title| <= TitleWidth
      modifies this
      ensures Valid()
      ensures rows == old(rows)[row.id := row] && nextId == old(nextId) && clock == old(clock) + 1
      ensures cache == (if redis.client.Some? && delOk then None else old(cache))
      ensures calls == old(calls) + IfClient(redis.client, CacheDel(CacheKey))
      ensures old(Coherent()) ==> (Coherent() <==> cache.None?)
    {
      assert row.updatedAt != rows[row.id].updatedAt;
      RewriteKeepsInvariant(rows, nextId, clock, row);
      rows := rows[row.id := row];
      clock := clock + 1;
      Invalidate(delOk);
    }

    /**
     * The INSERT of a validated request and the cache delete after it: a store
     * error or a title too long for its column is a 500 with the cache
     * untouched; otherwise the row goes in under a fresh id and is answered with 201.
     */
    method InsertTask(title: string, description: string, delOk: bool, dbOk: bool) returns (r: Response)
      requires Valid()
      modifies this
      ensures Valid()
      ensures !dbOk || |title| > TitleWidth ==>
        && r == ServerError(CreateFailed)
        && rows == old(rows) && nextId == old(nextId) && clock == old(clock) && cache == old(cache)
        && calls == old(calls) + [InsertRow(title, description)]
      ensures dbOk && |title| <= TitleWidth ==>
        && r == Created(Task(old(nextId), title, description, false, old(clock) + 1, old(clock) + 1))
        && old(nextId) !in old(rows)
        && rows == old(rows)[old(nextId) := r.task] && nextId == old(nextId) + 1 && clock == old(clock) + 1
        && SelectAll(rows, nextId) == [r.task] + old(SelectAll(rows, nextId))
        && cache == (if redis.client.Some? && delOk then None else old(cache))
        && calls == old(calls) + [InsertRow(title, description)] + IfClient(redis.client, CacheDel(CacheKey))
      ensures old(Coherent()) ==> (Coherent() <==> !r.Created? || cache.None?)
    {
      calls := calls + [InsertRow(title, description)];
      var reply := if dbOk then Insert(nextId, title, description, clock + 1) else Failure;
      if reply.Failure? {
        r := ServerError(CreateFailed);
        return;
      }
      var row := reply.rows[0];
      AddRow(row);
      Invalidate(delOk);
      r := Created(row);
    }

    /**
     * POST `/`: a missing or blank title is a 400 before any call; otherwise the
     * trimmed title and the description (empty when absent) are inserted under a
     * fresh id, the cached list is deleted, and the new row is answered with 201.
     */
    method CreateTask(title: Option<string>, description: Option<string>, delOk: bool, dbOk: bool) returns (r: Response)
      requires Valid()
      modifies this
      ensures Valid()
      ensures TitleMissing(title) ==> r == BadRequest(TitleRequired) && unchanged(this)
      ensures !TitleMissing(title) && (!dbOk || |Trim(title.value)| > TitleWidth) ==>
        && r == ServerError(CreateFailed)
        && rows == old(rows) && nextId == old(nextId) && clock == old(clock) && cache == old(cache)
        && calls == old(calls) + [InsertRow(Trim(title.value), DescriptionOrEmpty(description))]
      ensures !TitleMissing(title) && dbOk && |Trim(title.value)| <= TitleWidth ==>
        && r == Created(Task(old(nextId), Trim(title.value), DescriptionOrEmpty(description), false, old(clock) + 1, old(clock) + 1))
        && old(nextId) !in old(rows)
        && rows == old(rows)[old(nextId) := r.task] && nextId == old(nextId) + 1 && clock == old(clock) + 1
        && SelectAll(rows, nextId) == [r.task] + old(SelectAll(rows, nextId))
        && cache == (if redis.client.Some? && delOk then None else old(cache))
        && calls == old(calls) + [InsertRow(Trim(title.value), DescriptionOrEmpty(description))]
                    + IfClient(redis.client, CacheDel(CacheKey))
      ensures old(Coherent()) ==> (Coherent() <==> !r.Created? || cache.None?)
    {
      if TitleMissing(title) {
        r := BadRequest(TitleRequired);
        return;
      }
      r := InsertTask(Trim(title.value), DescriptionOrEmpty(description), delOk, dbOk);
    }

    /**
     * The store's reply to the UPDATE the handler sends, with the id bound after
     * the SET values of a bound patch: nothing for an absent id, the row with the
     * patch applied and stamped with the next tick when it fits, and a failure otherwise.
     */
    method QueryUpdate(id: int, patch: Patch, updates: seq<Assignment>, bound: seq<SqlValue>, paramCount: nat, dbOk: bool)
      returns (reply: Reply)
      requires updates == SetList(patch) && bound == Params(patch) + [Integer(id)] && paramCount == |updates| + 1
      ensures reply ==
        if !dbOk || LongTitle(patch) then Failure
        else if id !in rows then Rows([])
        else if |Applied(rows[id], patch).title| > TitleWidth then Failure
        else Rows([Applied(rows[id], patch).(updatedAt := clock + 1)])
    {
      UpdateWithPatch(rows, patch, id, clock + 1);
      reply := if dbOk then Update(rows, updates, paramCount, bound, clock + 1) else Failure;
    }

    /**
     * The UPDATE built from a non-empty bound patch, with the id bound after the
     * SET values, and the cache delete after it: an absent id is a 404 and a store
     * error a 500, both with the cache untouched; otherwise the row is replaced
     * by the row with the patch applied and a new `updated_at`.
     */
    method SendUpdate(id: int, patch: Patch, updates: seq<Assignment>, values: seq<SqlValue>, paramCount: nat, delOk: bool, dbOk: bool)
      returns (r: Response)
      requires Valid() && !NoFields(patch)
      requires updates == SetList(patch) && values == Params(patch) && paramCount == |updates| + 1
      modifies this
      ensures Valid()
      ensures !dbOk || LongTitle(patch) || id !in old(rows) || |Applied(old(rows)[id], patch).title| > TitleWidth ==>
        && r == (if dbOk && !LongTitle(patch) && id !in old(rows) then NotFound else ServerError(UpdateFailed))
        && rows == old(rows) && nextId == old(nextId) && clock == old(clock) && cache == old(cache)
        && calls == old(calls) + [UpdateRow(updates, values + [Integer(id)])]
      ensures dbOk && !LongTitle(patch) && id in old(rows) && |Applied(old(rows)[id], patch).title| <= TitleWidth ==>
        && r == Ok(Applied(old(rows)[id], patch).(updatedAt := old(clock) + 1))
        && rows == old(rows)[id := r.task] && nextId == old(nextId) && clock == old(clock) + 1
        && cache == (if redis.client.Some? && delOk then None else old(cache))
        && calls == old(calls) + [UpdateRow(updates, values + [Integer(id)])] + IfClient(redis.client, CacheDel(CacheKey))
      ensures old(Coherent()) ==> (Coherent() <==> !r.Ok? || cache.None?)
    {
      var bound := values + [Integer(id)];
      calls := calls + [UpdateRow(updates, bound)];
      var reply := QueryUpdate(id, patch, updates, bound, paramCount, dbOk);
      if reply.Failure? {
        r := ServerError(UpdateFailed);
        return;
      }
      if |reply.rows| == 0 {
        r := NotFound;
        return;
      }
      var row := reply.rows[0];
      assert row == Applied(rows[id], patch).(updatedAt := clock + 1) && row.id == id;
      CommitUpdate(row, delOk);
      r := Ok(row);
    }

    /**
     * PUT `/:id`: a patch with no field is a 400 before any call; otherwise one
     * UPDATE sets exactly the supplied fields and `updated_at`, an id with no
     * row is a 404, and only a successful update deletes the cached list.
     */
    method UpdateTask(id: int, patch: Patch, delOk: bool, dbOk: bool) returns (r: Response)
      requires Valid()
      modifies this
      ensures Valid()
      ensures NoFields(patch) ==> r == BadRequest(NothingToUpdate) && unchanged(this)
      ensures !NoFields(patch) && (!dbOk || LongTitle(Trimmed(patch)) || id !in old(rows) || |Patched(old(rows)[id], patch).title| > TitleWidth) ==>
        && r == (if dbOk && !LongTitle(Trimmed(patch)) && id !in old(rows) then NotFound else ServerError(UpdateFailed))
        && rows == old(rows) && nextId == old(nextId) && clock == old(clock) && cache == old(cache)
        && calls == old(calls) + [UpdateRow(SetList(Trimmed(patch)), Params(Trimmed(patch)) + [Integer(id)])]
      ensures !NoFields(patch) && dbOk && !LongTitle(Trimmed(patch)) && id in old(rows) && |Patched(old(rows)[id], patch).title| <= TitleWidth ==>
        && r == Ok(Patched(old(rows)[id], patch).(updatedAt := old(clock) + 1))
        && rows == old(rows)[id := r.task] && nextId == old(nextId) && clock == old(clock) + 1
        && cache == (if redis.client.Some? && delOk then None else old(cache))
        && calls == old(calls) + [UpdateRow(SetList(Trimmed(patch)), Params(Trimmed(patch)) + [Integer(id)])]
                    + IfClient(redis.client, CacheDel(CacheKey))
      ensures old(Coherent()) ==> (Coherent() <==> !r.Ok? || cache.None?)
    {
      var updates, values, paramCount := BuildSetClause(patch);
      if |updates| == 0 {
        r := BadRequest(NothingToUpdate);
        return;
      }
      r := SendUpdate(id, Trimmed(patch), updates, values, paramCount, delOk, dbOk);
    }

    /** DELETE `/:id`: removes the row if there is one (else 404) and then deletes the cached list. */
    method DeleteTask(id: int, delOk: bool, dbOk: bool) returns (r: Response)
      requires Valid()
      modifies this
      ensures Valid() && nextId == old(nextId) && clock == old(clock)
      ensures !dbOk || id !in old(rows) ==>
        && r == (if dbOk then NotFound else ServerError(DeleteFailed))
        && rows == old(rows) && cache == old(cache) && calls == old(calls) + [DeleteRow(id)]
      ensures dbOk && id in old(rows) ==>
        && r == Deleted
        && rows == old(rows) - {id}
        && SelectAll(rows, nextId) == Without(old(SelectAll(rows, nextId)), id)
        && cache == (if redis.client.Some? && delOk then None else old(cache))
        && calls == old(calls) + [DeleteRow(id)] + IfClient(redis.client, CacheDel(CacheKey))
      ensures old(Coherent()) ==> (Coherent() <==> !r.Deleted? || cache.None?)
    {
      calls := calls + [DeleteRow(id)];
      var reply := if dbOk then Rows(Matching(rows, id)) else Failure;
      if reply.Failure? {
        r := ServerError(DeleteFailed);
        return;
      }
      if |reply.rows| == 0 {
        r := NotFound;
        return;
      }
      DeleteKeepsInvariant(rows, nextId, clock, id);
      rows := rows - {id};
      Invalidate(delOk);
      r := Deleted;
    }

    /** The cached list expiring: its 60-second lifetime ends, or the server evicts it. */
    method Expire()
      requires Valid()
      modifies this
      ensures Valid() && Coherent()
      ensures rows == old(rows) && nextId == old(nextId) && clock == old(clock) && calls == old(calls)
      ensures cache == None
    {
      cache := None;
    }
  }
}
