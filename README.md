# Task manager backend: task service, health probes, cache client

This is a Dafny model of the request-handling core of a small task manager's
backend, with proofs about it. It covers three parts.

- **The task service** behind `/api/tasks` (`TaskRoutes.TaskService`). It has
  five handlers over a relational table `tasks` and one cache key, `all_tasks`,
  which holds a copy of the whole list.
  - List reads through the cache and writes the store's answer back for
    60 seconds.
  - Get reads the store only.
  - Create, update and delete write to the store, then delete the cache key.
  - Each handler is one atomic method. Its `ensures` gives the response, the
    new table, the new cache value and the exact calls it made to the store and
    the cache.
- **The health probes** behind `/api/health` (`HealthRoutes`): the aggregated
  status, the readiness probe and the liveness probe.
- **The cache client configuration** (`RedisConfig`): the reconnect policy
  `retry_strategy`, and the module-level client reference. `initRedis` sets
  that reference, the client's `'error'` handler clears it, and
  `getRedisClient` hands it out.

The model rests on these choices:

- **Outside calls that can fail.** The store query, the cache get, set and
  delete, the cache connect and the ping are each modelled as a boolean
  parameter saying whether that call succeeds.
- **The call log.** `TaskService.calls` records the calls the service makes.
  This lets the contracts state what happens before any call, and that a
  cache hit never reads the store.
  - A null client (`redis.client == None`) means the service makes no cache
    call at all.
  - A failing cache call is swallowed: the handler's answer does not depend on
    it.
- **The table.**
  - It is a map from id to `Task`. `nextId` is the next value of the `SERIAL`
    sequence.
  - Timestamps are ticks of an abstract clock. The clock moves on once per
    successful insert or update.
  - `StoreInvariant` holds of every reachable state. Creation times grow with
    the id, so `ORDER BY created_at DESC` is the rows ordered from the highest
    id down (`SelectAll`).
  - `title VARCHAR(255)` is the one content-based store rejection the model
    states. The handler turns it into its 500 answer. The store coerces the
    bound values while it plans the statement, so an `UPDATE` that binds an
    over-long title fails even when no row has the id. Other rejections (see
    "Left out") are covered only by `dbOk == false`.
- **The cache.** `TaskService.cache` is the value the cache server holds under
  `all_tasks`. `Coherent()` says that value is absent or equal to the store's
  listing.
  - Every handler keeps coherence, except when the cache delete after a write
    fails, or there is no client to send it (the `'error'` handler has cleared
    the reference since the list was cached). In both cases the contract says
    exactly that the stale entry stays, until `Expire`.
  - A list answers with the store's listing whenever coherence held before,
    whether the cache was hit or not.
- **The update handler.** Its dynamic `SET` clause is built by
  `BuildSetClause` from a `Patch` with three optional fields.
  - The handler binds the patch with its title trimmed (`Trimmed`). The
    meaning of a request body for a row, `Patched`, is that bound patch
    applied to the row (`Applied`).
  - The builder's result is proved equal to the specification pair
    `SetList`/`Params` of the bound patch.
  - `SetListApplies` proves that running that SET list on any row gives
    exactly the row with the patch applied. The SQL `UPDATE` itself is
    interpreted by `TaskStore.Update`, and `UpdateWithPatch` states what that
    statement returns.
- **Title trimming.** `String.prototype.trim` is modelled with the ECMAScript
  WhiteSpace and LineTerminator code points (`JsString`).

The update handler trims a supplied title but does not reject an empty
result, unlike create. The schema's `NOT NULL` does not forbid `''` either.
The model follows the code, and `UpdateMayBlankTitle` shows a title of
blanks being stored as the empty string.

## Model

| member | source | states |
|---|---|---|
| JsString.TrimStart | backend/routes/tasks.js:62 | the result is the suffix of the input starting at its first non-whitespace character; everything dropped is whitespace |
| JsString.TrimEnd | backend/routes/tasks.js:62 | the result is the prefix ending at the last non-whitespace character; everything dropped is whitespace |
| JsString.Trim | backend/routes/tasks.js:62 | `title.trim()`: no longer than the input, neither end is whitespace, and empty exactly when the input is all whitespace |
| JsString.TrimStartPadded | backend/routes/tasks.js:68 | leading whitespace in front of a string that starts with non-whitespace is exactly what is dropped |
| JsString.TrimEndPadded | backend/routes/tasks.js:68 | trailing whitespace after a string that ends with non-whitespace is exactly what is dropped |
| JsString.TrimPadded | backend/routes/tasks.js:68 | trimming whitespace-padded text gives back the text itself |
| JsString.TrimIdempotent | backend/routes/tasks.js:102 | trimming a trimmed title changes nothing |
| TaskStore.SelectAll | backend/routes/tasks.js:36-38 | the reply to `SELECT * FROM tasks ORDER BY created_at DESC`: the rows below the sequence's next value, highest id first (its meaning is `CollectRows` and `SelectAllOrdered`) |
| TaskStore.CollectRows | backend/routes/tasks.js:36-38 | the listing up to an id holds every stored row below it, each taken from the table, in strictly descending id order |
| TaskStore.SelectAllOrdered | backend/routes/tasks.js:36-38 | under the table invariant, `SELECT * ... ORDER BY created_at DESC` returns exactly the stored rows with strictly decreasing creation time |
| TaskStore.CollectAgree | backend/routes/tasks.js:36-38 | the listing depends only on the rows with smaller ids |
| TaskStore.NewestFirst | backend/config/database.js:46-50 | a row inserted under the sequence's next value heads the next listing, followed by the old listing |
| TaskStore.CollectRemove | backend/routes/tasks.js:156-159 | deleting a row takes exactly that row out of the listing and keeps the rest in order |
| TaskStore.WithoutConcat | backend/routes/tasks.js:156-159 | removing one id from a concatenation removes it from each part |
| TaskStore.InsertKeepsInvariant | backend/config/database.js:44-53 | an INSERT with a fresh SERIAL id and the current time keeps the table invariant, and the new row heads the listing |
| TaskStore.RewriteKeepsInvariant | backend/routes/tasks.js:120-127 | an UPDATE that keeps `created_at` and stamps `updated_at` keeps the invariant; the listing changes whenever the row does |
| TaskStore.DeleteKeepsInvariant | backend/routes/tasks.js:156-159 | a DELETE keeps the invariant and removes exactly that row from the listing |
| TaskStore.Matching | backend/routes/tasks.js:188-191 | `WHERE id = $1` matches at most one row: none exactly when the id is absent, otherwise the stored row |
| TaskStore.Insert | backend/routes/tasks.js:66-69 | the INSERT ... RETURNING reply, with the schema's defaults: one row under the sequence's next value with `completed` FALSE and both timestamps now, or a failure for a title over 255 characters |
| TaskStore.Update | backend/routes/tasks.js:120-127 | the UPDATE ... RETURNING reply: a failure when the id parameter is unbound, and also when a title entry binds a text longer than the column, whether or not the id matches; no row for an absent id; a failure when a SET entry fails or the new title does not fit; otherwise the row after the SET list, stamped now (what it returns for the handler's statement is `UpdateWithPatch`) |
| TaskStore.BindsLongTitleConcat | backend/routes/tasks.js:120-127 | a SET list made of two parts binds an over-long title exactly when one of its parts does |
| TaskStore.AssignAllExtend | backend/routes/tasks.js:119-127 | binding one more parameter (the id) after the SET values does not change what the SET list does |
| TaskStore.AssignAllSnoc | backend/routes/tasks.js:120-125 | the interpreter applies the entries of a SET list one after another; for the lists the handler builds (distinct columns, each bound to its own parameter) this agrees with SQL, which evaluates every right side against the old row |
| TaskStore.AssignAllPush | backend/routes/tasks.js:120-125 | pushing one more SET entry and its values runs that entry after the ones before it |
| TaskRoutes.TitleMissing | backend/routes/tasks.js:62 | `!title` or `title.trim() === ''` as written: absent, empty, or empty once trimmed (characterised by `TitleMissingIff`) |
| TaskRoutes.TitleMissingIff | backend/routes/tasks.js:62-64 | create rejects a title exactly when it is absent or made only of whitespace (the empty string included) |
| TaskRoutes.DescriptionOrEmpty | backend/routes/tasks.js:68 | an absent description is stored as `''`, a supplied one as given |
| TaskRoutes.Trimmed | backend/routes/tasks.js:100-103 | binding the patch (trimming its title) keeps exactly which columns are supplied, in order, and so an empty patch stays empty |
| TaskRoutes.Patched | backend/routes/tasks.js:100-113 | what a PUT body does to a row: the patch with its title trimmed, applied field by field (its properties are `PatchedChangesOnlySupplied`, `UpdateMayBlankTitle` and `SetListApplies`) |
| TaskRoutes.PatchedChangesOnlySupplied | backend/routes/tasks.js:100-113 | a patch keeps the id and creation time and every field it does not supply, and a supplied title is stored trimmed; an empty patch changes nothing |
| TaskRoutes.UpdateMayBlankTitle | backend/routes/tasks.js:100-103 | for any title made only of whitespace, and whatever else the patch supplies, update stores the empty string as the title |
| TaskRoutes.SetList | backend/routes/tasks.js:96-113 | one SET entry per supplied field, in the order title, description, completed, with parameters numbered 1..k; empty exactly when no field is supplied |
| TaskRoutes.SetListShape | backend/routes/tasks.js:96-113 | entry i of the SET list sets the i-th supplied column from parameter i+1 |
| TaskRoutes.Params | backend/routes/tasks.js:96-113 | one bound value per SET entry |
| TaskRoutes.TitleStageApplies | backend/routes/tasks.js:100-103 | the title push alone sets the title, when one is supplied |
| TaskRoutes.DescriptionStageApplies | backend/routes/tasks.js:100-108 | the title and description pushes together set exactly the supplied ones of those two fields |
| TaskRoutes.SetListApplies | backend/routes/tasks.js:96-125 | running the generated SET list with its values on any row gives exactly the row with the patch applied |
| TaskRoutes.SetListBindsLongTitle | backend/routes/tasks.js:96-127 | the generated SET list binds a title longer than its column exactly when the patch supplies one |
| TaskRoutes.UpdateWithPatch | backend/routes/tasks.js:119-127 | the UPDATE with the id bound after the SET values fails when the patch's title is longer than its column, whatever the id; otherwise it returns no row for an absent id, fails when the new title does not fit, and otherwise returns the row with the patch applied and a new `updated_at` |
| TaskRoutes.BuildSetClause | backend/routes/tasks.js:96-119 | the pushes build exactly `SetList` and `Params` of the bound patch, and `paramCount` ends at k+1, the parameter the id is bound to |
| TaskRoutes.TaskService.constructor | backend/config/database.js:44-53 | an empty table with the sequence at 1 and no cached list; valid and coherent |
| TaskRoutes.TaskService.ListTasks | backend/routes/tasks.js:17-55 | a cache hit answers the cached list with only a cache read; otherwise the store is read: a store error is a 500 with the cache untouched, else the listing newest first, written back with TTL 60 when there is a client; a failed cache read falls through to the store, and a failed write-back leaves the cache as it was without changing the answer; coherence is kept and the answer is then always the store's listing |
| TaskRoutes.TaskService.GetTask | backend/routes/tasks.js:184-202 | the stored row, 404 when the id is absent, 500 on a store error; one store read, no cache call, nothing changed |
| TaskRoutes.TaskService.Invalidate | backend/routes/tasks.js:71-79 | with a client, one cache delete that clears the entry when it succeeds; a failed delete is swallowed; the table is untouched |
| TaskRoutes.TaskService.AddRow | backend/routes/tasks.js:66-69 | the inserted row goes in under the sequence's next value, which was unused; the sequence and clock move on, the cache and the calls stay as they were, and the row heads the listing |
| TaskRoutes.TaskService.InsertTask | backend/routes/tasks.js:66-86 | the INSERT of a validated title and description: a store error or an over-long title is a 500 with only the INSERT call made; otherwise 201 with a fresh id and a new timestamp, the row at the head of the listing, and a delete is sent when there is a client, and the key is gone when it succeeds |
| TaskRoutes.TaskService.CreateTask | backend/routes/tasks.js:58-87 | a missing or blank title is a 400 before any call, with nothing changed; a store error or a title over 255 characters is a 500 with the cache untouched; otherwise 201 with the trimmed title, the description or `''`, completed false, a fresh id and a new timestamp; the row heads the listing, and a delete is sent when there is a client, and the key is gone when it succeeds |
| TaskRoutes.TaskService.QueryUpdate | backend/routes/tasks.js:119-127 | the store's reply to the UPDATE: a failure on a store error or an over-long title, whether or not the id exists; otherwise no row for an absent id, else the row with the patch applied and stamped with the next tick |
| TaskRoutes.TaskService.CommitUpdate | backend/routes/tasks.js:127-141 | the returned row replaces the stored one, the clock moves on, and a delete is sent when there is a client, and the key is gone when it succeeds |
| TaskRoutes.TaskService.SendUpdate | backend/routes/tasks.js:119-144 | one UPDATE call; a store error or an over-long title is a 500 whatever the id, otherwise an absent id is a 404, neither changing the table or the cache; otherwise the row with the patch applied and a new `updated_at` replaces the stored one, and a delete is sent when there is a client, and the key is gone when it succeeds |
| TaskRoutes.TaskService.UpdateTask | backend/routes/tasks.js:90-149 | no supplied field is a 400 before any call, with nothing changed; a store error or a title longer than its column after trimming is a 500 whatever the id, otherwise an absent id is a 404, both with the cache untouched; otherwise only that row changes, to the patched row with a new `updated_at`, and a delete is sent when there is a client, and the key is gone when it succeeds |
| TaskRoutes.TaskService.DeleteTask | backend/routes/tasks.js:152-181 | an absent id is a 404 and a store error a 500, both changing nothing; otherwise exactly that row is removed from the table and the listing, and a delete is sent when there is a client, and the key is gone when it succeeds |
| TaskRoutes.TaskService.Expire | backend/routes/tasks.js:43 | the cached list's 60-second lifetime ending: the entry is gone, nothing else changes |
| RedisConfig.RetryStrategy | backend/config/redis.js:18-32 | stop when the error code is ECONNREFUSED, else when more than an hour was spent, else after attempt 10, in that order; otherwise retry after attempt×100 ms, at most 1000 |
| RedisConfig.RefusedAlwaysStops | backend/config/redis.js:19-22 | a refused connection stops whatever the attempt count and time spent |
| RedisConfig.DelayMonotone | backend/config/redis.js:31 | a later retried attempt never waits less than an earlier one |
| RedisConfig.CapNeverApplies | backend/config/redis.js:27-31 | every retry delay stays below the 3000 ms cap |
| RedisConfig.RedisConnection.constructor | backend/config/redis.js:3 | module load: the client reference is null |
| RedisConfig.RedisConnection.InitRedis | backend/config/redis.js:5-62 | creates a new client; on success it returns it and stores it; on failure it returns null and leaves the reference null instead of raising |
| RedisConfig.RedisConnection.OnError | backend/config/redis.js:35-38 | the `'error'` handler resets the shared reference to null |
| RedisConfig.RedisConnection.GetRedisClient | backend/config/redis.js:64-66 | returns the current reference: null after an error or a failed init |
| HealthRoutes.HealthCheck | backend/routes/health.js:17-61 | `healthy` exactly when the database answers, a client is present and it answers ping, otherwise `degraded`; 503 exactly when the database fails or a present client fails ping; per-service labels as described, never `unknown`; a missing client alone gives `degraded` with 200 |
| HealthRoutes.Readiness | backend/routes/health.js:64-80 | `ready`/200 exactly when the database answers, otherwise `not_ready`/503 with "Database not available" |
| HealthRoutes.Liveness | backend/routes/health.js:83-89 | always `alive` with 200, consulting nothing |
| Scenarios.CleanTitleKept | backend/routes/tasks.js:62-68 | a title with no whitespace at either end is unchanged by trim and is not rejected as missing |
| Scenarios.CreateWithDescription | backend/tests/api.test.js:45-61 | a create whose title has no surrounding whitespace and with a description gives 201 carrying both as sent |
| Scenarios.RejectEmptyTitle | backend/tests/api.test.js:63-75 | a create with an empty title gives 400 "Title is required" |
| Scenarios.CreateThenFetch | backend/routes/tasks.js:184-202 | after a create, get returns the created row |
| Scenarios.CreateThenUpdate | backend/routes/tasks.js:90-149 | updating only `completed` changes that field and `updated_at`, nothing else |
| Scenarios.UpdateBlankTitle | backend/routes/tasks.js:100-103 | a PUT whose title is only whitespace, which create would reject, updates the row and answers 200 with the empty title |
| Scenarios.DeleteThenNotFound | backend/routes/tasks.js:152-181 | after a delete, get, update and delete of that id are all 404 |
| Scenarios.InvalidationSeenByNextList | backend/routes/tasks.js:71-79 | a list fills the cache, a create deletes it, and the next list shows the new task |
| Scenarios.CacheOutage | backend/config/redis.js:35-38 | after the client errors, create and list still succeed from the store alone |

## Left out

- Timestamps are abstract ticks, not wall-clock time. Ties in `created_at` (two inserts in the same instant) are not modelled: creation times strictly increase with the id.
- `uptime`, `version` and `environment` in the health bodies, and the `timestamp` fields of all three probes, depend on the environment and the clock. They are omitted from the results.
- JSON serialisation: the cached value is the list of rows itself, so `JSON.parse(JSON.stringify(rows))` is taken to be the identity.
- Redis TTL: the 60 seconds are recorded in the `CacheSetEx` call. Expiry is the separate step `TaskService.Expire`, which may happen at any time.
- Requests are atomic steps. Interleaving of concurrent requests across `await` points is not modelled, nor is an `'error'` event arriving in the middle of a handler.
- `initRedis` stores the client before `connect` completes. The window in which a handler could see a client that is still connecting is not modelled.
- Request bodies carry only strings and booleans. Nulls, numbers and other JSON values, and the exceptions that `.trim()` on a non-string would raise, are not modelled.
- Path ids are integers. A non-numeric `:id` makes the store raise, which is covered only by the generic store failure (`dbOk == false`).
- A failed INSERT may consume a sequence value in the real store. The model does not advance `nextId` on failure.
- The SQL text of the UPDATE (the `join(', ')` rendering) is not modelled. The SET list is kept as a value, and `TaskStore.Update` gives its meaning.
- The connection `Pool`s, environment configuration, `console` logging, the Express wiring, and the `pg` and `redis` libraries are outside the model.
- Whether the redis client actually consults `retry_strategy` is a property of the library, which is not part of this model.
- Ids are int4 (`SERIAL`). A path id above 2147483647 makes `WHERE id = $1` raise, which the source answers with a 500, while the model with `dbOk` true answers 404. The sequence's own upper bound is not modelled either.
- A cache call reported as failed is taken to have had no effect. In reality a `del` or `setex` whose reply was lost may still have reached the server.
- A U+0000 character in a title or description makes the store raise, which the source answers with a 500; the model covers this only by `dbOk == false`, and with `dbOk` true it stores the value.
- `TaskStore.AssignAll` applies SET entries one after another. SQL instead evaluates every right side against the old row and rejects a column assigned twice; the two agree only for SET lists with distinct columns bound to parameters, which is all `SetList` builds. SET lists of any other shape are not modelled as SQL would treat them.
- The table starts empty. Rows present before the service starts are not modelled.
