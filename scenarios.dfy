/**
 * Clients of the service that use nothing but the contracts: the API tests'
 * create cases, a task fetched, updated and deleted, invalidation seen by the
 * next list, and a cache outage.
 */
module Scenarios {
  import opened Wrappers
  import opened TaskStore
  import opened RedisConfig
  import opened TaskRoutes
  import opened JsString

  /** A title with no whitespace at either end is kept by trim, and so create accepts it. */
  lemma CleanTitleKept(title: string)
    requires title != [] && !IsWhitespace(title[0]) && !IsWhitespace(title[|title| - 1])
    ensures Trim(title) == title && !TitleMissing(Some(title))
  {
    assert [] + title + [] == title;
    TrimPadded([], title, []);
  }

  /**
   * POST with a title that has no surrounding whitespace (the API tests' "Test Task")
   * and a non-empty description gives 201 with both as sent.
   */
  method CreateWithDescription(title: string, description: string) returns (created: Response)
    requires title != [] && !IsWhitespace(title[0]) && !IsWhitespace(title[|title| - 1]) && |title| <= TitleWidth
    requires description != []
    ensures created.StatusCode() == 201 && created.Created?
    ensures created.task.title == title && created.task.description == description
  {
    var service := FreshService(true);
    CleanTitleKept(title);
    created := service.CreateTask(Some(title), Some(description), true, true);
  }

  /** POST with an empty title gives 400. */
  method RejectEmptyTitle() returns (rejected: Response)
    ensures rejected == BadRequest(TitleRequired) && rejected.StatusCode() == 400
  {
    var service := FreshService(true);
    rejected := service.CreateTask(Some(""), Some("Task without title"), true, true);
  }

  /** A fresh service with the cache up, after POST of a usable title without a description. */
  method ServiceWithOneTask(title: string) returns (service: TaskService, created: Response)
    requires !TitleMissing(Some(title)) && |Trim(title)| <= TitleWidth
    ensures fresh(service) && service.Valid()
    ensures created == Created(Task(1, Trim(title), "", false, 1, 1))
    ensures service.rows == map[1 := created.task] && service.nextId == 2 && service.clock == 1
  {
    service := FreshService(true);
    created := service.CreateTask(Some(title), None, true, true);
  }

  /** POST with a usable title is 201 with id 1, an empty description and completed false; GET gives the same row. */
  method CreateThenFetch(title: string) returns (created: Response, fetched: Response)
    requires !TitleMissing(Some(title)) && |Trim(title)| <= TitleWidth
    ensures created == Created(Task(1, Trim(title), "", false, 1, 1))
    ensures fetched == Ok(created.task)
  {
    var service;
    service, created := ServiceWithOneTask(title);
    fetched := service.GetTask(1, true);
  }

  /** PUT {completed: true} on a fresh task changes that field and stamps a later updated_at, nothing else. */
  method CreateThenUpdate(title: string) returns (created: Response, updated: Response)
    requires !TitleMissing(Some(title)) && |Trim(title)| <= TitleWidth
    ensures created == Created(Task(1, Trim(title), "", false, 1, 1))
    ensures updated == Ok(Task(1, Trim(title), "", true, 1, 2))
  {
    var service;
    service, created := ServiceWithOneTask(title);
    updated := service.UpdateTask(1, Patch(None, None, Some(true)), true, true);
  }

  /** PUT {title: blanks} on a fresh task is 200 and stores the empty title, where POST would have answered 400. */
  method UpdateBlankTitle(title: string, blanks: string) returns (created: Response, updated: Response)
    requires !TitleMissing(Some(title)) && |Trim(title)| <= TitleWidth
    requires AllWhitespace(blanks)
    ensures TitleMissing(Some(blanks))
    ensures updated == Ok(Task(1, "", "", false, 1, 2))
  {
    var service;
    service, created := ServiceWithOneTask(title);
    UpdateMayBlankTitle(created.task, blanks, None, None);
    updated := service.UpdateTask(1, Patch(Some(blanks), None, None), true, true);
  }

  /** DELETE of the task just created succeeds; GET, PUT and DELETE of it are then 404. */
  method DeleteThenNotFound(title: string) returns (deleted: Response, fetched: Response, updated: Response, again: Response)
    requires !TitleMissing(Some(title)) && |Trim(title)| <= TitleWidth
    ensures deleted == Deleted
    ensures fetched == NotFound && updated == NotFound && again == NotFound
  {
    var service, created := ServiceWithOneTask(title);
    deleted := service.DeleteTask(1, true, true);
    assert service.rows == map[] && service.Valid();
    fetched := service.GetTask(1, true);
    updated := service.UpdateTask(1, Patch(None, None, Some(true)), true, true);
    again := service.DeleteTask(1, true, true);
  }

  /** A new service over a connection whose `initRedis` succeeded, and whose client then stays or is dropped by an error. */
  method FreshService(up: bool) returns (service: TaskService)
    ensures fresh(service) && service.Valid() && (service.redis.client.Some? <==> up)
    ensures service.rows == map[] && service.nextId == 1 && service.clock == 0
    ensures service.cache == None && service.calls == []
  {
    var connection := new RedisConnection();
    var client := connection.InitRedis(true);
    service := new TaskService(connection);
    if !up {
      connection.OnError();
    }
  }

  /** A list fills the cache, a create deletes it, and the next list shows the new task first. */
  method InvalidationSeenByNextList(title: string) returns (before: Response, created: Response, after: Response)
    requires !TitleMissing(Some(title)) && |Trim(title)| <= TitleWidth
    ensures before == Listed([])
    ensures created.Created? && after == Listed([created.task])
  {
    var service := FreshService(true);
    before := service.ListTasks(true, true, true);
    assert service.cache == Some([]);
    created := service.CreateTask(Some(title), None, true, true);
    assert service.cache == None;
    after := service.ListTasks(true, true, true);
  }

  /**
   * After the client reports an error, a create and the next list still
   * answer from the store, and the list shows the new task.
   */
  method CacheOutage(title: string) returns (created: Response, listed: Response)
    requires !TitleMissing(Some(title)) && |Trim(title)| <= TitleWidth
    ensures created.Created? && listed == Listed([created.task])
  {
    var service := FreshService(false);
    created := service.CreateTask(Some(title), None, false, true);
    listed := service.ListTasks(false, false, true);
    assert service.calls == [InsertRow(Trim(title), ""), SelectAllRows];
  }
}
