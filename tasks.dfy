/** The four task handlers: GET /tasks/list/:listId, POST /tasks,
    PUT /tasks/:id and DELETE /tasks/:id. Every one of them first checks that
    the requester owns the list (directly, or through the task's list). */
module TaskRoutes {
  import opened Wrappers
  import opened Schema
  import opened Database
  import Sorting

  // ---------------------------------------------------------------------
  // ORDER BY of the task listing

  /** due_date ASC NULLS LAST, strictly: a dated task before an undated one. */
  predicate DueBefore(a: Option<Date>, b: Option<Date>)
    ensures DueBefore(a, b) ==> a.Some?
    ensures a.Some? && b.None? ==> DueBefore(a, b)
    ensures a == b ==> !DueBefore(a, b)
  {
    a.Some? && (b.None? || a.value < b.value)
  }

  /** a may be listed before b under ORDER BY CASE WHEN completed THEN 1 ELSE 0
      END, priority DESC, due_date ASC NULLS LAST, created_at DESC. */
  predicate TaskPrecedes(a: Task, b: Task)
    ensures a.completed != b.completed ==> (TaskPrecedes(a, b) <==> b.completed)
    ensures a.completed == b.completed && a.priority != b.priority ==>
              (TaskPrecedes(a, b) <==> a.priority > b.priority)
    ensures a == b ==> TaskPrecedes(a, b)
  {
    if a.completed != b.completed then !a.completed
    else if a.priority != b.priority then a.priority > b.priority
    else if a.dueDate != b.dueDate then DueBefore(a.dueDate, b.dueDate)
    else a.createdAt >= b.createdAt
  }

  lemma TaskOrderIsTotalPreorder()
    ensures Sorting.TotalPreorder(TaskPrecedes)
  {
    forall a: Task, b: Task, c: Task | TaskPrecedes(a, b) && TaskPrecedes(b, c)
      ensures TaskPrecedes(a, c)
    {
    }
  }

  /** What a listing sorted by TaskPrecedes means, key by key. */
  lemma SortedTaskKeys(r: seq<Task>, i: nat, j: nat)
    requires Sorting.Sorted(TaskPrecedes, r)
    requires i < j < |r|
    ensures r[i].completed ==> r[j].completed
    ensures r[i].completed == r[j].completed ==> r[i].priority >= r[j].priority
    ensures r[i].completed == r[j].completed && r[i].priority == r[j].priority ==>
              (r[i].dueDate.None? ==> r[j].dueDate.None?) &&
              (r[i].dueDate.Some? && r[j].dueDate.Some? ==> r[i].dueDate.value <= r[j].dueDate.value)
    ensures (r[i].completed == r[j].completed && r[i].priority == r[j].priority &&
             r[i].dueDate == r[j].dueDate) ==> r[i].createdAt >= r[j].createdAt
  {
    assert TaskPrecedes(r[i], r[j]);
  }

  /** In any listing sorted by the task order, tasks with (completed,
      priority, due date) = (false, 3, day 10), (false, 1, none) and
      (true, 3, day 10) stand in that order. */
  lemma ListingExample(r: seq<Task>, i1: nat, i2: nat, i3: nat)
    requires Sorting.Sorted(TaskPrecedes, r)
    requires i1 < |r| && i2 < |r| && i3 < |r|
    requires !r[i1].completed && r[i1].priority == 3 && r[i1].dueDate == Some(10)
    requires !r[i2].completed && r[i2].priority == 1 && r[i2].dueDate == None
    requires r[i3].completed && r[i3].priority == 3 && r[i3].dueDate == Some(10)
    ensures i1 < i2 < i3
  {
  }

  // ---------------------------------------------------------------------
  // Insert and update of one row

  /** A priority JavaScript treats as true: present and not 0. */
  predicate Truthy(p: Option<int>) {
    p.Some? && p.value != 0
  }

  /** The row INSERT ... RETURNING * gives back, with the schema's defaults
      for completed, completed_at and created_at. */
  function NewTask(id: Id, body: NewTaskBody, now: Timestamp): (t: Task)
    ensures t.id == id && t.priority != 0
    ensures !t.completed && t.completedAt.None?
  {
    Task(id, body.listId, body.title, body.description,
         if Truthy(body.priority) then body.priority.value else 1,
         body.dueDate, false, None, now)
  }

  /** The inserted row keeps what was supplied; a falsy priority (absent or 0)
      becomes 1, so the stored priority is never 0. */
  lemma NewTaskFields(id: Id, body: NewTaskBody, now: Timestamp)
    ensures var t := NewTask(id, body, now);
      && t.id == id && t.listId == body.listId && t.title == body.title
      && t.description == body.description && t.dueDate == body.dueDate
      && t.priority != 0
      && (!Truthy(body.priority) ==> t.priority == 1)
      && (Truthy(body.priority) ==> t.priority == body.priority.value)
      && !t.completed && t.completedAt == None && t.createdAt == now
  {
  }

  /** UPDATE tasks SET title = COALESCE($1, title), ..., completed =
      COALESCE($5, completed), completed_at = CASE WHEN $5 THEN now ELSE NULL END. */
  function ApplyPatch(t: Task, p: TaskPatch, now: Timestamp): (u: Task)
    ensures u.id == t.id && u.listId == t.listId && u.createdAt == t.createdAt
  {
    t.(title := p.title.Coalesce(t.title),
       description := p.description.Or(t.description),
       priority := p.priority.Coalesce(t.priority),
       dueDate := p.dueDate.Or(t.dueDate),
       completed := p.completed.Coalesce(t.completed),
       completedAt := if p.completed == Some(true) then Some(now) else None)
  }

  /** Field by field: an absent value keeps the stored one, a present value
      replaces it; id, list and creation time never change. */
  lemma PatchFields(t: Task, p: TaskPatch, now: Timestamp)
    ensures var u := ApplyPatch(t, p, now);
      && u.id == t.id && u.listId == t.listId && u.createdAt == t.createdAt
      && (p.title.None? ==> u.title == t.title)
      && (p.title.Some? ==> u.title == p.title.value)
      && (p.description.None? ==> u.description == t.description)
      && (p.description.Some? ==> u.description == p.description)
      && (p.priority.None? ==> u.priority == t.priority)
      && (p.priority.Some? ==> u.priority == p.priority.value)
      && (p.dueDate.None? ==> u.dueDate == t.dueDate)
      && (p.dueDate.Some? ==> u.dueDate == p.dueDate)
      && (p.completed.None? ==> u.completed == t.completed)
      && (p.completed.Some? ==> u.completed == p.completed.value)
  {
  }

  /** A nullable field that holds a value cannot be cleared by an update. */
  lemma PatchCannotClear(t: Task, p: TaskPatch, now: Timestamp)
    ensures t.description.Some? ==> ApplyPatch(t, p, now).description.Some?
    ensures t.dueDate.Some? ==> ApplyPatch(t, p, now).dueDate.Some?
  {
  }

  /** completed_at is stamped with now exactly when completed is supplied as
      true; it is cleared otherwise, also when completed is absent. */
  lemma CompletedAtRule(t: Task, p: TaskPatch, now: Timestamp)
    ensures ApplyPatch(t, p, now).completedAt.Some? <==> p.completed == Some(true)
    ensures ApplyPatch(t, p, now).completedAt.Some? ==> ApplyPatch(t, p, now).completedAt.value == now
  {
  }

  /** Changing only the title of a completed task keeps it completed but
      drops its completion stamp. */
  lemma TitleOnlyUpdateDropsStamp(t: Task, title: string, now: Timestamp)
    requires t.completed && t.completedAt.Some?
    ensures var u := ApplyPatch(t, TaskPatch(Some(title), None, None, None, None), now);
      u.completed && u.completedAt.None? && u.title == title && u.priority == t.priority && u.dueDate == t.dueDate
  {
  }

  /** Every update keeps "a stamp only on a completed task". */
  lemma PatchKeepsStampInvariant(t: Task, p: TaskPatch, now: Timestamp)
    ensures ApplyPatch(t, p, now).completedAt.Some? ==> ApplyPatch(t, p, now).completed
  {
  }

  /** A task created in a list is part of that list's listing afterwards. */
  lemma CreatedTaskIsListed(tasks: map<Id, Task>, next: Id, body: NewTaskBody, now: Timestamp)
    requires TasksKeyed(tasks, next)
    ensures var t := NewTask(next, body, now);
      TasksKeyed(tasks[next := t], next + 1) && t in TasksInList(tasks[next := t], body.listId, next + 1)
  {
  }

  /** After a delete the task is in no listing. */
  lemma DeletedTaskIsNotListed(tasks: map<Id, Task>, next: Id, id: Id, listId: Id)
    requires TasksKeyed(tasks, next)
    ensures forall t :: t in TasksInList(tasks - {id}, listId, next) ==> t.id != id
  {
  }

  // ---------------------------------------------------------------------
  // The handlers

  /** GET /tasks/list/:listId */
  method GetTasksOfList(db: Store, requester: Id, listId: Id) returns (r: Result<seq<Task>, Error>)
    requires db.Valid()
    ensures r.Failure? <==> ScopedList(db.lists, listId, requester).None?
    ensures r.Failure? ==> r.error == NotFound(ListNotFound)
    ensures r.Success? ==> Sorting.Sorted(TaskPrecedes, r.value)
    ensures r.Success? ==> forall t :: t in r.value <==> t in db.tasks.Values && t.listId == listId
    ensures r.Success? ==> Sorting.NoDup(r.value)
  {
    if ScopedList(db.lists, listId, requester).None? {
      return Failure(NotFound(ListNotFound));
    }
    var rows := TasksInList(db.tasks, listId, db.nextTaskId);
    var sorted := Sorting.Sort(TaskPrecedes, rows);
    TaskOrderIsTotalPreorder();
    Sorting.SortSorted(TaskPrecedes, rows);
    Sorting.PermutationNoDup(rows, sorted);
    forall t ensures t in sorted <==> t in db.tasks.Values && t.listId == listId {
      if t in db.tasks.Values && t.listId == listId {
        TasksInListComplete(db.tasks, listId, db.nextTaskId, t.id);
      }
      assert t in sorted <==> t in multiset(sorted);
      assert t in rows <==> t in multiset(rows);
    }
    r := Success(sorted);
  }

  /** POST /tasks */
  method CreateTask(db: Store, requester: Id, body: NewTaskBody, now: Timestamp) returns (r: Result<Task, Error>)
    requires db.Valid()
    modifies db
    ensures db.Valid()
    ensures db.users == old(db.users) && db.lists == old(db.lists)
    ensures db.nextUserId == old(db.nextUserId) && db.nextListId == old(db.nextListId)
    ensures ScopedList(old(db.lists), body.listId, requester).None? ==>
              r == Failure(NotFound(ListNotFound)) &&
              db.tasks == old(db.tasks) && db.nextTaskId == old(db.nextTaskId)
    ensures ScopedList(old(db.lists), body.listId, requester).Some? ==>
              r == Success(NewTask(old(db.nextTaskId), body, now)) &&
              old(db.nextTaskId) !in old(db.tasks) &&
              db.tasks == old(db.tasks)[old(db.nextTaskId) := r.value] &&
              db.nextTaskId == old(db.nextTaskId) + 1
  {
    if ScopedList(db.lists, body.listId, requester).None? {
      return Failure(NotFound(ListNotFound));
    }
    var task := NewTask(db.nextTaskId, body, now);
    db.tasks := db.tasks[db.nextTaskId := task];
    db.nextTaskId := db.nextTaskId + 1;
    r := Success(task);
  }

  /** PUT /tasks/:id */
  method UpdateTask(db: Store, requester: Id, id: Id, patch: TaskPatch, now: Timestamp) returns (r: Result<Task, Error>)
    requires db.Valid()
    modifies db
    ensures db.Valid()
    ensures db.users == old(db.users) && db.lists == old(db.lists)
    ensures db.nextUserId == old(db.nextUserId) && db.nextListId == old(db.nextListId)
    ensures db.nextTaskId == old(db.nextTaskId)
    ensures ScopedTask(old(db.lists), old(db.tasks), id, requester).None? ==>
              r == Failure(NotFound(TaskNotFound)) && db.tasks == old(db.tasks)
    ensures ScopedTask(old(db.lists), old(db.tasks), id, requester).Some? ==>
              r == Success(ApplyPatch(old(db.tasks)[id], patch, now)) &&
              db.tasks == old(db.tasks)[id := r.value]
  {
    var owned := ScopedTask(db.lists, db.tasks, id, requester);
    if owned.None? {
      return Failure(NotFound(TaskNotFound));
    }
    var updated := ApplyPatch(db.tasks[id], patch, now);
    db.tasks := db.tasks[id := updated];
    r := Success(updated);
  }

  /** DELETE /tasks/:id: the join check, then a delete by id alone. */
  method DeleteTask(db: Store, requester: Id, id: Id) returns (r: Result<string, Error>)
    requires db.Valid()
    modifies db
    ensures db.Valid()
    ensures db.users == old(db.users) && db.lists == old(db.lists)
    ensures db.nextUserId == old(db.nextUserId) && db.nextListId == old(db.nextListId)
    ensures db.nextTaskId == old(db.nextTaskId)
    ensures ScopedTask(old(db.lists), old(db.tasks), id, requester).None? ==>
              r == Failure(NotFound(TaskNotFound)) && db.tasks == old(db.tasks)
    ensures ScopedTask(old(db.lists), old(db.tasks), id, requester).Some? ==>
              r == Success(TaskDeleted) && db.tasks == old(db.tasks) - {id}
  {
    var owned := ScopedTask(db.lists, db.tasks, id, requester);
    if owned.None? {
      return Failure(NotFound(TaskNotFound));
    }
    db.tasks := db.tasks - {id};
    r := Success(TaskDeleted);
  }
}
