/** The in-memory store standing for the three tables, and the queries that
    several handlers share: the ownership-scoped lookups and the scan of a
    list's tasks. */
module Database {
  import opened Wrappers
  import opened Schema

  /** Every row sits under its own id, and ids come from a serial counter. */
  predicate UsersKeyed(users: map<Id, User>, next: Id) {
    forall k | k in users :: users[k].id == k && k < next
  }

  predicate ListsKeyed(lists: map<Id, TaskList>, next: Id) {
    forall k | k in lists :: lists[k].id == k && k < next
  }

  predicate TasksKeyed(tasks: map<Id, Task>, next: Id) {
    forall k | k in tasks :: tasks[k].id == k && k < next
  }

  /** No two users share an email, and no two share a username. */
  predicate UniqueCredentials(users: map<Id, User>) {
    forall a, b | a in users && b in users && a != b ::
      users[a].email != users[b].email && users[a].username != users[b].username
  }

  /** A completion stamp is only ever found on a completed task. */
  predicate StampedOnlyIfCompleted(tasks: map<Id, Task>) {
    forall k | k in tasks :: tasks[k].completedAt.Some? ==> tasks[k].completed
  }

  class Store {
    var users: map<Id, User>
    var lists: map<Id, TaskList>
    var tasks: map<Id, Task>
    var nextUserId: Id
    var nextListId: Id
    var nextTaskId: Id

    ghost predicate Valid()
      reads this
    {
      && UsersKeyed(users, nextUserId)
      && ListsKeyed(lists, nextListId)
      && TasksKeyed(tasks, nextTaskId)
      && UniqueCredentials(users)
      && StampedOnlyIfCompleted(tasks)
    }

    constructor ()
      ensures Valid()
      ensures users == map[] && lists == map[] && tasks == map[]
    {
      users, lists, tasks := map[], map[], map[];
      nextUserId, nextListId, nextTaskId := 1, 1, 1;
    }
  }

  /** The list with that id, provided the requester owns it:
      SELECT ... FROM lists WHERE id = $1 AND user_id = $2. */
  function ScopedList(lists: map<Id, TaskList>, id: Id, owner: Id): (r: Option<TaskList>)
    ensures r.Some? <==> id in lists && lists[id].userId == owner
    ensures r.Some? ==> r.value == lists[id] && r.value.userId == owner
  {
    if id in lists && lists[id].userId == owner then Some(lists[id]) else None
  }

  /** The task with that id, provided the list it belongs to exists and the
      requester owns it: tasks t JOIN lists l ON t.list_id = l.id
      WHERE t.id = $1 AND l.user_id = $2. */
  function ScopedTask(lists: map<Id, TaskList>, tasks: map<Id, Task>, id: Id, owner: Id): (r: Option<Task>)
    ensures r.Some? <==> id in tasks && ScopedList(lists, tasks[id].listId, owner).Some?
    ensures r.Some? ==> r.value == tasks[id] && lists[r.value.listId].userId == owner
  {
    if id in tasks && tasks[id].listId in lists && lists[tasks[id].listId].userId == owner
    then Some(tasks[id])
    else None
  }

  /** SELECT * FROM tasks WHERE list_id = $1, scanning the ids below bound in
      key order. */
  function TasksInList(tasks: map<Id, Task>, listId: Id, bound: nat): (r: seq<Task>)
    requires forall k | k in tasks :: tasks[k].id == k
    ensures forall i | 0 <= i < |r| :: r[i].id < bound && r[i].id in tasks && tasks[r[i].id] == r[i] && r[i].listId == listId
    ensures forall i, j :: 0 <= i < j < |r| ==> r[i].id < r[j].id
  {
    if bound == 0 then []
    else
      var k := bound - 1;
      TasksInList(tasks, listId, k)
        + (if k in tasks && tasks[k].listId == listId then [tasks[k]] else [])
  }

  /** Every task of the list whose id is below bound is in the scan. */
  lemma {:induction false} TasksInListComplete(tasks: map<Id, Task>, listId: Id, bound: nat, k: Id)
    requires forall k | k in tasks :: tasks[k].id == k
    requires k in tasks && k < bound && tasks[k].listId == listId
    ensures tasks[k] in TasksInList(tasks, listId, bound)
  {
    if k < bound - 1 {
      TasksInListComplete(tasks, listId, bound - 1, k);
    }
  }
}
