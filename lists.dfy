/** The four list handlers: GET /lists (with task counts), POST /lists,
    PUT /lists/:id and DELETE /lists/:id. Update and delete match on id and
    owner in one statement. */
module ListRoutes {
  import opened Wrappers
  import opened Schema
  import opened Database
  import Sorting

  /** A list row as GET /lists returns it: l.* with total_tasks and completed_tasks. */
  datatype ListWithCounts = ListWithCounts(list: TaskList, totalTasks: nat, completedTasks: nat)

  // ---------------------------------------------------------------------
  // Aggregation

  /** COUNT(CASE WHEN t.completed THEN 1 END) over the joined task rows. */
  function CountCompleted(rows: seq<Task>): (n: nat)
    ensures n <= |rows|
  {
    if rows == [] then 0
    else (if rows[|rows| - 1].completed then 1 else 0) + CountCompleted(rows[..|rows| - 1])
  }

  /** The list with the counts of its LEFT JOIN rows. */
  function Counted(l: TaskList, tasks: map<Id, Task>, bound: nat): (c: ListWithCounts)
    requires forall k | k in tasks :: tasks[k].id == k
    ensures c.list == l && c.completedTasks <= c.totalTasks
  {
    var rows := TasksInList(tasks, l.id, bound);
    ListWithCounts(l, |rows|, CountCompleted(rows))
  }

  /** The ids of the tasks below bound that belong to a list. */
  function TaskIds(tasks: map<Id, Task>, listId: Id, bound: nat): set<Id> {
    set k | k in tasks && k < bound && tasks[k].listId == listId
  }

  function CompletedTaskIds(tasks: map<Id, Task>, listId: Id, bound: nat): set<Id> {
    set k | k in tasks && k < bound && tasks[k].listId == listId && tasks[k].completed
  }

  /** The scan returns one row per task id of the list. */
  lemma {:induction false} ScanTotal(tasks: map<Id, Task>, listId: Id, bound: nat)
    requires forall k | k in tasks :: tasks[k].id == k
    ensures |TasksInList(tasks, listId, bound)| == |TaskIds(tasks, listId, bound)|
  {
    if bound > 0 {
      var k := bound - 1;
      ScanTotal(tasks, listId, k);
      var now, was := TaskIds(tasks, listId, bound), TaskIds(tasks, listId, k);
      if k in tasks && tasks[k].listId == listId {
        assert now == was + {k} by {
          forall x ensures x in now <==> x in was + {k} {
          }
        }
        assert k !in was;
        assert |now| == |was| + 1;
      } else {
        assert now == was by {
          forall x ensures x in now <==> x in was {
          }
        }
      }
    }
  }

  /** ... and counts one for each completed one. */
  lemma {:induction false} ScanCompleted(tasks: map<Id, Task>, listId: Id, bound: nat)
    requires forall k | k in tasks :: tasks[k].id == k
    ensures CountCompleted(TasksInList(tasks, listId, bound)) == |CompletedTaskIds(tasks, listId, bound)|
  {
    if bound > 0 {
      var k := bound - 1;
      ScanCompleted(tasks, listId, k);
      var one := if k in tasks && tasks[k].listId == listId && tasks[k].completed then 1 else 0;
      CountCompletedStep(tasks, listId, k, one);
      CompletedIdsStep(tasks, listId, k, one);
    }
  }

  lemma CountCompletedAppend(rows: seq<Task>, t: Task)
    ensures CountCompleted(rows + [t]) == CountCompleted(rows) + (if t.completed then 1 else 0)
  {
    assert (rows + [t])[..|rows|] == rows;
  }

  lemma CountCompletedStep(tasks: map<Id, Task>, listId: Id, k: Id, one: nat)
    requires forall k | k in tasks :: tasks[k].id == k
    requires one == if k in tasks && tasks[k].listId == listId && tasks[k].completed then 1 else 0
    ensures CountCompleted(TasksInList(tasks, listId, k + 1)) == CountCompleted(TasksInList(tasks, listId, k)) + one
  {
    if k in tasks && tasks[k].listId == listId {
      assert TasksInList(tasks, listId, k + 1) == TasksInList(tasks, listId, k) + [tasks[k]];
      CountCompletedAppend(TasksInList(tasks, listId, k), tasks[k]);
    } else {
      assert TasksInList(tasks, listId, k + 1) == TasksInList(tasks, listId, k);
    }
  }

  lemma CompletedIdsStep(tasks: map<Id, Task>, listId: Id, k: Id, one: nat)
    requires one == if k in tasks && tasks[k].listId == listId && tasks[k].completed then 1 else 0
    ensures |CompletedTaskIds(tasks, listId, k + 1)| == |CompletedTaskIds(tasks, listId, k)| + one
  {
    var now, was := CompletedTaskIds(tasks, listId, k + 1), CompletedTaskIds(tasks, listId, k);
    if one == 1 {
      assert now == was + {k} by {
        forall x ensures x in now <==> x in was + {k} {
        }
      }
      assert k !in was;
    } else {
      assert now == was by {
        forall x ensures x in now <==> x in was {
        }
      }
    }
  }

  /** total_tasks is the number of tasks of the list, completed_tasks the
      number of those that are completed; a list without tasks shows 0/0. */
  lemma CountsOfList(l: TaskList, tasks: map<Id, Task>, next: Id)
    requires TasksKeyed(tasks, next)
    ensures var c := Counted(l, tasks, next);
      && c.totalTasks == |set k | k in tasks && tasks[k].listId == l.id|
      && c.completedTasks == |set k | k in tasks && tasks[k].listId == l.id && tasks[k].completed|
      && c.completedTasks <= c.totalTasks
      && ((forall k | k in tasks :: tasks[k].listId != l.id) ==> c.totalTasks == 0 && c.completedTasks == 0)
  {
    ScanTotal(tasks, l.id, next);
    ScanCompleted(tasks, l.id, next);
    assert TaskIds(tasks, l.id, next) == set k | k in tasks && tasks[k].listId == l.id;
    assert CompletedTaskIds(tasks, l.id, next) == set k | k in tasks && tasks[k].listId == l.id && tasks[k].completed;
  }

  /** SELECT l.* FROM lists l WHERE l.user_id = $1, scanning ids below bound. */
  function ListsOfUser(lists: map<Id, TaskList>, owner: Id, bound: nat): (r: seq<TaskList>)
    requires forall k | k in lists :: lists[k].id == k
    ensures forall i | 0 <= i < |r| :: r[i].id < bound && r[i].id in lists && lists[r[i].id] == r[i] && r[i].userId == owner
    ensures forall i, j :: 0 <= i < j < |r| ==> r[i].id < r[j].id
  {
    if bound == 0 then []
    else
      var k := bound - 1;
      ListsOfUser(lists, owner, k)
        + (if k in lists && lists[k].userId == owner then [lists[k]] else [])
  }

  /** Every list of the owner whose id is below bound is in the scan. */
  lemma {:induction false} ListsOfUserComplete(lists: map<Id, TaskList>, owner: Id, bound: nat, k: Id)
    requires forall k | k in lists :: lists[k].id == k
    requires k in lists && k < bound && lists[k].userId == owner
    ensures lists[k] in ListsOfUser(lists, owner, bound)
  {
    if k < bound - 1 {
      ListsOfUserComplete(lists, owner, bound - 1, k);
    }
  }

  /** ORDER BY l.created_at DESC: a may be listed before b. */
  predicate NewerFirst(a: ListWithCounts, b: ListWithCounts)
    ensures a.list.createdAt > b.list.createdAt ==> NewerFirst(a, b)
    ensures a.list.createdAt < b.list.createdAt ==> !NewerFirst(a, b)
    ensures a == b ==> NewerFirst(a, b)
  {
    a.list.createdAt >= b.list.createdAt
  }

  lemma NewerFirstIsTotalPreorder()
    ensures Sorting.TotalPreorder(NewerFirst)
  {
  }

  // ---------------------------------------------------------------------
  // Insert and replace of one row

  /** A colour JavaScript treats as true: present and not empty. */
  predicate Truthy(c: Option<string>) {
    c.Some? && c.value != ""
  }

  /** The row INSERT INTO lists ... RETURNING * gives back. */
  function NewList(id: Id, owner: Id, body: ListBody, now: Timestamp): (l: TaskList)
    ensures l.id == id && l.userId == owner
    ensures l.color.Some? && l.color.value != ""
  {
    TaskList(id, owner, body.title, body.description,
             Some(if Truthy(body.color) then body.color.value else DefaultColor), now)
  }

  /** A new list belongs to the requester; a falsy colour (absent or empty)
      becomes #4A90E2, any other colour is kept. */
  lemma NewListFields(id: Id, owner: Id, body: ListBody, now: Timestamp)
    ensures var l := NewList(id, owner, body, now);
      && l.id == id && l.userId == owner && l.title == body.title
      && l.description == body.description && l.createdAt == now
      && l.color.Some? && l.color.value != ""
      && (Truthy(body.color) ==> l.color == body.color)
      && (!Truthy(body.color) ==> l.color == Some(DefaultColor))
  {
  }

  /** UPDATE lists SET title = $1, description = $2, color = $3. */
  function ReplaceList(l: TaskList, body: ListBody): (u: TaskList)
    ensures u.id == l.id && u.userId == l.userId && u.createdAt == l.createdAt
  {
    l.(title := body.title, description := body.description, color := body.color)
  }

  /** A list update is a full replace of the three fields (an absent
      description or colour becomes NULL); id, owner and creation time stay. */
  lemma ReplaceListFields(l: TaskList, body: ListBody)
    ensures var u := ReplaceList(l, body);
      && u.id == l.id && u.userId == l.userId && u.createdAt == l.createdAt
      && u.title == body.title && u.description == body.description && u.color == body.color
  {
  }

  /** Once a list is deleted nobody reaches it, nor any task in it. */
  lemma DeletedListIsUnreachable(lists: map<Id, TaskList>, tasks: map<Id, Task>, id: Id, owner: Id, taskId: Id)
    requires taskId in tasks && tasks[taskId].listId == id
    ensures ScopedList(lists - {id}, id, owner).None?
    ensures ScopedTask(lists - {id}, tasks, taskId, owner).None?
  {
  }

  // ---------------------------------------------------------------------
  // The handlers

  /** The owner's lists in scan order, each with its counts. */
  function CountedLists(lists: map<Id, TaskList>, tasks: map<Id, Task>, owner: Id, listBound: nat, taskBound: nat): (r: seq<ListWithCounts>)
    requires forall k | k in lists :: lists[k].id == k
    requires forall k | k in tasks :: tasks[k].id == k
    ensures |r| == |ListsOfUser(lists, owner, listBound)|
    ensures forall i | 0 <= i < |r| ::
              r[i].list.userId == owner && r[i].completedTasks <= r[i].totalTasks
  {
    var rows := ListsOfUser(lists, owner, listBound);
    seq(|rows|, i requires 0 <= i < |rows| => Counted(rows[i], tasks, taskBound))
  }

  /** The counted listing holds every list of the owner once, with its own counts. */
  lemma CountedListsContents(lists: map<Id, TaskList>, tasks: map<Id, Task>, owner: Id, listBound: nat, taskBound: nat)
    requires ListsKeyed(lists, listBound)
    requires forall k | k in tasks :: tasks[k].id == k
    ensures var r := CountedLists(lists, tasks, owner, listBound, taskBound);
      && Sorting.NoDup(r)
      && forall c :: c in r <==> c.list in lists.Values && c.list.userId == owner && c == Counted(c.list, tasks, taskBound)
  {
    var rows := ListsOfUser(lists, owner, listBound);
    var r := CountedLists(lists, tasks, owner, listBound, taskBound);
    assert |r| == |rows| && forall i | 0 <= i < |r| :: r[i] == Counted(rows[i], tasks, taskBound);
    forall i, j | 0 <= i < j < |r| ensures r[i] != r[j] {
      assert r[i].list.id == rows[i].id < rows[j].id == r[j].list.id;
    }
    forall c ensures c in r <==> c.list in lists.Values && c.list.userId == owner && c == Counted(c.list, tasks, taskBound) {
      if c.list in lists.Values && c.list.userId == owner && c == Counted(c.list, tasks, taskBound) {
        ListsOfUserComplete(lists, owner, listBound, c.list.id);
        var i :| 0 <= i < |rows| && rows[i] == c.list;
        assert r[i] == c;
      }
      if c in r {
        var i :| 0 <= i < |r| && r[i] == c;
        assert c.list == rows[i];
      }
    }
  }

  /** GET /lists */
  method GetLists(db: Store, requester: Id) returns (r: seq<ListWithCounts>)
    requires db.Valid()
    ensures forall c :: c in r <==>
              c.list in db.lists.Values && c.list.userId == requester &&
              c == Counted(c.list, db.tasks, db.nextTaskId)
    ensures Sorting.NoDup(r)
    ensures forall i, j :: 0 <= i < j < |r| ==> r[i].list.createdAt >= r[j].list.createdAt
  {
    var counted := CountedLists(db.lists, db.tasks, requester, db.nextListId, db.nextTaskId);
    CountedListsContents(db.lists, db.tasks, requester, db.nextListId, db.nextTaskId);
    r := Sorting.Sort(NewerFirst, counted);
    NewerFirstIsTotalPreorder();
    Sorting.SortSorted(NewerFirst, counted);
    Sorting.PermutationNoDup(counted, r);
    forall c ensures c in r <==> c in counted {
      assert c in r <==> c in multiset(r);
      assert c in counted <==> c in multiset(counted);
    }
    forall i, j | 0 <= i < j < |r| ensures r[i].list.createdAt >= r[j].list.createdAt {
      assert NewerFirst(r[i], r[j]);
    }
  }

  /** POST /lists */
  method CreateList(db: Store, requester: Id, body: ListBody, now: Timestamp) returns (l: TaskList)
    requires db.Valid()
    modifies db
    ensures db.Valid()
    ensures db.users == old(db.users) && db.tasks == old(db.tasks)
    ensures db.nextUserId == old(db.nextUserId) && db.nextTaskId == old(db.nextTaskId)
    ensures l == NewList(old(db.nextListId), requester, body, now)
    ensures old(db.nextListId) !in old(db.lists)
    ensures db.lists == old(db.lists)[old(db.nextListId) := l]
    ensures db.nextListId == old(db.nextListId) + 1
  {
    l := NewList(db.nextListId, requester, body, now);
    db.lists := db.lists[db.nextListId := l];
    db.nextListId := db.nextListId + 1;
  }

  /** PUT /lists/:id */
  method UpdateList(db: Store, requester: Id, id: Id, body: ListBody) returns (r: Result<TaskList, Error>)
    requires db.Valid()
    modifies db
    ensures db.Valid()
    ensures db.users == old(db.users) && db.tasks == old(db.tasks)
    ensures db.nextUserId == old(db.nextUserId) && db.nextListId == old(db.nextListId)
    ensures db.nextTaskId == old(db.nextTaskId)
    ensures ScopedList(old(db.lists), id, requester).None? ==>
              r == Failure(NotFound(ListNotFound)) && db.lists == old(db.lists)
    ensures ScopedList(old(db.lists), id, requester).Some? ==>
              r == Success(ReplaceList(old(db.lists)[id], body)) &&
              db.lists == old(db.lists)[id := r.value]
  {
    if id in db.lists && db.lists[id].userId == requester {
      var updated := ReplaceList(db.lists[id], body);
      db.lists := db.lists[id := updated];
      r := Success(updated);
    } else {
      r := Failure(NotFound(ListNotFound));
    }
  }

  /** DELETE /lists/:id. The tasks table is left as it is: removing the
      list's tasks is the schema's cascade rule, not part of this handler. */
  method DeleteList(db: Store, requester: Id, id: Id) returns (r: Result<string, Error>)
    requires db.Valid()
    modifies db
    ensures db.Valid()
    ensures db.users == old(db.users) && db.tasks == old(db.tasks)
    ensures db.nextUserId == old(db.nextUserId) && db.nextListId == old(db.nextListId)
    ensures db.nextTaskId == old(db.nextTaskId)
    ensures ScopedList(old(db.lists), id, requester).None? ==>
              r == Failure(NotFound(ListNotFound)) && db.lists == old(db.lists)
    ensures ScopedList(old(db.lists), id, requester).Some? ==>
              r == Success(ListDeleted) && db.lists == old(db.lists) - {id}
  {
    if id in db.lists && db.lists[id].userId == requester {
      db.lists := db.lists - {id};
      r := Success(ListDeleted);
    } else {
      r := Failure(NotFound(ListNotFound));
    }
  }
}
