# Task manager backend: ownership-scoped CRUD over users, lists and tasks

This project models the REST backend of a task manager. Users register and
log in. A user owns lists, and each list holds tasks. The model covers the
three route files and states what each handler promises:

- `backend/routes/auth.routes.js`: registration and login.
- `backend/routes/lists.routes.js`: list listing with task counts, plus create, replace and delete.
- `backend/routes/tasks.routes.js`: task listing in a fixed order, plus create, partial update and delete.

The database is an in-memory `Database.Store`. This class holds three maps
keyed by id (`users`, `lists`, `tasks`) and one serial counter per table.
Each protected route handler (the list and task routes) is a method that
takes the store and the requester's id. Registration and login take the store
and the request body only. The requester's id is what the token middleware puts in `req.user.id`, and
the model trusts it as given. A handler returns either a value or one error
kind: `NotFound` (404), `Conflict` (400) or `Unauthorized` (401). The error
messages are the source's own strings.

The store invariant `Store.Valid` says four things:

- Every row is stored under its own id.
- Ids stay below their table's counter.
- Emails are unique, and so are usernames.
- A completion stamp is only found on a completed task.

Every mutating handler preserves this invariant.

A SELECT is modelled as a scan over the ids in key order, followed by a stable
insertion sort under the ORDER BY's preorder (module `Sorting`). Ties between
rows come out in id order. SQL leaves the order of ties unspecified. The
listings' contracts state only the sort keys, so they do not depend on how
ties come out.

The hash is a symbolic term `Bcrypt(cost, salt, password)`, injective in the
password. It uses cost 10,
as at `auth.routes.js:23`. `Verify` recomputes the term with the stored cost
and salt, as `bcrypt.compare` does. The random salt is a parameter. A session
token is modelled only as its claims record `{id, username, email}`.
`CURRENT_TIMESTAMP` is passed in as `now`.

How `completed_at` behaves on update: the handler sets
`completed_at = CASE WHEN $5 THEN now ELSE NULL`. The model follows this
code. So an update that leaves out `completed` still clears `completed_at`,
while `completed` keeps its stored value. So editing a completed task without
sending `completed` leaves it completed with no stamp
(`TaskRoutes.TitleOnlyUpdateDropsStamp`); `TaskRoutes.CompletedAtRule` states
the rule.

List deletion here removes the list row only. Tasks are removed by an
`ON DELETE CASCADE` rule in the schema, which is not part of this model. A
task whose list is gone fails the ownership join, so every task route answers
it with NotFound.

## Model

| member | source | states |
|---|---|---|
| `Schema.Status` | backend/routes/tasks.routes.js:15-17 | NotFound is answered with 404, Conflict with 400 and Unauthorized with 401, and each status with that kind only |
| `Database.Store.constructor` | backend/routes/auth.routes.js:5 | the store the handlers share starts with no users, lists or tasks, and satisfies the invariant |
| `Database.ScopedList` | backend/routes/tasks.routes.js:10-13 | the owned-list lookup finds a list exactly when it exists and belongs to the requester, and then returns the stored row |
| `Crypto.Verify` | backend/routes/auth.routes.js:65 | verification accepts a candidate exactly when it is the password the hash was computed from |
| `Crypto.Hash` | backend/routes/auth.routes.js:23 | the stored hash carries cost factor 10 and the given salt |
| `Crypto.HashVerifies` | backend/routes/auth.routes.js:65 | verification accepts the password a hash was made from, whatever the salt |
| `Crypto.VerifyOnlyOriginal` | backend/routes/auth.routes.js:65-69 | verification against a hash accepts exactly the original password |
| `Sorting.Sort` | backend/routes/tasks.routes.js:22-26 | an ordered result is a permutation of the selected rows |
| `Sorting.SortSorted` | backend/routes/tasks.routes.js:22-26 | under a total preorder, the ordered result is sorted |
| `Sorting.PermutationNoDup` | backend/routes/tasks.routes.js:19-28 | reordering never duplicates a row |
| `Database.ScopedTask` | backend/routes/tasks.routes.js:66-71 | the task join finds a task exactly when the task exists and the requester owns its list |
| `Database.TasksInList` | backend/routes/tasks.routes.js:19-21 | the scan returns only rows of that list, each stored under its id, in increasing id order |
| `Database.TasksInListComplete` | backend/routes/tasks.routes.js:19-21 | every task of the list is in the scan |
| `TaskRoutes.DueBefore` | backend/routes/tasks.routes.js:25 | only a dated task can come strictly before; a dated task comes before an undated one; no due date comes before itself |
| `TaskRoutes.TaskPrecedes` | backend/routes/tasks.routes.js:23-26 | of an incomplete and a completed task, the incomplete one goes first; between equal completion states the higher priority goes first; every task may stand beside itself |
| `TaskRoutes.NewTask` | backend/routes/tasks.routes.js:50-52 | an inserted task gets the fresh id and a priority other than 0, and starts incomplete and unstamped |
| `TaskRoutes.ApplyPatch` | backend/routes/tasks.routes.js:78-84 | an update never changes a task's id, list or creation time |
| `TaskRoutes.TaskOrderIsTotalPreorder` | backend/routes/tasks.routes.js:22-26 | the four-key task order is total and transitive |
| `TaskRoutes.SortedTaskKeys` | backend/routes/tasks.routes.js:22-26 | a sorted listing has incomplete tasks first, then priority descending, then due date ascending with undated last, then newest first |
| `TaskRoutes.ListingExample` | backend/routes/tasks.routes.js:22-26 | in any sorted listing, tasks keyed (false,3,day 10), (false,1,no date) and (true,3,day 10) stand in that order |
| `TaskRoutes.NewTaskFields` | backend/routes/tasks.routes.js:50-52 | an inserted task keeps its list, title, description and due date; an absent or 0 priority becomes 1, any other is kept; it starts incomplete and unstamped |
| `TaskRoutes.PatchFields` | backend/routes/tasks.routes.js:77-83 | for each of the five fields, absent keeps the stored value and present replaces it; id, list and creation time never change |
| `TaskRoutes.PatchCannotClear` | backend/routes/tasks.routes.js:80-82 | a description or due date that holds a value cannot be cleared by an update |
| `TaskRoutes.CompletedAtRule` | backend/routes/tasks.routes.js:84 | completed_at is `now` iff completed is supplied as true, and is cleared otherwise, also when completed is absent |
| `TaskRoutes.TitleOnlyUpdateDropsStamp` | backend/routes/tasks.routes.js:79-84 | a title-only update of a completed task keeps it completed but clears its stamp |
| `TaskRoutes.PatchKeepsStampInvariant` | backend/routes/tasks.routes.js:83-84 | after any update, a stamped task is completed |
| `TaskRoutes.CreatedTaskIsListed` | backend/routes/tasks.routes.js:50-52 | the inserted task appears in its list's listing |
| `TaskRoutes.DeletedTaskIsNotListed` | backend/routes/tasks.routes.js:111-113 | after a delete by id no listing contains that task |
| `TaskRoutes.GetTasksOfList` | backend/routes/tasks.routes.js:7-29 | NotFound iff the list is absent or not the requester's; otherwise exactly the list's tasks, each once, sorted by the four keys |
| `TaskRoutes.CreateTask` | backend/routes/tasks.routes.js:37-54 | NotFound and no change unless the requester owns the list; otherwise exactly one new task under a fresh id, nothing else changes |
| `TaskRoutes.UpdateTask` | backend/routes/tasks.routes.js:62-89 | NotFound and no change unless the join ownership check passes; otherwise only that row changes, to the COALESCE update |
| `TaskRoutes.DeleteTask` | backend/routes/tasks.routes.js:97-115 | NotFound and no change unless the join check passes; otherwise exactly that task is removed, lists are untouched |
| `ListRoutes.Counted` | backend/routes/lists.routes.js:9-16 | a counted list carries the list itself, and its completed count never exceeds its total |
| `ListRoutes.CountedLists` | backend/routes/lists.routes.js:9-16 | the grouped join holds one row per scanned list of the owner, each owned by the requester with completed ≤ total |
| `ListRoutes.NewerFirst` | backend/routes/lists.routes.js:17 | a newer list goes before an older one and never after it; a list may stand beside itself |
| `ListRoutes.NewList` | backend/routes/lists.routes.js:31-33 | a new list gets the fresh id and the requester as owner, and always has a non-empty colour |
| `ListRoutes.ReplaceList` | backend/routes/lists.routes.js:46-48 | a replace never changes a list's id, owner or creation time |
| `ListRoutes.CountCompleted` | backend/routes/lists.routes.js:12 | the completed count never exceeds the number of joined rows |
| `ListRoutes.ScanTotal` | backend/routes/lists.routes.js:11 | COUNT(t.id) equals the number of task ids of the list |
| `ListRoutes.ScanCompleted` | backend/routes/lists.routes.js:12 | the completed count equals the number of completed task ids of the list |
| `ListRoutes.CountsOfList` | backend/routes/lists.routes.js:10-16 | total_tasks is the list's task count and completed_tasks its completed count, with completed ≤ total and 0/0 for a list without tasks |
| `ListRoutes.ListsOfUser` | backend/routes/lists.routes.js:13-15 | the scan returns only the owner's lists, each under its id, in increasing id order |
| `ListRoutes.ListsOfUserComplete` | backend/routes/lists.routes.js:13-15 | every list of the owner is in the scan |
| `ListRoutes.NewerFirstIsTotalPreorder` | backend/routes/lists.routes.js:17 | created_at DESC is a total preorder |
| `ListRoutes.NewListFields` | backend/routes/lists.routes.js:31-33 | a new list belongs to the requester; an absent or empty colour becomes #4A90E2, any other is kept |
| `ListRoutes.ReplaceListFields` | backend/routes/lists.routes.js:46-48 | update replaces title, description and colour with the supplied values; id, owner and creation time stay |
| `ListRoutes.DeletedListIsUnreachable` | backend/routes/lists.routes.js:63-68 | after deletion neither the list nor any of its tasks passes an ownership check |
| `ListRoutes.CountedListsContents` | backend/routes/lists.routes.js:9-16 | the grouped join holds each of the owner's lists once, with its own counts |
| `ListRoutes.GetLists` | backend/routes/lists.routes.js:7-20 | exactly the requester's lists, each once, with its task counts, newest first |
| `ListRoutes.CreateList` | backend/routes/lists.routes.js:28-35 | exactly one new list under a fresh id, owned by the requester; nothing else changes |
| `ListRoutes.UpdateList` | backend/routes/lists.routes.js:43-53 | NotFound and no change unless id and owner match; otherwise only that list changes, as a full replace |
| `ListRoutes.DeleteList` | backend/routes/lists.routes.js:61-70 | NotFound and no change unless id and owner match; otherwise only that list is removed, tasks stay as they are |
| `AuthRoutes.Taken` | backend/routes/auth.routes.js:13-18 | the duplicate check fires exactly when some user has that email or some user has that username |
| `AuthRoutes.StripHash` | backend/routes/auth.routes.js:72 | the public user keeps the id, username and email and has no hash |
| `AuthRoutes.Session` | backend/routes/auth.routes.js:34-38 | the token claims are the id, username and email of the returned user |
| `AuthRoutes.InsertKeepsCredentialsUnique` | backend/routes/auth.routes.js:13-29 | inserting a user that passed the duplicate check keeps emails and usernames unique |
| `AuthRoutes.EmailIdentifiesUser` | backend/routes/auth.routes.js:53-62 | the email lookup matches at most one user |
| `AuthRoutes.Register` | backend/routes/auth.routes.js:8-40 | Conflict and no change if the email or the username is taken; otherwise one new user stored with hash(password), answered with {id, username, email} and its claims |
| `AuthRoutes.Login` | backend/routes/auth.routes.js:48-81 | success iff a user has that email and the password verifies; both failures give Unauthorized with the same message; on success the user without hash, plus equal claims; the store is only read |
| `Scenarios.RegisterThenLogin` | backend/routes/auth.routes.js:8-81 | logging in with just-registered credentials returns the registration's user and claims |
| `Scenarios.RegisterTwice` | backend/routes/auth.routes.js:13-20 | a second registration with the same username and email gives Conflict |
| `Scenarios.WrongPasswordLooksLikeUnknownEmail` | backend/routes/auth.routes.js:58-69 | a wrong password and an unknown email get the identical answer |
| `Scenarios.ForeignListIsHidden` | backend/routes/lists.routes.js:43-70 | another user's list gives NotFound on task read, update and delete, and nothing changes |
| `Scenarios.DeleteListThenReadTasks` | backend/routes/tasks.routes.js:10-17 | once a list is deleted, reading its tasks gives NotFound, not an empty list |
| `Scenarios.CompleteThenReopen` | backend/routes/tasks.routes.js:83-84 | completing stamps `now`; reopening right after clears the stamp |

## Left out

- The 500 paths: store failures, hashing failures and schema-constraint violations are not modelled. One example is a request without a title, which would insert NULL into the title column.
- Request values of the wrong JSON type are not modelled. A priority is an integer, a colour a string, and `completed` a boolean. So the falsy values that `priority || 1` and `color || '#4A90E2'` can meet are limited to absent, `0` and `""`.
- bcrypt is modelled as an injective symbolic hash, not a one-way one. The real primitive's salt generation, its 72-byte truncation and its running cost are not modelled.
- The stored hash term keeps the password it was computed from, so the model does not capture that the password cannot be recovered from the stored hash.
- Path ids are natural numbers (`Schema.Id`), so a negative id such as `DELETE /tasks/-1`, which the source answers with 404, cannot be expressed. A non-numeric id is not modelled either.
- JWT signing, the 24-hour expiry, the fallback secret, and the `authenticateToken` middleware are not modelled. The requester id is a trusted input, and a token is only its claims.
- The SQL engine and the schema are not modelled, including the `ON DELETE CASCADE` of tasks when their list is deleted, column defaults and the serial id sequences. The model assumes these defaults: a new task starts incomplete and unstamped, and `created_at` is the `now` passed in.
- Concurrency is not modelled, including the window between the ownership check and the mutation in the task handlers. Each handler runs as one atomic step.
- `GetTasksOfList`: the order of tasks that tie on all four keys is left open, as it is in SQL.
- `GetLists`: the order of lists with the same `created_at` is left open, as it is in SQL.
- Express wiring, CORS, static serving and `listen` are not modelled. Nor is the frontend (DOM, fetch, localStorage and the progress-bar percentage). They are presentation and wiring.
