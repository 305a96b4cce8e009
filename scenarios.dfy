/** Sequences of requests, with what the handlers' contracts guarantee about
    them taken together. */
module Scenarios {
  import opened Wrappers
  import opened Schema
  import opened Database
  import opened Crypto
  import TaskRoutes
  import ListRoutes
  import AuthRoutes

  /** Logging in with the credentials just registered yields the same user and
      the same token claims as the registration did. */
  method RegisterThenLogin(db: Store, username: string, email: string, password: string, salt: Salt)
    returns (registered: Result<AuthRoutes.AuthResponse, Error>, loggedIn: Result<AuthRoutes.AuthResponse, Error>)
    requires db.Valid()
    modifies db
    ensures registered.Success? <==> !AuthRoutes.Taken(old(db.users), username, email)
    ensures registered.Success? ==> loggedIn == registered
  {
    ghost var id := db.nextUserId;
    registered := AuthRoutes.Register(db, username, email, password, salt);
    if registered.Success? {
      HashVerifies(password, salt);
      assert id in db.users && db.users[id].email == email;
    }
    loggedIn := AuthRoutes.Login(db, email, password);
  }

  /** Registering the same username and email twice fails the second time. */
  method RegisterTwice(db: Store, username: string, email: string, password: string, salt1: Salt, salt2: Salt)
    returns (first: Result<AuthRoutes.AuthResponse, Error>, second: Result<AuthRoutes.AuthResponse, Error>)
    requires db.Valid()
    modifies db
    ensures second == Failure(Conflict(UserExists))
  {
    ghost var id := db.nextUserId;
    first := AuthRoutes.Register(db, username, email, password, salt1);
    if first.Success? {
      assert id in db.users && db.users[id].email == email;
    }
    second := AuthRoutes.Register(db, username, email, password, salt2);
  }

  /** After a registration, a wrong password and an unknown email are answered alike. */
  method WrongPasswordLooksLikeUnknownEmail(
    db: Store, username: string, email: string, password: string, salt: Salt, wrong: string, unknown: string)
    returns (withWrongPassword: Result<AuthRoutes.AuthResponse, Error>, withUnknownEmail: Result<AuthRoutes.AuthResponse, Error>)
    requires db.Valid()
    requires !AuthRoutes.Taken(db.users, username, email)
    requires wrong != password
    requires forall k | k in db.users :: db.users[k].email != unknown
    requires unknown != email
    modifies db
    ensures withWrongPassword.Failure? && withUnknownEmail.Failure?
    ensures withWrongPassword == withUnknownEmail == Failure(Unauthorized(InvalidCredentials))
  {
    var registered := AuthRoutes.Register(db, username, email, password, salt);
    VerifyOnlyOriginal(password, wrong, salt);
    withWrongPassword := AuthRoutes.Login(db, email, wrong);
    withUnknownEmail := AuthRoutes.Login(db, unknown, password);
  }

  /** A list of another user is invisible: reading its tasks, updating it and
      deleting it all answer NotFound, and nothing changes. */
  method ForeignListIsHidden(db: Store, requester: Id, listId: Id, body: ListBody)
    returns (read: Result<seq<Task>, Error>, updated: Result<TaskList, Error>, deleted: Result<string, Error>)
    requires db.Valid()
    requires listId in db.lists && db.lists[listId].userId != requester
    modifies db
    ensures read == Failure(NotFound(ListNotFound))
    ensures updated == Failure(NotFound(ListNotFound))
    ensures deleted == Failure(NotFound(ListNotFound))
    ensures db.lists == old(db.lists) && db.tasks == old(db.tasks) && db.users == old(db.users)
  {
    read := TaskRoutes.GetTasksOfList(db, requester, listId);
    updated := ListRoutes.UpdateList(db, requester, listId, body);
    deleted := ListRoutes.DeleteList(db, requester, listId);
  }

  /** Once a list is deleted, reading its tasks answers NotFound rather than
      an empty listing. */
  method DeleteListThenReadTasks(db: Store, requester: Id, listId: Id)
    returns (deleted: Result<string, Error>, read: Result<seq<Task>, Error>)
    requires db.Valid()
    modifies db
    ensures deleted.Success? ==> read == Failure(NotFound(ListNotFound))
  {
    deleted := ListRoutes.DeleteList(db, requester, listId);
    read := TaskRoutes.GetTasksOfList(db, requester, listId);
  }

  /** Completing a task stamps it; un-completing it right after clears the stamp. */
  method CompleteThenReopen(db: Store, requester: Id, id: Id, t1: Timestamp, t2: Timestamp)
    returns (completed: Result<Task, Error>, reopened: Result<Task, Error>)
    requires db.Valid()
    modifies db
    ensures completed.Success? ==> completed.value.completed && completed.value.completedAt == Some(t1)
    ensures completed.Success? ==> reopened.Success? && !reopened.value.completed && reopened.value.completedAt == None
  {
    completed := TaskRoutes.UpdateTask(db, requester, id, TaskPatch(None, None, None, None, Some(true)), t1);
    reopened := TaskRoutes.UpdateTask(db, requester, id, TaskPatch(None, None, None, None, Some(false)), t2);
  }
}
