/** The three tables (users, lists, tasks), the request bodies the handlers
    read, and the error kinds they answer with. */
module Schema {
  import opened Wrappers
  import Crypto

  /** SERIAL primary keys. */
  type Id = nat
  /** CURRENT_TIMESTAMP values, passed in by the caller. */
  type Timestamp = int
  /** DATE values (a due date), as a day number. */
  type Date = int

  datatype User = User(id: Id, username: string, email: string, passwordHash: Crypto.PasswordHash)

  /** A user row as the handlers return it: the password hash is never part of it. */
  datatype PublicUser = PublicUser(id: Id, username: string, email: string)

  datatype TaskList = TaskList(
    id: Id,
    userId: Id,
    title: string,
    description: Option<string>,
    color: Option<string>,
    createdAt: Timestamp)

  datatype Task = Task(
    id: Id,
    listId: Id,
    title: string,
    description: Option<string>,
    priority: int,
    dueDate: Option<Date>,
    completed: bool,
    completedAt: Option<Timestamp>,
    createdAt: Timestamp)

  /** Body of POST /tasks. An absent field is None. */
  datatype NewTaskBody = NewTaskBody(
    listId: Id,
    title: string,
    description: Option<string>,
    priority: Option<int>,
    dueDate: Option<Date>)

  /** Body of PUT /tasks/:id: any subset of the five updatable fields. */
  datatype TaskPatch = TaskPatch(
    title: Option<string>,
    description: Option<string>,
    priority: Option<int>,
    dueDate: Option<Date>,
    completed: Option<bool>)

  /** Body of POST /lists and of PUT /lists/:id. */
  datatype ListBody = ListBody(title: string, description: Option<string>, color: Option<string>)

  /** The error kinds a handler can answer with (store failures are not modelled). */
  datatype Error =
    | NotFound(message: string)       // 404
    | Conflict(message: string)       // 400
    | Unauthorized(message: string)   // 401

  function Status(e: Error): (code: int)
    ensures code == 404 <==> e.NotFound?
    ensures code == 400 <==> e.Conflict?
    ensures code == 401 <==> e.Unauthorized?
  {
    match e
    case NotFound(_) => 404
    case Conflict(_) => 400
    case Unauthorized(_) => 401
  }

  const ListNotFound: string := "Lista não encontrada"
  const TaskNotFound: string := "Tarefa não encontrada"
  const UserExists: string := "Usuário ou email já existe"
  const InvalidCredentials: string := "Email ou senha inválidos"
  const TaskDeleted: string := "Tarefa deletada com sucesso"
  const ListDeleted: string := "Lista deletada com sucesso"
  const DefaultColor: string := "#4A90E2"
}
