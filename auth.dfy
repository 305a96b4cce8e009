/** POST /auth/register and POST /auth/login. Both answer with the user
    without its password hash and with the claims of a session token. */
module AuthRoutes {
  import opened Wrappers
  import opened Schema
  import opened Database
  import opened Crypto

  datatype AuthResponse = AuthResponse(user: PublicUser, token: Claims)

  /** SELECT id FROM users WHERE email = $1 OR username = $2 finds a row. */
  predicate Taken(users: map<Id, User>, username: string, email: string)
    ensures Taken(users, username, email) <==>
              (exists k | k in users :: users[k].email == email) ||
              (exists k | k in users :: users[k].username == username)
  {
    exists k | k in users :: users[k].email == email || users[k].username == username
  }

  /** The user row without its password hash (delete user.password_hash). */
  function StripHash(u: User): (p: PublicUser)
    ensures p.id == u.id && p.username == u.username && p.email == u.email
  {
    PublicUser(u.id, u.username, u.email)
  }

  /** The response: the user and the token claims { id, username, email } taken from it. */
  function Session(u: PublicUser): (s: AuthResponse)
    ensures s.user == u
    ensures s.token.id == u.id && s.token.username == u.username && s.token.email == u.email
  {
    AuthResponse(u, Claims(u.id, u.username, u.email))
  }

  /** A fresh user never clashes with the users already there, so the store
      keeps unique emails and usernames. */
  lemma InsertKeepsCredentialsUnique(users: map<Id, User>, next: Id, u: User)
    requires UsersKeyed(users, next) && UniqueCredentials(users)
    requires u.id == next && !Taken(users, u.username, u.email)
    ensures UsersKeyed(users[next := u], next + 1) && UniqueCredentials(users[next := u])
  {
  }

  /** Only one user can carry a given email. */
  lemma EmailIdentifiesUser(users: map<Id, User>, a: Id, b: Id)
    requires UniqueCredentials(users)
    requires a in users && b in users && users[a].email == users[b].email
    ensures a == b
  {
  }

  /** POST /auth/register. The salt stands for bcrypt's random salt. */
  method Register(db: Store, username: string, email: string, password: string, salt: Salt)
    returns (r: Result<AuthResponse, Error>)
    requires db.Valid()
    modifies db
    ensures db.Valid()
    ensures db.lists == old(db.lists) && db.tasks == old(db.tasks)
    ensures db.nextListId == old(db.nextListId) && db.nextTaskId == old(db.nextTaskId)
    ensures Taken(old(db.users), username, email) ==>
              r == Failure(Conflict(UserExists)) &&
              db.users == old(db.users) && db.nextUserId == old(db.nextUserId)
    ensures !Taken(old(db.users), username, email) ==>
              var id := old(db.nextUserId);
              && id !in old(db.users)
              && db.users == old(db.users)[id := User(id, username, email, Hash(password, salt))]
              && db.nextUserId == id + 1
              && r == Success(Session(PublicUser(id, username, email)))
  {
    if Taken(db.users, username, email) {
      return Failure(Conflict(UserExists));
    }
    var hashed := Hash(password, salt);
    var user := User(db.nextUserId, username, email, hashed);
    InsertKeepsCredentialsUnique(db.users, db.nextUserId, user);
    db.users := db.users[db.nextUserId := user];
    db.nextUserId := db.nextUserId + 1;
    r := Success(Session(StripHash(user)));
  }

  /** POST /auth/login. An unknown email and a wrong password give the same
      answer. Login only reads the store. */
  method Login(db: Store, email: string, password: string) returns (r: Result<AuthResponse, Error>)
    requires db.Valid()
    ensures r.Success? <==>
              exists k | k in db.users :: db.users[k].email == email && Verify(password, db.users[k].passwordHash)
    ensures r.Failure? ==> r.error == Unauthorized(InvalidCredentials)
    ensures r.Success? ==>
              forall k | k in db.users && db.users[k].email == email ::
                r.value.user == PublicUser(k, db.users[k].username, email) &&
                r.value.token == Claims(k, db.users[k].username, email)
  {
    if !exists k | k in db.users :: db.users[k].email == email {
      return Failure(Unauthorized(InvalidCredentials));
    }
    var k :| k in db.users && db.users[k].email == email;
    var user := db.users[k];
    if !Verify(password, user.passwordHash) {
      forall j | j in db.users && db.users[j].email == email ensures j == k {
        EmailIdentifiesUser(db.users, j, k);
      }
      return Failure(Unauthorized(InvalidCredentials));
    }
    forall j | j in db.users && db.users[j].email == email ensures j == k {
      EmailIdentifiesUser(db.users, j, k);
    }
    r := Success(Session(StripHash(user)));
  }
}
