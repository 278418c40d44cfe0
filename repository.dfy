/**
 * The two repositories the use case consumes (internal/repository/
 * interfaces.go), with the behaviour of their MySQL and Redis
 * implementations reduced to maps: the `users` table, whose `email` column
 * is UNIQUE, and the session cache, keyed by user id.
 */
module Repository {
  import opened Wrappers

  /** `domain.User`: the stored credential. Times are whole seconds. */
  datatype User = User(email: string, password: string, createdAt: int, updatedAt: int)

  /** The error the MySQL driver reports when an INSERT would repeat an email. */
  function DuplicateEntry(email: string): (message: string)
  {
    "Error 1062 (23000): Duplicate entry '" + email + "' for key 'users.email'"
  }

  /** The table is keyed by its UNIQUE email column. */
  ghost predicate KeyedByEmail(users: map<string, User>)
  {
    forall e :: e in users ==> users[e].email == e
  }

  datatype CreateResult = CreateResult(err: Option<string>, users: map<string, User>)

  /** The INSERT behind `Create`: a new row for a new email; for an email
      already present, the driver's duplicate-entry error and no change. */
  function InsertUser(users: map<string, User>, user: User): (r: CreateResult)
    ensures r.err == None <==> user.email !in users
    ensures r.err != None ==> r.err == Some(DuplicateEntry(user.email)) && r.users == users
    ensures r.err == None ==> r.users.Keys == users.Keys + {user.email} && r.users[user.email] == user
    ensures forall e :: e in users ==> e in r.users && r.users[e] == users[e]
    ensures KeyedByEmail(users) ==> KeyedByEmail(r.users)
  {
    if user.email in users then CreateResult(Some(DuplicateEntry(user.email)), users)
    else CreateResult(None, users[user.email := user])
  }

  /** The user table behind the `UserRepository` interface. */
  class UserStore {
    var users: map<string, User>

    ghost predicate Valid()
      reads this
    {
      KeyedByEmail(users)
    }

    constructor ()
      ensures Valid() && users == map[]
    {
      users := map[];
    }

    /** `Create`: inserts the user, or fails on a repeated email. */
    method Create(user: User) returns (err: Option<string>)
      requires Valid()
      modifies this
      ensures Valid()
      ensures CreateResult(err, users) == InsertUser(old(users), user)
    {
      var r := InsertUser(users, user);
      err, users := r.err, r.users;
    }

    /** `GetByEmail`: the stored user with this email, or "user not found". */
    method GetByEmail(email: string) returns (r: Result<User, string>)
      requires Valid()
      ensures r.Ok? <==> email in users
      ensures r.Ok? ==> r.value == users[email] && r.value.email == email
      ensures r.Err? ==> r.error == "user not found"
    {
      if email in users {
        r := Ok(users[email]);
      } else {
        r := Err("user not found");
      }
    }
  }

  /** A cached session: the token and its time to live in seconds. */
  datatype Session = Session(token: string, ttl: int)

  /** Why the cache refuses a request. */
  datatype CacheError =
    | Unreachable  // the cache server did not take the request
    | KeyMissing   // no entry under the key (`redis.Nil`)

  datatype SetResult = SetResult(err: Option<CacheError>, sessions: map<string, Session>)

  /** The SET behind `SetUserSession`: when the server is reachable, the
      entry for `userId` becomes this token and TTL; otherwise nothing
      changes and the write reports an error. */
  function StoreSession(sessions: map<string, Session>, available: bool, userId: string, token: string, ttl: int)
    : (r: SetResult)
    ensures r.err == None <==> available
    ensures available ==> userId in r.sessions && r.sessions[userId] == Session(token, ttl)
    ensures forall k :: k != userId ==> (k in r.sessions <==> k in sessions)
    ensures forall k :: k != userId && k in sessions ==> r.sessions[k] == sessions[k]
    ensures !available ==> r.sessions == sessions
  {
    if available then SetResult(None, sessions[userId := Session(token, ttl)])
    else SetResult(Some(Unreachable), sessions)
  }

  /** The session cache behind the `CacheRepository` interface. */
  class SessionCache {
    var sessions: map<string, Session>
    /** Whether the cache server takes requests. */
    var available: bool

    constructor (available: bool)
      ensures this.sessions == map[] && this.available == available
    {
      this.sessions := map[];
      this.available := available;
    }

    /** `SetUserSession` */
    method SetUserSession(userId: string, token: string, ttl: int) returns (err: Option<CacheError>)
      modifies this`sessions
      ensures SetResult(err, sessions) == StoreSession(old(sessions), available, userId, token, ttl)
    {
      var r := StoreSession(sessions, available, userId, token, ttl);
      err, sessions := r.err, r.sessions;
    }

    /** `GetSession`: the token cached for `userId`. */
    method GetSession(userId: string) returns (r: Result<string, CacheError>)
      ensures r.Ok? <==> available && userId in sessions
      ensures r.Ok? ==> r.value == sessions[userId].token
      ensures r.Err? ==> r.error == (if available then KeyMissing else Unreachable)
    {
      if !available {
        r := Err(Unreachable);
      } else if userId in sessions {
        r := Ok(sessions[userId].token);
      } else {
        r := Err(KeyMissing);
      }
    }
  }
}
