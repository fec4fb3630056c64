/** The in-memory user table and its two handlers: registration is an
    insert-if-absent, lookup a read that fails on a missing key. */
module UserStore {
  import opened Errors

  const AlreadyExists := "User already exists."
  const RegisteredMessage := "User registered successfully."

  /** The table invariant: every key is the username of the record under it. */
  ghost predicate KeysMatch(db: map<string, User>) {
    forall k :: k in db ==> db[k].username == k
  }

  /** Registration on a table value: the outcome and the table afterwards. */
  function RegisterIn(db: map<string, User>, user: User): (r: (Result<string>, map<string, User>))
    ensures user.username in db ==>
              r.0 == Err(InvalidUserData(AlreadyExists)) && r.1 == db
    ensures user.username !in db ==>
              && r.0 == Ok(RegisteredMessage)
              && r.1.Keys == db.Keys + {user.username}
              && r.1[user.username] == user
              && (forall k :: k in db ==> r.1[k] == db[k])
  {
    if user.username in db then
      (Err(InvalidUserData(AlreadyExists)), db)
    else
      (Ok(RegisteredMessage), db[user.username := user])
  }

  /** Lookup on a table value. */
  function LookupIn(db: map<string, User>, username: string): (r: Result<User>)
    ensures r.Ok? <==> username in db
    ensures r.Ok? ==> r.value == db[username]
    ensures r.Err? ==> r.error == UserNotFound(username)
    ensures KeysMatch(db) && r.Ok? ==> r.value.username == username
  {
    if username !in db then Err(UserNotFound(username)) else Ok(db[username])
  }

  /** Registration keeps the table invariant. */
  lemma RegisterKeepsKeysMatch(db: map<string, User>, user: User)
    requires KeysMatch(db)
    ensures KeysMatch(RegisterIn(db, user).1)
  {
  }

  /** Round trip: a fresh registration succeeds and a lookup afterwards
      returns exactly the registered record. */
  lemma RegisterThenLookup(db: map<string, User>, user: User)
    requires user.username !in db
    ensures RegisterIn(db, user).0 == Ok(RegisteredMessage)
    ensures LookupIn(RegisterIn(db, user).1, user.username) == Ok(user)
  {
  }

  /** Registration does not change what a lookup of any other username sees. */
  lemma RegisterLeavesOthers(db: map<string, User>, user: User, other: string)
    requires other != user.username
    ensures LookupIn(RegisterIn(db, user).1, other) == LookupIn(db, other)
  {
  }

  /** The process-wide table, with the handlers as methods. */
  class Store {
    var db: map<string, User>

    ghost predicate Valid()
      reads this
    {
      KeysMatch(db)
    }

    constructor ()
      ensures Valid() && db == map[]
    {
      db := map[];
    }

    /** Rejects a username already present, otherwise inserts the record. */
    method Register(user: User) returns (r: Result<string>)
      requires Valid()
      modifies this
      ensures Valid()
      ensures old(user.username in db) ==>
                r == Err(InvalidUserData(AlreadyExists)) && db == old(db)
      ensures old(user.username !in db) ==>
                r == Ok(RegisteredMessage) && db == old(db)[user.username := user]
      ensures (r, db) == RegisterIn(old(db), user)
    {
      if user.username in db {
        r := Err(InvalidUserData(AlreadyExists));
        return;
      }
      db := db[user.username := user];
      r := Ok(RegisteredMessage);
    }

    /** Fails with the requested username when it is absent, otherwise
        returns the stored record; the table is not changed. */
    method GetUser(username: string) returns (r: Result<User>)
      ensures Valid() && r.Ok? ==> r.value.username == username
      ensures r == LookupIn(db, username)
    {
      if username !in db {
        r := Err(UserNotFound(username));
        return;
      }
      r := Ok(db[username]);
    }
  }

  /** Reads are idempotent: two lookups in a row give the same result. */
  method GetUserTwice(s: Store, username: string) returns (a: Result<User>, b: Result<User>)
    ensures a == b
    ensures a == LookupIn(s.db, username)
  {
    a := s.GetUser(username);
    b := s.GetUser(username);
  }
}
