/** The request lifecycle of the two endpoints: the handler runs against the
    table and a domain error it reports is turned into a structured body by
    the error mapper. A trace of requests is served one after another. */
module Service {
  import opened Errors
  import opened UserStore

  datatype Request =
    | RegisterRequest(user: User)
    | GetUserRequest(username: string)

  /** What an endpoint returns, or what the exception handler for the error
      it reports builds: the acknowledgement of a registration, a stored
      record, or a mapped error body. */
  datatype Response =
    | Acknowledged(message: string)
    | Record(user: User)
    | Failure(body: ErrorResponse)

  /** One request against a table value: its response and the table after it. */
  function Handle(db: map<string, User>, req: Request): (r: (Response, map<string, User>))
    ensures r.0.Failure? <==>
              (if req.RegisterRequest? then req.user.username in db else req.username !in db)
    ensures r.0.Failure? ==> r.1 == db
    ensures req.GetUserRequest? ==> r.1 == db
    ensures r.0.Failure? ==>
              r.0.body == MapError(if req.RegisterRequest? then InvalidUserData(AlreadyExists)
                                   else UserNotFound(req.username))
    ensures req.RegisterRequest? && !r.0.Failure? ==> r.0 == Acknowledged(RegisteredMessage)
    ensures req.RegisterRequest? && !r.0.Failure? ==> r.1 == db[req.user.username := req.user]
    ensures req.GetUserRequest? && !r.0.Failure? ==> r.0 == Record(db[req.username])
  {
    match req
    case RegisterRequest(user) =>
      var (out, db') := RegisterIn(db, user);
      (match out
       case Ok(m) => Acknowledged(m)
       case Err(e) => Failure(MapError(e)), db')
    case GetUserRequest(name) =>
      (match LookupIn(db, name)
       case Ok(u) => Record(u)
       case Err(e) => Failure(MapError(e)), db)
  }

  /** The responses to a trace of requests served in order, and the table
      after the last one. */
  function Run(db: map<string, User>, reqs: seq<Request>): (r: (seq<Response>, map<string, User>))
    ensures |r.0| == |reqs|
    decreases |reqs|
  {
    if reqs == [] then ([], db)
    else
      var (resp, db') := Handle(db, reqs[0]);
      var (rest, db'') := Run(db', reqs[1..]);
      ([resp] + rest, db'')
  }

  /** The i-th response of a trace is what the i-th request gets from the
      table left by the requests before it. */
  lemma {:induction false} RunAt(db: map<string, User>, reqs: seq<Request>, i: nat)
    requires i < |reqs|
    ensures Run(db, reqs).0[i] == Handle(Run(db, reqs[..i]).1, reqs[i]).0
    decreases |reqs|
  {
    if i == 0 {
      assert reqs[..0] == [];
    } else {
      var db' := Handle(db, reqs[0]).1;
      RunAt(db', reqs[1..], i - 1);
      assert reqs[1..][..i - 1] == reqs[..i][1..];
    }
  }

  /** Serving any trace keeps the table invariant. */
  lemma {:induction false} RunKeepsKeysMatch(db: map<string, User>, reqs: seq<Request>)
    requires KeysMatch(db)
    ensures KeysMatch(Run(db, reqs).1)
    decreases |reqs|
  {
    if reqs != [] {
      var db' := Handle(db, reqs[0]).1;
      if reqs[0].RegisterRequest? {
        RegisterKeepsKeysMatch(db, reqs[0].user);
      }
      RunKeepsKeysMatch(db', reqs[1..]);
    }
  }

  /** Records are never updated or deleted: after any trace every username
      that was registered is still there with the same record. */
  lemma {:induction false} RunOnlyAdds(db: map<string, User>, reqs: seq<Request>, k: string)
    requires k in db
    ensures k in Run(db, reqs).1 && Run(db, reqs).1[k] == db[k]
    decreases |reqs|
  {
    if reqs != [] {
      RunOnlyAdds(Handle(db, reqs[0]).1, reqs[1..], k);
    }
  }

  /** Each request registers at most one username, so the table grows by at
      most the length of the trace. */
  lemma {:induction false} RunGrowth(db: map<string, User>, reqs: seq<Request>)
    ensures db.Keys <= Run(db, reqs).1.Keys
    ensures |Run(db, reqs).1| <= |db| + |reqs|
    decreases |reqs|
  {
    if reqs != [] {
      var db' := Handle(db, reqs[0]).1;
      assert db'.Keys <= db.Keys + {if reqs[0].RegisterRequest? then reqs[0].user.username else ""};
      assert |db'| <= |db| + 1 by {
        if db' != db {
          assert db'.Keys == db.Keys + {reqs[0].user.username};
        }
      }
      RunGrowth(db', reqs[1..]);
    }
  }

  /** The four-request session: register alice, read her back, register her
      again, look up an unknown bob. */
  lemma Session()
    ensures
      var alice := User("alice", "a@x.com");
      var reqs := [RegisterRequest(alice), GetUserRequest("alice"),
                   RegisterRequest(User("alice", "other@x.com")), GetUserRequest("bob")];
      Run(map[], reqs).0 ==
        [Acknowledged("User registered successfully."),
         Record(alice),
         Failure(ErrorResponse(400, "User already exists.", "INVALID_USER_DATA")),
         Failure(ErrorResponse(404, "User with ID bob not found.", "USER_NOT_FOUND"))]
  {
    var alice := User("alice", "a@x.com");
    var again := RegisterRequest(User("alice", "other@x.com"));
    var bob := GetUserRequest("bob");
    var db := map["alice" := alice];
    assert Handle(map[], RegisterRequest(alice)) ==
           (Acknowledged("User registered successfully."), db);
    assert Handle(db, GetUserRequest("alice")) == (Record(alice), db);
    assert Handle(db, again) ==
           (Failure(ErrorResponse(400, "User already exists.", "INVALID_USER_DATA")), db);
    assert NotFoundMessage("bob") == "User with ID bob not found.";
    assert Handle(db, bob) ==
           (Failure(ErrorResponse(404, "User with ID bob not found.", "USER_NOT_FOUND")), db);
    assert Run(db, [bob]).0 == [Handle(db, bob).0];
    assert Run(db, [again, bob]).0 == [Handle(db, again).0] + Run(db, [bob]).0;
    assert Run(db, [GetUserRequest("alice"), again, bob]).0 ==
           [Handle(db, GetUserRequest("alice")).0] + Run(db, [again, bob]).0;
  }

  /** A request served by the store object: the handler's method runs and a
      reported error goes through the mapper. */
  method Serve(s: Store, req: Request) returns (resp: Response)
    requires s.Valid()
    modifies s
    ensures s.Valid()
    ensures (resp, s.db) == Handle(old(s.db), req)
  {
    match req
    case RegisterRequest(user) =>
      var out := s.Register(user);
      match out {
        case Ok(m) => resp := Acknowledged(m);
        case Err(e) => resp := Failure(MapError(e));
      }
    case GetUserRequest(name) =>
      var out := s.GetUser(name);
      match out {
        case Ok(u) => resp := Record(u);
        case Err(e) => resp := Failure(MapError(e));
      }
  }
}
