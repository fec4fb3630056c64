# User registration service — Dafny model

A model of a small HTTP service with two endpoints. `POST /register/`
inserts a user record (username, email) into an in-process table keyed by
username. It rejects a username that is already present with an
"invalid user data" error. `GET /user/{username}` returns the stored record,
or a "user not found" error carrying the requested username. Two exception
handlers translate the two domain errors into a structured body
`(status_code, message, error_code)`.

Modules:

- `Errors` (`errors.dfy`): the `User` record, the `DomainError` kinds, the
  `ErrorResponse` body, a `Result` type that replaces raised exceptions, and
  `MapError`, the two exception handlers as one total function.
- `UserStore` (`store.dfy`): the table invariant `KeysMatch`, the operations
  on a table value (`RegisterIn`, `LookupIn`) with their lemmas, and the
  class `Store` whose field `db` is the table. Its methods `Register` and
  `GetUser` are the two endpoint handlers.
- `Service` (`service.dfy`): the request lifecycle. A handler runs, and a
  domain error it reports is mapped by `MapError` (`Handle`, and `Serve` on a
  `Store` object). `Run` serves a trace of requests in order, with lemmas
  about every trace.

Errors are returned as `Result` values instead of being raised. The handler
for a request is chosen by the `Request` constructor instead of a route.

## Model

| member | source | states |
|---|---|---|
| `Errors.NotFoundMessage` | main.py:30 | the not-found message is the prefix "User with ID ", then exactly the username, then " not found." |
| `Errors.MapError` | main.py:26-40 | status 404 and code USER_NOT_FOUND exactly for a not-found error; status 400 and code INVALID_USER_DATA exactly for invalid data; the invalid-data message passes through unchanged; the not-found message embeds the username |
| `Errors.MapErrorTable` | main.py:27-40 | both rows of the mapping table written out with their literal constants |
| `Errors.MapErrorInjective` | main.py:26-40 | distinct domain errors give distinct error bodies, so the body determines the error kind and its data |
| `UserStore.RegisterIn` | main.py:52-57 | a duplicate username fails with InvalidUserData("User already exists.") and leaves the table unchanged; otherwise it succeeds with "User registered successfully.", the key set grows by exactly that username, the new key holds the record and every other entry is unchanged |
| `UserStore.LookupIn` | main.py:61-65 | succeeds exactly when the username is present and then returns the stored record; otherwise fails with UserNotFound of exactly that username; under the table invariant the returned record has the requested username |
| `UserStore.RegisterKeepsKeysMatch` | main.py:56 | registration preserves the invariant that every key is the username of its record |
| `UserStore.RegisterThenLookup` | main.py:52-65 | a fresh registration succeeds and a lookup afterwards returns exactly the registered record |
| `UserStore.RegisterLeavesOthers` | main.py:56 | registration does not change the lookup result of any other username |
| `UserStore.Store.constructor` | main.py:48 | the table starts empty and satisfies its invariant |
| `UserStore.Store.Register` | main.py:52-57 | the table object is updated as `RegisterIn` describes: a duplicate leaves `db` unchanged with the already-exists error; otherwise `db` gains the one entry; the invariant is kept |
| `UserStore.Store.GetUser` | main.py:61-65 | returns the stored record or UserNotFound of the requested username, without changing the table |
| `UserStore.GetUserTwice` | main.py:61-65 | two lookups in a row on the same store return the same result |
| `Service.Handle` | main.py:26-65 | a request fails exactly when its username is a duplicate (register) or absent (lookup), and then its body is the mapped already-exists or not-found error; otherwise it gets the acknowledgement or the stored record, and a successful registration adds exactly its record under its username; a failing request and every lookup leave the table unchanged |
| `Service.Run` | main.py:51-65 | a trace of requests yields one response per request |
| `Service.RunAt` | main.py:51-65 | response i of any trace is the response request i gets on the table left by the requests before it |
| `Service.RunKeepsKeysMatch` | main.py:56 | the table invariant holds after any trace of requests |
| `Service.RunOnlyAdds` | main.py:53-56 | records are never updated or deleted: after any trace each registered username still maps to the same record |
| `Service.RunGrowth` | main.py:53-56 | a trace never removes a key and adds at most one key per request |
| `Service.Session` | main.py:26-65 | register alice, read her back, register alice again, look up bob: acknowledgement, alice's record, (400, "User already exists.", INVALID_USER_DATA), (404, "User with ID bob not found.", USER_NOT_FOUND) |
| `Service.Serve` | main.py:26-65 | serving a request on a `Store` object gives the response and new table that `Handle` describes, and keeps the invariant |

## Left out

- Web framework routing, the decorators and the application object: the handler for a request is chosen by the `Request` constructor.
- Request-body validation of `User` and `ErrorResponseModel` by the schema layer: they are plain datatypes, and malformed or mistyped bodies are not modelled.
- The timing middleware that sets `X-ErrorHandleTime`: it measures wall-clock time in floating-point seconds and mutates a framework response header.
- What the framework does with the `ErrorResponseModel` an exception handler returns, for the body as well as the transport status: the handlers only build that object and nothing in the code sends it or sets a status, so the model gives only the built body, including its `status_code` field.
- Asynchronous execution and the race between the membership check and the insert: `Register` is one atomic sequential step.
- The integer annotation on the not-found error's id: a username string is always passed, so the model carries a `string`.
- Errors outside the two domain kinds, which the framework handles by default: the model has no other error kind.
- Launching the application under an ASGI server.
