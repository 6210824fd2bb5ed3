# Sessions, registration and the Redis client wrapper of a small file-manager backend

This project models, in Dafny, the three parts of the backend that have sequential
behaviour of their own:

- **The Redis client wrapper** (`utils/redis.js`, module `Redis`). A class with the
  connection flag that the `error` and `connect` events overwrite, and `get`,
  `set` (SETEX: a value with an expiry in seconds) and `del`. The Redis server behind
  the client is a `map` from key to an `Entry` (value, absolute expiry second) plus the
  server clock `now`. A key can be read while `now` is before its expiry. The proofs use
  a ghost history of connection events. Beside the class, pure functions (`Lookup`,
  `SetEx`, `Delete`, `Apply`, `Run` over a sequence of commands) give the meaning of
  each operation. The lemmas are stated about those functions.
- **Session issue and revoke** (`controllers/AuthController.js`, module `Auth`).
  `getConnect` writes `auth_<token>` → the user's id for 86400 seconds and answers 200
  with the token. `getDisconnect` deletes `auth_<x-token>` without any check and
  answers 204. The token is a parameter. A request without the `x-token` header deletes
  the key `auth_undefined`, because that is what the template literal makes of a missing
  header.
- **Registration and the current-user view** (`controllers/UsersController.js`, module
  `Users`). `postNew` checks the email, then the password, then whether the email is
  taken. Only then does it insert `{email, sha1(password)}` and add `{userId}` to the
  `email sending` queue. The collection is a sequence of documents, and the queue handle
  records the sequence of jobs submitted through it. `sha1` is a function parameter that is never interpreted. The id the
  store assigns is also a parameter. `getMe` projects the request's user to
  `{email, id}`. The function `Register` specifies `PostNew`, and the lemmas are stated
  about `Register`.

Handlers other than `getMe` are methods that change the client, or the collection and the
submitted jobs, in place; `getMe` is a function.
Responses are `Response(status, body)` values. Each request is one atomic step.

## Model

| member | source | states |
|---|---|---|
| `Redis.RedisClient.constructor` | utils/redis.js:11-23 | a new client reports itself connected, with no event seen yet; the server keeps what it held |
| `Redis.RedisClient.OnError` | utils/redis.js:15-18 | the error handler sets the flag to false and records the event; the keys and the clock do not change |
| `Redis.RedisClient.OnConnect` | utils/redis.js:20-22 | the connect handler sets the flag to true whatever it was before; the keys and the clock do not change |
| `Redis.RedisClient.IsAlive` | utils/redis.js:29-31 | the flag equals the liveness that the history of events determines |
| `Redis.LivenessIffRecovered` | utils/redis.js:13-22 | the flag is true exactly when every error in the history was followed by a later connect (both directions) |
| `Redis.ErrorHoldsUntilConnect` | utils/redis.js:15-22 | after an error the flag stays false through any further events that include no connect |
| `Redis.RedisClient.Get` | utils/redis.js:33-40 | returns the stored value when the key exists and has not expired, and null otherwise; it changes nothing, the flag included |
| `Redis.RedisClient.Set` | utils/redis.js:42-51 | SETEX succeeds exactly when the duration is a positive integer that fits in 64 bits; then the key holds the value until `duration` seconds from now; otherwise nothing changes; only the key map can change |
| `Redis.RedisClient.Del` | utils/redis.js:53-60 | the key is removed and all other keys are unchanged; only the key map can change |
| `Redis.RedisClient.Advance` | utils/redis.js:42-51 | the server clock, against which expiries are measured, moves forward by the elapsed seconds and nothing else changes |
| `Redis.SetExThenLookup` | utils/redis.js:42-51 | after SETEX the key reads back as the value for `duration` seconds and as null afterwards; every other key reads as before |
| `Redis.DeleteThenLookup` | utils/redis.js:53-60 | after DEL the key reads as null at every instant; other keys read as before; deleting an absent key or deleting twice changes nothing |
| `Redis.UntouchedKeyKeepsEntry` | utils/redis.js:38-60 | over any sequence of commands and waits that does not write a key, that key's entry stays the same and the clock never goes back |
| `Redis.ExpiredStaysGone` | utils/redis.js:33-51 | a key that cannot be read now stays unreadable until some command writes it again |
| `Auth.SessionKeyInjective` | controllers/AuthController.js:15 | two tokens give the same session key exactly when they are the same token |
| `Auth.GetConnect` | controllers/AuthController.js:11-17 | the store changes only by writing `auth_<token>` with the user's id and the 86400-second lifetime; the response is 200 with the same token |
| `Auth.GetDisconnect` | controllers/AuthController.js:25-30 | the store changes only by deleting `auth_<header>` (`auth_undefined` when the header is missing); the response is always 204 with an empty body |
| `Auth.ConnectThenResolve` | controllers/AuthController.js:13-16 | right after connect the token's session key yields the user's id for 86400 seconds, and null from then on |
| `Auth.ConnectWritesOnlyItsKey` | controllers/AuthController.js:15 | connect adds exactly the one session key and leaves every other entry as it was |
| `Auth.DisconnectRevokes` | controllers/AuthController.js:28-29 | after disconnect the token resolves to nothing at any instant, and a second disconnect leaves the store the same |
| `Auth.SessionsIndependent` | controllers/AuthController.js:15-28 | two sessions with distinct tokens both resolve to their own users; logging out one leaves the other readable for its whole lifetime |
| `Auth.SessionLastsExactlyTtl` | controllers/AuthController.js:15 | after connect, whatever other traffic the server handles that does not write this key, the token resolves to the user's id before 86400 seconds have passed and never afterwards |
| `Auth.LoginLogoutRound` | controllers/AuthController.js:11-29 | on a client, a login followed by a lookup gives the user's id; after logout the lookup gives null; both logouts answer 204 |
| `Users.Register` | controllers/UsersController.js:17-43 | the collection and the submitted jobs only ever grow at their ends, and in step: both by one document and one job, or neither |
| `Users.RegisterOutcome` | controllers/UsersController.js:17-43 | each of the four answers fires exactly under its condition (email first, then password, then duplicate); errors change neither collection nor queue; success appends exactly one document with the email and the password's hash, and exactly one job naming the new id, and answers 201 with the email and that id |
| `Users.RegisterLeavesOneUserWithEmail` | controllers/UsersController.js:31-38 | after a successful registration exactly one document holds the registered email |
| `Users.RegisterPreservesInvariants` | controllers/UsersController.js:31-41 | one registration, whatever its outcome, keeps emails unique and keeps exactly one job per user, paired in order |
| `Users.RegisterAllPreservesInvariants` | controllers/UsersController.js:17-43 | any sequence of atomic registrations keeps emails unique and exactly one welcome job per user |
| `Users.GetMe` | controllers/UsersController.js:51-56 | 200 with the request user's email and id string; a function, so it changes no state |
| `Users.ProfileMatchesRegistration` | controllers/UsersController.js:51-56 | the getMe view of the user just registered is 200 with the same email and id that the registration answered, and that id is the one in the enqueued job |
| `Users.UsersCollection.FindOne` | controllers/UsersController.js:31 | finds a document exactly when one with that email exists, and what it finds has that email |
| `Users.UsersCollection.InsertOne` | controllers/UsersController.js:37-39 | appends exactly the one document and returns the id it was stored under |
| `Users.JobQueue.constructor` | controllers/UsersController.js:5 | a new queue carries its name and no jobs |
| `Users.JobQueue.Add` | controllers/UsersController.js:41 | appends exactly the one job |
| `Users.PostNew` | controllers/UsersController.js:17-44 | the response, the collection and the submitted jobs after the request are those that `Register` gives for the state before it |

## Left out

- `utils/db.js` (the MongoDB wrapper) is not part of this model. The users collection is modelled abstractly. `utils/db.js` defines no `usersCollection` method, although the registration handler calls one (controllers/UsersController.js:31,37). The model assumes the collection the handler expects.
- `controllers/AppController.js` and `server.js` (status counts, Express wiring) are not part of this model.
- The middleware that fills `req.user` lives in files not shown and is not part of this model; `getConnect` and `getMe` take the user as a parameter.
- I/O and asynchrony are left out: logging (the error handler's `console.error`), the promise plumbing, Express response objects and the process-wide singleton clients. A rejected Redis command is modelled only where the command itself refuses its input (SETEX with a duration that is not a positive 64-bit integer).
- Redis.RedisClient.Get: a command sent while the connection is down is not modelled (the client's offline queue, connection errors). Every command behaves as if the server is reachable.
- Redis.RedisClient.Set: only string values are stored. The client's conversion of numbers and booleans to strings is not modelled. Expiry is counted in whole seconds, not milliseconds. The duration is an integer, so a fractional duration (which Redis refuses) cannot be expressed. Any further limit a Redis version places on the expiry once it is converted to milliseconds is not modelled: every positive duration up to 2^63 - 1 is accepted.
- Expired keys stay in the map and read as absent. Redis also removes them lazily or in the background, which cannot be observed through `get`.
- uuid randomness: the token is a parameter. The SHA-1 internals (FIPS 180-4): `sha1` is an uninterpreted function parameter, so "the stored password is never the plaintext" is stated as "the stored password is `sha1(password)`". The ObjectId that the store assigns is a parameter, assumed distinct from every stored id, as the driver guarantees; the model does not check it, and no proved property depends on it.
- Users.Body: JSON fields that are present but not strings (numbers, booleans, objects) are not modelled. Only missing, empty and non-empty strings are.
- The Bull queue's delivery and retry are left out. `add` is not awaited by the handler, so an enqueue failure would not change the response. The model always appends.
- Concurrency is left out: the check-then-insert race on duplicate emails, and any interleaving of requests. Each request is one atomic step.
- The code does not turn a store failure into a distinct "store unavailable" answer; a failed Redis or database call rejects the handler's promise. `getDisconnect` does not require the `x-token` header and deletes `auth_undefined` without it. None of the modelled handlers (`getConnect`, `getDisconnect`, `postNew`, `getMe`) consults `isAlive`.
