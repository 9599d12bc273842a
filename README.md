# Task tracker core: credential store, access tokens, access gate

A Dafny model of the logic inside a small FastAPI task tracker. Users register and log in. Each
user owns tasks and can create, read, update and delete them. The model covers five parts:

- **Credential and task store** (`db/crud.py`, `db/models.py`). The two tables are two sequences of
  records in the class `Crud.Store`. The queries are pure filter functions over those sequences.
  The writes are methods that replace the sequences.
  - `Models.ValidTables` is the store invariant: ids, usernames and e-mails are unique, and task ids
    are unique. Every write preserves it.
  - A commit that would break a UNIQUE column is a `Failure(IntegrityError)`, and the store is left
    unchanged. That is the rollback.
  - Task lookups filter on the pair (owner id, task id). A task's `owner_id` is nullable
    (`Option<int>`), because deleting a user sets it to NULL.
  - New ids follow SQLite's rule for an INTEGER PRIMARY KEY without AUTOINCREMENT: one more than the
    largest id present.
- **Password hashing** (module `Passwords`). bcrypt is a pair of uninterpreted functions,
  `hash(salt, password)` and `verify(password, hashed)`. The model assumes only what
  `Passwords.Correct` says: a password verifies against any hash made from it, and a hash never
  equals its plaintext. The random salt is a parameter.
- **Access tokens** (`auth/jwt_gen.py`, module `Jwt`).
  - `TokenClaims` builds the claim set: a copy of the caller's claims, with `exp` (section 4.1.4 of
    RFC 7519) added or overwritten. The default lifetime is 30 minutes, and a zero delta also falls
    back to it.
  - HS256 signing (section 3.2 of RFC 7518) is an abstract codec. The model assumes only what
    `Jwt.SoundCodec` says. Claims python-jose accepts (a string `sub` and `jti`, no `aud` or
    `at_hash`, integer `iat`, an integer `nbf` not in the future) decode to exactly what was issued,
    up to the expiry. Claims it refuses (an expired `exp`, a non-string `sub`, an `aud`, a future
    `nbf`) do not decode. No decoded payload carries a non-string `sub`.
  - Time is integer seconds, passed in as a parameter.
  - The signing key is the subset type `SecretKey` (non-empty). `LoadSecretKey` models the check
    done when the module loads.
- **Access gate** (`auth/user_auth.py`, `UserAuth.GetCurrentUser`). This is a pure decision. It
  takes the `access_token` cookie, the codec and the user table. It returns either the
  authenticated user or one of four distinct 401 rejections.
- **Request schemas** (`db/schemas.py`, module `Schemas`). These are validation functions from a
  request body (field name to string value) to the typed payload or the list of failing fields
  (422). It also holds the `UserResponse` projection, which has no field for the hash.
- **`script.py`**. `Rectangles.CountGoodRectangles` is the two-loop count of rectangles whose
  shorter side is the largest shorter side. It is proved against the specification function
  `GoodRectangles`.

Where the code and the intended design differ, the model follows the code:

- The gate reads the token from the `access_token` cookie only, never from an `Authorization`
  header.
- The gate gives four different 401 details ("Token not found", "Could not validate credentials",
  "Invalid token", "User not found"), not one uniform denial.
- A duplicate username or e-mail fails as a database IntegrityError at commit. There is no conflict
  check of its own in the store.
- `delete_user` does not delete the user's tasks and does not refuse. The ORM's default for the
  `tasks` relationship sets each of those tasks' `owner_id` to NULL before the user row goes
  (`Crud.DetachTasks`). The foreign key therefore still holds, and when SQLite reuses the id no
  old task belongs to the new user (`DeleteUserKeepsOwnersExist`, `DeletedIdOwnsNothing`). The
  detached tasks stay in the table, reachable by no one.
- The delete operations return nothing in both branches. A caller cannot tell "deleted" from
  "not found".

python-jose rejects a token whose `exp` lies in the past with no leeway, so the model accepts a
token while `now <= exp`.

## Model

| member | source | states |
|---|---|---|
| `Models.NextUserId` | db/models.py:37 | the id given to a new user is larger than every stored id, so the primary key stays unique |
| `Models.NextTaskId` | db/models.py:58 | the id given to a new task is larger than every stored task id |
| `Models.RemoveAtRemovesOnlyThatId` | db/crud.py:140-144 | with unique ids, removing the matched row drops exactly the user with that id and keeps every other user |
| `Crud.GetUserByUsername` | db/crud.py:40-51 | returns a stored user with that username, the first in table order; returns None exactly when no user has it |
| `Crud.GetUserById` | db/crud.py:53-64 | returns a stored user with that id; returns None exactly when no user has it |
| `Crud.UserIndexById` | db/crud.py:64 | the position of the first row whose id matches; None exactly when there is none |
| `Crud.AuthenticateUser` | db/crud.py:149-163 | a returned user is stored, has that username, and the password verifies against its hash; an unknown username gives None |
| `Crud.GetTasksByUser` | db/crud.py:182-192 | exactly the tasks whose owner_id is the given id (this is also the `User.tasks` relationship) |
| `Crud.OwnedTaskIndex` | db/crud.py:221 | the position of a task matching both the owner and the task id; None exactly when nothing matches both |
| `Crud.GetTaskById` | db/crud.py:194-205 | a returned task has both the given owner and the given id; None (the falsy `[]`) exactly when there is no such task |
| `Crud.Store.constructor` | db/models.py:66 | the freshly created tables are empty and valid |
| `Crud.Store.CreateUser` | db/crud.py:78-104 | stores `hash(salt, password)` with the given username and e-mail under the next id; a UNIQUE clash on username or e-mail fails and leaves the store exactly as before; the invariant is kept |
| `Crud.Store.UpdateUser` | db/crud.py:106-128 | on a known id, changes only username and e-mail of that user; on an unknown id, returns None and changes nothing; a UNIQUE clash fails and changes nothing |
| `Crud.Store.DeleteUser` | db/crud.py:130-147 | removes exactly the user with that id and sets the owner_id of that user's tasks to NULL, leaving every other task as it was; changes nothing when the id is absent; afterwards no task is owned by the deleted id; the invariant is kept |
| `Crud.Store.CreateTask` | db/crud.py:165-180 | appends a task with the next id, the given description and owner, and no name or status |
| `Crud.Store.UpdateTask` | db/crud.py:207-230 | sets name, description and status of the task matching owner and id, and nothing else; no match gives None and no change; tasks of other owners are never changed |
| `Crud.Store.DeleteTask` | db/crud.py:232-250 | removes only the task matching owner and id, or changes nothing; every task of another owner remains |
| `CrudProperties.SameUsernameSameUser` | db/models.py:38 | under the unique username index, a username identifies at most one stored user |
| `CrudProperties.SameIdSameUser` | db/models.py:37 | under the primary key, an id identifies at most one stored user |
| `CrudProperties.AuthenticateUserIff` | db/crud.py:160-163 | authentication succeeds if and only if some stored user has the username and the password verifies against its hash; an unknown user and a wrong password give the same None |
| `CrudProperties.CreatedUserRetrievable` | db/crud.py:93-100 | a user just stored is found both by its id and by its username |
| `CrudProperties.RegisteredUserAuthenticates` | db/crud.py:93-94 | after registration, logging in with the same password returns that user, and the stored credential differs from the plaintext |
| `CrudProperties.TasksByUserAfterCreate` | db/crud.py:176-192 | after a task is created, its owner's task list is the old list followed by the new task; other owners' lists do not change |
| `CrudProperties.ForeignTaskUnreachable` | db/crud.py:205 | a task owned by someone else is never returned to the caller |
| `CrudProperties.ForeignTaskIdNotFound` | db/crud.py:221-250 | with unique task ids, another owner's task id matches nothing for the caller, so get, update and delete all find nothing |
| `CrudProperties.CreateTaskKeepsOwnersExist` | db/models.py:62 | creating a task for an existing user keeps every non-NULL owner_id pointing at a user |
| `CrudProperties.DeleteUserKeepsOwnersExist` | db/models.py:42-64 | deleting a user, with its tasks' owner_id set to NULL, keeps every non-NULL owner_id pointing at a stored user |
| `CrudProperties.DeletedIdOwnsNothing` | db/crud.py:140-145 | after a delete the deleted id owns no task, so a user who later receives the same id sees none of the old tasks |
| `Passwords.GetPasswordHash` | auth/jwt_gen.py:34-43 | the hash differs from the password, and the password verifies against it |
| `Passwords.VerifyPassword` | auth/jwt_gen.py:22-32 | a password verifies against every hash made from it |
| `Schemas.ParseStatus` | db/schemas.py:23-31 | accepts exactly "in process" and "finished", and maps each back to its own string |
| `Schemas.StatusRoundTrip` | db/schemas.py:30-31 | every enumeration member parses back from its value |
| `Schemas.UserCreateErrors` | db/schemas.py:41-43 | names a field exactly when it is missing, or when the e-mail is refused by the validator, or when the password is shorter than 8 |
| `Schemas.ParseUserCreate` | db/schemas.py:33-43 | a registration body is accepted if and only if all three fields are present, the e-mail validates and the password has at least 8 characters; the accepted model keeps the normalised e-mail; otherwise it is a 422 naming exactly the failing fields |
| `Schemas.ParseUserCreateStable` | db/schemas.py:42 | with an idempotent e-mail normaliser, re-submitting an accepted registration yields the same model |
| `Schemas.TaskCreateErrors` | db/schemas.py:53-55 | names a field exactly when it is missing, the title is over 50, the description is over 500, or the status is not an enumeration value |
| `Schemas.ParseTaskCreate` | db/schemas.py:45-55 | a task body is accepted if and only if title is at most 50 characters, description at most 500 and status one of the two values; otherwise it is a 422 naming exactly the failing fields |
| `Schemas.ToUserResponse` | db/schemas.py:57-71 | the response holds the user's id, username and e-mail |
| `Schemas.UserResponseHidesHash` | db/schemas.py:69-71 | the response is the same whatever the stored hash is, so it never exposes it |
| `Jwt.LoadSecretKey` | auth/jwt_gen.py:12-14 | startup succeeds if and only if SECRET_KEY is set and non-empty, and then uses it as the key; otherwise it fails with the ValueError message |
| `Jwt.ExpiryTime` | auth/jwt_gen.py:56-59 | a non-zero delta expires at now + delta; no delta or a zero delta expires at now + 30 minutes |
| `Jwt.TokenClaims` | auth/jwt_gen.py:55-60 | the encoded claims are the caller's keys plus `exp`, with `exp` set to the expiry and every other key, `sub` included, unchanged |
| `Jwt.CreateAccessToken` | auth/jwt_gen.py:45-63 | with a sound codec the returned token is a non-empty string |
| `Jwt.VerifyToken` | auth/jwt_gen.py:65-85 | returns the decoded payload exactly when decoding succeeds, otherwise exactly the 401 "Invalid authentication credentials" with `WWW-Authenticate: Bearer`; there is no third outcome |
| `Jwt.IssuedTokenVerifies` | auth/jwt_gen.py:45-85 | an issued token whose claims python-jose accepts is non-empty, verifies to exactly its issued claims up to its expiry, and is rejected with the Bearer 401 after it |
| `Jwt.NonStringSubjectRefused` | auth/jwt_gen.py:77-85 | a token issued with a `sub` that is not a string never verifies, and gives the Bearer 401 |
| `Jwt.IssuedSubject` | auth/jwt_gen.py:55-60 | the subject given in `sub` is carried unchanged into the token |
| `UserAuth.GetCurrentUser` | auth/user_auth.py:29-58 | every failure is a 401 and one of the four rejections; a missing or empty cookie is "Token not found" exactly; a token that fails to decode is "Could not validate credentials" exactly; a payload without `sub` (or a null one) is "Invalid token" exactly; a returned user is stored and its username is the token's `sub` |
| `UserAuth.RejectionsDistinct` | auth/user_auth.py:30-51 | the four rejection details are pairwise different |
| `UserAuth.MissingTokenNeverDecoded` | auth/user_auth.py:30-34 | without a token the answer does not depend on the codec or the store: nothing is decoded or looked up |
| `UserAuth.IssuedTokenAdmitsUser` | auth/user_auth.py:37-52 | a token issued for a stored user's username admits exactly that user up to its expiry, and gives "Could not validate credentials" after it |
| `UserAuth.TokenOfRemovedUserRefused` | auth/user_auth.py:46-51 | an unexpired token whose subject names no stored user gives "User not found" |
| `UserAuth.NonStringSubjectTokenRefused` | auth/user_auth.py:37-44 | a token issued with a non-string `sub` (a number, say) ends as "Could not validate credentials" and never reaches the username lookup |
| `Rectangles.MinSide` | script.py:8 | the smallest side is one of the sides and no side is smaller |
| `Rectangles.MaxShortSide` | script.py:8-11 | the largest shorter side is at least every rectangle's shorter side, and is some rectangle's shorter side |
| `Rectangles.AtLeastIsEqualBelowBound` | script.py:14-16 | when no shorter side exceeds the maximum, counting `>=` is the same as counting `==` |
| `Rectangles.GoodRectanglesBounds` | script.py:13-18 | there is at least one good rectangle and at most as many as there are rectangles |
| `Rectangles.CountGoodRectangles` | script.py:5-18 | the result is the number of rectangles whose shorter side equals the largest shorter side, and lies between 1 and the number of rectangles |
| `Rectangles.ScriptExample` | script.py:20-22 | on `[[2,3],[3,7],[4,3],[3,7]]` the count is 3 |

## Left out

- Route handlers, templates, cookies, redirects, app wiring and the earlier router draft
  (`router/*.py`, `app.py`): HTTP plumbing, outside the core. Three consequences follow from the
  store model. The delete routes answer 404 in both outcomes, because the deletes return nothing.
  `GET /tasks` answers 404 for a user without tasks. The task update route passes the status
  enumeration string where the store expects a boolean.
- get_all_users: it returns the whole user table; in the model that is the `users` sequence of
  `Crud.Store` itself, so there is no separate member.
- Session, engine and `get_db` setup (`db/database.py`, `db/deps.py`), dotenv loading, logging
  (`logs/logger.py`, `loggs/logger.py`): infrastructure without logic of its own.
- Transaction isolation and concurrent requests: the model treats each write as one atomic step.
- Commit failures other than a UNIQUE clash (disk or connection errors): I/O is not modelled.
- bcrypt and HS256 themselves: foreign library calls, kept as uninterpreted functions. Their
  assumptions are the predicates `Passwords.Correct` and `Jwt.SoundCodec`. bcrypt's truncation of
  passwords at 72 bytes is not modelled.
- Wall-clock time and the salt: both are passed in as parameters.
- E-mail syntax and normalisation (`EmailStr`) are an abstract validate-and-normalise function
  parameter; its rules (which addresses pass, how the domain is lower-cased) are not modelled.
  Request bodies are maps from field
  names to strings, so pydantic's type coercion of non-string JSON values is not modelled.
- Declared column lengths (username 30, e-mail 20) and the foreign key: SQLite enforces neither, so
  the model does not either. The foreign key is a separate predicate, `Models.OwnersExist`.
- UserAuth.GetCurrentUser: python-jose refuses a token whose `sub` is not a string, so such a token
  ends as "Could not validate credentials" (`NonStringSubjectTokenRefused`). The branch in which a
  decoded non-string, non-null `sub` names no user is reachable only with a codec outside
  `Jwt.SoundCodec`.
- Rectangles.CountGoodRectangles: requires a non-empty list of non-empty rectangles. The source
  raises on an empty list, and `min` raises on an empty rectangle, and the model does not include
  those error paths.
- Tests (`tests/*.py`): HTTP-level client scripts, not part of the core. Some of them contradict the
  code; for example, one expects 200 from a delete route.
