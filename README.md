# User registration and admin approval

This is a Dafny model of the authentication workflow in a small Express/SQLite
service (`server.js`). Users register themselves. An administrator lists the
accounts still pending and approves them. Only approved users can log in. All
state lives in one SQLite table, `users`: id, name, email, password hash, role
and status. Passwords are hashed with bcrypt.

The model has four parts:

- `credentials.dfy` (module `Credentials`) models bcrypt as a `Hasher`, a pair of
  functions: `hash(password, salt)` and `compare(password, digest)`. The salt
  that bcrypt draws at random is a parameter. `Sound(h)` is all that the
  service relies on: a digest is never empty, and a password compares true
  against any digest made from it.
- `users.dfy` (module `Users`) holds the table as a value, `Table(rows, nextId)`,
  and the four handlers as functions on it:
  - `Register` and `Approve` return the reply and the table after the call.
  - `Login` and `ListPending` only read the rows.
  - `Valid` states the table invariants: ids ascend, emails are unique, ids
    are below the next AUTOINCREMENT id, and no name, email or hash is empty.
  - `Evolves` states how a table may change over time.
- `properties.dfy` (module `UserProperties`) proves what the handlers promise.
  This includes the invariants over any sequence of requests (`Run`).
- `directory.dfy` (module `Directory`) holds the shared table as the class
  `UserDirectory`. Its `Register` and `Approve` methods update `rows` and
  `nextId` in place. Each is proved equal to the matching `Users` function and
  to keep `Valid()`.

Modelling choices:
- Rows are kept in ascending id order, as SQLite's rowid b-tree stores them.
  So `ORDER BY id ASC` is the scan order, and `ListPendingSorted` proves the
  listing sorted.
- Every reply about a user is a `Summary`, a type with no hash field, built by
  `Users.Summarize`. So no reply can carry the password hash.
- A request field that is missing or empty is the empty string. In the source,
  both fail the `!field` test in the same way.

## Model

| member | source | states |
|---|---|---|
| `Credentials.Hash` | server.js:52 | Given a sound bcrypt, the stored digest is never empty and the password it was made from verifies against it. |
| `Credentials.Verify` | server.js:99 | `bcrypt.compare` as an opaque comparison. For a sound bcrypt, a digest made from the password verifies against it. Nothing else is promised; in particular, a wrong password is not promised to fail. |
| `UserProperties.SummaryDeterminesRow` | server.js:111-117 | In a valid table, two rows with the same hash-free summary are the same row, so each reply or listing entry stands for exactly one account. |
| `Users.HttpStatus` | server.js:47-157 | Every error kind is answered with a 4xx code, and 401 is used exactly for invalid credentials. |
| `Users.FindByEmail` | server.js:86-88 | The email lookup finds nothing exactly when no row holds the email. Otherwise it returns a row of the table with that email. |
| `Users.Changes` | server.js:146-157 | The count of rows the UPDATE touches is zero exactly when no row has the id. |
| `Users.SetApproved` | server.js:147 | The UPDATE keeps every row's id, name, email, hash and role. It sets the status of the rows with that id to approved and leaves every other status as it was. |
| `Users.Register` | server.js:44-76 | Validation is refused exactly when a field is empty. DuplicateEmail is refused exactly when the fields are filled and the email is already in the table. The call succeeds exactly when every field is filled and no row has the email. A refusal leaves the table unchanged. On success the old rows are kept and one row is appended: the next id, the given name and email, the bcrypt digest, role user, status pending. |
| `Users.Login` | server.js:79-121 | Validation is returned exactly when the email or password is empty. The only errors are Validation, InvalidCredentials and NotApproved. A success is the summary of a row with that email whose hash the password verifies, and its status is approved. NotApproved means such a row exists with status not approved. |
| `Users.ListPending` | server.js:130 | The listing is no longer than the table, and every entry has status pending. |
| `Users.Approve` | server.js:143-162 | NotFound is returned exactly when no row has the id, and then the table is unchanged. Otherwise only the status of the rows with that id becomes approved. The row count, the next id and every other column stay the same. |
| `UserProperties.FindByEmailUnique` | server.js:86-88 | With unique emails, looking up a row's email returns exactly that row. |
| `UserProperties.AppendKeepsValid` | server.js:28-35 | Appending a well-formed row with a new email under the next id keeps all table invariants. |
| `UserProperties.RegisterPreservesValid` | server.js:54-64 | Registration keeps the table valid. It keeps every existing row exactly as it was and adds at most one row. |
| `UserProperties.RegisterInserts` | server.js:52-59 | A successful registration keeps the old rows and adds one row. The row has the given name and email, role user and status pending, an id above every existing id, and a non-empty hash that the password verifies. |
| `UserProperties.RegisterTwice` | server.js:59-64 | Registering an already registered email again fails with DuplicateEmail and changes nothing. The email is on exactly one row. |
| `UserProperties.LoginSucceedsIff` | server.js:86-118 | In both directions: login returns a given summary exactly when the fields are non-empty and some row has the email, a hash the password verifies, status approved, and that summary. |
| `UserProperties.LoginHidesAccounts` | server.js:95-102 | An unknown email and a wrong password give the same reply, InvalidCredentials. The password is checked first, so a pending account with a wrong password never gets NotApproved. |
| `UserProperties.LoginPendingAccount` | server.js:99-106 | A correct password on a pending account gets NotApproved, not a summary. |
| `UserProperties.ListPendingExact` | server.js:130 | In both directions: a summary is listed exactly when it is the hash-free projection of a pending row. |
| `UserProperties.ListPendingSorted` | server.js:130 | If the rows are in id order, the listing is in strictly ascending id order. |
| `UserProperties.SetApprovedIdempotent` | server.js:147 | Applying the approval UPDATE twice gives the same rows as applying it once. |
| `UserProperties.ApprovePreservesValid` | server.js:146-148 | Approval keeps the table valid. It changes no account data and never moves a status from approved back to pending. |
| `UserProperties.ApproveIdempotent` | server.js:146-159 | Approving an id twice gives the same reply and the same table as approving it once. Re-approval succeeds. |
| `UserProperties.RegisterApproveLogin` | server.js:54-118 | A new registration gets NotApproved at login. Approving its id then succeeds, and the same password then logs in and returns its summary with status approved. |
| `UserProperties.PendingAfterApprovingSecond` | server.js:54-147 | Register A, B and C into an empty table and approve B. All three registrations and the approval succeed, and the pending listing is exactly A (id 1) then C (id 3). |
| `UserProperties.RunKeepsInvariants` | server.js:44-162 | After any sequence of requests the table is still valid. No row is lost or changed beyond its status, no role changes, and no status goes back to pending. |
| `Directory.UserDirectory.constructor` | server.js:28-35 | A new table is empty, issues ids from 1, and is valid. |
| `Directory.UserDirectory.Register` | server.js:44-76 | The in-place insert gives exactly `Users.Register`'s reply and new table, and keeps the invariants. A refusal changes nothing. A success appends one pending user row whose non-empty hash the password verifies. |
| `Directory.UserDirectory.Approve` | server.js:143-162 | The in-place update gives exactly `Users.Approve`'s reply and new table, and keeps the invariants. NotFound is returned exactly when no row has the id, and then nothing changes. Otherwise only the status of that id's row becomes approved. |
| `Directory.ApproveSecondOfThree` | server.js:54-147 | Three registrations and one approval on the shared directory all return Ok. They leave the two unapproved users listed, in ascending id order. |

## Left out

- Express setup, middleware, CORS, static files, the HTML page routes and `app.listen` (server.js:8-19, 168-185) are HTTP plumbing.
- The SQLite engine is replaced by the in-memory table: the connection, `db.serialize`, prepared statements and callbacks.
- The string `req.params.id` is not coerced to a number. `Approve` takes an integer id, so a non-numeric id is not modelled. In SQLite such an id matches no row and gets NotFound.
- bcrypt internals are left out: salting, the cost factor of 10 and the digest format. Only `Sound` is relied on. The model does not require that a wrong password fails `compare`, because bcrypt does not promise it.
- Storage or hashing failures, which give 500 "internal error" replies, and all `console.error` logging are left out. They depend on the environment, not on the logic.
- The `"UNIQUE"` text match on the error message is modelled directly as the email lookup that the UNIQUE constraint performs.
- Async execution and concurrent requests are left out. Each request is one atomic step, and `Run` handles requests one at a time.
- Request fields that are not strings (numbers, booleans, objects in the JSON body) are not modelled. Fields are strings, and a missing field is the empty string.
- The reply messages (Portuguese text) are left out. Only the error kind and its HTTP status code are modelled.
- `Users.ListPending` filters in row order and does not sort. It is ascending by id only on tables whose rows are in id order, which is every valid table (`ListPendingSorted`).
