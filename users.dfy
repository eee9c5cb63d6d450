/** The `users` table and the four request handlers that read and change it
    (register, login, list pending, approve), as functions over the value of
    the table. Each handler that changes the table returns its reply together
    with the table after the call. */
module Users {
  import opened Credentials

  datatype Option<T> = None | Some(value: T)

  /** The `role` column: 'user' or 'admin'. */
  datatype Role = UserRole | AdminRole

  /** The `status` column: 'pending' or 'approved'. */
  datatype Status = Pending | Approved

  /** One row of the `users` table. */
  datatype User = User(id: int, name: string, email: string, passwordHash: string, role: Role, status: Status)

  /** What the service sends back about a user: every column except the hash. */
  datatype Summary = Summary(id: int, name: string, email: string, role: Role, status: Status)

  /** The error replies the handlers give, one per kind. */
  datatype Error = Validation | DuplicateEmail | InvalidCredentials | NotApproved | NotFound

  datatype Result<T> = Ok(value: T) | Err(error: Error)

  /** The table: its rows in the order of SQLite's rowid b-tree (ascending id),
      and the id AUTOINCREMENT hands out next. */
  datatype Table = Table(rows: seq<User>, nextId: int)

  /** The table as CREATE TABLE leaves it: no rows, and ids start at 1. */
  const Empty := Table([], 1)

  /** The columns a reply may carry; the hash is not among them. */
  function Summarize(u: User): Summary {
    Summary(u.id, u.name, u.email, u.role, u.status)
  }

  /** The HTTP status each error kind is answered with. */
  function HttpStatus(e: Error): (code: int)
    ensures 400 <= code < 500
    ensures code == 401 <==> e == InvalidCredentials
  {
    match e
    case Validation => 400
    case DuplicateEmail => 400
    case InvalidCredentials => 401
    case NotApproved => 403
    case NotFound => 404
  }

  // ---------------------------------------------------------------------
  // Invariants of the table
  // ---------------------------------------------------------------------

  /** Ids are strictly ascending in row order, hence unique. */
  ghost predicate IdsAscending(rows: seq<User>) {
    forall i, j :: 0 <= i < j < |rows| ==> rows[i].id < rows[j].id
  }

  /** The UNIQUE constraint on `email`. */
  ghost predicate UniqueEmails(rows: seq<User>) {
    forall i, j :: 0 <= i < j < |rows| ==> rows[i].email != rows[j].email
  }

  /** The columns registration never leaves empty. */
  ghost predicate WellFormed(u: User) {
    u.name != "" && u.email != "" && u.passwordHash != ""
  }

  ghost predicate Valid(t: Table) {
    && 1 <= t.nextId
    && IdsAscending(t.rows)
    && UniqueEmails(t.rows)
    && (forall i :: 0 <= i < |t.rows| ==> 1 <= t.rows[i].id < t.nextId && WellFormed(t.rows[i]))
  }

  /** The two rows agree on id, name, email, hash and role: the columns
      that no handler ever updates. */
  ghost predicate SameAccount(u: User, v: User) {
    u.id == v.id && u.name == v.name && u.email == v.email && u.passwordHash == v.passwordHash && u.role == v.role
  }

  /** How a table may change over time: rows are never removed, reordered or
      edited except for their status, and a status never goes back from
      approved to pending. */
  ghost predicate Evolves(t: Table, t': Table) {
    && t.nextId <= t'.nextId
    && |t.rows| <= |t'.rows|
    && forall k :: 0 <= k < |t.rows| ==>
         SameAccount(t.rows[k], t'.rows[k]) && (t.rows[k].status == Approved ==> t'.rows[k].status == Approved)
  }

  // ---------------------------------------------------------------------
  // Lookups
  // ---------------------------------------------------------------------

  /** `SELECT * FROM users WHERE email = ?` read with `db.get`: the first
      matching row, if any. */
  function FindByEmail(rows: seq<User>, email: string): (r: Option<User>)
    ensures r.None? <==> forall u :: u in rows ==> u.email != email
    ensures r.Some? ==> r.value in rows && r.value.email == email
  {
    if rows == [] then None
    else if rows[0].email == email then Some(rows[0])
    else FindByEmail(rows[1..], email)
  }

  /** The number of rows `UPDATE ... WHERE id = ?` touches (`this.changes`). */
  function Changes(rows: seq<User>, id: int): (n: nat)
    ensures n <= |rows|
    ensures n == 0 <==> forall u :: u in rows ==> u.id != id
  {
    if rows == [] then 0
    else (if rows[0].id == id then 1 else 0) + Changes(rows[1..], id)
  }

  /** `UPDATE users SET status = 'approved' WHERE id = ?` applied to the rows. */
  function SetApproved(rows: seq<User>, id: int): (r: seq<User>)
    ensures |r| == |rows|
    ensures forall k :: 0 <= k < |rows| ==>
              SameAccount(rows[k], r[k]) && r[k].status == (if rows[k].id == id then Approved else rows[k].status)
  {
    if rows == [] then []
    else [if rows[0].id == id then rows[0].(status := Approved) else rows[0]] + SetApproved(rows[1..], id)
  }

  // ---------------------------------------------------------------------
  // The four handlers
  // ---------------------------------------------------------------------

  /** POST /api/register. An empty field is refused before anything is
      hashed; a taken email is refused by the UNIQUE constraint; otherwise a
      pending 'user' row is inserted under the next id. */
  function Register(h: Hasher, t: Table, name: string, email: string, password: string, salt: Salt): (out: (Result<()>, Table))
    ensures out.0 == Err(Validation) <==> name == "" || email == "" || password == ""
    ensures out.0 == Err(DuplicateEmail) <==>
              name != "" && email != "" && password != "" && exists u :: u in t.rows && u.email == email
    ensures out.0 == Ok(()) <==>
              name != "" && email != "" && password != "" && forall u :: u in t.rows ==> u.email != email
    ensures out.0.Err? ==> out.1 == t
    ensures out.0.Ok? ==>
              && out.1.nextId == t.nextId + 1
              && |out.1.rows| == |t.rows| + 1
              && out.1.rows[..|t.rows|] == t.rows
              && var u := out.1.rows[|t.rows|];
                 u.id == t.nextId && u.name == name && u.email == email
                 && u.role == UserRole && u.status == Pending
                 && u.passwordHash == h.hash(password, salt)
  {
    if name == "" || email == "" || password == "" then (Err(Validation), t)
    else
      var digest := h.hash(password, salt);
      if FindByEmail(t.rows, email).Some? then (Err(DuplicateEmail), t)
      else (Ok(()), Table(t.rows + [User(t.nextId, name, email, digest, UserRole, Pending)], t.nextId + 1))
  }

  /** POST /api/login. The checks run in a fixed order: missing field, unknown
      email, wrong password, not yet approved; only then the summary. */
  function Login(h: Hasher, rows: seq<User>, email: string, password: string): (r: Result<Summary>)
    ensures r == Err(Validation) <==> email == "" || password == ""
    ensures r.Err? ==> r.error in {Validation, InvalidCredentials, NotApproved}
    ensures r.Ok? ==>
              && r.value.email == email && r.value.status == Approved
              && exists u :: u in rows && Summarize(u) == r.value && Verify(h, password, u.passwordHash)
    ensures r == Err(NotApproved) ==>
              exists u :: u in rows && u.email == email && Verify(h, password, u.passwordHash) && u.status != Approved
  {
    if email == "" || password == "" then Err(Validation)
    else match FindByEmail(rows, email)
      case None => Err(InvalidCredentials)
      case Some(u) =>
        if !Verify(h, password, u.passwordHash) then Err(InvalidCredentials)
        else if u.status != Approved then Err(NotApproved)
        else Ok(Summarize(u))
  }

  /** GET /admin/users: `SELECT id, name, email, role, status FROM users
      WHERE status = 'pending' ORDER BY id ASC`, read in row order. */
  function ListPending(rows: seq<User>): (r: seq<Summary>)
    ensures |r| <= |rows|
    ensures forall k :: 0 <= k < |r| ==> r[k].status == Pending
  {
    if rows == [] then []
    else if rows[0].status == Pending then [Summarize(rows[0])] + ListPending(rows[1..])
    else ListPending(rows[1..])
  }

  /** POST /admin/approve/:id. The update runs unconditionally; a reply of
      NotFound means it changed no row. */
  function Approve(t: Table, id: int): (out: (Result<()>, Table))
    ensures out.0 == Err(NotFound) <==> forall u :: u in t.rows ==> u.id != id
    ensures out.0.Err? ==> out.0.error == NotFound && out.1 == t
    ensures out.1.nextId == t.nextId && |out.1.rows| == |t.rows|
    ensures forall k :: 0 <= k < |t.rows| ==>
              SameAccount(t.rows[k], out.1.rows[k])
              && out.1.rows[k].status == (if t.rows[k].id == id then Approved else t.rows[k].status)
  {
    if Changes(t.rows, id) == 0 then (Err(NotFound), t)
    else (Ok(()), t.(rows := SetApproved(t.rows, id)))
  }
}
