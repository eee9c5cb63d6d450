/** The service's shared state: the `users` table, which registration
    inserts into and approval updates in place. Login and the pending listing
    only read it; they are `Users.Login` and `Users.ListPending` applied to
    `State().rows`. */
module Directory {
  import opened Credentials
  import opened Users
  import UserProperties

  class UserDirectory {
    /** The rows of the `users` table, in ascending id order. */
    var rows: seq<User>
    /** The id AUTOINCREMENT gives the next inserted row. */
    var nextId: int
    /** The bcrypt the service calls. */
    const hasher: Hasher

    ghost predicate Valid()
      reads this
    {
      Sound(hasher) && Users.Valid(State())
    }

    /** The table as a value. */
    function State(): Table
      reads this
    {
      Table(rows, nextId)
    }

    /** A freshly created table: no rows, ids from 1. */
    constructor (hasher: Hasher)
      requires Sound(hasher)
      ensures Valid()
      ensures State() == Empty && this.hasher == hasher
    {
      this.hasher := hasher;
      rows := [];
      nextId := 1;
    }

    /** POST /api/register: validate, hash, then insert unless the email is
        taken. A refused request leaves the table as it was. */
    method Register(name: string, email: string, password: string, salt: Salt) returns (r: Result<()>)
      requires Valid()
      modifies this
      ensures Valid()
      ensures (r, State()) == Users.Register(hasher, old(State()), name, email, password, salt)
      ensures r.Err? ==> rows == old(rows) && nextId == old(nextId)
      ensures r.Ok? ==> rows == old(rows) + [User(old(nextId), name, email, rows[|rows| - 1].passwordHash, UserRole, Pending)]
      ensures r.Ok? ==> rows[|rows| - 1].passwordHash != "" && Verify(hasher, password, rows[|rows| - 1].passwordHash)
    {
      if name == "" || email == "" || password == "" {
        return Err(Validation);
      }
      var digest := Hash(hasher, password, salt);
      if FindByEmail(rows, email).Some? {
        return Err(DuplicateEmail);
      }
      UserProperties.AppendKeepsValid(State(), User(nextId, name, email, digest, UserRole, Pending));
      rows := rows + [User(nextId, name, email, digest, UserRole, Pending)];
      nextId := nextId + 1;
      r := Ok(());
    }

    /** POST /admin/approve/:id: set the status of the row with that id to
        approved; NotFound when the update changed no row. */
    method Approve(id: int) returns (r: Result<()>)
      requires Valid()
      modifies this
      ensures Valid()
      ensures (r, State()) == Users.Approve(old(State()), id)
      ensures r == Err(NotFound) <==> forall u :: u in old(rows) ==> u.id != id
      ensures r.Err? ==> rows == old(rows)
      ensures nextId == old(nextId) && |rows| == |old(rows)|
      ensures forall k :: 0 <= k < |rows| ==>
                SameAccount(old(rows)[k], rows[k])
                && rows[k].status == (if old(rows)[k].id == id then Approved else old(rows)[k].status)
    {
      UserProperties.ApprovePreservesValid(State(), id);
      var changes := Changes(rows, id);
      if changes == 0 {
        return Err(NotFound);
      }
      rows := SetApproved(rows, id);
      r := Ok(());
    }
  }

  /** Three users register in turn through the shared directory and the
      second is approved: every call succeeds, and the listing afterwards
      holds the first and the third, by ascending id. */
  method ApproveSecondOfThree(hasher: Hasher) returns (replies: seq<Result<()>>, pending: seq<Summary>)
    requires Sound(hasher)
    ensures replies == [Ok(()), Ok(()), Ok(()), Ok(())]
    ensures pending == [Summary(1, "Ana", "ana@x", UserRole, Pending), Summary(3, "Caio", "caio@x", UserRole, Pending)]
  {
    var d := new UserDirectory(hasher);
    var r1 := d.Register("Ana", "ana@x", "s1", 7);
    var r2 := d.Register("Bia", "bia@x", "s2", 8);
    var r3 := d.Register("Caio", "caio@x", "s3", 9);
    var a := d.Approve(2);
    replies := [r1, r2, r3, a];
    pending := ListPending(d.rows);
    UserProperties.PendingAfterApprovingSecond(hasher, "Ana", "ana@x", "s1", 7, "Bia", "bia@x", "s2", 8, "Caio", "caio@x", "s3", 9);
  }
}
