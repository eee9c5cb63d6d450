/** What the handlers promise, across calls: the table invariants they keep,
    the order of the login checks, the pending listing, idempotent approval,
    and the register / approve / login workflow end to end. */
module UserProperties {
  import opened Credentials
  import opened Users

  // ---------------------------------------------------------------------
  // Lookup by email
  // ---------------------------------------------------------------------

  /** With unique emails, the lookup finds exactly the row holding the email. */
  lemma FindByEmailUnique(rows: seq<User>, u: User)
    requires UniqueEmails(rows)
    requires u in rows
    ensures FindByEmail(rows, u.email) == Some(u)
  {
  }

  /** In a valid table a summary identifies its row: two rows with the same
      summary are the same row, so a reply or a listing entry stands for
      exactly one account. */
  lemma SummaryDeterminesRow(t: Table, u: User, v: User)
    requires Valid(t) && u in t.rows && v in t.rows
    requires Summarize(u) == Summarize(v)
    ensures u == v
  {
    var i :| 0 <= i < |t.rows| && t.rows[i] == u;
    var j :| 0 <= j < |t.rows| && t.rows[j] == v;
    assert i == j;
  }

  // ---------------------------------------------------------------------
  // register
  // ---------------------------------------------------------------------

  /** Appending a well-formed row with a fresh email under the next id keeps
      the table valid. */
  lemma AppendKeepsValid(t: Table, u: User)
    requires Valid(t) && WellFormed(u) && u.id == t.nextId
    requires forall v :: v in t.rows ==> v.email != u.email
    ensures Valid(Table(t.rows + [u], t.nextId + 1))
  {
  }

  /** A registration keeps the table valid and only ever adds a row. */
  lemma RegisterPreservesValid(h: Hasher, t: Table, name: string, email: string, password: string, salt: Salt)
    requires Sound(h) && Valid(t)
    ensures Valid(Register(h, t, name, email, password, salt).1)
    ensures Evolves(t, Register(h, t, name, email, password, salt).1)
    ensures Register(h, t, name, email, password, salt).1.rows[..|t.rows|] == t.rows
    ensures |Register(h, t, name, email, password, salt).1.rows| <= |t.rows| + 1
  {
    var (r, t') := Register(h, t, name, email, password, salt);
    if r.Ok? {
      var u := User(t.nextId, name, email, Hash(h, password, salt), UserRole, Pending);
      assert t'.rows == t.rows + [u];
      AppendKeepsValid(t, u);
    }
  }

  /** A successful registration inserts one pending 'user' row with the
      given name and email, under an id above every id in the table, with a
      non-empty hash that the password verifies against. */
  lemma RegisterInserts(h: Hasher, t: Table, name: string, email: string, password: string, salt: Salt)
    requires Sound(h) && Valid(t)
    requires Register(h, t, name, email, password, salt).0.Ok?
    ensures var t' := Register(h, t, name, email, password, salt).1;
            && t'.rows[..|t.rows|] == t.rows
            && |t'.rows| == |t.rows| + 1
            && var u := t'.rows[|t.rows|];
               && u.name == name && u.email == email && u.role == UserRole && u.status == Pending
               && u.passwordHash != "" && Verify(h, password, u.passwordHash)
               && (forall v :: v in t.rows ==> v.id < u.id)
  {
  }

  /** Registering an email already in the table fails with DuplicateEmail and
      changes nothing, so the email stays on exactly one row. */
  lemma RegisterTwice(h: Hasher, t: Table, name: string, email: string, password: string, salt: Salt,
                      name2: string, password2: string, salt2: Salt)
    requires Sound(h) && Valid(t)
    requires Register(h, t, name, email, password, salt).0.Ok?
    requires name2 != "" && password2 != ""
    ensures var t1 := Register(h, t, name, email, password, salt).1;
            && Register(h, t1, name2, email, password2, salt2) == (Err(DuplicateEmail), t1)
            && (exists k :: 0 <= k < |t1.rows| && t1.rows[k].email == email)
            && forall i, j :: 0 <= i < |t1.rows| && 0 <= j < |t1.rows| && t1.rows[i].email == email && t1.rows[j].email == email ==> i == j
  {
  }

  // ---------------------------------------------------------------------
  // login
  // ---------------------------------------------------------------------

  /** Login succeeds exactly when some row holds the email, the password
      verifies against its hash and its status is approved; the reply is that
      row's summary. */
  lemma LoginSucceedsIff(h: Hasher, t: Table, email: string, password: string, s: Summary)
    requires Valid(t)
    ensures Login(h, t.rows, email, password) == Ok(s) <==>
              && email != "" && password != ""
              && exists u :: u in t.rows && u.email == email && Verify(h, password, u.passwordHash)
                             && u.status == Approved && Summarize(u) == s
  {
  }

  /** The reply does not tell an unknown email from a wrong password, and the
      password is checked before the approval: a wrong password on a pending
      account is InvalidCredentials, never NotApproved. */
  lemma LoginHidesAccounts(h: Hasher, t: Table, email: string, password: string)
    requires email != "" && password != ""
    requires forall u :: u in t.rows && u.email == email ==> !Verify(h, password, u.passwordHash)
    ensures Login(h, t.rows, email, password) == Err(InvalidCredentials)
  {
  }

  /** With the right password and a pending row, login answers NotApproved. */
  lemma LoginPendingAccount(h: Hasher, t: Table, u: User, password: string)
    requires Valid(t)
    requires u in t.rows && u.status == Pending && password != ""
    requires Verify(h, password, u.passwordHash)
    ensures Login(h, t.rows, u.email, password) == Err(NotApproved)
  {
  }

  // ---------------------------------------------------------------------
  // list pending
  // ---------------------------------------------------------------------

  /** The listing holds exactly the summaries of the pending rows. */
  lemma {:induction false} ListPendingExact(rows: seq<User>, s: Summary)
    ensures s in ListPending(rows) <==> exists u :: u in rows && u.status == Pending && Summarize(u) == s
  {
    if rows != [] {
      ListPendingExact(rows[1..], s);
      if u :| u in rows && u.status == Pending && Summarize(u) == s {
        if u != rows[0] { assert u in rows[1..]; }
      }
      if u :| u in rows[1..] && u.status == Pending && Summarize(u) == s {
        assert u in rows;
      }
    }
  }

  /** Every id in the listing is the id of some row. */
  lemma {:induction false} ListPendingIds(rows: seq<User>, k: nat)
    requires k < |ListPending(rows)|
    ensures exists i :: 0 <= i < |rows| && rows[i].id == ListPending(rows)[k].id
  {
    if rows[0].status == Pending && k == 0 {
      assert rows[0].id == ListPending(rows)[0].id;
    } else {
      var k' := if rows[0].status == Pending then k - 1 else k;
      ListPendingIds(rows[1..], k');
      var i :| 0 <= i < |rows[1..]| && rows[1..][i].id == ListPending(rows[1..])[k'].id;
      assert rows[i + 1].id == ListPending(rows)[k].id;
    }
  }

  /** The listing is ordered by strictly ascending id (ORDER BY id ASC). */
  lemma {:induction false} ListPendingSorted(rows: seq<User>)
    requires IdsAscending(rows)
    ensures forall i, j :: 0 <= i < j < |ListPending(rows)| ==> ListPending(rows)[i].id < ListPending(rows)[j].id
  {
    if rows != [] {
      var tail := rows[1..];
      assert IdsAscending(tail) by {
        forall i, j | 0 <= i < j < |tail| ensures tail[i].id < tail[j].id {
          assert tail[i] == rows[i + 1] && tail[j] == rows[j + 1];
        }
      }
      ListPendingSorted(tail);
      if rows[0].status == Pending {
        var r := ListPending(rows);
        forall j | 1 <= j < |r| ensures r[0].id < r[j].id {
          ListPendingIds(tail, j - 1);
          var i :| 0 <= i < |tail| && tail[i].id == ListPending(tail)[j - 1].id;
          assert tail[i] == rows[i + 1];
        }
      }
    }
  }

  // ---------------------------------------------------------------------
  // approve
  // ---------------------------------------------------------------------

  /** Approval keeps the table valid, touches only the status of the row with
      that id, and never sets a status back to pending. */
  lemma ApprovePreservesValid(t: Table, id: int)
    requires Valid(t)
    ensures Valid(Approve(t, id).1)
    ensures Evolves(t, Approve(t, id).1)
  {
  }

  /** Applying the update a second time changes nothing. */
  lemma SetApprovedIdempotent(rows: seq<User>, id: int)
    ensures SetApproved(SetApproved(rows, id), id) == SetApproved(rows, id)
  {
  }

  /** Approving twice is approving once: same reply, same table. */
  lemma ApproveIdempotent(t: Table, id: int)
    ensures Approve(Approve(t, id).1, id) == Approve(t, id)
  {
    var (r, t1) := Approve(t, id);
    if r.Ok? {
      var k :| 0 <= k < |t.rows| && t.rows[k].id == id;
      assert t1.rows[k] in t1.rows;
      SetApprovedIdempotent(t.rows, id);
    }
  }

  // ---------------------------------------------------------------------
  // The workflow end to end
  // ---------------------------------------------------------------------

  /** A new registration cannot log in until approved; once its id is
      approved, the same password logs in and gets back its approved summary. */
  lemma RegisterApproveLogin(h: Hasher, t: Table, name: string, email: string, password: string, salt: Salt)
    requires Sound(h) && Valid(t)
    requires Register(h, t, name, email, password, salt).0.Ok?
    ensures var t1 := Register(h, t, name, email, password, salt).1;
            && Login(h, t1.rows, email, password) == Err(NotApproved)
            && Approve(t1, t.nextId).0.Ok?
            && Login(h, Approve(t1, t.nextId).1.rows, email, password) == Ok(Summary(t.nextId, name, email, UserRole, Approved))
  {
    var t1 := Register(h, t, name, email, password, salt).1;
    RegisterPreservesValid(h, t, name, email, password, salt);
    RegisterInserts(h, t, name, email, password, salt);
    var u := t1.rows[|t.rows|];
    assert u in t1.rows;
    LoginPendingAccount(h, t1, u, password);
    ApprovePreservesValid(t1, t.nextId);
    var t2 := Approve(t1, t.nextId).1;
    assert t2.rows[|t.rows|] in t2.rows;
    LoginSucceedsIff(h, t2, email, password, Summary(t.nextId, name, email, UserRole, Approved));
  }

  /** Three users register in turn and the second is approved: the pending
      listing is the first and the third, in that order. */
  lemma PendingAfterApprovingSecond(h: Hasher,
                                    nameA: string, emailA: string, passwordA: string, saltA: Salt,
                                    nameB: string, emailB: string, passwordB: string, saltB: Salt,
                                    nameC: string, emailC: string, passwordC: string, saltC: Salt)
    requires nameA != "" && emailA != "" && passwordA != ""
    requires nameB != "" && emailB != "" && passwordB != ""
    requires nameC != "" && emailC != "" && passwordC != ""
    requires emailA != emailB && emailA != emailC && emailB != emailC
    ensures Register(h, Empty, nameA, emailA, passwordA, saltA).0 == Ok(())
    ensures var t1 := Register(h, Empty, nameA, emailA, passwordA, saltA).1;
            Register(h, t1, nameB, emailB, passwordB, saltB).0 == Ok(())
    ensures var t1 := Register(h, Empty, nameA, emailA, passwordA, saltA).1;
            var t2 := Register(h, t1, nameB, emailB, passwordB, saltB).1;
            Register(h, t2, nameC, emailC, passwordC, saltC).0 == Ok(())
    ensures var t1 := Register(h, Empty, nameA, emailA, passwordA, saltA).1;
            var t2 := Register(h, t1, nameB, emailB, passwordB, saltB).1;
            var t3 := Register(h, t2, nameC, emailC, passwordC, saltC).1;
            Approve(t3, 2).0 == Ok(())
    ensures var t1 := Register(h, Empty, nameA, emailA, passwordA, saltA).1;
            var t2 := Register(h, t1, nameB, emailB, passwordB, saltB).1;
            var t3 := Register(h, t2, nameC, emailC, passwordC, saltC).1;
            ListPending(Approve(t3, 2).1.rows) ==
              [Summary(1, nameA, emailA, UserRole, Pending), Summary(3, nameC, emailC, UserRole, Pending)]
  {
    var t1 := Register(h, Empty, nameA, emailA, passwordA, saltA).1;
    var t2 := Register(h, t1, nameB, emailB, passwordB, saltB).1;
    assert t2.rows == t1.rows + [t2.rows[1]];
    var t3 := Register(h, t2, nameC, emailC, passwordC, saltC).1;
    assert t3.rows == t2.rows + [t3.rows[2]];
    assert t3.rows[1] in t3.rows;
    ListPendingMiddleApproved(Approve(t3, 2).1.rows);
  }

  /** Of three rows with the middle one approved, the first and the third are listed. */
  lemma ListPendingMiddleApproved(rows: seq<User>)
    requires |rows| == 3
    requires rows[0].status == Pending && rows[1].status == Approved && rows[2].status == Pending
    ensures ListPending(rows) == [Summarize(rows[0]), Summarize(rows[2])]
  {
    assert ListPending(rows[2..]) == [Summarize(rows[2])];
    assert rows[1..][1..] == rows[2..];
  }

  // ---------------------------------------------------------------------
  // Any sequence of requests
  // ---------------------------------------------------------------------

  /** A request as the service receives it. */
  datatype Request =
    | RegisterRequest(name: string, email: string, password: string, salt: Salt)
    | LoginRequest(email: string, password: string)
    | ListPendingRequest
    | ApproveRequest(id: int)

  /** The table after one request; login and the listing only read it. */
  function Step(h: Hasher, t: Table, req: Request): Table {
    match req
    case RegisterRequest(name, email, password, salt) => Register(h, t, name, email, password, salt).1
    case LoginRequest(_, _) => t
    case ListPendingRequest => t
    case ApproveRequest(id) => Approve(t, id).1
  }

  /** The table after the requests, handled one at a time in order. */
  function Run(h: Hasher, t: Table, reqs: seq<Request>): Table
    decreases |reqs|
  {
    if reqs == [] then t else Run(h, Step(h, t, reqs[0]), reqs[1..])
  }

  lemma EvolvesTransitive(t1: Table, t2: Table, t3: Table)
    requires Evolves(t1, t2) && Evolves(t2, t3)
    ensures Evolves(t1, t3)
  {
  }

  /** Whatever requests arrive, the table stays valid, no row is lost or
      edited beyond its status, no role changes, and no status goes back from
      approved to pending. */
  lemma {:induction false} RunKeepsInvariants(h: Hasher, t: Table, reqs: seq<Request>)
    requires Sound(h) && Valid(t)
    ensures Valid(Run(h, t, reqs)) && Evolves(t, Run(h, t, reqs))
    decreases |reqs|
  {
    if reqs != [] {
      var t1 := Step(h, t, reqs[0]);
      match reqs[0] {
        case RegisterRequest(name, email, password, salt) => RegisterPreservesValid(h, t, name, email, password, salt);
        case LoginRequest(_, _) =>
        case ListPendingRequest =>
        case ApproveRequest(id) => ApprovePreservesValid(t, id);
      }
      RunKeepsInvariants(h, t1, reqs[1..]);
      EvolvesTransitive(t, t1, Run(h, t1, reqs[1..]));
    }
  }
}
