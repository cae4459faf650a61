/** UserController_fixed.java: GET /api/getUser with no check on the
    username, a connection from the configured DataSource, a `SELECT *`
    parameterized lookup inside try-with-resources, and a catch that turns
    any SQLException into a generic exception without the driver's
    message. */
module DataSourceController {
  import opened JavaLang
  import opened Sql
  import opened Jdbc

  const NotFound: string := "User not found."
  const DatabaseError: string := "Database error occurred"

  /** catch (SQLException e) { throw new Exception("Database error occurred"); }:
      an SQLException is replaced, any other exception passes through. */
  function Caught(ex: JavaException): (r: JavaException)
    ensures ex.SQLException? ==> r == Exception(DatabaseError)
    ensures !ex.SQLException? ==> r == ex
  {
    if ex.SQLException? then Exception(DatabaseError) else ex
  }

  /** What getUser returns and the calls it makes on the database: the
      resources are closed before the catch runs. */
  function GetUserRun(table: seq<Row>, fault: Option<Fault>, username: Nullable<string>): Run
  {
    var run := ScopedLookup(table, fault, DataSource, StarQuery, [username], NotFound);
    match run.outcome
    case Threw(ex) => Run(Threw(Caught(ex)), run.calls)
    case Returned(_) => run
  }

  method GetUser(db: Database, username: Nullable<string>) returns (out: Outcome)
    modifies db
    ensures out == GetUserRun(db.table, db.fault, username).outcome
    ensures db.Recorded() == Then(old(db.Recorded()), GetUserRun(db.table, db.fault, username).calls)
  {
    var o := OpenStatement(db, DataSource, StarQuery);
    if o.Thrown? {
      return Threw(Caught(o.ex));
    }
    var (conn, ps) := o.value;
    ps.SetString(1, username);
    assert Binds([username], 1) == [Binding(1, username)];
    PositionalOne(username);
    var first := FirstUsername(ps);
    CloseBoth(conn, ps);
    ThenStep(old(db.Recorded()), Opened(DataSource, Render(StarQuery)), Bound([username]));
    if first.Thrown? {
      ThenStep(old(db.Recorded()), Then(Opened(DataSource, Render(StarQuery)), Bound([username])), ClosedBoth);
      return Threw(Caught(first.ex));
    }
    ThenStep(old(db.Recorded()), Then(Opened(DataSource, Render(StarQuery)), Bound([username])), ReadCalls);
    ThenStep(old(db.Recorded()), Then(Then(Opened(DataSource, Render(StarQuery)), Bound([username])), ReadCalls), ClosedBoth);
    if first.value.Some? {
      return Returned(Welcome(first.value.value));
    }
    return Returned(NotFound);
  }

  /** A driver failure at any stage ends in the generic exception, whatever
      the driver said: no SQLException, and no part of its message, reaches
      the caller. */
  lemma {:induction false} NoDriverMessageLeaks(table: seq<Row>, stage: Stage, message: string,
                                                username: Nullable<string>)
    ensures GetUserRun(table, Some(Fault(stage, message)), username).outcome == Threw(Exception(DatabaseError))
  {
    LookupResultCases(table, Some(Fault(stage, message)), StarQuery, [username], NotFound);
  }

  /** Without a driver failure, the handler greets u exactly when the name
      given is u and a row holds the username u, whatever characters u
      holds; a missing name binds SQL NULL and is never found. */
  lemma {:induction false} GetUserFound(table: seq<Row>, username: Nullable<string>)
    ensures GetUserRun(table, None, username).outcome
      == if username.NonNull? && HasUser(table, username.value) then Returned(Welcome(username.value))
         else Returned(NotFound)
  {
    LookupByName(table, None, StarQuery, username, NotFound);
  }

  /** The statement text is the constant query whatever the name, and the
      name is bound, unchanged, as parameter 1 and nowhere else. */
  lemma {:induction false} GetUserCalls(table: seq<Row>, fault: Option<Fault>, username: Nullable<string>)
    ensures var c := GetUserRun(table, fault, username).calls;
      && c.connects == [DataSource]
      && (fault.None? || fault.value.stage != AtConnect ==>
            c.statements == ["SELECT * FROM users WHERE username = ?"])
      && (fault.None? || fault.value.stage == AtExecute ==> c.bindings == [Binding(1, username)])
  {
    var sql := Render(StarQuery);
    StarQueryText();
    var c := ScopedCalls(fault, DataSource, sql, [username]);
    LookupCalls(fault, DataSource, sql, [username], c);
    if fault.None? || fault.value.stage == AtExecute {
      assert c.bindings[0] == Binding(1, username);
    }
  }

  /** Every resource the handler acquires is released, innermost first, on
      every path, the failing ones included. */
  lemma {:induction false} GetUserReleases(table: seq<Row>, fault: Option<Fault>, username: Nullable<string>)
    ensures Released(GetUserRun(table, fault, username).calls)
  {
    ScopedReleases(fault, DataSource, Render(StarQuery), [username]);
  }
}
