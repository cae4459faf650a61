/** UserController.java: GET /getUser with no check on the username, the
    connection arguments read from the environment without defaults, a
    `SELECT *` parameterized lookup, and no resource handling at all: the
    connection, the statement and the result set are never closed. */
module EnvCredentialsController {
  import opened JavaLang
  import opened Sql
  import opened Jdbc

  const NotFound: string := "User not found."

  /** The connection arguments DB_URL, DB_USER and DB_PASSWORD, each null
      when unset. */
  function Connection(env: Env): (via: Via)
    ensures via.DriverManager?
    ensures via.url == (if "DB_URL" in env then NonNull(env["DB_URL"]) else Null)
    ensures via.user == (if "DB_USER" in env then NonNull(env["DB_USER"]) else Null)
    ensures via.password == (if "DB_PASSWORD" in env then NonNull(env["DB_PASSWORD"]) else Null)
  {
    DriverManager(GetEnv(env, "DB_URL"), GetEnv(env, "DB_USER"), GetEnv(env, "DB_PASSWORD"))
  }

  /** What getUser returns and the calls it makes on the database. */
  function GetUserRun(table: seq<Row>, fault: Option<Fault>, env: Env, username: Nullable<string>): Run
  {
    UnscopedLookup(table, fault, Connection(env), StarQuery, [username], NotFound)
  }

  method GetUser(db: Database, env: Env, username: Nullable<string>) returns (out: Outcome)
    modifies db
    ensures out == GetUserRun(db.table, db.fault, env, username).outcome
    ensures db.Recorded() == Then(old(db.Recorded()), GetUserRun(db.table, db.fault, env, username).calls)
  {
    var dbUrl := GetEnv(env, "DB_URL");
    var dbUser := GetEnv(env, "DB_USER");
    var dbPassword := GetEnv(env, "DB_PASSWORD");
    var via := DriverManager(dbUrl, dbUser, dbPassword);
    var sql := Render(StarQuery);
    var connected := Calls([via], [], [], [ConnectionRes], []);
    ghost var run := GetUserRun(db.table, db.fault, env, username);
    assert run == UnscopedLookup(db.table, db.fault, via, StarQuery, [username], NotFound);
    var c := db.GetConnection(via);
    if c.Thrown? {
      return Threw(c.ex);
    }
    var conn := c.value;
    var p := conn.PrepareStatement(StarQuery);
    if p.Thrown? {
      ThenStep(old(db.Recorded()), connected, Calls([], [sql], [], [], []));
      return Threw(p.ex);
    }
    var prepared := Then(connected, Calls([], [sql], [], [StatementRes], []));
    ThenStep(old(db.Recorded()), connected, Calls([], [sql], [], [StatementRes], []));
    var stmt := p.value;
    stmt.SetString(1, username);
    assert Binds([username], 1) == [Binding(1, username)];
    PositionalOne(username);
    ThenStep(old(db.Recorded()), prepared, Bound([username]));
    var e := stmt.ExecuteQuery();
    if e.Thrown? {
      return Threw(e.ex);
    }
    ThenStep(old(db.Recorded()), Then(prepared, Bound([username])), Calls([], [], [], [ResultSetRes], []));
    var rs := e.value;
    var first := FirstRow(rs);
    if first.Some? {
      return Returned(Welcome(first.value));
    }
    return Returned(NotFound);
  }

  /** Nothing is ever released: a run that reaches the result leaves the
      connection, the statement and the result set open, and so does every
      run that gets a connection at all. */
  lemma {:induction false} GetUserLeaks(table: seq<Row>, fault: Option<Fault>, env: Env, username: Nullable<string>)
    ensures GetUserRun(table, fault, env, username).calls.released == []
    ensures fault.None? ==>
      GetUserRun(table, fault, env, username).calls.acquired == [ConnectionRes, StatementRes, ResultSetRes]
    ensures fault.None? || fault.value.stage != AtConnect ==> !Released(GetUserRun(table, fault, env, username).calls)
  {
    UnscopedLeaks(fault, Connection(env), Render(StarQuery), [username]);
  }

  /** Without a driver failure, the handler greets u exactly when the name
      given is u and a row holds the username u, whatever characters u
      holds; a missing name binds SQL NULL and is never found. With a
      failure, the driver's SQLException propagates unchanged. */
  lemma {:induction false} GetUserFound(table: seq<Row>, fault: Option<Fault>, env: Env, username: Nullable<string>)
    ensures fault.None? ==>
      (GetUserRun(table, fault, env, username).outcome
         == if username.NonNull? && HasUser(table, username.value) then Returned(Welcome(username.value))
            else Returned(NotFound))
    ensures fault.Some? ==>
      GetUserRun(table, fault, env, username).outcome == Threw(SQLException(fault.value.message))
  {
    LookupByName(table, fault, StarQuery, username, NotFound);
  }

  /** The statement text is the constant query whatever the name, and the
      name is bound, unchanged, as parameter 1 and nowhere else. */
  lemma {:induction false} GetUserCalls(table: seq<Row>, fault: Option<Fault>, env: Env, username: Nullable<string>)
    ensures var c := GetUserRun(table, fault, env, username).calls;
      && c.connects == [Connection(env)]
      && (fault.None? || fault.value.stage != AtConnect ==>
            c.statements == ["SELECT * FROM users WHERE username = ?"])
      && (fault.None? || fault.value.stage == AtExecute ==> c.bindings == [Binding(1, username)])
  {
    var sql := Render(StarQuery);
    StarQueryText();
    var c := UnscopedCalls(fault, Connection(env), sql, [username]);
    LookupCalls(fault, Connection(env), sql, [username], c);
    if fault.None? || fault.value.stage == AtExecute {
      assert c.bindings[0] == Binding(1, username);
    }
  }
}
