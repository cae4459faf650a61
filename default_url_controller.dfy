/** input_fixed.java: GET /getUser without any check on the username, with
    the connection arguments read from the environment (only the URL has a
    default) and the same parameterized, try-with-resources lookup as
    input.java. */
module DefaultUrlController {
  import opened JavaLang
  import opened Sql
  import opened Jdbc

  const DefaultUrl: string := "jdbc:h2:mem:appdb"
  const NotFound: string := "User not found."

  /** The connection arguments: DB_URL or, when unset, the in-memory URL;
      DB_USER and DB_PASS as they are, null when unset. */
  function Connection(env: Env): (via: Via)
    ensures via.DriverManager?
    ensures via.url == NonNull(if "DB_URL" in env then env["DB_URL"] else DefaultUrl)
    ensures via.user == (if "DB_USER" in env then NonNull(env["DB_USER"]) else Null)
    ensures via.password == (if "DB_PASS" in env then NonNull(env["DB_PASS"]) else Null)
  {
    var url := GetEnv(env, "DB_URL");
    DriverManager(if url.Null? then NonNull(DefaultUrl) else url, GetEnv(env, "DB_USER"), GetEnv(env, "DB_PASS"))
  }

  /** What getUser returns and the calls it makes on the database. */
  function GetUserRun(table: seq<Row>, fault: Option<Fault>, env: Env, username: Nullable<string>): Run
  {
    ScopedLookup(table, fault, Connection(env), UsernameQuery, [username], NotFound)
  }

  method GetUser(db: Database, env: Env, username: Nullable<string>) returns (out: Outcome)
    modifies db
    ensures out == GetUserRun(db.table, db.fault, env, username).outcome
    ensures db.Recorded() == Then(old(db.Recorded()), GetUserRun(db.table, db.fault, env, username).calls)
  {
    var url := GetEnv(env, "DB_URL");
    var user := GetEnv(env, "DB_USER");
    var pass := GetEnv(env, "DB_PASS");
    if url.Null? {
      url := NonNull(DefaultUrl);
    }
    var via := DriverManager(url, user, pass);
    ghost var run := GetUserRun(db.table, db.fault, env, username);
    assert run == ScopedLookup(db.table, db.fault, via, UsernameQuery, [username], NotFound);
    var o := OpenStatement(db, via, UsernameQuery);
    if o.Thrown? {
      return Threw(o.ex);
    }
    var (conn, ps) := o.value;
    ps.SetString(1, username);
    assert Binds([username], 1) == [Binding(1, username)];
    PositionalOne(username);
    var first := FirstUsername(ps);
    CloseBoth(conn, ps);
    ThenStep(old(db.Recorded()), Opened(via, Render(UsernameQuery)), Bound([username]));
    if first.Thrown? {
      ThenStep(old(db.Recorded()), Then(Opened(via, Render(UsernameQuery)), Bound([username])), ClosedBoth);
      return Threw(first.ex);
    }
    ThenStep(old(db.Recorded()), Then(Opened(via, Render(UsernameQuery)), Bound([username])), ReadCalls);
    ThenStep(old(db.Recorded()), Then(Then(Opened(via, Render(UsernameQuery)), Bound([username])), ReadCalls), ClosedBoth);
    if first.value.Some? {
      return Returned(Welcome(first.value.value));
    }
    return Returned(NotFound);
  }

  /** Without a driver failure, the handler greets u exactly when the name
      given is u and a row holds the username u, whatever characters u
      holds (a payload such as ' OR '1'='1 is just a name no row has); a
      missing name binds SQL NULL and is never found. With a failure, the
      driver's SQLException propagates unchanged. */
  lemma {:induction false} GetUserFound(table: seq<Row>, fault: Option<Fault>, env: Env, username: Nullable<string>)
    ensures fault.None? ==>
      (GetUserRun(table, fault, env, username).outcome
         == if username.NonNull? && HasUser(table, username.value) then Returned(Welcome(username.value))
            else Returned(NotFound))
    ensures fault.Some? ==>
      GetUserRun(table, fault, env, username).outcome == Threw(SQLException(fault.value.message))
  {
    LookupByName(table, fault, UsernameQuery, username, NotFound);
  }

  /** The statement text is the constant query whatever the name, and the
      name is bound, unchanged, as parameter 1 and nowhere else. */
  lemma {:induction false} GetUserCalls(table: seq<Row>, fault: Option<Fault>, env: Env, username: Nullable<string>)
    ensures var c := GetUserRun(table, fault, env, username).calls;
      && c.connects == [Connection(env)]
      && (fault.None? || fault.value.stage != AtConnect ==>
            c.statements == ["SELECT username FROM users WHERE username = ?"])
      && (fault.None? || fault.value.stage == AtExecute ==> c.bindings == [Binding(1, username)])
  {
    var sql := Render(UsernameQuery);
    UsernameQueryText();
    var c := ScopedCalls(fault, Connection(env), sql, [username]);
    LookupCalls(fault, Connection(env), sql, [username], c);
    if fault.None? || fault.value.stage == AtExecute {
      assert c.bindings[0] == Binding(1, username);
    }
  }

  /** Every resource the handler acquires is released, innermost first, on
      every path. */
  lemma {:induction false} GetUserReleases(table: seq<Row>, fault: Option<Fault>, env: Env, username: Nullable<string>)
    ensures Released(GetUserRun(table, fault, env, username).calls)
  {
    ScopedReleases(fault, Connection(env), Render(UsernameQuery), [username]);
  }
}
