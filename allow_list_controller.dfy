/** input.java: GET /getUser with an allow-list check on the username before
    any database work, credentials read from the environment with defaults,
    and a parameterized lookup whose connection, statement and result set are
    try-with-resources declarations. */
module AllowListController {
  import opened JavaLang
  import opened Sql
  import opened Jdbc

  const InvalidUsername: string := "Invalid username"
  const NotFound: string := "User not found."
  const DefaultUrl: string := "jdbc:mysql://localhost:3306/appdb"
  const DefaultUser: string := "root"
  const DefaultPass: string := ""

  /** The character class of the allow-list pattern: ASCII letters, digits,
      underscore and hyphen. */
  predicate AllowedChar(c: char)
  {
    ('A' <= c <= 'Z') || ('a' <= c <= 'z') || ('0' <= c <= '9') || c == '_' || c == '-'
  }

  /** username.matches of the allow-list: the whole string is 1 to 50
      allowed characters. */
  predicate ValidUsername(u: string)
  {
    1 <= |u| <= 50 && forall i :: 0 <= i < |u| ==> AllowedChar(u[i])
  }

  /** The connection arguments: each variable, or its default when unset. */
  function Credentials(env: Env): (via: Via)
    ensures via.DriverManager?
    ensures via.url == NonNull(if "DB_URL" in env then env["DB_URL"] else DefaultUrl)
    ensures via.user == NonNull(if "DB_USER" in env then env["DB_USER"] else DefaultUser)
    ensures via.password == NonNull(if "DB_PASS" in env then env["DB_PASS"] else DefaultPass)
  {
    DriverManager(NonNull(GetOrDefault(env, "DB_URL", DefaultUrl)),
                  NonNull(GetOrDefault(env, "DB_USER", DefaultUser)),
                  NonNull(GetOrDefault(env, "DB_PASS", DefaultPass)))
  }

  predicate Rejected(username: Nullable<string>)
  {
    username.Null? || !ValidUsername(username.value)
  }

  /** What getUser returns and the calls it makes on the database. */
  function GetUserRun(table: seq<Row>, fault: Option<Fault>, env: Env, username: Nullable<string>): Run
  {
    if Rejected(username) then Run(Returned(InvalidUsername), NoCalls)
    else ScopedLookup(table, fault, Credentials(env), UsernameQuery, [username], NotFound)
  }

  method GetUser(db: Database, env: Env, username: Nullable<string>) returns (out: Outcome)
    modifies db
    ensures out == GetUserRun(db.table, db.fault, env, username).outcome
    ensures db.Recorded() == Then(old(db.Recorded()), GetUserRun(db.table, db.fault, env, username).calls)
  {
    if username.Null? || !ValidUsername(username.value) {
      return Returned(InvalidUsername);
    }
    var dbUrl := GetOrDefault(env, "DB_URL", DefaultUrl);
    var dbUser := GetOrDefault(env, "DB_USER", DefaultUser);
    var dbPass := GetOrDefault(env, "DB_PASS", DefaultPass);
    var via := DriverManager(NonNull(dbUrl), NonNull(dbUser), NonNull(dbPass));
    ghost var run := GetUserRun(db.table, db.fault, env, username);
    assert run == ScopedLookup(db.table, db.fault, via, UsernameQuery, [username], NotFound);
    var o := OpenStatement(db, via, UsernameQuery);
    if o.Thrown? {
      return Threw(o.ex);
    }
    var (conn, ps) := o.value;
    ps.SetString(1, username);
    assert Binds([username], 1) == [Binding(1, username)];
    PositionalOne(username);
    var first := FirstUsername(ps);
    CloseBoth(conn, ps);
    ThenStep(old(db.Recorded()), Opened(via, Render(UsernameQuery)), Bound([username]));
    if first.Thrown? {
      ThenStep(old(db.Recorded()), Then(Opened(via, Render(UsernameQuery)), Bound([username])), ClosedBoth);
      return Threw(first.ex);
    }
    ThenStep(old(db.Recorded()), Then(Opened(via, Render(UsernameQuery)), Bound([username])), ReadCalls);
    ThenStep(old(db.Recorded()), Then(Then(Opened(via, Render(UsernameQuery)), Bound([username])), ReadCalls), ClosedBoth);
    if first.value.Some? {
      return Returned(Welcome(first.value.value));
    }
    return Returned(NotFound);
  }

  /** The handler answers "Invalid username" exactly when the username is
      null or fails the allow-list, and it touches the database exactly when
      the username passes: a greeting, the not-found message and a driver
      exception are all different from the rejection. */
  lemma {:induction false} GetUserRejects(table: seq<Row>, fault: Option<Fault>, env: Env, username: Nullable<string>)
    ensures GetUserRun(table, fault, env, username).outcome == Returned(InvalidUsername) <==> Rejected(username)
    ensures GetUserRun(table, fault, env, username).calls == NoCalls <==> Rejected(username)
    ensures Rejected(username) ==> GetUserRun(table, fault, env, username) == Run(Returned(InvalidUsername), NoCalls)
  {
    if !Rejected(username) {
      var sql := Render(UsernameQuery);
      LookupCalls(fault, Credentials(env), sql, [username], ScopedCalls(fault, Credentials(env), sql, [username]));
      LookupResultCases(table, fault, UsernameQuery, [username], NotFound);
      var out := LookupResult(table, fault, UsernameQuery, [username], NotFound);
      if out.Returned? && out.body != NotFound {
        var j :| FirstMatch(UsernameQuery, Positional([username]), table, j)
                 && out == Returned(Welcome(table[j].username));
        assert InvalidUsername[..|WelcomePrefix|][0] == 'I';
        WelcomeIsNot(table[j].username, InvalidUsername);
      }
    }
  }

  /** The allow-list refuses the empty name and names longer than 50
      characters, and an accepted name holds no quote, space, semicolon,
      equals sign, parenthesis, slash or asterisk. (The hyphen is allowed,
      so "--" can appear in an accepted name; the name is bound as a
      parameter, never spliced into the text.) */
  lemma {:induction false} AcceptedNames(u: string)
    ensures |u| == 0 || |u| > 50 ==> Rejected(NonNull(u))
    ensures !Rejected(NonNull(u)) ==>
      '\'' !in u && '"' !in u && ' ' !in u && ';' !in u && '=' !in u && '(' !in u && '/' !in u && '*' !in u
  {
    if !Rejected(NonNull(u)) {
      forall i | 0 <= i < |u| ensures AllowedChar(u[i]) { }
    }
  }

  /** The classic payloads are rejected before any database work, and a
      typical name passes. */
  lemma {:induction false} PayloadsRejected()
    ensures Rejected(NonNull("' OR '1'='1"))
    ensures Rejected(NonNull("admin'--"))
    ensures Rejected(NonNull("'; DROP TABLE users; --"))
    ensures Rejected(NonNull("john doe"))
    ensures !Rejected(NonNull("john_doe-42"))
  {
    assert !AllowedChar("' OR '1'='1"[0]);
    assert !AllowedChar("'; DROP TABLE users; --"[0]);
    assert !AllowedChar("admin'--"[5]);
    assert !AllowedChar("john doe"[4]);
  }

  /** A name that passes reaches the driver unchanged and apart from the
      query: the connection uses each environment variable or its default,
      the statement text is the constant query, and the name is bound as
      parameter 1 and nowhere else. */
  lemma {:induction false} GetUserCalls(table: seq<Row>, fault: Option<Fault>, env: Env, u: string)
    requires !Rejected(NonNull(u))
    ensures var c := GetUserRun(table, fault, env, NonNull(u)).calls;
      && c.connects == [Credentials(env)]
      && (fault.None? || fault.value.stage != AtConnect ==>
            c.statements == ["SELECT username FROM users WHERE username = ?"])
      && (fault.None? || fault.value.stage == AtExecute ==> c.bindings == [Binding(1, NonNull(u))])
  {
    var sql := Render(UsernameQuery);
    UsernameQueryText();
    var c := ScopedCalls(fault, Credentials(env), sql, [NonNull(u)]);
    LookupCalls(fault, Credentials(env), sql, [NonNull(u)], c);
    if fault.None? || fault.value.stage == AtExecute {
      assert c.bindings[0] == Binding(1, NonNull(u));
    }
  }

  /** Without a driver failure, an accepted name is greeted exactly when a
      row holds that username, and only that username is ever greeted;
      with one, the driver's SQLException propagates unchanged. */
  lemma {:induction false} GetUserFound(table: seq<Row>, fault: Option<Fault>, env: Env, u: string)
    requires !Rejected(NonNull(u))
    ensures fault.None? ==>
      (GetUserRun(table, fault, env, NonNull(u)).outcome
         == if HasUser(table, u) then Returned(Welcome(u)) else Returned(NotFound))
    ensures fault.Some? ==>
      GetUserRun(table, fault, env, NonNull(u)).outcome == Threw(SQLException(fault.value.message))
  {
    LookupByName(table, fault, UsernameQuery, NonNull(u), NotFound);
  }

  /** Every resource the handler acquires is released, innermost first, on
      every path. */
  lemma {:induction false} GetUserReleases(table: seq<Row>, fault: Option<Fault>, env: Env, username: Nullable<string>)
    ensures Released(GetUserRun(table, fault, env, username).calls)
  {
    if !Rejected(username) {
      ScopedReleases(fault, Credentials(env), Render(UsernameQuery), [username]);
    }
  }
}
