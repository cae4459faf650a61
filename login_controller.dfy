/** src/main/java/com/example/UserController_fixed.java: GET /login checks
    that both fields are present and at most 100 characters long, then looks
    the pair up with a two-parameter query on a connection from the
    configured DataSource, inside try-with-resources. */
module LoginController {
  import opened JavaLang
  import opened Sql
  import opened Jdbc

  const InvalidInput: string := "Invalid input."
  const LoginFailed: string := "Login failed."
  const MaxLength: nat := 100

  /** The input check: either field null, or longer than 100 UTF-16 units. */
  predicate Refused(username: Nullable<string>, password: Nullable<string>)
  {
    username.Null? || JavaLength(username.value) > MaxLength
    || password.Null? || JavaLength(password.value) > MaxLength
  }

  /** What login returns and the calls it makes on the database. */
  function LoginRun(table: seq<Row>, fault: Option<Fault>, username: Nullable<string>, password: Nullable<string>): Run
  {
    if Refused(username, password) then Run(Returned(InvalidInput), NoCalls)
    else ScopedLookup(table, fault, DataSource, LoginQuery, [username, password], LoginFailed)
  }

  method Login(db: Database, username: Nullable<string>, password: Nullable<string>) returns (out: Outcome)
    modifies db
    ensures out == LoginRun(db.table, db.fault, username, password).outcome
    ensures db.Recorded() == Then(old(db.Recorded()), LoginRun(db.table, db.fault, username, password).calls)
  {
    if username.Null? || JavaLength(username.value) > MaxLength
       || password.Null? || JavaLength(password.value) > MaxLength {
      return Returned(InvalidInput);
    }
    ghost var run := LoginRun(db.table, db.fault, username, password);
    assert run == ScopedLookup(db.table, db.fault, DataSource, LoginQuery, [username, password], LoginFailed);
    var o := OpenStatement(db, DataSource, LoginQuery);
    if o.Thrown? {
      return Threw(o.ex);
    }
    var (conn, ps) := o.value;
    ps.SetString(1, username);
    ps.SetString(2, password);
    PositionalTwo(username, password);
    var bound := Bound([username, password]);
    assert [username, password][1..] == [password];
    assert Then(Calls([], [], [Binding(1, username)], [], []), Calls([], [], [Binding(2, password)], [], [])) == bound;
    ThenStep(Then(old(db.Recorded()), Opened(DataSource, Render(LoginQuery))),
             Calls([], [], [Binding(1, username)], [], []), Calls([], [], [Binding(2, password)], [], []));
    var first := FirstUsername(ps);
    CloseBoth(conn, ps);
    ThenStep(old(db.Recorded()), Opened(DataSource, Render(LoginQuery)), bound);
    if first.Thrown? {
      ThenStep(old(db.Recorded()), Then(Opened(DataSource, Render(LoginQuery)), bound), ClosedBoth);
      return Threw(first.ex);
    }
    ThenStep(old(db.Recorded()), Then(Opened(DataSource, Render(LoginQuery)), bound), ReadCalls);
    ThenStep(old(db.Recorded()), Then(Then(Opened(DataSource, Render(LoginQuery)), bound), ReadCalls), ClosedBoth);
    if first.value.Some? {
      return Returned(Welcome(first.value.value));
    }
    return Returned(LoginFailed);
  }

  /** The handler answers "Invalid input." exactly when the input check
      fails, and it touches the database exactly when the check passes. */
  lemma {:induction false} LoginRefuses(table: seq<Row>, fault: Option<Fault>,
                                        username: Nullable<string>, password: Nullable<string>)
    ensures LoginRun(table, fault, username, password).outcome == Returned(InvalidInput)
            <==> Refused(username, password)
    ensures LoginRun(table, fault, username, password).calls == NoCalls <==> Refused(username, password)
  {
    if !Refused(username, password) {
      var args := [username, password];
      var c := ScopedCalls(fault, DataSource, Render(LoginQuery), args);
      LookupCalls(fault, DataSource, Render(LoginQuery), args, c);
      LookupResultCases(table, fault, LoginQuery, args, LoginFailed);
      var out := LookupResult(table, fault, LoginQuery, args, LoginFailed);
      if out.Returned? && out.body != LoginFailed {
        var j :| FirstMatch(LoginQuery, Positional(args), table, j) && out == Returned(Welcome(table[j].username));
        assert InvalidInput[..|WelcomePrefix|][0] == 'I';
        WelcomeIsNot(table[j].username, InvalidInput);
      }
    }
  }

  /** The length check in characters: a field of more than 100 characters
      is always refused, one of at most 50 characters never is, and between
      the two it depends on how many characters lie outside the Basic
      Multilingual Plane; for text inside it the bound is exactly 100
      characters, the empty string included. */
  lemma {:induction false} LengthLimits(u: string, p: string)
    ensures |u| > MaxLength || |p| > MaxLength ==> Refused(NonNull(u), NonNull(p))
    ensures |u| <= MaxLength / 2 && |p| <= MaxLength / 2 ==> !Refused(NonNull(u), NonNull(p))
    ensures (forall i :: 0 <= i < |u| ==> u[i] as int < 0x1_0000)
         && (forall i :: 0 <= i < |p| ==> p[i] as int < 0x1_0000)
         ==> (Refused(NonNull(u), NonNull(p)) <==> |u| > MaxLength || |p| > MaxLength)
  {
    var lu := JavaLength(u);
    var lp := JavaLength(p);
  }

  /** Without a driver failure, an accepted pair is greeted, with the given
      username, exactly when a row holds both the username and the password;
      quotes or SQL keywords in either field change nothing, since both are
      compared as values. With a failure, the driver's SQLException
      propagates unchanged. */
  lemma {:induction false} LoginFound(table: seq<Row>, fault: Option<Fault>, u: string, p: string)
    requires !Refused(NonNull(u), NonNull(p))
    ensures fault.None? ==>
      (LoginRun(table, fault, NonNull(u), NonNull(p)).outcome
         == if HasCredentials(table, u, p) then Returned(Welcome(u)) else Returned(LoginFailed))
    ensures fault.Some? ==>
      LoginRun(table, fault, NonNull(u), NonNull(p)).outcome == Threw(SQLException(fault.value.message))
  {
    var args := [NonNull(u), NonNull(p)];
    LookupResultCases(table, fault, LoginQuery, args, LoginFailed);
    forall r: Row
      ensures Matches(LoginQuery, Positional(args), r) <==> r.username == u && r.password == p
    {
      LoginMatch(u, p, r);
    }
    if fault.None? && HasCredentials(table, u, p) {
      var r :| r in table && r.username == u && r.password == p;
      var k :| 0 <= k < |table| && table[k] == r;
      assert Matches(LoginQuery, Positional(args), table[k]);
    }
  }

  /** The statement text is the constant two-placeholder query, and the two
      fields are bound, unchanged, as parameters 1 and 2. */
  lemma {:induction false} LoginCalls(table: seq<Row>, fault: Option<Fault>, u: string, p: string)
    requires !Refused(NonNull(u), NonNull(p))
    ensures var c := LoginRun(table, fault, NonNull(u), NonNull(p)).calls;
      && c.connects == [DataSource]
      && (fault.None? || fault.value.stage != AtConnect ==>
            c.statements == ["SELECT username FROM users WHERE username = ? AND password = ?"])
      && (fault.None? || fault.value.stage == AtExecute ==>
            c.bindings == [Binding(1, NonNull(u)), Binding(2, NonNull(p))])
  {
    var args := [NonNull(u), NonNull(p)];
    LoginQueryText();
    var c := ScopedCalls(fault, DataSource, Render(LoginQuery), args);
    LookupCalls(fault, DataSource, Render(LoginQuery), args, c);
    if fault.None? || fault.value.stage == AtExecute {
      assert c.bindings[0] == Binding(1, NonNull(u)) && c.bindings[1] == Binding(2, NonNull(p));
    }
  }

  /** Every resource the handler acquires is released, innermost first, on
      every path. */
  lemma {:induction false} LoginReleases(table: seq<Row>, fault: Option<Fault>,
                                         username: Nullable<string>, password: Nullable<string>)
    ensures Released(LoginRun(table, fault, username, password).calls)
  {
    if !Refused(username, password) {
      ScopedReleases(fault, DataSource, Render(LoginQuery), [username, password]);
    }
  }
}
