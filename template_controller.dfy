/** src/main/java/com/example/UserController.java: GET /getUser runs the
    parameterized lookup through JdbcTemplate.query, mapping each returned
    row to its username, and greets the first one, or answers
    "User not found." when the list is empty. Nothing is caught: a failure
    of the template propagates as Spring's DataAccessException. */
module TemplateController {
  import opened JavaLang
  import opened Sql
  import opened Jdbc

  const NotFound: string := "User not found."

  /** The JdbcTemplate bean: the table its data source holds, and the
      message of the DataAccessException it throws instead of answering,
      if it fails. */
  datatype Template = Template(table: seq<Row>, failure: Option<string>)

  /** The row mapper (rs, rowNum) -> rs.getString("username"), applied to
      every row in order. */
  function Usernames(rows: seq<Row>): (names: seq<string>)
    ensures |names| == |rows|
    ensures forall i :: 0 <= i < |rows| ==> names[i] == rows[i].username
  {
    if rows == [] then [] else [rows[0].username] + Usernames(rows[1..])
  }

  /** jdbcTemplate.query(text of q, args, mapper). */
  function Query(t: Template, q: Select, args: seq<Nullable<string>>): (r: Throws<seq<string>>)
    ensures r.Thrown? <==> t.failure.Some?
    ensures r.Ok? ==> |r.value| <= |t.table|
    ensures r.Ok? ==> forall i :: 0 <= i < |r.value| ==> HasUser(t.table, r.value[i])
  {
    if t.failure.Some? then Thrown(DataAccessException(t.failure.value))
    else
      var rows := Eval(q, Positional(args), t.table);
      assert forall r :: r in rows ==> r in t.table by {
        forall r | r in rows ensures r in t.table {
          EvalExact(q, Positional(args), t.table, r);
        }
      }
      Ok(Usernames(rows))
  }

  /** The greeting, if any, names a user of the table; nothing is caught. */
  function GetUser(t: Template, username: Nullable<string>): (r: Outcome)
    ensures r.Threw? <==> t.failure.Some?
    ensures r.Returned? && r.body != NotFound ==> exists i :: 0 <= i < |t.table| && r.body == Welcome(t.table[i].username)
  {
    match Query(t, UsernameQuery, [username])
    case Thrown(ex) => Threw(ex)
    case Ok(users) => if users != [] then Returned(Welcome(users[0])) else Returned(NotFound)
  }

  /** The template's list has one username per matching row, in table
      order: the handler ends exactly like a hand-written lookup of the
      first row. */
  lemma {:induction false} GetUserIsLookup(t: Template, username: Nullable<string>)
    ensures t.failure.None? ==>
      GetUser(t, username) == LookupResult(t.table, None, UsernameQuery, [username], NotFound)
  {
  }

  /** Without a failure, the handler greets u exactly when the name given is
      u and a row holds the username u, whatever characters u holds; a
      missing name is never found. A failure propagates as the template's
      DataAccessException. */
  lemma {:induction false} GetUserFound(t: Template, username: Nullable<string>)
    ensures t.failure.None? ==>
      (GetUser(t, username)
         == if username.NonNull? && HasUser(t.table, username.value) then Returned(Welcome(username.value))
            else Returned(NotFound))
    ensures t.failure.Some? ==> GetUser(t, username) == Threw(DataAccessException(t.failure.value))
  {
    GetUserIsLookup(t, username);
    LookupByName(t.table, None, UsernameQuery, username, NotFound);
  }

  /** The injection scenario of the integration test: with the single user
      john in the table, the payload ' OR '1'='1 is compared as a name, so
      the answer is the not-found message (sent with status 200). */
  lemma {:induction false} InjectionPayloadNotFound()
    ensures GetUser(Template([Row("john", "")], None), NonNull("' OR '1'='1")) == Returned(NotFound)
  {
    var t := Template([Row("john", "")], None);
    GetUserFound(t, NonNull("' OR '1'='1"));
    assert "' OR '1'='1"[0] != "john"[0];
    assert !HasUser(t.table, "' OR '1'='1");
  }
}
