/** src/main/java/com/example/demo/UserController.java: GET /getUser asks
    JdbcTemplate.queryForObject for the single username matching the
    parameterized query and maps what happens to an HTTP response: the
    greeting with 200, "User not found." with 404 when the template reports
    an empty result, and a fixed message with 500 for any other exception.
    What queryForObject does with the database is an input here. */
module DemoController {
  import opened JavaLang
  import opened Sql

  const NotFound: string := "User not found."
  const ServerError: string := "Internal server error."

  const OkStatus: int := 200
  const NotFoundStatus: int := 404
  const InternalServerError: int := 500

  /** ResponseEntity<String>: a status code and a body. */
  datatype Response = Response(status: int, body: string)

  /** A call of queryForObject: the query text and its parameters. */
  datatype Call = Call(sql: string, args: seq<Nullable<string>>)

  /** The call getUser makes: the constant query text, with the username as
      its single parameter. */
  function Request(username: Nullable<string>): Call
  {
    Call(Render(UsernameQuery), [username])
  }

  /** getUser: one call of queryForObject with Request(username), whose
      value (null for a NULL column) or exception decides the response. The
      template is a parameter: what it answers for a call is not derived
      from any table here. */
  function GetUser(username: Nullable<string>, queryForObject: Call -> Throws<Nullable<string>>): (r: Response)
    ensures r.status == OkStatus || r.status == NotFoundStatus || r.status == InternalServerError
    ensures r.status != OkStatus ==> r.body == NotFound || r.body == ServerError
  {
    match queryForObject(Request(username))
    case Ok(user) => Response(OkStatus, Concat(WelcomePrefix, user))
    case Thrown(EmptyResultDataAccessException) => Response(NotFoundStatus, NotFound)
    case Thrown(_) => Response(InternalServerError, ServerError)
  }

  /** The three ways out, each with its whole response: 200 with the
      greeting exactly when a value came back ("Welcome, null" for a null
      value); 404 with "User not found." exactly when the template reported
      an empty result; 500 with the fixed message for every other
      exception. */
  lemma {:induction false} GetUserStatuses(username: Nullable<string>, queryForObject: Call -> Throws<Nullable<string>>)
    ensures (GetUser(username, queryForObject).status == OkStatus) <==> queryForObject(Request(username)).Ok?
    ensures queryForObject(Request(username)).Ok? ==>
      (GetUser(username, queryForObject)
         == Response(OkStatus, WelcomePrefix + (if queryForObject(Request(username)).value.Null? then "null"
                                          else queryForObject(Request(username)).value.value)))
    ensures (GetUser(username, queryForObject).status == NotFoundStatus)
      <==> (queryForObject(Request(username)) == Thrown(EmptyResultDataAccessException))
    ensures queryForObject(Request(username)) == Thrown(EmptyResultDataAccessException) ==>
      (GetUser(username, queryForObject) == Response(NotFoundStatus, NotFound))
    ensures (GetUser(username, queryForObject).status == InternalServerError)
      <==> (queryForObject(Request(username)).Thrown?
            && queryForObject(Request(username)).ex != EmptyResultDataAccessException)
  {
  }

  /** No exception's message reaches the client: whatever exception other
      than an empty result the template throws, the response is the same
      fixed 500. */
  lemma {:induction false} NoExceptionLeaks(username: Nullable<string>, queryForObject: Call -> Throws<Nullable<string>>)
    requires queryForObject(Request(username)).Thrown?
    requires queryForObject(Request(username)).ex != EmptyResultDataAccessException
    ensures GetUser(username, queryForObject) == Response(InternalServerError, ServerError)
  {
  }

  /** The handler sends exactly Request(username): the constant query text,
      with the username, neither checked nor altered, as its only argument.
      Two templates that answer that one call alike give the same response,
      whatever they answer for any other call. */
  lemma {:induction false} RequestText(username: Nullable<string>,
                                       f: Call -> Throws<Nullable<string>>, g: Call -> Throws<Nullable<string>>)
    ensures Request(username).sql == "SELECT username FROM users WHERE username = ?"
    ensures Request(username).args == [username]
    ensures f(Request(username)) == g(Request(username)) ==> GetUser(username, f) == GetUser(username, g)
  {
    UsernameQueryText();
  }
}
