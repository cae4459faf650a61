# Verified model of the "does this user exist" handlers

The repository holds seven versions of one web handler. Each takes a
username (and, in one version, a password). It looks the name up in a
`users` table and answers "Welcome, <name>" or a not-found message. The
versions differ in how they:

- validate the input: an allow-list, length bounds, or nothing;
- obtain connection credentials: environment variables with defaults, with
  only a URL default, with none, or from a configured `DataSource`;
- manage resources: try-with-resources, or nothing closed at all;
- map failures to answers: propagate them, replace them with a generic
  exception, or turn them into HTTP status codes.

This project models each version and proves what it does.

## Structure

- `java_lang.dfy` (`JavaLang`): the Java values the handlers pass around:
  - null references (`Nullable`) and thrown exceptions (`Throws`, `Outcome`);
  - the process environment, with `System.getenv` and `getOrDefault`;
  - `String.length()` in UTF-16 units;
  - the greeting `"Welcome, " + name`, and concatenation with a null operand.
- `sql.dfy` (`Sql`): queries kept as structure.
  - A `Select` has a projection, a table and the columns of its `WHERE` conditions.
  - `Render` produces the exact text handed to `prepareStatement`, with one `?` per condition.
  - Parameter values travel separately, as a map from 1-based index to value.
  - The database evaluates a query as an exact-match filter over a sequence of rows.
  - A NULL parameter matches nothing.
- `jdbc.dfy` (`Jdbc`): the JDBC objects the handlers drive step by step.
  - There are classes `Database`, `Connection`, `PreparedStatement` and `ResultSet`.
  - The `Database` records the calls made to it: connection attempts,
    statement texts, bound values, resources acquired and resources released.
    A handler's contract therefore states what it did to the database, and in what order.
  - Driver behaviour is an input: the table, and at most one stage (connect,
    prepare, execute) at which the driver throws an `SQLException`.
  - It also holds the pieces the try-with-resources versions share, and the
    reference definitions of a lookup's result and calls, with and without
    resource handling.
- One module per handler:

  | module | source |
  |---|---|
  | `AllowListController` | `input.java` |
  | `DefaultUrlController` | `input_fixed.java` |
  | `LoginController` | `src/main/java/com/example/UserController_fixed.java` |
  | `DataSourceController` | `UserController_fixed.java` |
  | `EnvCredentialsController` | `UserController.java` |
  | `DemoController` | `src/main/java/com/example/demo/UserController.java` |
  | `TemplateController` | `src/main/java/com/example/UserController.java` |

  - The five JDBC versions are methods over the JDBC classes. Each is
    proved equal to a reference function (`GetUserRun`, `LoginRun`) for
    both the answer and the recorded calls.
  - The two JdbcTemplate versions are pure functions.

The allow-list at `input.java:13` is written as the regex literal
`"[A-Za-z0-9_\-]{1,50}"`. The `\-` escape is illegal in Java source, so the
file does not compile as written. The model uses the evident intended
class, ASCII letters, digits, `_` and `-`, as a character predicate.

The model follows the code where a stricter policy might be expected:

- There is no trimming of the username.
- The login version's input failure is the plain string "Invalid input.", not a 400 status.
- The demo version's server error body is "Internal server error.".
- `input.java` does not fail closed on missing credentials: it defaults them
  to `root` and the empty password.
- `input_fixed.java` and `UserController.java` pass missing credentials
  as null.

## Model

| member | source | states |
|---|---|---|
| JavaLang.GetEnv | UserController.java:11-13 | `System.getenv` gives the value exactly when the variable is set, and null otherwise |
| JavaLang.GetOrDefault | input.java:17-19 | `getOrDefault` gives the variable's value when it is set, and the default otherwise |
| JavaLang.JavaLength | src/main/java/com/example/UserController_fixed.java:22 | `length()` lies between the number of characters and twice that, and equals it for text inside the Basic Multilingual Plane |
| JavaLang.WelcomeInverse | input.java:27 | the greeting is the prefix followed by the name, so the name can be read back from it |
| JavaLang.WelcomeInjective | input.java:27 | two greetings are equal exactly when the names are |
| JavaLang.WelcomeIsNot | input.java:27 | a greeting never equals a message that does not start with "Welcome, " |
| Sql.UsernameQueryText | input.java:21 | the lookup renders to exactly `SELECT username FROM users WHERE username = ?` |
| Sql.StarQueryText | UserController_fixed.java:25 | the `SELECT *` lookup renders to exactly `SELECT * FROM users WHERE username = ?` |
| Sql.LoginQueryText | src/main/java/com/example/UserController_fixed.java:26 | the credential check renders to exactly `SELECT username FROM users WHERE username = ? AND password = ?` |
| Sql.CountAppend | input.java:21 | counting placeholders is additive over concatenation |
| Sql.ConditionPlaceholders | src/main/java/com/example/UserController_fixed.java:26 | the WHERE conditions hold one placeholder each |
| Sql.PlaceholderCount | src/main/java/com/example/UserController_fixed.java:26 | a rendered query holds exactly as many `?` as it has conditions, so no value is part of the text |
| Sql.QueryPlaceholders | src/main/java/com/example/UserController_fixed.java:26 | the lookups hold one placeholder and the credential check two |
| Sql.Positional | src/main/java/com/example/UserController_fixed.java:30-31 | the arguments are bound at positions 1..n, each unchanged, and nothing else is bound |
| Sql.PositionalOne | input.java:24 | binding one value puts it at position 1 and binds nothing else |
| Sql.PositionalTwo | src/main/java/com/example/UserController_fixed.java:30-31 | binding two values puts them at positions 1 and 2 and binds nothing else |
| Sql.Render | input.java:21-23 | the text handed to `prepareStatement`; `UsernameQueryText`, `StarQueryText` and `LoginQueryText` state it exactly, and `PlaceholderCount` that it holds one `?` per condition and no value |
| Sql.Matches | input.java:25 | the WHERE clause as an exact-match filter; `ByNameMatch` and `LoginMatch` state when a row satisfies it, and a NULL parameter never does |
| Sql.Eval | input.java:25 | the database returns no more rows than the table holds |
| Sql.EvalExact | input.java:25 | the result holds exactly the table rows whose columns equal the bound values |
| Sql.EvalFirst | input.java:26-27 | the result is empty exactly when no row matches, and its first row is the first matching row of the table |
| Sql.ByNameMatch | input.java:24 | a username query matches a row exactly when the bound name is non-null and equals the row's username, whatever characters it holds |
| Sql.LoginMatch | src/main/java/com/example/UserController_fixed.java:30-31 | the credential check matches a row exactly when both columns equal the two bound values |
| Jdbc.Database.GetConnection | input.java:22 | a connection attempt is recorded; on a connect failure, the driver's SQLException; otherwise a fresh open connection, recorded as acquired |
| Jdbc.Connection.PrepareStatement | input.java:23 | the rendered text is recorded; on a prepare failure, the SQLException; otherwise a fresh statement with nothing bound, recorded as acquired |
| Jdbc.Connection.Close | input.java:30 | closing releases the connection once; closing again records nothing |
| Jdbc.PreparedStatement.SetString | input.java:24 | the value is stored unchanged at its index and the binding is recorded |
| Jdbc.PreparedStatement.ExecuteQuery | input.java:25 | on an execute failure, the SQLException and nothing recorded; otherwise a result set over the matching rows, positioned before the first |
| Jdbc.PreparedStatement.Close | input.java:30 | closing releases the statement once and leaves its parameters as they were |
| Jdbc.ResultSet.Next | input.java:26 | `next()` advances the cursor and says whether it now sits on a row |
| Jdbc.ResultSet.GetString | input.java:27 | `getString` reads the column of the current row |
| Jdbc.ResultSet.Close | input.java:29 | closing releases the result set once |
| Jdbc.FirstRow | input.java:26-27 | the username of the first row, or none when there is no row |
| Jdbc.FirstUsername | input.java:25-29 | the inner block yields the first matching username, or none, having acquired and released the result set; an execute failure propagates with nothing acquired |
| Jdbc.OpenStatement | input.java:22-23 | the resource header acquires a connection, then a statement; if prepare fails, the connection is released before the exception propagates |
| Jdbc.CloseBoth | input.java:30 | leaving the header's block releases the statement, then the connection |
| Jdbc.LookupCalls | input.java:21-24 | a lookup makes exactly one connection attempt and, once connected, prepares exactly one text; the arguments are bound at 1..n unchanged, and nothing else is bound |
| Jdbc.ScopedReleases | UserController_fixed.java:24-36 | with try-with-resources, every acquired resource is released on every path, innermost first |
| Jdbc.UnscopedLeaks | UserController.java:14-21 | without resource handling nothing is released, and a run that gets a connection leaves it open |
| Jdbc.LookupResult | input.java:25-31 | the reference answer of a lookup; `LookupResultCases` and `LookupByName` state its three cases |
| Jdbc.LookupResultCases | input.java:25-31 | a lookup ends with the driver's SQLException on a failure, with the not-found message when no row matches, and otherwise with the greeting for the first matching row |
| Jdbc.LookupByName | input.java:24-31 | without a failure, a username lookup greets u exactly when the bound name is u and a row holds u; it never greets anyone else |
| AllowListController.AllowedChar | input.java:13 | the regex class: ASCII letters, digits, `_` and `-`; `AcceptedNames` states what it excludes |
| AllowListController.ValidUsername | input.java:13 | 1 to 50 allowed characters; `AcceptedNames` and `PayloadsRejected` state which names pass |
| AllowListController.GetUserRun | input.java:11-31 | the reference run; `GetUserRejects`, `GetUserCalls`, `GetUserFound` and `GetUserReleases` state its answer and calls |
| AllowListController.Credentials | input.java:17-19 | DB_URL, DB_USER and DB_PASS, or `jdbc:mysql://localhost:3306/appdb`, `root` and the empty string when unset |
| AllowListController.GetUser | input.java:11-32 | the handler's answer and its recorded database calls are those of the reference run: validation first, then the scoped lookup |
| AllowListController.GetUserRejects | input.java:13-14 | the answer is "Invalid username" exactly when the name is null or fails the allow-list; the database is touched exactly when the name passes; the rejection ignores the environment and the table |
| AllowListController.AcceptedNames | input.java:13 | empty names and names over 50 characters are rejected; an accepted name holds no quote, space, semicolon, `=`, parenthesis, `/` or `*` |
| AllowListController.PayloadsRejected | input.java:13-14 | `' OR '1'='1`, `admin'--`, `'; DROP TABLE users; --` and `john doe` are rejected, and `john_doe-42` is accepted |
| AllowListController.GetUserCalls | input.java:17-24 | the connection uses the resolved credentials, the text is the constant query, and the accepted name is the single parameter, unchanged |
| AllowListController.GetUserFound | input.java:25-31 | without a failure, an accepted name is greeted exactly when a row holds it; a failure propagates unchanged |
| AllowListController.GetUserReleases | input.java:22-30 | every acquired resource is released, innermost first, on every path |
| DefaultUrlController.Connection | input_fixed.java:11-14 | the URL is DB_URL or `jdbc:h2:mem:appdb`; the user and the password are DB_USER and DB_PASS, null when unset |
| DefaultUrlController.GetUserRun | input_fixed.java:10-25 | the reference run; `GetUserFound`, `GetUserCalls` and `GetUserReleases` state its answer and calls |
| DefaultUrlController.GetUser | input_fixed.java:10-25 | the handler's answer and its recorded calls are those of the reference run |
| DefaultUrlController.GetUserFound | input_fixed.java:17-24 | without a failure, the name is greeted exactly when a row holds it; a null name binds NULL and is never found; a failure propagates |
| DefaultUrlController.GetUserCalls | input_fixed.java:15-17 | the connection gets the resolved arguments; whatever the name, the text is constant and the name is the single parameter, unchanged |
| DefaultUrlController.GetUserReleases | input_fixed.java:15-23 | every acquired resource is released, innermost first, on every path |
| LoginController.Refused | src/main/java/com/example/UserController_fixed.java:22-23 | the input check; `LoginRefuses` and `LengthLimits` state when it refuses |
| LoginController.LoginRun | src/main/java/com/example/UserController_fixed.java:20-39 | the reference run; `LoginRefuses`, `LoginFound`, `LoginCalls` and `LoginReleases` state its answer and calls |
| LoginController.Login | src/main/java/com/example/UserController_fixed.java:20-39 | the handler's answer and its recorded calls are those of the reference run: the length check first, then the scoped two-parameter lookup |
| LoginController.LoginRefuses | src/main/java/com/example/UserController_fixed.java:22-23 | the answer is "Invalid input." exactly when a field is null or longer than 100 units, and the database is touched exactly when it is not |
| LoginController.LengthLimits | src/main/java/com/example/UserController_fixed.java:22 | fields over 100 characters are refused and fields of up to 50 never are; for text inside the Basic Multilingual Plane the bound is exactly 100 characters, with no lower bound |
| LoginController.LoginFound | src/main/java/com/example/UserController_fixed.java:32-38 | without a failure, the pair is greeted with the given name exactly when a row holds both values; otherwise "Login failed."; a failure propagates |
| LoginController.LoginCalls | src/main/java/com/example/UserController_fixed.java:26-31 | the connection comes from the data source, the text is the constant two-placeholder query, and the fields are bound unchanged at 1 and 2 |
| LoginController.LoginReleases | src/main/java/com/example/UserController_fixed.java:27-37 | every acquired resource is released, innermost first, on every path |
| DataSourceController.Caught | UserController_fixed.java:38-40 | an SQLException becomes `Exception("Database error occurred")`; any other exception passes through |
| DataSourceController.GetUserRun | UserController_fixed.java:22-42 | the reference run; `NoDriverMessageLeaks`, `GetUserFound`, `GetUserCalls` and `GetUserReleases` state its answer and calls |
| DataSourceController.GetUser | UserController_fixed.java:22-42 | the handler's answer and its recorded calls are those of the reference run, with the catch applied after the resources are closed |
| DataSourceController.NoDriverMessageLeaks | UserController_fixed.java:38-40 | a driver failure at any stage, whatever its message, ends in the same generic exception |
| DataSourceController.GetUserFound | UserController_fixed.java:30-34 | without a failure, the name is greeted exactly when a row holds it; otherwise "User not found." |
| DataSourceController.GetUserCalls | UserController_fixed.java:24-28 | the connection comes from the data source, the text is the constant `SELECT *` query, and the name is the single parameter, unchanged |
| DataSourceController.GetUserReleases | UserController_fixed.java:24-36 | every acquired resource is released, innermost first, on every path, the failing ones included |
| EnvCredentialsController.Connection | UserController.java:11-13 | DB_URL, DB_USER and DB_PASSWORD as they are, null when unset |
| EnvCredentialsController.GetUserRun | UserController.java:10-22 | the reference run; `GetUserLeaks`, `GetUserFound` and `GetUserCalls` state its answer and calls |
| EnvCredentialsController.GetUser | UserController.java:10-22 | the handler's answer and its recorded calls are those of the reference run without resource handling |
| EnvCredentialsController.GetUserLeaks | UserController.java:14-21 | nothing is ever released; a successful run leaves the connection, the statement and the result set open |
| EnvCredentialsController.GetUserFound | UserController.java:17-21 | without a failure, any name, payloads included, is greeted exactly when a row holds it; a failure propagates |
| EnvCredentialsController.GetUserCalls | UserController.java:14-16 | the unvalidated name reaches the driver only as the single parameter of the constant query |
| DemoController.GetUser | src/main/java/com/example/demo/UserController.java:23-35 | the handler makes one `queryForObject` call, `Request(username)`, and answers 200, 404 or 500, every non-200 body being one of the two fixed messages |
| DemoController.GetUserStatuses | src/main/java/com/example/demo/UserController.java:26-34 | given what `queryForObject` answers to `Request(username)`: 200 with the greeting exactly when a value comes back ("Welcome, null" for null); 404 with "User not found." exactly for an empty result; 500 for any other exception |
| DemoController.NoExceptionLeaks | src/main/java/com/example/demo/UserController.java:31-33 | any exception other than an empty result gives the fixed 500 response "Internal server error." |
| DemoController.RequestText | src/main/java/com/example/demo/UserController.java:25-27 | the call sent is the constant query text with the username, unchanged, as its only argument, and the response depends on nothing but the template's answer to that call |
| TemplateController.Usernames | src/main/java/com/example/UserController.java:24 | the row mapper gives one username per row, in order |
| TemplateController.Query | src/main/java/com/example/UserController.java:24 | `query` throws exactly when the template fails; otherwise it lists at most one name per row, each a username of the table |
| TemplateController.GetUser | src/main/java/com/example/UserController.java:22-29 | nothing is caught: it throws exactly when the template fails, and any greeting names a user of the table |
| TemplateController.GetUserIsLookup | src/main/java/com/example/UserController.java:24-28 | the handler answers like a lookup of the first matching row, whatever rows follow it |
| TemplateController.GetUserFound | src/main/java/com/example/UserController.java:24-28 | without a failure, the name is greeted exactly when a row holds it; otherwise "User not found."; a template failure propagates as a DataAccessException |
| TemplateController.InjectionPayloadNotFound | src/test/java/com/example/UserControllerTest.java:33-42 | with only `john` in the table, the payload `' OR '1'='1` gets "User not found." |

## Left out

- JDBC, DataSource, DriverManager and JdbcTemplate are not modelled from inside.
  - A driver fails, if at all, at one of three stages (connect, prepare, execute), chosen as an input.
  - `setString`, `next`, `getString` and `close` never throw.
  - A null URL does not itself cause a failure.
  - A `catch` that would also see exceptions from `close` is therefore modelled only for the three stages.
- Executing a query and moving the cursor are not recorded as calls. Their effect shows in the rows the result set holds and in the result.
- Column comparison is exact string equality. Case-insensitive collations, trailing-space rules and type conversion of the database engines are not modelled.
- The allow-list is a character predicate, not a regex engine.
- Environment reads are not recorded. "No environment read on rejection" is stated instead as: a rejected request's run does not depend on the environment (`AllowListController.GetUserRejects`).
- DemoController.GetUser: what `queryForObject` answers to a call (for zero, one or several rows) is not derived from a table. The template is a function from the call to its answer, given as an input.
- TemplateController.InjectionPayloadNotFound: states the answer body, not the HTTP status 200 that the test also checks. The status belongs to the web layer.
- The test's table has only a username column. The model's rows always carry a password, set to the empty string there.
- Spring wiring, request mapping, the unused API keys, the HTTP test harness and `SecurityTest.java` are not part of this model. The last only prints results of its own constants.
- Concurrency, timeouts, logging and connection pooling are not modelled; none appears in the handlers.
