/** The Java values every controller variant passes around: strings that may
    be null, the exceptions a handler can throw, what a handler ends with, and
    the process environment that System.getenv reads. */
module JavaLang {

  /** A Java reference that may be null. */
  datatype Nullable<T> = Null | NonNull(value: T)

  /** An optional input of the model (not a Java value). */
  datatype Option<T> = None | Some(value: T)

  /** The exceptions the handlers can raise or let through. */
  datatype JavaException =
    | SQLException(message: string)         // java.sql.SQLException from the driver
    | DataAccessException(message: string)  // Spring's unchecked wrapper around driver errors
    | EmptyResultDataAccessException        // Spring's DataAccessException for a query that found no row
    | Exception(message: string)            // a plain java.lang.Exception

  /** A call that either returns a value or throws. */
  datatype Throws<T> = Ok(value: T) | Thrown(ex: JavaException)

  /** How a String-returning handler ends: with a body, or by throwing. */
  datatype Outcome = Returned(body: string) | Threw(ex: JavaException)

  /** The process environment: a variable is either set to a string or absent. */
  type Env = map<string, string>

  /** System.getenv(key): the value, or null when the variable is not set. */
  function GetEnv(env: Env, key: string): (v: Nullable<string>)
    ensures v.NonNull? <==> key in env
    ensures v.NonNull? ==> v.value == env[key]
  {
    if key in env then NonNull(env[key]) else Null
  }

  /** System.getenv().getOrDefault(key, default). */
  function GetOrDefault(env: Env, key: string, default: string): (v: string)
    ensures key in env ==> v == env[key]
    ensures key !in env ==> v == default
  {
    if key in env then env[key] else default
  }

  /** String.length(): the number of UTF-16 code units, so a character outside
      the Basic Multilingual Plane counts twice. */
  function JavaLength(s: string): (n: nat)
    ensures |s| <= n <= 2 * |s|
    ensures (forall i :: 0 <= i < |s| ==> s[i] as int < 0x1_0000) ==> n == |s|
  {
    if s == [] then 0
    else (if s[0] as int < 0x1_0000 then 1 else 2) + JavaLength(s[1..])
  }

  const WelcomePrefix: string := "Welcome, "

  /** The greeting every variant builds with "Welcome, " + name. */
  function Welcome(name: string): string
  {
    WelcomePrefix + name
  }

  /** Java's string concatenation with a possibly-null operand, which appends
      the four letters "null" for a null reference. */
  function Concat(s: string, v: Nullable<string>): string
  {
    match v
    case Null => s + "null"
    case NonNull(t) => s + t
  }

  /** The greeting determines the name: strip the prefix to get it back. */
  lemma WelcomeInverse(name: string)
    ensures |Welcome(name)| == |WelcomePrefix| + |name|
    ensures Welcome(name)[|WelcomePrefix|..] == name
    ensures Welcome(name)[..|WelcomePrefix|] == WelcomePrefix
  {
  }

  lemma {:induction false} WelcomeInjective(a: string, b: string)
    ensures Welcome(a) == Welcome(b) <==> a == b
  {
    WelcomeInverse(a);
    WelcomeInverse(b);
  }

  /** A greeting never equals a message that does not start with "Welcome, ",
      which is what keeps a found user apart from the fixed messages. */
  lemma {:induction false} WelcomeIsNot(name: string, msg: string)
    requires |msg| < |WelcomePrefix| || msg[..|WelcomePrefix|] != WelcomePrefix
    ensures Welcome(name) != msg
  {
    WelcomeInverse(name);
  }
}
