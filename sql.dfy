/** The queries the controllers issue, kept as structure rather than text:
    the text the driver receives is rendered from that structure and holds one
    `?` placeholder per condition, and the values for the placeholders travel
    separately, as a map from 1-based parameter index to value. The database
    evaluates a query as an exact-match filter over the `users` table. */
module Sql {
  import opened JavaLang

  /** The columns of the `users` table. */
  datatype Column = Username | Password

  function ColumnName(c: Column): string
  {
    match c
    case Username => "username"
    case Password => "password"
  }

  /** One row of the `users` table. */
  datatype Row = Row(username: string, password: string)

  function Get(r: Row, c: Column): string
  {
    match c
    case Username => r.username
    case Password => r.password
  }

  /** `SELECT *` or an explicit column list. */
  datatype Projection = AllColumns | Columns(cols: seq<Column>)

  predicate Projects(p: Projection, c: Column)
  {
    p.AllColumns? || c in p.cols
  }

  /** SELECT projection FROM table WHERE c1 = ? AND c2 = ? ... */
  datatype Select = Select(projection: Projection, table: string, where: seq<Column>)

  function RenderColumns(cs: seq<Column>): string
  {
    if cs == [] then ""
    else if |cs| == 1 then ColumnName(cs[0])
    else ColumnName(cs[0]) + ", " + RenderColumns(cs[1..])
  }

  function RenderProjection(p: Projection): string
  {
    match p
    case AllColumns => "*"
    case Columns(cs) => RenderColumns(cs)
  }

  /** "c1 = ? AND c2 = ? ...": one placeholder per condition. */
  function RenderConditions(cs: seq<Column>): string
  {
    if cs == [] then ""
    else if |cs| == 1 then ColumnName(cs[0]) + " = ?"
    else ColumnName(cs[0]) + " = ? AND " + RenderConditions(cs[1..])
  }

  /** The query text handed to prepareStatement. It is a function of the
      query's structure alone: no parameter value takes part in it. */
  function Render(q: Select): string
  {
    "SELECT " + RenderProjection(q.projection) + " FROM " + q.table
    + (if q.where == [] then "" else " WHERE " + RenderConditions(q.where))
  }

  /** The lookup by name of input.java, input_fixed.java and the two Spring
      template controllers. */
  const UsernameQuery: Select := Select(Columns([Username]), "users", [Username])

  /** The lookup of UserController.java and UserController_fixed.java. */
  const StarQuery: Select := Select(AllColumns, "users", [Username])

  /** The credential check of the login controller. */
  const LoginQuery: Select := Select(Columns([Username]), "users", [Username, Password])

  /** The rendered texts are exactly the literals the controllers pass. */
  lemma UsernameQueryText()
    ensures Render(UsernameQuery) == "SELECT username FROM users WHERE username = ?"
  {
    assert RenderProjection(UsernameQuery.projection) == "username";
    assert RenderConditions(UsernameQuery.where) == "username = ?";
    assert "SELECT " + "username" == "SELECT username";
    assert "SELECT username" + " FROM " == "SELECT username FROM ";
    assert "SELECT username FROM " + "users" == "SELECT username FROM users";
    assert " WHERE " + "username = ?" == " WHERE username = ?";
    assert "SELECT username FROM users" + " WHERE username = ?"
        == "SELECT username FROM users WHERE username = ?";
  }

  lemma StarQueryText()
    ensures Render(StarQuery) == "SELECT * FROM users WHERE username = ?"
  {
    assert RenderConditions(StarQuery.where) == "username = ?";
    assert "SELECT " + "*" == "SELECT *";
    assert "SELECT *" + " FROM " == "SELECT * FROM ";
    assert "SELECT * FROM " + "users" == "SELECT * FROM users";
    assert " WHERE " + "username = ?" == " WHERE username = ?";
    assert "SELECT * FROM users" + " WHERE username = ?"
        == "SELECT * FROM users WHERE username = ?";
  }

  lemma LoginConditionsText()
    ensures RenderConditions([Username, Password]) == "username = ? AND password = ?"
  {
    assert [Username, Password][1..] == [Password];
    assert RenderConditions([Password]) == "password = ?";
    assert "username" + " = ? AND " == "username = ? AND ";
    assert "username = ? AND " + "password = ?" == "username = ? AND password = ?";
  }

  lemma LoginQueryShape()
    ensures Render(LoginQuery) == "SELECT username FROM users" + " WHERE " + RenderConditions([Username, Password])
  {
    assert RenderProjection(LoginQuery.projection) == "username";
    assert "SELECT " + "username" == "SELECT username";
    assert "SELECT username" + " FROM " == "SELECT username FROM ";
    assert "SELECT username FROM " + "users" == "SELECT username FROM users";
  }

  lemma LoginQueryLiteral()
    ensures "SELECT username FROM users" + " WHERE " + "username = ? AND password = ?"
         == "SELECT username FROM users WHERE username = ? AND password = ?"
  {
  }

  lemma LoginQueryText()
    ensures Render(LoginQuery) == "SELECT username FROM users WHERE username = ? AND password = ?"
  {
    LoginQueryShape();
    LoginConditionsText();
    LoginQueryLiteral();
  }

  /** The number of occurrences of c in s. */
  function Count(s: string, c: char): nat
  {
    if s == [] then 0 else (if s[0] == c then 1 else 0) + Count(s[1..], c)
  }

  lemma {:induction false} CountAppend(a: string, b: string, c: char)
    ensures Count(a + b, c) == Count(a, c) + Count(b, c)
  {
    if a == [] {
      assert a + b == b;
    } else {
      assert (a + b)[1..] == a[1..] + b;
      CountAppend(a[1..], b, c);
    }
  }

  lemma {:induction false} CountAbsent(s: string, c: char)
    requires c !in s
    ensures Count(s, c) == 0
  {
    if s != [] {
      assert s[0] != c;
      assert forall i :: 0 <= i < |s[1..]| ==> s[1..][i] == s[i + 1];
      CountAbsent(s[1..], c);
    }
  }

  lemma NoPlaceholderInColumnName(c: Column)
    ensures Count(ColumnName(c), '?') == 0
  {
    match c
    case Username => CountAbsent("username", '?');
    case Password => CountAbsent("password", '?');
  }

  lemma {:induction false} ColumnsHoldNoPlaceholder(cs: seq<Column>)
    ensures Count(RenderColumns(cs), '?') == 0
  {
    if |cs| == 1 {
      NoPlaceholderInColumnName(cs[0]);
    } else if |cs| > 1 {
      NoPlaceholderInColumnName(cs[0]);
      CountAbsent(", ", '?');
      CountAppend(ColumnName(cs[0]), ", ", '?');
      CountAppend(ColumnName(cs[0]) + ", ", RenderColumns(cs[1..]), '?');
      ColumnsHoldNoPlaceholder(cs[1..]);
    }
  }

  lemma {:induction false} ConditionPlaceholders(cs: seq<Column>)
    ensures Count(RenderConditions(cs), '?') == |cs|
  {
    if |cs| == 1 {
      NoPlaceholderInColumnName(cs[0]);
      CountAppend(ColumnName(cs[0]), " = ?", '?');
    } else if |cs| > 1 {
      NoPlaceholderInColumnName(cs[0]);
      CountAppend(ColumnName(cs[0]), " = ? AND ", '?');
      CountAppend(ColumnName(cs[0]) + " = ? AND ", RenderConditions(cs[1..]), '?');
      ConditionPlaceholders(cs[1..]);
    }
  }

  /** The part of a query before WHERE holds no placeholder. */
  lemma {:induction false} SelectFromHoldsNoPlaceholder(q: Select)
    requires '?' !in q.table
    ensures Count("SELECT " + RenderProjection(q.projection) + " FROM " + q.table, '?') == 0
  {
    var proj := RenderProjection(q.projection);
    match q.projection {
      case AllColumns => CountAbsent("*", '?');
      case Columns(cs) => ColumnsHoldNoPlaceholder(cs);
    }
    CountAbsent("SELECT ", '?');
    CountAbsent(" FROM ", '?');
    CountAbsent(q.table, '?');
    CountAppend("SELECT ", proj, '?');
    CountAppend("SELECT " + proj, " FROM ", '?');
    CountAppend("SELECT " + proj + " FROM ", q.table, '?');
  }

  lemma {:induction false} WherePlaceholders(cs: seq<Column>)
    ensures Count(if cs == [] then "" else " WHERE " + RenderConditions(cs), '?') == |cs|
  {
    if cs != [] {
      CountAbsent(" WHERE ", '?');
      CountAppend(" WHERE ", RenderConditions(cs), '?');
      ConditionPlaceholders(cs);
    }
  }

  /** A rendered query holds exactly one placeholder per condition (given a
      table name without `?`), so the values to bind are exactly as many as
      the conditions. */
  lemma {:induction false} PlaceholderCount(q: Select)
    requires '?' !in q.table
    ensures Count(Render(q), '?') == |q.where|
  {
    var head := "SELECT " + RenderProjection(q.projection) + " FROM " + q.table;
    var cond := if q.where == [] then "" else " WHERE " + RenderConditions(q.where);
    SelectFromHoldsNoPlaceholder(q);
    WherePlaceholders(q.where);
    CountAppend(head, cond, '?');
  }

  /** The lookups carry one placeholder, the credential check two. */
  lemma {:induction false} QueryPlaceholders()
    ensures Count(Render(UsernameQuery), '?') == 1
    ensures Count(Render(StarQuery), '?') == 1
    ensures Count(Render(LoginQuery), '?') == 2
  {
    assert '?' !in "users" by {
      assert forall i :: 0 <= i < |"users"| ==> "users"[i] != '?';
    }
    PlaceholderCount(UsernameQuery);
    PlaceholderCount(StarQuery);
    PlaceholderCount(LoginQuery);
  }

  /** The parameters bound to a statement: 1-based index to value. */
  type Params = map<nat, Nullable<string>>

  /** The arguments of a call, at positions 1, 2, ... */
  function Positional(args: seq<Nullable<string>>): (p: Params)
    ensures forall i: nat :: i in p <==> 1 <= i <= |args|
    ensures forall i: nat :: 1 <= i <= |args| ==> p[i] == args[i - 1]
  {
    if args == [] then map[]
    else Positional(args[..|args| - 1])[|args| := args[|args| - 1]]
  }

  /** One argument is bound at position 1. */
  lemma PositionalOne(a: Nullable<string>)
    ensures Positional([a]) == map[1 := a]
  {
  }

  /** Two arguments are bound at positions 1 and 2. */
  lemma PositionalTwo(a: Nullable<string>, b: Nullable<string>)
    ensures Positional([a, b]) == map[1 := a, 2 := b]
  {
    assert [a, b][..1] == [a];
  }

  /** A row satisfies the WHERE clause when, for every condition, the value
      bound at its placeholder is non-null and equal to the row's column.
      Comparing with SQL NULL is never true. */
  predicate Matches(q: Select, params: Params, r: Row)
  {
    forall i :: 0 <= i < |q.where| ==>
      (i + 1) in params && params[i + 1] == NonNull(Get(r, q.where[i]))
  }

  /** The rows the database returns, in table order. */
  function Eval(q: Select, params: Params, table: seq<Row>): (rows: seq<Row>)
    ensures |rows| <= |table|
  {
    if table == [] then []
    else (if Matches(q, params, table[0]) then [table[0]] else []) + Eval(q, params, table[1..])
  }

  /** The result holds exactly the rows of the table that match. */
  lemma {:induction false} EvalExact(q: Select, params: Params, table: seq<Row>, r: Row)
    ensures r in Eval(q, params, table) <==> r in table && Matches(q, params, r)
  {
    if table != [] {
      EvalExact(q, params, table[1..], r);
      assert table == [table[0]] + table[1..];
    }
  }

  /** j is the position of the first row of the table that matches. */
  predicate FirstMatch(q: Select, params: Params, table: seq<Row>, j: int)
  {
    0 <= j < |table| && Matches(q, params, table[j])
    && forall k :: 0 <= k < j ==> !Matches(q, params, table[k])
  }

  /** The result is empty exactly when no row matches; otherwise its first
      row is the first matching row of the table. */
  lemma {:induction false} EvalFirst(q: Select, params: Params, table: seq<Row>)
    ensures Eval(q, params, table) == [] <==> forall k :: 0 <= k < |table| ==> !Matches(q, params, table[k])
    ensures Eval(q, params, table) != [] ==>
      exists j :: FirstMatch(q, params, table, j) && Eval(q, params, table)[0] == table[j]
  {
    if table != [] {
      EvalFirst(q, params, table[1..]);
      if !Matches(q, params, table[0]) && Eval(q, params, table[1..]) != [] {
        var j :| FirstMatch(q, params, table[1..], j) && Eval(q, params, table[1..])[0] == table[1..][j];
        assert FirstMatch(q, params, table, j + 1);
      }
      if Matches(q, params, table[0]) {
        assert FirstMatch(q, params, table, 0);
      }
      forall k | 0 <= k < |table[1..]| ensures table[1..][k] == table[k + 1] { }
    }
  }

  /** Some row of the table holds the username u. */
  predicate HasUser(table: seq<Row>, u: string)
  {
    exists r :: r in table && r.username == u
  }

  /** Some row of the table holds both the username u and the password p. */
  predicate HasCredentials(table: seq<Row>, u: string, p: string)
  {
    exists r :: r in table && r.username == u && r.password == p
  }

  /** A query keyed on the username alone matches a row exactly when the
      bound name is non-null and equal to the row's username, whatever
      characters it holds; a null name matches no row. */
  lemma ByNameMatch(q: Select, v: Nullable<string>, r: Row)
    requires q.where == [Username]
    ensures Matches(q, Positional([v]), r) <==> v.NonNull? && r.username == v.value
  {
    assert q.where[0] == Username;
  }

  /** The login query matches a row exactly when both columns are equal to
      the two bound values. */
  lemma LoginMatch(u: string, p: string, r: Row)
    ensures Matches(LoginQuery, Positional([NonNull(u), NonNull(p)]), r)
            <==> r.username == u && r.password == p
  {
    assert LoginQuery.where[0] == Username && LoginQuery.where[1] == Password;
  }
}
