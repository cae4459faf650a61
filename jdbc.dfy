/** The data-access collaborator the handlers drive step by step: a database
    that hands out connections, a connection that prepares statements, a
    prepared statement whose parameters are bound one by one, and a result set
    whose cursor is advanced. The database records the calls made to it (the
    connection attempts, the query texts prepared, the values bound, the
    resources handed out and the resources released, each in order), so that what a
    handler did to the database is part of the state its contract speaks
    about.

    What the driver does is an input of the model: the table the query runs
    against, and at most one stage (connect, prepare, execute) at which it
    throws an SQLException with a given message. */
module Jdbc {
  import opened JavaLang
  import opened Sql

  datatype Stage = AtConnect | AtPrepare | AtExecute

  datatype Fault = Fault(stage: Stage, message: string)

  /** Where a connection comes from: DriverManager.getConnection(url, user,
      password), whose three arguments may be null, or a configured
      DataSource, whose credentials are not the handler's business. */
  datatype Via =
    | DriverManager(url: Nullable<string>, user: Nullable<string>, password: Nullable<string>)
    | DataSource

  datatype Resource = ConnectionRes | StatementRes | ResultSetRes

  /** ps.setString(index, value). */
  datatype Binding = Binding(index: nat, value: Nullable<string>)

  /** The calls recorded by the database, kind by kind, each in order. */
  datatype Calls = Calls(
    connects: seq<Via>,       // connection attempts
    statements: seq<string>,  // texts passed to prepareStatement
    bindings: seq<Binding>,   // parameters bound
    acquired: seq<Resource>,  // resources handed out
    released: seq<Resource>)  // resources closed

  const NoCalls := Calls([], [], [], [], [])

  /** The calls of a followed by those of b. */
  function Then(a: Calls, b: Calls): (c: Calls)
    ensures c.connects == a.connects + b.connects && c.statements == a.statements + b.statements
    ensures c.bindings == a.bindings + b.bindings
    ensures c.acquired == a.acquired + b.acquired && c.released == a.released + b.released
  {
    Calls(a.connects + b.connects, a.statements + b.statements, a.bindings + b.bindings,
          a.acquired + b.acquired, a.released + b.released)
  }

  /** Every resource handed out was released, the most recently acquired
      first, which is what try-with-resources does. */
  predicate Released(c: Calls)
  {
    |c.released| == |c.acquired|
    && forall i :: 0 <= i < |c.acquired| ==> c.released[i] == c.acquired[|c.acquired| - 1 - i]
  }

  /** The database side of a run of a handler. */
  class Database {
    const table: seq<Row>
    const fault: Option<Fault>
    var connects: seq<Via>
    var statements: seq<string>
    var bindings: seq<Binding>
    var acquired: seq<Resource>
    var released: seq<Resource>

    constructor (table: seq<Row>, fault: Option<Fault>)
      ensures this.table == table && this.fault == fault && Recorded() == NoCalls
    {
      this.table := table;
      this.fault := fault;
      connects, statements, bindings, acquired, released := [], [], [], [], [];
    }

    /** Everything the database has recorded so far. */
    function Recorded(): Calls
      reads this
    {
      Calls(connects, statements, bindings, acquired, released)
    }

    predicate FailsAt(s: Stage)
    {
      fault.Some? && fault.value.stage == s
    }

    /** DriverManager.getConnection(...) or dataSource.getConnection(). */
    method GetConnection(via: Via) returns (r: Throws<Connection>)
      modifies this
      ensures FailsAt(AtConnect) ==>
        r == Thrown(SQLException(fault.value.message))
        && Recorded() == Then(old(Recorded()), Calls([via], [], [], [], []))
      ensures !FailsAt(AtConnect) ==>
        r.Ok? && fresh(r.value) && r.value.db == this && !r.value.closed
        && Recorded() == Then(old(Recorded()), Calls([via], [], [], [ConnectionRes], []))
    {
      connects := connects + [via];
      if FailsAt(AtConnect) {
        return Thrown(SQLException(fault.value.message));
      }
      var c := new Connection(this);
      acquired := acquired + [ConnectionRes];
      return Ok(c);
    }
  }

  class Connection {
    const db: Database
    var closed: bool

    constructor (db: Database)
      ensures this.db == db && !closed
    {
      this.db := db;
      closed := false;
    }

    /** conn.prepareStatement(text): the text is rendered from the query's
        structure; no value is part of it. */
    method PrepareStatement(q: Select) returns (r: Throws<PreparedStatement>)
      requires !closed
      modifies db
      ensures db.FailsAt(AtPrepare) ==>
        r == Thrown(SQLException(db.fault.value.message))
        && db.Recorded() == Then(old(db.Recorded()), Calls([], [Render(q)], [], [], []))
      ensures !db.FailsAt(AtPrepare) ==>
        r.Ok? && fresh(r.value) && r.value.db == db && r.value.query == q
        && r.value.params == map[] && !r.value.closed
        && db.Recorded() == Then(old(db.Recorded()), Calls([], [Render(q)], [], [StatementRes], []))
    {
      db.statements := db.statements + [Render(q)];
      if db.FailsAt(AtPrepare) {
        return Thrown(SQLException(db.fault.value.message));
      }
      var ps := new PreparedStatement(db, q);
      db.acquired := db.acquired + [StatementRes];
      return Ok(ps);
    }

    /** close() releases the connection; closing it again does nothing. */
    method Close()
      modifies this`closed, db
      ensures closed
      ensures db.Recorded()
        == Then(old(db.Recorded()), Calls([], [], [], [], if old(closed) then [] else [ConnectionRes]))
    {
      if !closed {
        db.released := db.released + [ConnectionRes];
        closed := true;
      }
    }
  }

  class PreparedStatement {
    const db: Database
    const query: Select
    var params: Params
    var closed: bool

    constructor (db: Database, query: Select)
      ensures this.db == db && this.query == query && params == map[] && !closed
    {
      this.db := db;
      this.query := query;
      params := map[];
      closed := false;
    }

    /** ps.setString(index, value): the value is stored at its position,
        unchanged; a null value binds SQL NULL. */
    method SetString(index: nat, value: Nullable<string>)
      requires !closed && 1 <= index <= |query.where|
      modifies this`params, db
      ensures params == old(params)[index := value]
      ensures db.Recorded() == Then(old(db.Recorded()), Calls([], [], [Binding(index, value)], [], []))
    {
      params := params[index := value];
      db.bindings := db.bindings + [Binding(index, value)];
    }

    /** ps.executeQuery(): the rows of the table that match the bound values
        exactly, with the cursor before the first of them. */
    method ExecuteQuery() returns (r: Throws<ResultSet>)
      requires !closed
      requires forall i: nat :: 1 <= i <= |query.where| ==> i in params
      modifies db
      ensures db.FailsAt(AtExecute) ==>
        r == Thrown(SQLException(db.fault.value.message)) && db.Recorded() == old(db.Recorded())
      ensures !db.FailsAt(AtExecute) ==>
        r.Ok? && fresh(r.value) && r.value.db == db
        && r.value.rows == Eval(query, params, db.table)
        && r.value.projection == query.projection
        && r.value.cursor == -1 && !r.value.closed
        && db.Recorded() == Then(old(db.Recorded()), Calls([], [], [], [ResultSetRes], []))
    {
      if db.FailsAt(AtExecute) {
        return Thrown(SQLException(db.fault.value.message));
      }
      var rs := new ResultSet(db, Eval(query, params, db.table), query.projection);
      db.acquired := db.acquired + [ResultSetRes];
      return Ok(rs);
    }

    method Close()
      modifies this`closed, db
      ensures closed
      ensures db.Recorded()
        == Then(old(db.Recorded()), Calls([], [], [], [], if old(closed) then [] else [StatementRes]))
    {
      if !closed {
        db.released := db.released + [StatementRes];
        closed := true;
      }
    }
  }

  class ResultSet {
    const db: Database
    const rows: seq<Row>
    const projection: Projection
    var cursor: int   // -1 before the first row, |rows| after the last
    var closed: bool

    constructor (db: Database, rows: seq<Row>, projection: Projection)
      ensures this.db == db && this.rows == rows && this.projection == projection
      ensures cursor == -1 && !closed
    {
      this.db := db;
      this.rows := rows;
      this.projection := projection;
      cursor := -1;
      closed := false;
    }

    /** rs.next(): moves to the next row and says whether there is one. */
    method Next() returns (hasRow: bool)
      requires !closed && -1 <= cursor <= |rows|
      modifies this`cursor
      ensures cursor == if old(cursor) < |rows| then old(cursor) + 1 else old(cursor)
      ensures hasRow <==> cursor < |rows|
    {
      if cursor < |rows| {
        cursor := cursor + 1;
      }
      hasRow := cursor < |rows|;
    }

    /** rs.getString(column) on the current row. */
    method GetString(c: Column) returns (v: string)
      requires !closed && 0 <= cursor < |rows| && Projects(projection, c)
      ensures v == Get(rows[cursor], c)
    {
      v := Get(rows[cursor], c);
    }

    method Close()
      modifies this`closed, db
      ensures closed
      ensures db.Recorded()
        == Then(old(db.Recorded()), Calls([], [], [], [], if old(closed) then [] else [ResultSetRes]))
    {
      if !closed {
        db.released := db.released + [ResultSetRes];
        closed := true;
      }
    }
  }

  /** if (rs.next()) ... rs.getString("username"): the username of the
      first row, or None when there is none. */
  method FirstRow(rs: ResultSet) returns (name: Option<string>)
    requires !rs.closed && rs.cursor == -1 && Projects(rs.projection, Username)
    modifies rs`cursor
    ensures name == if rs.rows == [] then None else Some(rs.rows[0].username)
    ensures rs.cursor == 0
  {
    var hasRow := rs.Next();
    if hasRow {
      var v := rs.GetString(Username);
      return Some(v);
    }
    return None;
  }

  /** The inner block the try-with-resources handlers share:
        try (ResultSet rs = ps.executeQuery()) {
          if (rs.next()) return "Welcome, " + rs.getString("username");
        }
      It yields the username of the first row, or None when there is none,
      having closed the result set either way; an SQLException from
      executeQuery propagates before any result set exists. */
  method FirstUsername(ps: PreparedStatement) returns (r: Throws<Option<string>>)
    requires !ps.closed && Projects(ps.query.projection, Username)
    requires forall i: nat :: 1 <= i <= |ps.query.where| ==> i in ps.params
    modifies ps.db
    ensures ps.db.FailsAt(AtExecute) ==>
      r == Thrown(SQLException(ps.db.fault.value.message)) && ps.db.Recorded() == old(ps.db.Recorded())
    ensures !ps.db.FailsAt(AtExecute) ==>
      var rows := Eval(ps.query, ps.params, ps.db.table);
      && r == Ok(if rows == [] then None else Some(rows[0].username))
      && ps.db.Recorded() == Then(old(ps.db.Recorded()), ReadCalls)
  {
    var e := ps.ExecuteQuery();
    if e.Thrown? {
      return Thrown(e.ex);
    }
    var rs := e.value;
    var name := FirstRow(rs);
    rs.Close();
    return Ok(name);
  }

  /** Recording x and then y is recording their concatenation. */
  lemma ThenStep(h: Calls, x: Calls, y: Calls)
    ensures Then(Then(h, x), y) == Then(h, Then(x, y))
  {
  }

  /** The calls of a try-with-resources header that got both resources: the
      connection attempt, the statement text, and the two resources. */
  function Opened(via: Via, sql: string): Calls
  {
    Calls([via], [sql], [], [ConnectionRes, StatementRes], [])
  }

  /** The calls of executing a query and closing its result set. */
  const ReadCalls := Calls([], [], [], [ResultSetRes], [ResultSetRes])

  /** The calls of leaving the header's block: the statement is closed, then
      the connection. */
  const ClosedBoth := Calls([], [], [], [], [StatementRes, ConnectionRes])

  /** The resource header the try-with-resources handlers share:
        try (Connection conn = ...getConnection(...);
             PreparedStatement ps = conn.prepareStatement(text)) { ... }
      When prepareStatement throws, the connection already obtained is closed
      before the SQLException propagates. */
  method OpenStatement(db: Database, via: Via, q: Select) returns (r: Throws<(Connection, PreparedStatement)>)
    modifies db
    ensures db.FailsAt(AtConnect) ==>
      r == Thrown(SQLException(db.fault.value.message))
      && db.Recorded() == Then(old(db.Recorded()), Calls([via], [], [], [], []))
    ensures db.FailsAt(AtPrepare) ==>
      r == Thrown(SQLException(db.fault.value.message))
      && db.Recorded() == Then(old(db.Recorded()), Calls([via], [Render(q)], [], [ConnectionRes], [ConnectionRes]))
    ensures !db.FailsAt(AtConnect) && !db.FailsAt(AtPrepare) ==>
      r.Ok? && fresh(r.value.0) && fresh(r.value.1)
      && r.value.0.db == db && !r.value.0.closed
      && r.value.1.db == db && r.value.1.query == q && r.value.1.params == map[] && !r.value.1.closed
      && db.Recorded() == Then(old(db.Recorded()), Opened(via, Render(q)))
  {
    var c := db.GetConnection(via);
    if c.Thrown? {
      return Thrown(c.ex);
    }
    var conn := c.value;
    var p := conn.PrepareStatement(q);
    ThenStep(old(db.Recorded()), Calls([via], [], [], [ConnectionRes], []), Calls([], [Render(q)], [], [], []));
    if p.Thrown? {
      conn.Close();
      return Thrown(p.ex);
    }
    assert Then(Calls([via], [], [], [ConnectionRes], []), Calls([], [Render(q)], [], [StatementRes], []))
        == Opened(via, Render(q));
    ThenStep(old(db.Recorded()), Calls([via], [], [], [ConnectionRes], []), Calls([], [Render(q)], [], [StatementRes], []));
    return Ok((conn, p.value));
  }

  /** The end of the header's block, on every way out of it: the statement
      is closed first, then the connection. */
  method CloseBoth(conn: Connection, ps: PreparedStatement)
    requires ps.db == conn.db && !conn.closed && !ps.closed
    modifies conn`closed, ps`closed, conn.db
    ensures conn.closed && ps.closed && ps.params == old(ps.params)
    ensures conn.db.Recorded() == Then(old(conn.db.Recorded()), ClosedBoth)
  {
    ps.Close();
    conn.Close();
  }

  /** What a handler run ends with, and the calls it made on the database. */
  datatype Run = Run(outcome: Outcome, calls: Calls)

  /** The bindings of setString(from, args[0]), setString(from + 1, args[1]), ... */
  function Binds(args: seq<Nullable<string>>, from: nat): (b: seq<Binding>)
    ensures |b| == |args|
    ensures forall i :: 0 <= i < |args| ==> b[i] == Binding(from + i, args[i])
  {
    if args == [] then [] else [Binding(from, args[0])] + Binds(args[1..], from + 1)
  }

  /** The calls of binding the arguments at positions 1, 2, ... */
  function Bound(args: seq<Nullable<string>>): Calls
  {
    Calls([], [], Binds(args, 1), [], [])
  }

  /** The calls of a lookup written with try-with-resources: the connection
      and the statement (and the result set, once there is one) are declared
      as resources, so they are closed, innermost first, on every way out:
      after reading the first row, after finding none, or when an
      SQLException propagates. */
  function ScopedCalls(fault: Option<Fault>, via: Via, sql: string, args: seq<Nullable<string>>): Calls
  {
    match fault
    case Some(Fault(AtConnect, _)) => Calls([via], [], [], [], [])
    case Some(Fault(AtPrepare, _)) => Calls([via], [sql], [], [ConnectionRes], [ConnectionRes])
    case Some(Fault(AtExecute, _)) => Then(Then(Opened(via, sql), Bound(args)), ClosedBoth)
    case None => Then(Then(Then(Opened(via, sql), Bound(args)), ReadCalls), ClosedBoth)
  }

  /** The calls of the same lookup written without any resource handling:
      each call in turn, and nothing closed. */
  function UnscopedCalls(fault: Option<Fault>, via: Via, sql: string, args: seq<Nullable<string>>): Calls
  {
    var connected := Calls([via], [], [], [ConnectionRes], []);
    var prepared := Then(connected, Calls([], [sql], [], [StatementRes], []));
    match fault
    case Some(Fault(AtConnect, _)) => Calls([via], [], [], [], [])
    case Some(Fault(AtPrepare, _)) => Then(connected, Calls([], [sql], [], [], []))
    case Some(Fault(AtExecute, _)) => Then(prepared, Bound(args))
    case None => Then(Then(prepared, Bound(args)), Calls([], [], [], [ResultSetRes], []))
  }

  /** What a lookup ends with: the driver's SQLException when a stage fails;
      otherwise "Welcome, " and the username of the first row returned, or
      the not-found message when no row is returned. */
  function LookupResult(table: seq<Row>, fault: Option<Fault>, q: Select,
                        args: seq<Nullable<string>>, notFound: string): Outcome
  {
    if fault.Some? then Threw(SQLException(fault.value.message))
    else
      var rows := Eval(q, Positional(args), table);
      if rows == [] then Returned(notFound) else Returned(Welcome(rows[0].username))
  }

  function ScopedLookup(table: seq<Row>, fault: Option<Fault>, via: Via, q: Select,
                        args: seq<Nullable<string>>, notFound: string): Run
  {
    Run(LookupResult(table, fault, q, args, notFound), ScopedCalls(fault, via, Render(q), args))
  }

  function UnscopedLookup(table: seq<Row>, fault: Option<Fault>, via: Via, q: Select,
                          args: seq<Nullable<string>>, notFound: string): Run
  {
    Run(LookupResult(table, fault, q, args, notFound), UnscopedCalls(fault, via, Render(q), args))
  }

  /** The calls a lookup makes, with or without resource handling: exactly
      one connection attempt; once connected, exactly one statement, with
      text sql; once prepared, the arguments bound at positions 1, 2, ...
      unchanged, and no other binding. */
  lemma LookupCalls(fault: Option<Fault>, via: Via, sql: string, args: seq<Nullable<string>>, c: Calls)
    requires c == ScopedCalls(fault, via, sql, args) || c == UnscopedCalls(fault, via, sql, args)
    ensures c.connects == [via]
    ensures c.statements == if fault.Some? && fault.value.stage == AtConnect then [] else [sql]
    ensures fault.Some? && fault.value.stage != AtExecute ==> c.bindings == []
    ensures fault.None? || fault.value.stage == AtExecute ==>
      |c.bindings| == |args| && forall i :: 0 <= i < |args| ==> c.bindings[i] == Binding(i + 1, args[i])
  {
  }

  /** try-with-resources releases every resource it acquired on every path,
      innermost first. */
  lemma {:induction false} ScopedReleases(fault: Option<Fault>, via: Via, sql: string,
                                          args: seq<Nullable<string>>)
    ensures Released(ScopedCalls(fault, via, sql, args))
  {
    var c := ScopedCalls(fault, via, sql, args);
    match fault {
      case None =>
        assert c.acquired == [ConnectionRes, StatementRes, ResultSetRes];
      case Some(Fault(AtExecute, _)) =>
        assert c.acquired == [ConnectionRes, StatementRes];
      case Some(Fault(AtPrepare, _)) =>
      case Some(Fault(AtConnect, _)) =>
    }
  }

  /** Without it nothing is ever released, and a lookup that reaches the
      result leaves the connection, the statement and the result set open. */
  lemma UnscopedLeaks(fault: Option<Fault>, via: Via, sql: string, args: seq<Nullable<string>>)
    ensures UnscopedCalls(fault, via, sql, args).released == []
    ensures fault.None? ==> UnscopedCalls(fault, via, sql, args).acquired == [ConnectionRes, StatementRes, ResultSetRes]
    ensures fault.None? || fault.value.stage != AtConnect ==> !Released(UnscopedCalls(fault, via, sql, args))
  {
  }

  /** What a lookup returns: the driver's SQLException, unchanged, when a
      stage fails; otherwise the not-found message when no row matches, and
      otherwise the greeting for the first matching row of the table. */
  lemma {:induction false} LookupResultCases(table: seq<Row>, fault: Option<Fault>, q: Select,
                                             args: seq<Nullable<string>>, notFound: string)
    ensures var out := LookupResult(table, fault, q, args, notFound);
      && (fault.Some? ==> out == Threw(SQLException(fault.value.message)))
      && (fault.None? && (forall k :: 0 <= k < |table| ==> !Matches(q, Positional(args), table[k]))
          ==> out == Returned(notFound))
      && (fault.None? && (exists k :: 0 <= k < |table| && Matches(q, Positional(args), table[k]))
          ==> exists j :: FirstMatch(q, Positional(args), table, j)
                          && out == Returned(Welcome(table[j].username)))
  {
    EvalFirst(q, Positional(args), table);
  }

  /** For a query keyed on the username alone, a lookup that does not fail
      greets u exactly when the bound name is u and some row holds the
      username u, whatever characters u contains; it never greets anyone
      else, and a null name is never found. */
  lemma {:induction false} LookupByName(table: seq<Row>, fault: Option<Fault>, q: Select,
                                        v: Nullable<string>, notFound: string)
    requires q.where == [Username]
    ensures fault.None? ==>
      LookupResult(table, fault, q, [v], notFound)
        == if v.NonNull? && HasUser(table, v.value) then Returned(Welcome(v.value)) else Returned(notFound)
  {
    LookupResultCases(table, fault, q, [v], notFound);
    forall r: Row
      ensures Matches(q, Positional([v]), r) <==> v.NonNull? && r.username == v.value
    {
      ByNameMatch(q, v, r);
    }
    if fault.None? && v.NonNull? && HasUser(table, v.value) {
      var r :| r in table && r.username == v.value;
      var k :| 0 <= k < |table| && table[k] == r;
      assert Matches(q, Positional([v]), table[k]);
    }
  }
}
