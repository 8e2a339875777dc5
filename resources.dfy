/** The external handles the streaming code owns (JDBC connection, statement and result
    set; MyBatis session and cursor), reduced to what the release code can observe:
    whether a handle is open, and whether closing it throws and with which message.
    A `Journal` records what the outside world sees of the program: each handle that
    is opened, each call that closes a handle, and each line written to the log. */
module Resources {
  import opened Rows

  datatype Option<T> = None | Some(value: T)

  /** The exceptions that reach the streaming code's callers: the two it throws itself,
      and MyBatis's unchecked `PersistenceException`, which it lets through. */
  datatype Exception =
    | NoSuchElementException(message: string)
    | RuntimeException(message: string)
    | PersistenceException(message: string)

  /** A Java call's outcome: a value, or the exception it throws. */
  datatype Result<T> = Ok(value: T) | Throws(exception: Exception)

  datatype Kind = ResultSetHandle | StatementHandle | ConnectionHandle | CursorHandle | SessionHandle

  datatype Level = Info | Error

  datatype Event = Opened(kind: Kind) | CloseCalled(kind: Kind) | Logged(level: Level, message: string)

  /** One close attempt: which handle, and the message of the exception its `close()`
      throws, if it throws. */
  datatype Attempt = Attempt(kind: Kind, failure: Option<string>)

  /** A `try { h.close(); } catch (e) { log.error(e.getMessage()); }` block, seen from outside. */
  function AttemptEvents(a: Attempt): seq<Event> {
    [CloseCalled(a.kind)] + if a.failure.Some? then [Logged(Error, a.failure.value)] else []
  }

  /** A run of such blocks, one after the other. */
  function ReleaseEvents(attempts: seq<Attempt>): seq<Event> {
    if attempts == [] then [] else AttemptEvents(attempts[0]) + ReleaseEvents(attempts[1..])
  }

  /** The handles closed in `events`, in the order the close calls were made. */
  function ClosesIn(events: seq<Event>): seq<Kind> {
    if events == [] then []
    else (if events[0].CloseCalled? then [events[0].kind] else []) + ClosesIn(events[1..])
  }

  /** The messages logged at error level in `events`, in order. */
  function ErrorsIn(events: seq<Event>): seq<string> {
    if events == [] then []
    else (if events[0].Logged? && events[0].level == Error then [events[0].message] else [])
         + ErrorsIn(events[1..])
  }

  function KindsOf(attempts: seq<Attempt>): seq<Kind> {
    if attempts == [] then [] else [attempts[0].kind] + KindsOf(attempts[1..])
  }

  /** The messages of the attempts that fail, in order. */
  function FailuresOf(attempts: seq<Attempt>): seq<string> {
    if attempts == [] then []
    else (if attempts[0].failure.Some? then [attempts[0].failure.value] else [])
         + FailuresOf(attempts[1..])
  }

  /** What a single close logs at error level. */
  function FailureMessages(failure: Option<string>): seq<string> {
    if failure.Some? then [failure.value] else []
  }

  lemma {:induction false} ClosesInAppend(a: seq<Event>, b: seq<Event>)
    ensures ClosesIn(a + b) == ClosesIn(a) + ClosesIn(b)
  {
    if a == [] {
      assert a + b == b;
    } else {
      assert (a + b)[1..] == a[1..] + b;
      ClosesInAppend(a[1..], b);
    }
  }

  lemma {:induction false} ErrorsInAppend(a: seq<Event>, b: seq<Event>)
    ensures ErrorsIn(a + b) == ErrorsIn(a) + ErrorsIn(b)
  {
    if a == [] {
      assert a + b == b;
    } else {
      assert (a + b)[1..] == a[1..] + b;
      ErrorsInAppend(a[1..], b);
    }
  }

  /** A failing close never stops the later ones: every handle of a release run is
      closed, in the order given, whatever fails. */
  lemma {:induction false} ReleaseClosesEveryHandle(attempts: seq<Attempt>)
    ensures ClosesIn(ReleaseEvents(attempts)) == KindsOf(attempts)
  {
    if attempts != [] {
      var a := attempts[0];
      var tail := if a.failure.Some? then [Logged(Error, a.failure.value)] else [];
      ClosesInAppend(AttemptEvents(a), ReleaseEvents(attempts[1..]));
      ClosesInAppend([CloseCalled(a.kind)], tail);
      assert ClosesIn(tail) == [];
      ReleaseClosesEveryHandle(attempts[1..]);
    }
  }

  /** Every close failure of a release run is logged at error level, in order, and
      nothing else is. */
  lemma {:induction false} ReleaseLogsEveryFailure(attempts: seq<Attempt>)
    ensures ErrorsIn(ReleaseEvents(attempts)) == FailuresOf(attempts)
  {
    if attempts != [] {
      var a := attempts[0];
      var tail := if a.failure.Some? then [Logged(Error, a.failure.value)] else [];
      ErrorsInAppend(AttemptEvents(a), ReleaseEvents(attempts[1..]));
      ErrorsInAppend([CloseCalled(a.kind)], tail);
      assert ErrorsIn([CloseCalled(a.kind)]) == [];
      ReleaseLogsEveryFailure(attempts[1..]);
    }
  }

  lemma ThreeAttempts(a: Attempt, b: Attempt, c: Attempt)
    ensures ReleaseEvents([a, b, c]) == AttemptEvents(a) + AttemptEvents(b) + AttemptEvents(c)
    ensures KindsOf([a, b, c]) == [a.kind, b.kind, c.kind]
    ensures FailuresOf([a, b, c]) == FailuresOf([a]) + FailuresOf([b]) + FailuresOf([c])
  {
    assert [a, b, c][1..] == [b, c] && [b, c][1..] == [c] && [c][1..] == [];
    assert [a][1..] == [] && [b][1..] == [];
    calc {
      ReleaseEvents([a, b, c]);
      AttemptEvents(a) + ReleaseEvents([b, c]);
      AttemptEvents(a) + (AttemptEvents(b) + ReleaseEvents([c]));
      AttemptEvents(a) + (AttemptEvents(b) + (AttemptEvents(c) + ReleaseEvents([])));
      { assert AttemptEvents(c) + [] == AttemptEvents(c); }
      AttemptEvents(a) + AttemptEvents(b) + AttemptEvents(c);
    }
    calc {
      KindsOf([a, b, c]);
      [a.kind] + KindsOf([b, c]);
      [a.kind] + ([b.kind] + ([c.kind] + KindsOf([])));
      [a.kind, b.kind, c.kind];
    }
    assert FailuresOf([a]) + [] == FailuresOf([a]);
  }

  /** The log of the program together with the handles it opens and closes. */
  class Journal {
    var events: seq<Event>

    constructor ()
      ensures events == []
    {
      events := [];
    }

    /** `log.info(...)` / `log.error(...)`. */
    method Log(level: Level, message: string)
      modifies this
      ensures events == old(events) + [Logged(level, message)]
    {
      events := events + [Logged(level, message)];
    }
  }

  /** An external handle. `closeFailure` is fixed by the driver: `Some(m)` means that
      `close()` throws an exception with message `m` and leaves the handle as it was. */
  class Handle {
    const kind: Kind
    const closeFailure: Option<string>
    var open: bool

    /** Acquiring the external resource, which `journal` records. */
    constructor (kind: Kind, closeFailure: Option<string>, journal: Journal)
      modifies journal
      ensures this.kind == kind && this.closeFailure == closeFailure && open
      ensures journal.events == old(journal.events) + [Opened(kind)]
    {
      this.kind := kind;
      this.closeFailure := closeFailure;
      open := true;
      new;
      journal.events := journal.events + [Opened(kind)];
    }

    function AsAttempt(): Attempt {
      Attempt(kind, closeFailure)
    }

    /** `close()`: either closes the handle or throws (returned as `thrown`). */
    method Close(journal: Journal) returns (thrown: Option<string>)
      modifies this, journal
      ensures thrown == closeFailure
      ensures open == (old(open) && closeFailure.Some?)
      ensures journal.events == old(journal.events) + [CloseCalled(kind)]
    {
      journal.events := journal.events + [CloseCalled(kind)];
      thrown := closeFailure;
      if thrown.None? {
        open := false;
      }
    }
  }

  /** Close `h`, logging the exception's message at error level instead of throwing it. */
  method CloseLogged(h: Handle, journal: Journal)
    modifies h, journal
    ensures h.open == (old(h.open) && h.closeFailure.Some?)
    ensures journal.events == old(journal.events) + AttemptEvents(h.AsAttempt())
  {
    var thrown := h.Close(journal);
    if thrown.Some? {
      journal.Log(Error, thrown.value);
    }
  }

  /** A new handle whose close behaviour the driver decides. */
  method OpenHandle(kind: Kind, journal: Journal) returns (h: Handle)
    modifies journal
    ensures fresh(h) && h.kind == kind && h.open
    ensures journal.events == old(journal.events) + [Opened(kind)]
  {
    var failure: Option<string> :| true;
    h := new Handle(kind, failure, journal);
  }

  /** `DataSource`. `select` stands for the database: the rows a query's text selects.
      `connectFailure` is the description of the `SQLException` that `getConnection()`
      raises when the database cannot be reached, if it cannot. */
  class DataSource {
    const select: string -> seq<Entity>
    const connectFailure: Option<string>
    /** Where the resources it opens are recorded. */
    const journal: Journal

    constructor (select: string -> seq<Entity>, connectFailure: Option<string>, journal: Journal)
      ensures this.select == select && this.connectFailure == connectFailure && this.journal == journal
    {
      this.select := select;
      this.connectFailure := connectFailure;
      this.journal := journal;
    }

    /** `ServiceExample.getConnection()`: `dataSource.getConnection()`, with its
        `SQLException` rethrown as a `RuntimeException` around it. */
    method GetConnection() returns (r: Result<Connection>)
      modifies journal
      ensures connectFailure.Some? ==>
                r == Throws(RuntimeException(connectFailure.value)) && journal.events == old(journal.events)
      ensures connectFailure.None? ==>
                r.Ok? && fresh(r.value) && fresh(r.value.handle) && r.value.Valid() &&
                r.value.handle.open && r.value.select == select && r.value.journal == journal &&
                journal.events == old(journal.events) + [Opened(ConnectionHandle)]
    {
      if connectFailure.Some? {
        return Throws(RuntimeException(connectFailure.value));
      }
      var h := OpenHandle(ConnectionHandle, journal);
      var c := new Connection(h, select, journal);
      r := Ok(c);
    }
  }

  class Connection {
    const handle: Handle
    const select: string -> seq<Entity>
    /** Where the resources it opens are recorded. */
    const journal: Journal

    predicate Valid() {
      handle.kind == ConnectionHandle
    }

    constructor (handle: Handle, select: string -> seq<Entity>, journal: Journal)
      ensures this.handle == handle && this.select == select && this.journal == journal
    {
      this.handle := handle;
      this.select := select;
      this.journal := journal;
    }

    /** `createStatement()` on an open connection. */
    method CreateStatement() returns (s: Statement)
      modifies journal
      requires handle.open
      ensures fresh(s) && fresh(s.handle) && s.handle.open && s.handle.kind == StatementHandle
      ensures s.select == select && s.journal == journal
      ensures journal.events == old(journal.events) + [Opened(StatementHandle)]
    {
      var h := OpenHandle(StatementHandle, journal);
      s := new Statement(h, select, journal);
    }
  }

  class Statement {
    const handle: Handle
    const select: string -> seq<Entity>
    /** Where the resources it opens are recorded. */
    const journal: Journal

    constructor (handle: Handle, select: string -> seq<Entity>, journal: Journal)
      ensures this.handle == handle && this.select == select && this.journal == journal
    {
      this.handle := handle;
      this.select := select;
      this.journal := journal;
    }

    /** `executeQuery(query)` on an open statement: a result set positioned before its
        first row. */
    method ExecuteQuery(query: string) returns (rs: ResultSet)
      modifies journal
      requires handle.open
      ensures fresh(rs) && fresh(rs.handle) && rs.handle.open && rs.handle.kind == ResultSetHandle
      ensures rs.rows == select(query) && rs.position == 0 && rs.fetches == 0
      ensures journal.events == old(journal.events) + [Opened(ResultSetHandle)]
    {
      var h := OpenHandle(ResultSetHandle, journal);
      rs := new ResultSet(h, select(query));
    }
  }

  /** A forward-only JDBC result set. `position` is 0 before the first row, `i` on row
      `rows[i - 1]`, and `|rows| + 1` after the last row. A read on a closed result set
      raises `SQLException`, returned as `None`. */
  class ResultSet {
    const handle: Handle
    const rows: seq<Entity>
    var position: nat
    /** How many times `next()` has been called: each call is a fetch from the database. */
    ghost var fetches: nat

    constructor (handle: Handle, rows: seq<Entity>)
      ensures this.handle == handle && this.rows == rows && position == 0 && fetches == 0
    {
      this.handle := handle;
      this.rows := rows;
      position := 0;
      fetches := 0;
    }

    /** `next()`: moves to the following row and says whether it is on one. */
    method Next() returns (r: Option<bool>)
      modifies this
      ensures fetches == old(fetches) + 1
      ensures !handle.open ==> r == None && position == old(position)
      ensures handle.open ==> position == (if old(position) <= |rows| then old(position) + 1 else old(position))
      ensures handle.open ==> r == Some(position <= |rows|)
    {
      fetches := fetches + 1;
      if !handle.open {
        return None;
      }
      if position <= |rows| {
        position := position + 1;
      }
      r := Some(position <= |rows|);
    }

    /** `getLong("id")`, `getString("name")`, `getString("description")` on the current row. */
    method GetRow() returns (r: Option<Entity>)
      ensures r.Some? <==> handle.open && 1 <= position <= |rows|
      ensures r.Some? ==> r.value == rows[position - 1]
    {
      if handle.open && 1 <= position <= |rows| {
        r := Some(rows[position - 1]);
      } else {
        r := None;
      }
    }
  }

  /** `SqlSessionFactory`. `select` stands for the database as the mapper sees it.
      `openFailure` is the message of the `PersistenceException` that `openSession()`
      raises when no session can be opened, if it cannot. */
  class SqlSessionFactory {
    const select: string -> seq<BatisEntity>
    const openFailure: Option<string>
    /** Where the resources it opens are recorded. */
    const journal: Journal

    constructor (select: string -> seq<BatisEntity>, openFailure: Option<string>, journal: Journal)
      ensures this.select == select && this.openFailure == openFailure && this.journal == journal
    {
      this.select := select;
      this.openFailure := openFailure;
      this.journal := journal;
    }

    /** `openSession()`. */
    method OpenSession() returns (r: Result<SqlSession>)
      modifies journal
      ensures openFailure.Some? ==>
                r == Throws(PersistenceException(openFailure.value)) && journal.events == old(journal.events)
      ensures openFailure.None? ==>
                r.Ok? && fresh(r.value) && fresh(r.value.handle) && r.value.handle.open &&
                r.value.handle.kind == SessionHandle && r.value.select == select && r.value.journal == journal &&
                journal.events == old(journal.events) + [Opened(SessionHandle)]
    {
      if openFailure.Some? {
        return Throws(PersistenceException(openFailure.value));
      }
      var h := OpenHandle(SessionHandle, journal);
      var s := new SqlSession(h, select, journal);
      r := Ok(s);
    }
  }

  class SqlSession {
    const handle: Handle
    const select: string -> seq<BatisEntity>
    /** Where the resources it opens are recorded. */
    const journal: Journal

    constructor (handle: Handle, select: string -> seq<BatisEntity>, journal: Journal)
      ensures this.handle == handle && this.select == select && this.journal == journal
    {
      this.handle := handle;
      this.select := select;
      this.journal := journal;
    }

    /** A mapper call that returns a `Cursor`: an open cursor over `items`. */
    method OpenCursor<T>(items: seq<T>) returns (c: Cursor<T>)
      modifies journal
      ensures fresh(c) && fresh(c.handle) && c.handle.open && c.handle.kind == CursorHandle
      ensures c.items == items
      ensures journal.events == old(journal.events) + [Opened(CursorHandle)]
    {
      var h := OpenHandle(CursorHandle, journal);
      c := new Cursor(h, items);
    }
  }

  /** A MyBatis `Cursor`: the rows it will hand out, and its handle. MyBatis closes a
      cursor by itself once it has been read to the end, so `handle.open` may be false
      before anyone calls `close()`. */
  class Cursor<T> {
    const handle: Handle
    const items: seq<T>

    constructor (handle: Handle, items: seq<T>)
      ensures this.handle == handle && this.items == items
    {
      this.handle := handle;
      this.items := items;
    }

    /** `isOpen()`. */
    method IsOpen() returns (b: bool)
      ensures b == handle.open
    {
      b := handle.open;
    }
  }
}
