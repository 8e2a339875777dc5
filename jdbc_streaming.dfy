/** The JDBC path: `ServiceExample.ResultSetIterator`, a forward-only iterator that owns
    a connection, the statement it created and the result set that statement returned. */
module JdbcStreaming {
  import opened Rows
  import opened Resources

  const NoMoreElements: string := "No more elements in ResultSet"
  const FetchFailed: string := "Failed to fetch next row from ResultSet"
  const ConnectionClosed: string := "Connection closed!"

  /** What `close()` shows the world, given how closing each of the three handles goes. */
  function IteratorReleaseEvents(resultSet: Option<string>, statement: Option<string>,
                                 connection: Option<string>): seq<Event>
  {
    ReleaseEvents([Attempt(ResultSetHandle, resultSet), Attempt(StatementHandle, statement),
                   Attempt(ConnectionHandle, connection)])
    + [Logged(Info, ConnectionClosed)]
  }

  /** `close()` closes the result set, then the statement, then the connection, each
      whatever became of the ones before; it logs every close failure as an error, and
      it always ends with the "Connection closed!" line. */
  lemma IteratorReleaseOrder(resultSet: Option<string>, statement: Option<string>,
                             connection: Option<string>)
    ensures ClosesIn(IteratorReleaseEvents(resultSet, statement, connection))
            == [ResultSetHandle, StatementHandle, ConnectionHandle]
    ensures ErrorsIn(IteratorReleaseEvents(resultSet, statement, connection))
            == FailureMessages(resultSet) + FailureMessages(statement) + FailureMessages(connection)
    ensures var events := IteratorReleaseEvents(resultSet, statement, connection);
            events[|events| - 1] == Logged(Info, ConnectionClosed)
  {
    var attempts := [Attempt(ResultSetHandle, resultSet), Attempt(StatementHandle, statement),
                     Attempt(ConnectionHandle, connection)];
    var farewell := [Logged(Info, ConnectionClosed)];
    ReleaseClosesEveryHandle(attempts);
    ReleaseLogsEveryFailure(attempts);
    ClosesInAppend(ReleaseEvents(attempts), farewell);
    ErrorsInAppend(ReleaseEvents(attempts), farewell);
    ThreeAttempts(attempts[0], attempts[1], attempts[2]);
  }

  class ResultSetIterator {
    const connection: Connection
    const statement: Statement
    const resultSet: ResultSet
    /** The class's logger: the same journal that records the resources it opens. */
    const journal: Journal
    /** Whether the result set stands on a row not yet handed out. */
    var hasNext: bool

    ghost predicate Valid()
      reads this, resultSet
    {
      connection.handle.kind == ConnectionHandle &&
      statement.handle.kind == StatementHandle &&
      resultSet.handle.kind == ResultSetHandle &&
      1 <= resultSet.position <= |resultSet.rows| + 1 &&
      hasNext == (resultSet.position <= |resultSet.rows|)
    }

    /** The rows handed out so far, in order. */
    ghost function Consumed(): seq<Entity>
      reads this, resultSet
      requires Valid()
    {
      resultSet.rows[..resultSet.position - 1]
    }

    /** The rows still to be handed out, in order. */
    ghost function Remaining(): seq<Entity>
      reads this, resultSet
      requires Valid()
    {
      resultSet.rows[resultSet.position - 1..]
    }

    /** Runs `query` on a new statement of `connection` and fetches the first row. */
    constructor (connection: Connection, query: string)
      requires connection.Valid() && connection.handle.open
      modifies connection.journal
      ensures Valid()
      ensures connection.journal.events ==
                old(connection.journal.events) + [Opened(StatementHandle), Opened(ResultSetHandle)]
      ensures resultSet.fetches == 1
      ensures this.connection == connection && this.journal == connection.journal
      ensures fresh(statement) && fresh(statement.handle) && fresh(resultSet) && fresh(resultSet.handle)
      ensures statement.handle.open && resultSet.handle.open
      ensures resultSet.rows == connection.select(query)
      ensures Consumed() == [] && Remaining() == connection.select(query)
      ensures hasNext <==> |connection.select(query)| > 0
    {
      var st := connection.CreateStatement();
      var rs := st.ExecuteQuery(query);
      var first := rs.Next();
      this.connection := connection;
      this.statement := st;
      this.resultSet := rs;
      this.journal := connection.journal;
      this.hasNext := first.value;
    }

    /** `hasNext()`: answers from the cached flag, fetching nothing. */
    method HasNext() returns (b: bool)
      requires Valid()
      ensures b == hasNext
      ensures b <==> Remaining() != []
    {
      b := hasNext;
    }

    /** `next()`: hands out the current row and moves to the following one. */
    method Next() returns (r: Result<Entity>)
      requires Valid()
      modifies this, resultSet
      ensures Valid()
      ensures !old(hasNext) ==> r == Throws(NoSuchElementException(NoMoreElements))
      ensures old(hasNext) && !resultSet.handle.open ==> r == Throws(RuntimeException(FetchFailed))
      ensures r.Throws? ==> hasNext == old(hasNext) && resultSet.position == old(resultSet.position)
      ensures !old(hasNext) || !resultSet.handle.open ==> resultSet.fetches == old(resultSet.fetches)
      ensures r.Ok? ==> resultSet.fetches == old(resultSet.fetches) + 1
      ensures old(hasNext) && resultSet.handle.open ==>
                r == Ok(old(Remaining())[0]) &&
                Consumed() == old(Consumed()) + [r.value] &&
                Remaining() == old(Remaining())[1..]
    {
      if !hasNext {
        return Throws(NoSuchElementException(NoMoreElements));
      }
      var row := resultSet.GetRow();
      if row.None? {
        return Throws(RuntimeException(FetchFailed));
      }
      var more := resultSet.Next();
      if more.None? {
        return Throws(RuntimeException(FetchFailed));
      }
      hasNext := more.value;
      r := Ok(row.value);
    }

    /** `close()`: releases the three handles and never throws. */
    method Close()
      requires Valid()
      modifies resultSet.handle, statement.handle, connection.handle, journal
      ensures Valid() && hasNext == old(hasNext) && resultSet.position == old(resultSet.position)
      ensures journal.events == old(journal.events) +
                IteratorReleaseEvents(resultSet.handle.closeFailure, statement.handle.closeFailure,
                                      connection.handle.closeFailure)
      ensures resultSet.handle.open == (old(resultSet.handle.open) && resultSet.handle.closeFailure.Some?)
      ensures statement.handle.open == (old(statement.handle.open) && statement.handle.closeFailure.Some?)
      ensures connection.handle.open == (old(connection.handle.open) && connection.handle.closeFailure.Some?)
    {
      ghost var before := journal.events;
      ghost var a0, a1, a2 := resultSet.handle.AsAttempt(), statement.handle.AsAttempt(),
                              connection.handle.AsAttempt();
      CloseLogged(resultSet.handle, journal);
      CloseLogged(statement.handle, journal);
      CloseLogged(connection.handle, journal);
      ghost var e2 := journal.events;
      journal.Log(Info, ConnectionClosed);
      ThreeAttempts(a0, a1, a2);
      assert e2 == before + (AttemptEvents(a0) + AttemptEvents(a1) + AttemptEvents(a2));
    }
  }

  /** A consumer that pulls while `hasNext()` holds, as the ordered spliterator over the
      iterator does when the stream is read to the end: it receives exactly the rows not
      yet handed out, in result-set order, and leaves the iterator exhausted. */
  method ReadAll(it: ResultSetIterator) returns (rows: seq<Entity>)
    requires it.Valid() && it.resultSet.handle.open
    modifies it, it.resultSet
    ensures it.Valid() && !it.hasNext
    ensures rows == old(it.Remaining())
    ensures old(it.Consumed()) + rows == it.resultSet.rows
  {
    ghost var all := it.resultSet.rows;
    ghost var start := it.resultSet.position;
    rows := [];
    var more := it.HasNext();
    while more
      invariant it.Valid() && it.resultSet.handle.open
      invariant more == it.hasNext
      invariant start <= it.resultSet.position
      invariant rows == all[start - 1..it.resultSet.position - 1]
      decreases |all| + 1 - it.resultSet.position
    {
      ghost var p := it.resultSet.position;
      SliceGrows(all, start - 1, p - 1);
      var r := it.Next();
      assert r.value == all[p - 1] && it.resultSet.position == p + 1;
      rows := rows + [r.value];
      more := it.HasNext();
    }
    assert all[start - 1..it.resultSet.position - 1] == all[start - 1..];
  }

  /** Extending a slice by the next element. */
  lemma SliceGrows<T>(s: seq<T>, i: nat, j: nat)
    requires i <= j < |s|
    ensures s[i..j + 1] == s[i..j] + [s[j]]
  {
  }

  /** The stream over the iterator read to the end, then its close hook run. */
  method ConsumeAndClose(it: ResultSetIterator) returns (rows: seq<Entity>)
    requires it.Valid() && it.resultSet.handle.open
    modifies it, it.resultSet, it.resultSet.handle, it.statement.handle, it.connection.handle, it.journal
    ensures it.Valid() && !it.hasNext
    ensures rows == old(it.Remaining())
    ensures it.journal.events == old(it.journal.events) +
              IteratorReleaseEvents(it.resultSet.handle.closeFailure, it.statement.handle.closeFailure,
                                    it.connection.handle.closeFailure)
    ensures it.resultSet.handle.open == (old(it.resultSet.handle.open) && it.resultSet.handle.closeFailure.Some?)
    ensures it.statement.handle.open == (old(it.statement.handle.open) && it.statement.handle.closeFailure.Some?)
    ensures it.connection.handle.open == (old(it.connection.handle.open) && it.connection.handle.closeFailure.Some?)
  {
    rows := ReadAll(it);
    it.Close();
  }
}
