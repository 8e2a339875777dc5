/** The MyBatis path: `ServiceExample.MyBatisFluxResultProducer`, a single-use producer
    that opens one session, binds one cursor on it, and later releases both. */
module BatisStreaming {
  import opened Rows
  import opened Resources

  const CursorAlreadyOpen: string := "Cursor already open"

  /** What `close()` shows the world, given whether the cursor is still open and how
      closing the cursor and the session goes. */
  function ProducerReleaseEvents(cursorOpen: bool, cursor: Option<string>,
                                 session: Option<string>): seq<Event>
  {
    ReleaseEvents((if cursorOpen then [Attempt(CursorHandle, cursor)] else [])
                  + [Attempt(SessionHandle, session)])
  }

  /** `close()` closes the cursor only when it is still open, and then the session in
      every case, including when closing the cursor failed; each failure is logged as an
      error instead of being thrown. */
  lemma ProducerReleaseOrder(cursorOpen: bool, cursor: Option<string>, session: Option<string>)
    ensures ClosesIn(ProducerReleaseEvents(cursorOpen, cursor, session))
            == (if cursorOpen then [CursorHandle] else []) + [SessionHandle]
    ensures ErrorsIn(ProducerReleaseEvents(cursorOpen, cursor, session))
            == (if cursorOpen then FailureMessages(cursor) else []) + FailureMessages(session)
  {
    var attempts := (if cursorOpen then [Attempt(CursorHandle, cursor)] else [])
                    + [Attempt(SessionHandle, session)];
    ReleaseClosesEveryHandle(attempts);
    ReleaseLogsEveryFailure(attempts);
    var last := [Attempt(SessionHandle, session)];
    assert last[1..] == [];
    assert KindsOf(last) == [SessionHandle];
    assert FailuresOf(last) == FailureMessages(session) + [];
    if cursorOpen {
      assert attempts[1..] == last;
      assert KindsOf(attempts) == [CursorHandle] + KindsOf(last);
      assert FailuresOf(attempts) == FailureMessages(cursor) + FailuresOf(last);
    } else {
      assert attempts == last;
    }
  }

  class MyBatisFluxResultProducer<T> {
    const sqlSessionFactory: SqlSessionFactory
    /** The class's logger: the same journal that records the resources it opens. */
    const journal: Journal
    var cursor: Cursor?<T>
    var sqlSession: SqlSession?

    ghost predicate Valid()
      reads this
    {
      sqlSessionFactory.journal == journal &&
      (sqlSession != null ==> sqlSession.handle.kind == SessionHandle) &&
      (cursor != null ==> cursor.handle.kind == CursorHandle)
    }

    constructor (sqlSessionFactory: SqlSessionFactory)
      ensures Valid() && cursor == null && sqlSession == null
      ensures this.sqlSessionFactory == sqlSessionFactory && this.journal == sqlSessionFactory.journal
    {
      this.sqlSessionFactory := sqlSessionFactory;
      this.journal := sqlSessionFactory.journal;
      cursor := null;
      sqlSession := null;
    }

    /** `execute(cursorFunction)`. The mapper call `cursorFunction` is given by the rows
        it selects through the session; the result is the cursor that the returned
        stream reads. A failing `openSession()` throws through, leaving nothing bound. */
    method Execute(cursorFunction: SqlSession -> seq<T>) returns (r: Result<Cursor<T>>)
      requires Valid()
      modifies this, journal
      ensures Valid()
      ensures old(sqlSession) != null ==>
                r == Throws(RuntimeException(CursorAlreadyOpen)) &&
                sqlSession == old(sqlSession) && cursor == old(cursor) &&
                journal.events == old(journal.events)
      ensures old(sqlSession) == null && sqlSessionFactory.openFailure.Some? ==>
                r == Throws(PersistenceException(sqlSessionFactory.openFailure.value)) &&
                sqlSession == null && cursor == old(cursor) &&
                journal.events == old(journal.events)
      ensures old(sqlSession) == null && sqlSessionFactory.openFailure.None? ==>
                sqlSession != null && fresh(sqlSession) && fresh(sqlSession.handle) &&
                sqlSession.handle.open && sqlSession.select == sqlSessionFactory.select &&
                cursor != null && fresh(cursor) && fresh(cursor.handle) && cursor.handle.open &&
                cursor.items == cursorFunction(sqlSession) && r.Ok? && r.value == cursor &&
                journal.events == old(journal.events) + [Opened(SessionHandle), Opened(CursorHandle)]
    {
      if sqlSession != null {
        return Throws(RuntimeException(CursorAlreadyOpen));
      }
      var session := sqlSessionFactory.OpenSession();
      if session.Throws? {
        return Throws(session.exception);
      }
      sqlSession := session.value;
      cursor := session.value.OpenCursor(cursorFunction(session.value));
      r := Ok(cursor);
    }

    /** `close()`: releases the cursor if still open and then the session; never throws.
        Calling it before `execute` dereferences a null cursor in the source, hence the
        precondition. */
    method Close()
      requires Valid() && cursor != null && sqlSession != null
      modifies cursor.handle, sqlSession.handle, journal
      ensures journal.events == old(journal.events) +
                ProducerReleaseEvents(old(cursor.handle.open), cursor.handle.closeFailure,
                                      sqlSession.handle.closeFailure)
      ensures cursor.handle.open == (old(cursor.handle.open) && cursor.handle.closeFailure.Some?)
      ensures sqlSession.handle.open == (old(sqlSession.handle.open) && sqlSession.handle.closeFailure.Some?)
    {
      ghost var c, s := cursor.handle.AsAttempt(), sqlSession.handle.AsAttempt();
      var isOpen := cursor.IsOpen();
      if isOpen {
        CloseLogged(cursor.handle, journal);
      }
      CloseLogged(sqlSession.handle, journal);
      assert [s][1..] == [];
      assert ReleaseEvents([s]) == AttemptEvents(s);
      if isOpen {
        assert ([c] + [s])[1..] == [s];
        assert ReleaseEvents([c] + [s]) == AttemptEvents(c) + AttemptEvents(s);
      } else {
        assert [] + [s] == [s];
      }
    }
  }
}
