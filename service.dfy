/** `ServiceExample.findAllJdbc` and `findAllBatis` with their streams read to the end
    and then closed, which is how the HTTP endpoints use them. */
module Service {
  import opened Rows
  import opened Resources
  import opened JdbcStreaming
  import opened BatisStreaming

  /** The query of both paths (the MyBatis one through the mapper's annotation). */
  const FindAllSql: string := "SELECT * FROM testschema.entities"

  /** The JDBC endpoint: every row of the table, projected to `Dto`s in table order;
      then the stream's close hook releases the iterator's three handles. When no
      connection can be had, `getConnection()` throws before anything is opened. */
  method FindAllJdbc(dataSource: DataSource)
    returns (r: Result<seq<Dto>>, it: ResultSetIterator?)
    modifies dataSource.journal
    ensures dataSource.connectFailure.Some? ==>
              r == Throws(RuntimeException(dataSource.connectFailure.value)) && it == null &&
              dataSource.journal.events == old(dataSource.journal.events)
    ensures dataSource.connectFailure.None? ==>
              it != null && fresh(it) && fresh(it.connection) && it.Valid() && !it.hasNext &&
              it.journal == dataSource.journal &&
              r == Ok(MapAll(EntityToDto, dataSource.select(FindAllSql))) &&
              dataSource.journal.events == old(dataSource.journal.events) +
                [Opened(ConnectionHandle), Opened(StatementHandle), Opened(ResultSetHandle)] +
                IteratorReleaseEvents(it.resultSet.handle.closeFailure, it.statement.handle.closeFailure,
                                      it.connection.handle.closeFailure) &&
              it.resultSet.handle.open == it.resultSet.handle.closeFailure.Some? &&
              it.statement.handle.open == it.statement.handle.closeFailure.Some? &&
              it.connection.handle.open == it.connection.handle.closeFailure.Some?
  {
    var connection := dataSource.GetConnection();
    if connection.Throws? {
      return Throws(connection.exception), null;
    }
    var dtos;
    dtos, it := StreamOver(connection.value);
    r := Ok(dtos);
  }

  /** The part of `findAllJdbc` after `getConnection()`: the iterator over the opened
      connection, its stream read to the end and projected, then its close hook. */
  method StreamOver(connection: Connection) returns (dtos: seq<Dto>, it: ResultSetIterator)
    requires connection.Valid() && connection.handle.open
    modifies connection.journal, connection.handle
    ensures fresh(it) && it.connection == connection && it.Valid() && !it.hasNext &&
            it.journal == connection.journal
    ensures dtos == MapAll(EntityToDto, connection.select(FindAllSql))
    ensures connection.journal.events ==
              old(connection.journal.events) + [Opened(StatementHandle), Opened(ResultSetHandle)] +
              IteratorReleaseEvents(it.resultSet.handle.closeFailure, it.statement.handle.closeFailure,
                                    connection.handle.closeFailure)
    ensures it.resultSet.handle.open == it.resultSet.handle.closeFailure.Some?
    ensures it.statement.handle.open == it.statement.handle.closeFailure.Some?
    ensures connection.handle.open == connection.handle.closeFailure.Some?
  {
    ghost var journal := connection.journal;
    ghost var before := journal.events;
    it := new ResultSetIterator(connection, FindAllSql);
    assert it.connection.handle == connection.handle && connection.handle.open;
    ghost var opening := journal.events;
    assert opening == before + [Opened(StatementHandle), Opened(ResultSetHandle)];
    var rows := ConsumeAndClose(it);
    ghost var release := IteratorReleaseEvents(it.resultSet.handle.closeFailure, it.statement.handle.closeFailure,
                                               connection.handle.closeFailure);
    assert journal.events == opening + release;
    dtos := MapAll(EntityToDto, rows);
  }

  /** The MyBatis endpoint: a fresh producer, one `execute` with the mapper's `findAll`,
      the cursor's rows projected to `Dto`s in order, then the producer's `close()`.
      When no session can be opened, `execute` throws and nothing is released. */
  method FindAllBatis(factory: SqlSessionFactory)
    returns (r: Result<seq<Dto>>, producer: MyBatisFluxResultProducer<BatisEntity>)
    modifies factory.journal
    ensures fresh(producer) && producer.Valid()
    ensures factory.openFailure.Some? ==>
              r == Throws(PersistenceException(factory.openFailure.value)) &&
              producer.sqlSession == null && producer.cursor == null &&
              factory.journal.events == old(factory.journal.events)
    ensures factory.openFailure.None? ==>
              producer.cursor != null && producer.sqlSession != null &&
              r == Ok(MapAll(BatisToDto, factory.select(FindAllSql))) &&
              factory.journal.events ==
                old(factory.journal.events) + [Opened(SessionHandle), Opened(CursorHandle)] +
                ProducerReleaseEvents(true, producer.cursor.handle.closeFailure,
                                      producer.sqlSession.handle.closeFailure) &&
              producer.cursor.handle.open == producer.cursor.handle.closeFailure.Some? &&
              producer.sqlSession.handle.open == producer.sqlSession.handle.closeFailure.Some?
  {
    producer := new MyBatisFluxResultProducer<BatisEntity>(factory);
    var cursor := producer.Execute((session: SqlSession) => session.select(FindAllSql));
    if cursor.Throws? {
      return Throws(cursor.exception), producer;
    }
    var rows := cursor.value.items;
    producer.Close();
    r := Ok(MapAll(BatisToDto, rows));
  }
}
