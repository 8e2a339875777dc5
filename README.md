# Streaming rows from a database without holding them: a Dafny model

`ServiceExample` serves every row of `testschema.entities` as a stream of `Dto`s. It has two
paths:

- **JDBC.** `ResultSetIterator` is a forward-only iterator over a `ResultSet`. It owns the
  connection, the statement it creates and the result set. It keeps a cached `hasNext` flag, and
  `close()` releases the three handles.
- **MyBatis.** `MyBatisFluxResultProducer` is a single-use producer. `execute` opens one
  `SqlSession` and binds one `Cursor` on it. `close()` releases the cursor, if it is still open,
  and then the session.

The model keeps both classes as Dafny classes, with the same fields and the same order of
effects. Every external handle (connection, statement, result set, session, cursor) is a
`Handle`. A handle knows whether it is open and whether its `close()` throws, with which message.
The driver decides that when it creates the handle.

A `Journal` is what the outside world sees of the program:

- each handle that is opened;
- each call that closes a handle;
- each line written to the log.

The open and close contracts are therefore statements about the order of those events. A data
source or a session factory is given its journal when it is made. Every connection, statement,
result set, session and cursor opened from it has its opening recorded in that journal, and the
iterator and the producer built over them log there too.

Pure functions over attempt lists (`ReleaseEvents`, `ClosesIn`, `ErrorsIn`) give the meaning of
a release, and lemmas prove two things for every combination of failures:

- every handle is closed, in order;
- every close failure is logged and none is thrown. A close failure here is an exception the
  enclosing `catch` handles: `SQLException` for the iterator's three handles, `IOException` for
  the cursor, any `Exception` for the session.

The database is a function from query text to rows: `DataSource.select` for JDBC and
`SqlSessionFactory.select` for MyBatis. A result set is that sequence of rows plus a cursor
position, and a ghost count of the fetches (`next()` calls) made on it. `getConnection()` and
`openSession()` may fail; the data source and the session factory say with which message.

The ordering and count properties are stated as `Consumed()` / `Remaining()`: a consumer that
pulls while `hasNext` holds receives exactly the rows, in order. The test's
9,981-row table (`EndpointsOverSeededTable`) is one instance of this. `SELECT *` has no
`ORDER BY`, so the row order is whatever the database function gives. The seeded database
function (`SeededRows`) gives the rows in insertion order. Ascending ids, and equal answers from
the two endpoints, are therefore facts about that function, not promises of the SQL.

Files: `rows.dfy` (rows and the `Dto` projection), `resources.dfy` (handles, journal, stand-ins
for the JDBC and MyBatis objects, release lemmas), `jdbc_streaming.dfy`, `batis_streaming.dfy`,
`service.dfy` (the two endpoints read to the end), `seeded_table.dfy` (the test's seeded table
and both endpoints over it).

The code does not do the following, and the model follows it:

- Release is not idempotent. A second `close()` tries every handle again and logs
  "Connection closed!" again.
- Nothing releases the handles already acquired when the iterator's constructor or the
  producer's `cursorFunction` fails.
- The producer's `close()` before `execute` is not a no-op. It dereferences a null cursor, so the
  model makes a bound cursor a precondition.
- `next()` returns the current row and fetches the following one in the same call. `hasNext`
  caches the result of the previous fetch, and the constructor makes the first fetch.

## Model

| member | source | states |
|---|---|---|
| `Rows.MapAll` | src/main/java/org/example/ServiceExample.java:40 | the mapped stream has one element per row, and element i is the projection of row i (order kept, nothing added or dropped) |
| `Rows.EntityToDtoLosesNothing` | src/main/java/org/example/ServiceExample.java:40 | the mapping lambda of `findAllJdbc` (`EntityToDto`): the `Dto` carries the row's id, name and description unchanged, so two rows give the same `Dto` exactly when they are equal |
| `Rows.BatisToDtoLosesNothing` | src/main/java/org/example/ServiceExample.java:47 | the mapping lambda of `findAllBatis` (`BatisToDto`): the `Dto` carries the bean's id, name and description unchanged, so two beans give the same `Dto` exactly when they are equal |
| `Rows.EndpointsAgree` | src/main/java/org/example/ServiceExample.java:40-47 | the JDBC and MyBatis projections of rows with the same columns give the same `Dto` sequence |
| `Resources.Handle.Close` | src/main/java/org/example/ServiceExample.java:103-106 | a close call is recorded; it either closes the handle or throws the handle's failure (the exception the enclosing `catch` handles) and leaves the handle as it was |
| `Resources.CloseLogged` | src/main/java/org/example/ServiceExample.java:102-106 | one try/catch close block, with a failure of the type its `catch` names (`SQLException` at lines 104, 112 and 120, `IOException` at 156, `Exception` at 162): the close call, then an error line with the exception's message exactly when the close throws; that failure is not rethrown |
| `Resources.ReleaseClosesEveryHandle` | src/main/java/org/example/ServiceExample.java:100-123 | for any list of close attempts and any caught failures among them, the close calls made are exactly the listed handles in the listed order |
| `Resources.ReleaseLogsEveryFailure` | src/main/java/org/example/ServiceExample.java:100-123 | the error lines logged by a run of close blocks are exactly the failing attempts' messages, in order |
| `Resources.ResultSet.Next` | src/main/java/org/example/ServiceExample.java:70 | `ResultSet.next()`: counts one fetch; moves one row forward (never past the end) and reports whether it is on a row; on a closed result set it fails and does not move |
| `Resources.ResultSet.GetRow` | src/main/java/org/example/ServiceExample.java:87-91 | reading the columns gives the current row exactly when the result set is open and on a row, and fails otherwise |
| `Resources.DataSource.GetConnection` | src/main/java/org/example/ServiceExample.java:50-56 | when the database cannot be reached, throws a `RuntimeException` with the `SQLException`'s description and opens nothing; otherwise a new open connection to the same database, and its opening is recorded |
| `Resources.Connection.CreateStatement` | src/main/java/org/example/ServiceExample.java:68 | a new open statement on the connection's database; its opening is recorded |
| `Resources.Statement.ExecuteQuery` | src/main/java/org/example/ServiceExample.java:69 | a new open result set over the rows the query selects, positioned before the first with no fetch made; its opening is recorded |
| `Resources.SqlSessionFactory.OpenSession` | src/main/java/org/example/ServiceExample.java:147 | when no session can be opened, throws the `PersistenceException` and opens nothing; otherwise a new open session on the factory's database, and its opening is recorded |
| `Resources.SqlSession.OpenCursor` | src/main/java/org/example/ServiceExample.java:44-45 | the mapper's `findAll()` on a session: a new open cursor over exactly the given rows; its opening is recorded |
| `Resources.Cursor.IsOpen` | src/main/java/org/example/ServiceExample.java:153 | `cursor.isOpen()` reports the cursor handle's state |
| `Resources.Journal.Log` | src/main/java/org/example/ServiceExample.java:124 | a log call appends exactly one line at the given level |
| `JdbcStreaming.ResultSetIterator.constructor` | src/main/java/org/example/ServiceExample.java:65-74 | opens a statement and then a result set (the journal grows by exactly those two openings) and fetches once: the iterator stands on the first row, nothing has been handed out, and `hasNext` holds exactly when the query returned at least one row |
| `JdbcStreaming.ResultSetIterator.HasNext` | src/main/java/org/example/ServiceExample.java:77-79 | answers the cached flag without touching any state, and it is true exactly when rows remain |
| `JdbcStreaming.ResultSetIterator.Next` | src/main/java/org/example/ServiceExample.java:82-97 | when exhausted, throws `NoSuchElementException`, makes no fetch and changes nothing; on a closed result set, throws a runtime error, makes no fetch and changes nothing; otherwise makes exactly one fetch, returns the current row unchanged, appends it to the consumed rows and advances one row, so `hasNext` then means "another row exists" |
| `JdbcStreaming.ResultSetIterator.Close` | src/main/java/org/example/ServiceExample.java:100-125 | the journal grows by exactly `IteratorReleaseEvents` of the three handles' failures; each handle ends closed unless its own close fails; the position and `hasNext` do not change |
| `JdbcStreaming.IteratorReleaseOrder` | src/main/java/org/example/ServiceExample.java:100-125 | for any combination of `SQLException` close failures, `close()` closes the result set, then the statement, then the connection; it logs each failure's message as an error, in that order; its last line is always "Connection closed!" |
| `JdbcStreaming.ReadAll` | src/main/java/org/example/ServiceExample.java:30-32 | pulling while `hasNext` holds yields exactly the remaining rows in result-set order, and leaves `hasNext` false; from a fresh iterator that is every row of the table |
| `JdbcStreaming.ConsumeAndClose` | src/main/java/org/example/ServiceExample.java:30-39 | the stream read to the end and its close hook run: all remaining rows in order, then the full release |
| `BatisStreaming.MyBatisFluxResultProducer.constructor` | src/main/java/org/example/ServiceExample.java:137-139 | a new producer has no session and no cursor |
| `BatisStreaming.MyBatisFluxResultProducer.Execute` | src/main/java/org/example/ServiceExample.java:141-150 | with a session already bound: throws "Cursor already open", opens nothing (the journal it shares with its session factory is unchanged) and rebinds nothing; when `openSession()` fails: its exception passes through, nothing is opened or bound; otherwise exactly one session and then one cursor are opened, and the producer binds them, the cursor over the rows `cursorFunction` selects through that session |
| `BatisStreaming.MyBatisFluxResultProducer.Close` | src/main/java/org/example/ServiceExample.java:152-165 | the journal grows by exactly `ProducerReleaseEvents`; the cursor is closed only if it was open; the session close is always attempted; each handle ends closed unless its own close fails; nothing is thrown |
| `BatisStreaming.ProducerReleaseOrder` | src/main/java/org/example/ServiceExample.java:152-165 | the close calls are the cursor's (only when it was open) followed by the session's, also when the cursor's close failed with an `IOException`; the error lines are exactly the failures' messages |
| `Service.FindAllJdbc` | src/main/java/org/example/ServiceExample.java:28-41 | when `getConnection()` fails: throws its `RuntimeException` and opens nothing; otherwise, read to the end, the endpoint answers the table's rows projected to `Dto`s in order, after opening connection, statement and result set, and then releases them as `IteratorReleaseEvents` says |
| `Service.StreamOver` | src/main/java/org/example/ServiceExample.java:29-40 | over an open connection: opens the statement and result set, answers the query's rows projected to `Dto`s in order, then releases the three handles |
| `Service.FindAllBatis` | src/main/java/org/example/ServiceExample.java:43-48 | when `openSession()` fails: throws its `PersistenceException` and opens nothing; otherwise the endpoint opens a session and a cursor, answers the mapper's rows projected to `Dto`s in order, and then releases cursor and session |
| `SeededTable.Decimal` | src/test/java/org/example/ControllerTest.java:121-122 | `"Entity " + i` writes `i` as one or more decimal digits with no leading zero; 0 is written exactly "0" |
| `SeededTable.DecimalRoundTrip` | src/test/java/org/example/ControllerTest.java:121-122 | the digits written for `i` read back as `i` |
| `SeededTable.DecimalInjective` | src/test/java/org/example/ControllerTest.java:121-122 | different indexes are written as different digit strings |
| `SeededTable.LabelInjective` | src/test/java/org/example/ControllerTest.java:121-122 | a fixed text followed by the index gives different labels for different indexes |
| `SeededTable.SeededLabelsDistinct` | src/test/java/org/example/ControllerTest.java:120-122 | no two of the first n insertion indexes share a name ("Entity i") or a description ("Description for Entity i") |
| `SeededTable.SeededRows` | src/test/java/org/example/ControllerTest.java:104-126 | the seeded table as the database function gives it: n rows in insertion order; because `TRUNCATE` keeps the `SERIAL` sequence going, the ids are k+1..k+n after k earlier ids; row i is named "Entity i" and described "Description for Entity i"; no two rows share a name or a description |
| `SeededTable.SeededBatisRows` | src/test/java/org/example/ControllerTest.java:104-126 | the mapper's view of the same seeding: n rows, row i with the same columns as `SeededRows` row i |
| `SeededTable.EndpointsOverSeededTable` | src/test/java/org/example/ControllerTest.java:49-61 | over 9,981 seeded rows, with any ids used up before each run: each endpoint answers exactly 9,981 `Dto`s, with ids ascending by one from the run's offset, row i named "Entity i"; over the same seeding the two answers are equal |

## Left out

- Reactor and `java.util.stream` bridging (`Flux.fromStream`, `StreamSupport`, `Spliterators`, `onClose`, backpressure, subscription, cancellation, `window(10)` batching). It is library behaviour. The model reads a stream to the end with a pull loop and runs the close hook afterwards.
- `Resources.Handle.Close`: a close failure is always an exception that the enclosing `catch` handles: `SQLException` at lines 104, 112 and 120, `IOException` at 156, any `Exception` at 162. An unchecked exception from the result set's, statement's, connection's or cursor's `close()` would escape and skip the closes after it. The model does not represent that case.
- `Resources.Handle.Close`: a failed close leaves the handle's state unchanged. Real drivers may half-close.
- `Resources.DataSource.GetConnection`: the `RuntimeException` carries the driver's description of the `SQLException` as its message. The wrapped cause object is not kept.
- `Resources.SqlSessionFactory.OpenSession`: the only failure modelled is the `PersistenceException` that `openSession()` raises. It passes through `execute` unchanged. Other unchecked exceptions from it are left out.
- `JdbcStreaming.ResultSetIterator.constructor`: does not model `SQLException` from `createStatement`, `executeQuery` or the first `next()`, which the source wraps as "Failed to initialize ResultSetIterator". It requires an open connection, which is what `getConnection()` hands it.
- `JdbcStreaming.ResultSetIterator.Next`: the only read failure modelled is reading a closed result set. Other driver errors are left out, and every failure is a generic `RuntimeException` without its cause.
- `BatisStreaming.MyBatisFluxResultProducer.Execute`: `cursorFunction` is modelled by the rows it selects and cannot fail. The source's state after a throwing mapper call (session bound, cursor null) is not modelled.
- `BatisStreaming.MyBatisFluxResultProducer.Close`: requires a bound cursor and session. The source throws `NullPointerException` when called before `execute`.
- `Service.FindAllBatis`: the cursor is not read through MyBatis, so it is still open at `close()`. MyBatis would already have closed a cursor that was read to the end, and `close()` would then skip it. `MyBatisFluxResultProducer.Close` covers both cases.
- `SeededTable.SeededRows`: requires the ids to stay within the `SERIAL` range. Beyond it the database would refuse the insert. The order of the answer is the model's choice of database function, because the query has no `ORDER BY`.
- `null` column values, the `dataSource`/`sqlSessionFactory` wiring, and the SQL text's meaning (the database is a function from query text to rows).
- Java `String` messages of driver exceptions are arbitrary values chosen by the driver. Logging is modelled as appending a level and message, without formatting.
- `StreamingController.java` (HTTP routing) and `EntityMapper.java` (SQL in an annotation) are not part of this model, apart from the query text. `Entity`, `BatisEntity` and `Dto` are modelled by the fields their accessors give at lines 40, 47 and 87-91.
