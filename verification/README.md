# Verification of the replication-to-index pipeline

SyncGo reads PostgreSQL's logical replication stream, collects row changes in a batcher and sends
them to Elasticsearch or OpenSearch in bulk requests. This project models that pipeline in Dafny and
proves what it is for: transactions stay whole, committed rows take effect once and in order, failed
and half-applied sends do no harm, and the index mirrors the table.

`dafny verify dfyconfig.toml` verifies every function, method and lemma of the project.

## How the model is built

- `go_slice.dfy`, `batcher.dfy`: the batcher as a class over Go slices (headers over shared backing
  arrays). A call of a method holds the lock from start to end. The contracts tie the new state to
  the step functions of `batcher_spec.dfy`.
- `replication.dfy`, `rows.dfy`: the transaction tracker, the message handler and the receive loop as
  classes; row images become document operations.
- `pipeline.dfy`: all goroutines around one batcher as a step machine. The replication goroutine's
  batcher call and its own counter update are two steps; flush ticks and explicit flushes may run
  between any two steps. A run is any sequence of enabled steps, with any outcome of each send.
- `transactions.dfy`, `flush_timing.dfy`, `mirror.dfy`: theorems about all runs. They compare the
  state with readings of the run that do not look at the batcher (`Open`, `Txns`, `Database`).
- `wal_position.dfy`: the reported position, with its separate locked reads and writes, as its own
  step machine.
- `document_store.dfy`: the search engine's documents. `bulk_encoding.dfy`: both bulk encoders
  against readers. `sql_identifiers.dfy`: identifier quoting against a lexer.

Assumptions about the surroundings: an acknowledged send applied its whole payload in order, a failed
one may have applied any of its items in any order and number. The clock, the server's messages and
the results of waiting for it are inputs. Byte strings are Dafny strings with one character per
byte. Column decoding, id printing and JSON marshalling are functions that may fail. The relation
map and the parameters of the receive loop are fields of the connection.

## Results worth knowing

- The two counters that never see each other, `txn.adds` and the batcher's tail, agree in every state
  exactly when no Begin arrives while rows are open (`CountersAgreeIff`). That is also the exact
  condition for atomicity (`AtomicityIff`): after a stray Begin, whatever the buffer size, there is a
  legal continuation in which a commit marks, and a flush sends, only part of a transaction;
  `StrayBeginTearsTransaction` is the smallest such run.
- The repository's README calls `flush_interval` the maximum idle period before committed changes are
  flushed. The code can take almost twice as long (`OneIntervalIsNotEnough`), but not longer
  (`CommittedRowIsSentInTime`). One interval is enough for a row exactly when no acknowledged send
  ended after the tick before the next one (`TickCarriesIff`).
- For each kind of row message there is the exact condition under which the index follows the table.
  An insert: the tuple carries every column and can be marshalled. An update: the id did not change,
  and either nothing else did or the message finds the row and carries the update. A delete: the old
  tuple shows the id. A truncate: the table was empty.
- An update can miss its row although the id did not change. When the replica identity does not hold
  the id column and changes itself, the server sends an old tuple with a null id; the code prefers
  that tuple to the new one and drops the update (`KeyOnlyUpdateIsDropped`).
- Retrying a payload converges for every store and every residue exactly when its creates agree
  (`RetryConvergesIff`). Payloads without creates, the only ones the pipeline makes, always do.
- The NDJSON body reads back exactly when ids need no escaping and documents are single lines
  (`NdjsonRoundTripIff`); the two transports agree exactly when, in addition, no known action has an
  empty id and no index or create action an empty body (`EncodersAgreeIff`).

## Model

| member | source | states |
|---|---|---|
| `Mirror.IndexMirrorsTable` | internal/replication/process.go:13-129 | For every faithful stream over one relation, every interleaving of flushes and ticks and every pattern of failed, partly applied sends: whenever no committed row is waiting, the index is the image of the table after exactly the committed transactions. |
| `Mirror.IndexMirrorsTableAfterAck` | internal/batcher/batcher.go:169-193 | In particular after every acknowledged send, whatever triggered it. |
| `Mirror.StreamIsMirrored` | internal/replication/process.go:22-112 | The rows handed to the batcher, applied in order, turn the first table's image into the image after the committed transactions, and with the open rows into that of the table in between. |
| `Mirror.ChangeIsExpressed` | internal/replication/process.go:32-112 | A described insert, update or delete is never dropped and becomes an operation with the row's id that carries the whole document, the fields to merge, or a removal. |
| `Mirror.SentIsDescribed` | internal/replication/process.go:32-112 | The server's own rule for a change's message, in terms of the protocol's bytes, meets what the other theorems ask of it. |
| `Mirror.UpdateIsAddressed` | internal/replication/process.go:65-77 | An update is addressed at the old tuple's id if that tuple carries any value, else (no old tuple, or one that decodes to nothing) at the new tuple's; it is addressed nowhere if that id is left out or null. |
| `Mirror.ChangeIsMirrored` | internal/replication/process.go:32-112 | Applying such an operation takes the old table's image to the new table's. |
| `Mirror.InsertIsMirroredIff` | internal/replication/process.go:32-57 | The index follows an insert if and only if the tuple carries every column and its values can be marshalled. |
| `Mirror.UpdateIsMirroredIff` | internal/replication/process.go:59-89 | For every update, whatever its old tuple shows: the index follows if and only if the id did not change and either the row did not change at all, or the message finds the row and its marshallable values leave out only unchanged columns. |
| `Mirror.DeleteIsMirroredIff` | internal/replication/process.go:91-112 | The index follows a delete if and only if there is an old tuple that shows the id. |
| `Mirror.KeyOnlyUpdateIsDropped` | internal/replication/process.go:65-77 | A concrete update that keeps the id and is dropped, because its old tuple holds the replica identity's column and a null id. |
| `Mirror.IdChangeIsNotFollowed` | internal/replication/process.go:65-80 | A concrete update of the id, without old tuple, that leaves the old document behind. |
| `Mirror.TruncateIsMirroredIff` | internal/replication/process.go:114-115 | A truncate is ignored, so the store after it is the empty table's image if and only if the table was empty. |
| `Mirror.RenameIsMirroredIff` | internal/replication/process.go:24-25 | When a column is renamed, the connection goes on with the new relation, and the index follows if and only if the table was empty. |
| `Mirror.ReceiveLoopIsARun` | internal/replication/replication.go:151-238 | What the receive loop does, from any state on, is a legal run of the step machine. |
| `Mirror.LoopDeliversStream` | internal/replication/replication.go:209-222 | From data events that carry a faithful stream's messages, among any other events, the loop learns each relation as its latest message announced it and delivers exactly the stream's operations. |
| `Replication.RelationsAreLearned` | internal/replication/process.go:24-25 | For every list of events and every id: the relation is known if and only if it was before or some message announced it, and it is as the latest of these messages says. |
| `Replication.MessagesAct` | internal/replication/process.go:13-129 | Only Begin and Commit messages reach the tracker as such, only row messages of known relations become rows, and every other message, an unparsable one included, asks nothing. |
| `Mirror.ReceiveLoopMirrorsTable` | internal/replication/replication.go:151-238 | End to end: after the receive loop handled such events, with any outcome of each send, and no committed row is waiting, the index is the committed table's image. |
| `Transactions.TransactionsStayWhole` | internal/replication/txn_batcher.go:10-25 | Every payload ever given to the sender, acknowledged or not, is the rows of whole consecutive transactions that begin right after the acknowledged ones. |
| `Transactions.RowsAreConserved` | internal/batcher/batcher.go:96-193 | Acknowledged rows followed by the buffer are the rows of the committed transactions followed by the open one, in order; acknowledged rows followed by the committed prefix are exactly the committed transactions. |
| `Transactions.CountersAgreeIff` | internal/replication/txn_batcher.go:6-25 | The tail's length equals the tracker's counter in every state of a run if and only if no Begin is delivered while rows are open. |
| `Transactions.AtomicityIff` | internal/replication/txn_batcher.go:10-25 | Every payload is whole transactions, at every point of a run and however it goes on from there without a further Begin, if and only if no Begin of the run is delivered while rows are open. |
| `Transactions.StrayBeginTearsTransaction` | internal/replication/txn_batcher.go:10-12 | A concrete run: a Begin inside a transaction of two rows makes the batcher send the first without the second. |
| `Transactions.RollbackErasesTransaction` | internal/replication/txn_batcher.go:27-34 | After begin, any rows, any flushes and a rollback, sent rows and buffer together are exactly what was committed before. |
| `Transactions.RetriesOnlyExtend` | internal/batcher/batcher.go:174-191 | Until a send is acknowledged, every later attempt's payload starts with every earlier one's. |
| `Transactions.CommittedOnlySent` | internal/batcher/batcher.go:146-160 | Committed items leave the buffer only by an acknowledged send; no commit, rollback or failed send drops or reorders them. |
| `Transactions.StoreIsCleanUpToResidue` | internal/batcher/batcher.go:174-191 | At any time the store is the clean effect of the acknowledged rows, disturbed only by items still waiting in the committed prefix. |
| `Transactions.SentTransactionsTakeEffectOnce` | internal/batcher/batcher.go:169-193 | When nothing committed is waiting, the store is what one clean application of all committed transactions gives. |
| `Transactions.RowSendsIff` | internal/batcher/batcher.go:96-103 | A delivered row makes an attempt if and only if it finds the buffer full and something committed, and it is then the last item of the buffer. |
| `Transactions.BufferIsBounded` | internal/batcher/batcher.go:96-103 | If every send succeeds, the buffer holds at most the configured size or the largest transaction so far. |
| `Pipeline.InvHolds` | internal/replication/txn_batcher.go:10-34 | In every reachable state the acknowledged rows are a prefix of the committed transactions, the committed prefix of the buffer is the rest, the tail is the open transaction, and the counters agree. |
| `Pipeline.Run` | internal/batcher/batcher.go:26-30 | The commit pointer lies between -1 and the last index in every state of every run. |
| `DocumentStore.RetryConverges` | internal/batcher/batcher.go:177-184 | For any payload without creates, any store and any residue of earlier attempts: applying the payload after the residue gives the clean result. |
| `DocumentStore.RetryConvergesIff` | internal/bulk_transformer/action.go:110-121 | For any payload, creates included: applying it after any residue in any store gives the clean result if and only if, for each document that it neither indexes nor deletes, every create with the payload's updates merged in gives the document that the payload creates. |
| `DocumentStore.FixedIff` | internal/bulk_transformer/action.go:97-151 | The result for a document does not depend on the store if and only if the payload indexes or deletes it. |
| `DocumentStore.CreateIsNotReplaySafe` | internal/bulk_transformer/action.go:110-121 | Two different creates of one document: a concrete residue after which the retry keeps the wrong document. A single create is safe. |
| `FlushTiming.LastFlushIsLatestAck` | internal/batcher/batcher.go:187-192 | The idle timer shows the end of the latest acknowledged send or the creation time, and nothing else. |
| `FlushTiming.TickSendsIff` | internal/batcher/batcher.go:77-82 | A tick sends if and only if something committed waits and the interval has passed since creation and since every acknowledged send; failed sends never postpone it. |
| `FlushTiming.CommittedRowIsSentInTime` | internal/batcher/batcher.go:67-86 | With a punctual ticker a committed row is part of an attempt at most two intervals later. |
| `FlushTiming.TickCarriesIff` | internal/batcher/batcher.go:77-82 | Of a punctual ticker, a tick attempts a row that has been waiting without any send since if and only if no acknowledged send ended after the tick before it. |
| `FlushTiming.OneIntervalIsNotEnough` | internal/batcher/batcher.go:77-82 | For every interval there is a punctual run in which a committed row waits, without any attempt, for two intervals less two time units. |
| `GoSlice.Append` | internal/batcher/batcher.go:101 | Append extends the slice by the item, in place or in a fresh array, and leaves everything below the old end of the old array untouched. |
| `Batching.PayloadsAreNeverOverwritten` | internal/batcher/batcher.go:158-187 | A payload slice that was handed to the sender reads the same ever after, across append, truncation and re-slicing. |
| `Batching.Batcher.constructor` | internal/batcher/batcher.go:41-51 | A new batcher is empty, nothing is committed and its idle timer starts now. |
| `Batching.Batcher.Flush` | internal/batcher/batcher.go:169-193 | One attempt with exactly the committed prefix if there is one; on success the tail stays, the pointer is reset and the timer is set; on failure nothing but the log changes. All payloads handed out before stay intact. |
| `Batching.Batcher.Add` | internal/batcher/batcher.go:96-103 | Flushes first if the buffer is full, then appends the item at the end; payloads handed out stay intact. |
| `Batching.Batcher.CommitN` | internal/batcher/batcher.go:107-129 | The loop moves the pointer to `min(lastCommitted + n, len - 1)`, does nothing for `n <= 0` and changes nothing else. |
| `Batching.Batcher.RollbackN` | internal/batcher/batcher.go:132-160 | The loop keeps the first `max(lastCommitted + 1, len - n)` items, all for `n <= 0`, and changes nothing else. |
| `Batching.Batcher.Tick` | internal/batcher/batcher.go:77-83 | One tick flushes exactly if the interval is positive and has passed since the timer's value. |
| `Replication.TxnTracker.Commit` | internal/replication/txn_batcher.go:18-25 | Commits as many items as were counted, and leaves the counter at zero, also without a batcher. |
| `Replication.TxnTracker.Rollback` | internal/replication/txn_batcher.go:27-34 | Rolls back as many items as were counted, and leaves the counter at zero, also without a batcher. |
| `Replication.LogicalReplicationConn.EnqueueRow` | internal/replication/rows.go:77-83 | Adds the row to the batcher and counts it: together the two steps that the machine keeps apart. |
| `Replication.LogicalReplicationConn.Process` | internal/replication/process.go:13-129 | The new relations, counter and batcher state after one message, for every kind of message and every reason to drop a row. |
| `Replication.LogicalReplicationConn.HandleIncoming` | internal/replication/replication.go:158-234 | The state after one round of the receive loop for every kind of event: what the batcher holds, the position, the position a reply reports, and whether the loop stops. |
| `Replication.LogicalReplicationConn.ReadReplicationMessages` | internal/replication/replication.go:151-238 | The loop handles all events if each is a timeout, an unexpected message, other copy data, parsable data, or a keepalive whose requested reply gets through; otherwise it ends at the first that is not, and its state is that of handling the events up to there. |
| `Rows.TupleToValues` | internal/replication/rows.go:14-44 | The loop's map is the one that `ValuesAreDocument` describes; an absent tuple gives none. |
| `Rows.ValuesAreDocument` | internal/replication/rows.go:14-44 | In terms of the tuple's bytes, for any column names: 'n' gives null, 't' and 'b' what decodes, 'u', unknown kinds and failed decodes nothing; of columns of one name the last that carries a value counts. |
| `Rows.ValuesByColumn` | internal/replication/rows.go:19-42 | With distinct column names a column is missing if and only if it is left out, nulls are carried as nulls, every other column has its own decoded value, and nothing else is in the map. |
| `Rows.SentTupleIsExact` | internal/replication/rows.go:22-41 | For every tuple as the server sends it, null for null, value for value and 'u' only for an unchanged TOAST value: the merge gives exactly the new row's document, and without 'u' so do the values alone. |
| `Rows.MergeIsExactIff` | internal/replication/rows.go:22-26 | Merging an update's values into the old row's document gives the new row's document if and only if every column left out (unchanged TOAST, failed decode, unknown kind) kept its value. |
| `Rows.ImageIsDocumentIff` | internal/replication/rows.go:19-42 | An image gives the row's document if and only if it carries every column. |
| `WalPosition.PositionIsHighWater` | internal/replication/replication.go:193-232 | Between messages `xLogPos` is the maximum of its initial value and all positions received; while a message is in hand, the maximum without it. Compare and write are separate steps and a reader runs at any time. |
| `WalPosition.HighWaterIsMaximum` | internal/replication/replication.go:197-201 | That value is an upper bound and is the initial position or one of the messages'. |
| `WalPosition.PositionNeverDecreases` | internal/replication/replication.go:193-232 | Along every run the position never moves back. |
| `WalPosition.ProcessedBeforeReported` | internal/replication/replication.go:222-245 | Every position read for a status update is the maximum over the messages received so far, or over all but the one in hand, and all data of these had been processed when it was read. |
| `WalPosition.ReportsNeverDecrease` | internal/replication/replication.go:240-243 | Positions read for status updates never decrease, in the order in which they are read. |
| `WalPosition.ReceiveLoopReachesHighWater` | internal/replication/replication.go:193-232 | The receive loop leaves the position at the maximum over the keepalives and data messages it handled. |
| `WalPosition.RepliesReportHighWater` | internal/replication/replication.go:203-207 | The loop reports one position for each requested reply and no others: the maximum so far, the keepalive's own position included. |
| `BulkEncoding.WriteMetadataBody` | internal/bulk_transformer/action.go:168-192 | Appends one metadata line for a known action, nothing for an unknown one. |
| `BulkEncoding.DataBytes` | internal/bulk_transformer/action.go:41-59 | The text that `ParseReadable` reads back: metadata, document, newline. |
| `BulkEncoding.PayloadBytes` | internal/bulk_transformer/action.go:62-73 | The loop writes the items' texts one after another, the text that `NdjsonRoundTripIff` is about. |
| `BulkEncoding.ParseReadable` | internal/bulk_transformer/action.go:41-59 | In front of any other text, a readable item is read back as its action, id and document. |
| `BulkEncoding.NdjsonRoundTripIff` | internal/bulk_transformer/action.go:62-73 | For every payload: the body reads back as exactly the known operations in order, deletes without document, if and only if every known id is free of quotes, backslashes and control bytes and every document is a single line. |
| `BulkEncoding.UnwrapUndoesEncoding` | internal/bulk_transformer/action.go:49-52 | An engine that accepts an update only as `{"doc":` ... `}` takes out the body; index and create keep theirs, deletes have none. |
| `BulkEncoding.WireHasTheSameEffect` | internal/bulk_transformer/action.go:62-73 | Such an engine accepts every operation of a readable body and reaches the same store as applying the payload. |
| `BulkEncoding.GrpcRoundTripIff` | internal/bulk_transformer/action.go:79-166 | For every payload, whatever its bytes: the gRPC bodies read back as exactly the known operations in order if and only if no known action has an empty id and no index or create action an empty body. |
| `BulkEncoding.GrpcHasTheSameEffect` | internal/bulk_transformer/action.go:79-166 | Over gRPC, too, the engine accepts every operation of such a payload and reaches the same store. |
| `BulkEncoding.ToBulkRequest` | internal/bulk_transformer/action.go:79-166 | The loop gives the request that `TargetsAreConfigured`, `GrpcRoundTripIff` and `EncodersAgreeIff` are about. |
| `BulkEncoding.TargetsAreConfigured` | internal/bulk_transformer/action.go:79-109 | The request and each of its bodies name the default index, or none if it is empty, so every operation goes there, over gRPC and over HTTP. |
| `BulkEncoding.PathNamesIndex` | pkg/search_engine_client/client.go:145-148 | The bulk path names the configured index, whatever its characters, or none if it is empty. |
| `BulkEncoding.EncodersAgreeIff` | internal/bulk_transformer/action.go:79-166 | NDJSON and gRPC carry the same operations to the same index if and only if the NDJSON is readable, no known action has an empty id and no index or create action an empty body; unknown actions vanish from both. |
| `SqlIdentifiers.QuoteQualifiedIdent` | pkg/postgresql/admin.go:124-132 | The loop quotes each dot-separated part and joins them by dots. |
| `SqlIdentifiers.QuoteIdents` | pkg/postgresql/admin.go:134-141 | The loop does so for each name, in order. |
| `SqlIdentifiers.PublicationStatement` | pkg/postgresql/admin.go:68-69 | The statement is the text that `StatementRoundTrip` lexes. |
| `SqlIdentifiers.LexIdentInverts` | pkg/postgresql/admin.go:117-119 | A quoted identifier lexes back to the name, whatever it contains and whatever but a quote follows. |
| `SqlIdentifiers.StatementRoundTrip` | pkg/postgresql/admin.go:68-141 | For all strings, embedded quotes, dots, commas and spaces included, the statement lexes back as `CREATE PUBLICATION` ... `FOR TABLE` with exactly the publication's name and the dot-separated parts of each table name. |
| `SqlIdentifiers.StatementIsInjective` | pkg/postgresql/admin.go:68-141 | Different publications or table lists give different statements. |
| `SqlIdentifiers.JoinUndoesSplit` | pkg/postgresql/admin.go:124-125 | Joining the parts of a name by dots gives the name back. |
| `SqlIdentifiers.PartsHoldNoDots` | pkg/postgresql/admin.go:124-125 | No part holds a dot, so every dot of a name separates. |
| `SqlIdentifiers.NoEmptyPartIff` | pkg/postgresql/admin.go:121-132 | A table name gives no zero-length identifier, which the server would reject, if and only if it is not empty and has no dot at either end or next to another dot. |

## Left out

- Network and I/O (HTTP, gRPC, PostgreSQL connections, TLS, gzip, configuration, logging, metrics, command line): the sender and the server are inputs or nondeterministic.
- `reportBufferSize`: the gauge is not modelled.
- Mirror.IndexMirrorsTable: one relation whose columns stay the same (`RenameIsMirroredIff` shows why), rows with ids that stay the same and are not null, documents as flat field maps; every message must be one that the code can make use of. For messages outside, `InsertIsMirroredIff`, `UpdateIsMirroredIff`, `DeleteIsMirroredIff` and `TruncateIsMirroredIff` say exactly when the index still follows.
- Mirror.UpdateIsMirroredIff: the decoded columns are the rows' values, and an old tuple's id column is left out, null or the old id, as the server sends it.
- Mirror.ReceiveLoopIsARun: no other goroutine takes a step between the loop's own. `IndexMirrorsTable` and the theorems about runs do allow such steps.
- Transactions.TransactionsStayWhole: only for streams without a Begin inside a transaction, the exact condition by `AtomicityIff`.
- DocumentStore.RetryConverges: not for create actions, which the pipeline never emits; `RetryConvergesIff` covers them.
- FlushTiming.CommittedRowIsSentInTime: steps take no time and the ticker is punctual; `TickSendsIff` needs only a clock that does not run backwards.
- Whether an acknowledgement ever comes: an engine may report an update or a delete of a missing document as an error and so fail a payload again and again; only what an acknowledged send means is modelled.
- Durability over a crash: the position moves on after a row is in the batcher, not after it is sent, so no such claim is made.
- Order in which status updates of two goroutines reach the server: the position is read under the lock but sent outside it, so only the reads are ordered.
- A complete drain at shutdown: the final flush runs before the replication loop has stopped, so a later commit can stay in the buffer.
- The flush loop's own `select` over ticker and context: each tick is a step of the machine, and runs may end at any time.
- A connection without a batcher: the processor always passes one; the tracker's own nil case is modelled.
- A tuple with more columns than its relation: `tupleToValues` panics; the message handler requires that it does not occur.
- Machine integers: counters, lengths, positions and times are unbounded.
- Escaping of the bulk path: the index name is put into it as it is, and so it is read.
- The reader of JSON strings in `BulkEncoding` rejects `\u` escapes; the encoder never writes any.
- `EnsureReplicationSlot`, existence queries, `AsyncTask`, configuration checks: single branches or library calls.
