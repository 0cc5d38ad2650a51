# Simurga, verified

Simurga is a web application that runs as a FastCGI application on the fastcgi++ library. This project
models the parts of both in which a mistake would corrupt or lose data, and proves in Dafny 4.11
what they are for. `dafny verify dfyconfig.toml` checks the whole project.

## What is modelled

**The output path.** Requests write to streams; the sink cuts the data into padded records, writes
them into a list of 131072-byte chunks that is recycled in place, and the transceiver drains the
chunks with `write` calls that may take any part of what they are offered. `ChunkBuffer` holds the
chunk list, its pointers and frames with their invariant; `Transceiver` and `Sink` are the loops;
`Fifo` is the plain queue of parcels the buffer refines; `Wire` states what holds over whole runs,
`WireClose` exactly which connections are closed and what is left of the poll set, and `Session` that all
this holds of a transceiver object that any requests write to and end through.

**The input path.** `Reassembly` is the two-phase record reader of one connection, `Reception` many
connections with reads interleaved and split anywhere, up to the composition with the output path, and
`ReceptionLaws` what single readable events do.
`Protocol` holds headers and byte order, `Params` the name-value pairs of section 3.4.

**The threads.** `Manager` is the handler thread, the job thread and the callers of `stop` and
`terminate` as one state machine whose steps are the critical sections of the program, with the
locks as enabling conditions. `ManagerSleep`, `ManagerTasks` and `ManagerLife` prove its three
invariants over every interleaving, `ManagerDrain` that nothing gets stuck, `ManagerProgress` what
single records and jobs can do, and `ManagerStop` for exactly which calls of `stop` and `terminate` the
wake-up is lost. `ManagerReturn` says that and why the handler returns, `ManagerOrder` in which order tasks and
jobs are done and which requests are known. `Request` is the per-request stage machine with its exceptions, on values and as an
object, `RequestLaws` what it does with whole lists of messages, and `Jobs` the job queue object with its batch swap. What the manager does with a task is the
function that the request object's handler is proved to compute.

**The template language.** `Template` is the grammar as parsing and printing functions,
`TemplateParser` the recursive-descent parser with its shared cursor, `TemplateRoundTrip` the proof
that printing and parsing are inverse on exactly the parser's outputs, `TemplateSyntax` what each tag of
any text means, `TemplateRenderer` the appending renderer and its meaning, and `TemplateLaws` what a page
shows.

**Codecs.** `Base64` and `Base64Loops`; `FormDecode` for percent and form decoding in place;
`ZeroRuns`, `AddressText`, `AddressObject` and `AddressRoundTrip` for the text form of addresses. The round
trips cover what the program itself produces; `Base64Laws`, `FormLaws` and `AddressLaws` say what becomes of
every other text.

**The transaction queue.** `TransactionQueue` is one worker of the SQL connection with its queue,
`TransactionLaws` what becomes of one transaction.

## Assumptions

- A `write` or `read` never moves more than it was offered; an accepted socket blocks, so `write`
  does not report EAGAIN (fastcgipp/src/transceiver.cpp:94). A `read` of no bytes returns 0.
- A request id is begun again on a connection only when no task, job or completion message of its
  former owner is outstanding. The model calls this clean reuse; it is an enabling condition of the
  step that begins a request.
- File descriptors fit in the 16 bits that the program stores them in.
- A descriptor that the transceiver frees is not accepted again while parcels for its former connection
  are still queued: a run of `Wire` tells connections apart by their descriptor alone. What the
  transmission of a parcel drops because its connection is gone is counted among the bytes that left
  for it, and marked as lost.
- Records for request id 0 are pushed to the manager's messages and tasks without a lock
  (fastcgipp/include/fastcgi++/manager.hpp:284-285). The two pushes are two steps of the model, but the
  unlocked push to the task queue is taken not to overlap the job thread's locked one.
- Results of system calls, the choices of the application (too much post data, unknown content type,
  answer at once), the exceptions of a request's handler, before or after the END_REQUEST record of each
  of its completions, and the interleaving are inputs of the steps and are quantified over. An exception
  that leaves the handler ends its thread (src/main.cpp:201-218).

## Where code and documentation differ

The model follows the code.

- A failed query is documented to take only the rest of its own transaction out of the queue
  (fastcgipp/include/asql/asql.hpp:45-48). The loop that drains the queue looks at the failed query's
  own mark, never at what it drains, and so empties the whole queue. Atomicity of what is committed
  holds all the same. `FailureSparesOthers` says exactly when the documented behaviour is met and
  `InnocentDropped` is a run in which it is not.
- The base64 decoder is documented to need three bytes of room for every four characters
  (fastcgipp/include/fastcgi++/http.hpp:412-413). A group that begins with padding makes it write a
  byte that is not part of the result (fastcgipp/include/fastcgi++/http.hpp:603). The method asks
  for room for what is written, and `RoomEnough` says for exactly which texts the documented room is
  too small.
- `stop` and `terminate` wake a sleeping handler (`WakesSleeper`), but not one that has looked at its
  flag and not yet gone to sleep. `StopLostIff` and `TerminateLostIff` say for every reachable state
  whether the call can be lost: for `stop`, anywhere from the test of its flag to the decision to sleep;
  for `terminate`, only between the release of its own lock and the taking of the locks for that decision
  (fastcgipp/include/fastcgi++/manager.hpp:313-327). `StopCanWait` and `TerminateCanWait` are such runs.
- A request is meant to end with one END_REQUEST record (fastcgipp/src/request.cpp:24-45). If the
  transmission that follows the record throws, the handler catches that and completes again
  (fastcgipp/src/request.cpp:159-164). `Lifecycle` says that a request has sent exactly one END_REQUEST,
  its last record, if and only if no such transmission has failed, and two otherwise; `OneEnd` that runs
  without such a failure have none with two; `EndsTwice` is a run with two.
- Reading an address whose text ends in an elided run continues behind the end of the text
  (fastcgipp/src/http.cpp:624-634). The readable memory behind the text is therefore a parameter, and
  `ReadBack` gives the exact outcome for every address and every such memory.

## Model

| member | source | states |
|---|---|---|
| Wire.EndToEnd | fastcgipp/src/fcgistream.cpp:137-172 | After any run of connections accepted and hung up, commits by any number of requests and transmission attempts with any partial writes, the bytes handed to a connection parse (section 3.3 of the FastCGI Specification 1.0) as a prefix of the records committed for it, in order; for every request id and record type the joined contents are a prefix of the bytes written, and equal to them once nothing waits for that connection |
| Wire.CloseAfterLastByte | fastcgipp/src/transceiver.cpp:180-185 | In runs in which connections are accepted, written to and hung up, one on which no write was refused is closed only if a closing record of its own was committed and everything committed for it up to and including that record has been handed over |
| WireClose.ClosedExactly | fastcgipp/src/transceiver.cpp:180-185 | From any world in which a connection is polled once, over any run in which it neither hangs up nor is accepted anew: it is closed once, leaves the poll set and loses its receive buffer if and only if a closing parcel of its own has been used up or a write to it has been refused; otherwise its entry and its buffer are as they were |
| WireClose.StartedThenClosed | fastcgipp/src/transceiver.cpp:316-325 | Hence a connection polled at the start is closed exactly once when a closing parcel of its own has been used up, and is polled no more |
| WireClose.AcceptedThenClosed | fastcgipp/src/transceiver.cpp:89-104 | And so is one accepted in the middle of a run |
| WireClose.OthersKeepPlace | fastcgipp/src/transceiver.cpp:316-325 | Where nobody comes or hangs up, the poll set is the one at the start without the closed descriptors, in the same order, and all other receive buffers are where they were |
| WireClose.OrderKept | fastcgipp/src/transceiver.cpp:316-325 | Over any run a descriptor in front of another in the poll set stays in front of it unless it is accepted anew |
| WireClose.UnwatchedCounts | fastcgipp/src/transceiver.cpp:81-86 | A connection that hangs up loses a poll entry and its receive buffer, is not closed, and touches no other |
| WireClose.WatchedCounts | fastcgipp/src/transceiver.cpp:89-104 | A connection that comes is polled behind the others and has a receive buffer; nothing else changes |
| Wire.RunGood | fastcgipp/src/transceiver.cpp:24-62 | In every reachable state, committed bytes of a connection are the sent bytes followed by the waiting bytes, the queue is the tail of what was committed, and only a used-up closing record of its own closes a live connection |
| Wire.RecordReadsBack | fastcgipp/include/fastcgi++/protocol.hpp:168-247 | The bytes of a committed record decode to its request id, type and content and are exactly one whole record |
| Wire.CommittedRecords | fastcgipp/src/transceiver.cpp:53-62 | The bytes committed for a connection are the concatenation of its records, whatever other connections commit in between |
| Wire.RecordsReadBack | fastcgipp/src/fcgistream.cpp:153-167 | Joining the contents of all records committed for a request and type gives exactly what was written, in order |
| Wire.RunAppend | fastcgipp/src/transceiver.cpp:24-62 | Runs compose, so the steps of successive calls on one object make one run |
| Transceiver.Transceiver.WriteFront | fastcgipp/src/transceiver.cpp:28-42 | One write call on the front block takes a prefix of the oldest parcel off the queue and logs exactly the bytes handed over; EPIPE and EBADF free the descriptor and drop the rest of the parcel |
| Transceiver.Transceiver.Transmit | fastcgipp/src/transceiver.cpp:24-51 | The loop leaves the line state that the reference transmission gives for these write results, throws exactly when it does, and reports emptiness correctly |
| Transceiver.Transceiver.SecureWrite | fastcgipp/include/fastcgi++/transceiver.hpp:95 | Committing a record through the transceiver is the commit step followed by a transmission step of the run model, and throws exactly when that transmission meets a failing write |
| Transceiver.Transceiver.PutRecord | fastcgipp/src/fcgistream.cpp:154-167 | Header and content written into the granted block read back as that header and that content; nothing committed earlier is disturbed |
| Transceiver.Transceiver.PutHeader | fastcgipp/src/fcgistream.cpp:162-167 | The header bytes in the block are the section 3.3 encoding of the fields, the reserved byte keeping what memory held |
| Sink.CutFits | fastcgipp/src/fcgistream.cpp:147-160 | For any number of bytes left and any granted block that is all that was asked for or at least 256 bytes: the committed size is a multiple of 8 within the block and equals 8 + content + padding, the content is positive and fits 16 bits, the padding is below 8, and the content is all that is left or fills the largest multiple of 8 in the block |
| Sink.Sink.WriteRecord | fastcgipp/src/fcgistream.cpp:147-169 | One turn of the loop commits one lawful record whose content is the next non-empty piece of the data, all of it or at least 248 bytes without padding, transmits once, keeps the buffer valid, and throws exactly when that transmission meets a failing write |
| Wire.ThrewFailed | fastcgipp/src/transceiver.cpp:24-51 | A transmission attempt throws only if one of its write calls fails |
| WireClose.TransmittedExactly | fastcgipp/src/transceiver.cpp:24-51 | Which write calls a transmission makes: it goes on exactly as long as they take whole parcels or find their connection gone, throws exactly if the next one, for a parcel that is there, fails, and is over with a call that takes part of a parcel; the log and the queue afterwards are given parcel by parcel |
| Sink.Sink.Write | fastcgipp/src/fcgistream.cpp:137-172 | The loop ends; the records it commits, all of this request and stream, each a multiple of eight bytes and followed by one transmission attempt, carry exactly the given bytes in order unless an attempt throws, then a prefix; all but the last are full; it throws exactly when its last attempt does, all earlier ones having gone well, and never without a failing write |
| Sink.EndRequest | fastcgipp/src/request.cpp:31-44 | The unchecked 16-byte END_REQUEST write always fits, commits exactly one record of that type with the given protocol status, closing the connection if asked to, and throws exactly when the transmission after it meets a failing write |
| Sink.EndCaught | fastcgipp/src/request.cpp:44-164 | END_REQUEST from the try block, and a second one from the catch block exactly when the transmission of the first throws; what leaves the handler is the exception of the second |
| Session.Serve | fastcgipp/include/fastcgi++/transceiver.hpp:91-95 | A transceiver object through any sequence of writes and ends of any requests and of its own transmissions: every call is made, does what its kind does to the world that the calls before it have led to, and throws exactly when its own transmissions do; the object is in the state of that run; if no call throws, every connection has received a prefix of its records, every stream of every request on it a prefix of what was said, and all of it once nothing waits for the connection |
| Session.Perform | fastcgipp/include/fastcgi++/transceiver.hpp:91-95 | One such call writes what it says and nothing to another stream |
| ChunkBuffer.Buffer.constructor | fastcgipp/include/fastcgi++/transceiver.hpp:194 | A new buffer is valid and its queue of parcels is empty |
| ChunkBuffer.Buffer.RequestWriteGrants | fastcgipp/include/fastcgi++/transceiver.hpp:201-204 | The granted block lies behind everything that waits, in one chunk, and is as large as asked unless it is at least 256 bytes |
| ChunkBuffer.Buffer.RequestReadIsFront | fastcgipp/include/fastcgi++/transceiver.hpp:237-240 | The block to send is exactly the unsent part of the oldest parcel, contiguous in the head chunk, with its descriptor; size 0 and descriptor -1 exactly when nothing waits |
| ChunkBuffer.Buffer.EmptyIsEmpty | fastcgipp/include/fastcgi++/transceiver.hpp:251-254 | Comparing read and write pointer is exactly emptiness of the queue |
| ChunkBuffer.Buffer.AlwaysRoom | fastcgipp/include/fastcgi++/transceiver.hpp:156-175 | In every valid state 256 bytes can be written without looking, at most one spare chunk follows the write chunk, and the chunk count is at most pending / (131072 - 255) + 3 |
| ChunkBuffer.SpaceBound | fastcgipp/src/transceiver.cpp:158-187 | Every chunk between head and write chunk is full enough that the number of chunks is bounded by the waiting bytes |
| ChunkBuffer.Buffer.SecureWrite | fastcgipp/src/transceiver.cpp:53-62 | Committing appends exactly one parcel, with the first bytes of the granted block, to the queue and keeps the buffer valid, so at least 256 bytes are free again |
| ChunkBuffer.Buffer.NextChunk | fastcgipp/src/transceiver.cpp:56-60 | Moving on to the spare or a newly appended chunk restores the shape of the list with 256 bytes free; the queue and the unread bytes are unchanged |
| ChunkBuffer.Buffer.FreeRead | fastcgipp/src/transceiver.cpp:158-187 | Consumes exactly the given number of bytes of the front parcel; the descriptor is freed exactly when a closing parcel has been consumed to its last byte; rewinding, recycling and dropping chunks change nothing else |
| ChunkBuffer.RecycleCorrect | fastcgipp/src/transceiver.cpp:161-179 | When the head chunk is read to its end, rewinding the only chunk, moving it to the back as the spare or giving it back keeps the shape of the list, the unread bytes and the queue |
| ChunkBuffer.Buffer.RecycleHead | fastcgipp/src/transceiver.cpp:161-179 | The method does that on the list in place |
| ChunkBuffer.Buffer.RetireFrame | fastcgipp/src/transceiver.cpp:180-185 | The front frame shrinks or leaves, so that frames and parcels agree again, and a leaving frame that closes frees its descriptor |
| ChunkBuffer.FrontLane | fastcgipp/src/transceiver.cpp:158-187 | No frame straddles two chunks: the oldest parcel is the first one in the head chunk and starts at the read pointer |
| ChunkBuffer.Descriptors.FreeFd | fastcgipp/src/transceiver.cpp:316-325 | Removes the first poll entry of the descriptor and its receive buffer and closes it; a descriptor that is not polled is left alone |
| WireClose.FreedCounts | fastcgipp/src/transceiver.cpp:316-325 | A polled descriptor that is freed loses one poll entry and its receive buffer and is closed once more than before; the entries, buffer and closings of every other descriptor stay |
| Fifo.BytesConsume | fastcgipp/src/transceiver.cpp:158-187 | Consuming a parcel queue drops exactly that many bytes from the front of its byte stream |
| Reception.SplitIndependence | fastcgipp/src/transceiver.cpp:111-155 | Whatever the split of a connection's bytes over reads and however interleaved with other connections, the messages delivered for it are exactly the whole records of its stream in order, zero-length bodies included, and the stored partial state is exactly the unfinished tail |
| Reception.WrittenIsReadBack | fastcgipp/src/fcgistream.cpp:137-172 | Output and input composed: once all that was written for a connection has left, a reader that takes it in by this reassembly, split anywhere, recovers the written bytes of every request and stream and holds no rest |
| ReceptionLaws.OneEventDelivers | fastcgipp/src/transceiver.cpp:111-155 | Where part of a record has been read and the rest has arrived, one readable event for which the kernel gives what it is asked for takes exactly that rest, whatever has come behind it, and delivers the record |
| ReceptionLaws.EventPerRecord | fastcgipp/src/transceiver.cpp:111-155 | A stream of whole records, the first of which may have been begun, is delivered in order with one event a record, and nothing is left over |
| ReceptionLaws.TakesSome | fastcgipp/src/transceiver.cpp:115-145 | Where there is something to read and the kernel gives something, the event takes something and does not throw |
| ReceptionLaws.Blocks | fastcgipp/src/transceiver.cpp:119-145 | A read that would block takes nothing and is no error |
| ReceptionLaws.Fails | fastcgipp/src/transceiver.cpp:119-145 | A read that fails otherwise takes nothing, and the event throws |
| ReceptionLaws.BodyFails | fastcgipp/src/transceiver.cpp:140-145 | If the header is complete and the read of the body fails, the header is kept and the event throws, unless the record has no body |
| ReceptionLaws.AddressedTo | fastcgipp/src/transceiver.cpp:148-155 | A message is addressed to the request id in the third and fourth byte of its record, on the connection it came from |
| Reassembly.ParseAppend | fastcgipp/src/transceiver.cpp:111-155 | Parsing a stream in two pieces, the tail of the first put in front of the second, gives the records of the whole stream and the same tail |
| Reassembly.ParseConserves | fastcgipp/src/transceiver.cpp:111-155 | The records and the tail, joined, are the stream |
| Reassembly.ParseRecords | fastcgipp/src/transceiver.cpp:146-153 | A stream made of whole records and an unfinished rest parses back to exactly those |
| Reassembly.FdBuffer.Receive | fastcgipp/src/transceiver.cpp:111-155 | One readable event takes the bytes the two reads can take, delivers at most one message, which is a whole record, and leaves delivered records and stored bytes equal to the parse of old bytes plus new; it throws exactly when a read that is made fails other than with EAGAIN; the connection counts as closed exactly when a header read returns 0 |
| Reassembly.FdBuffer.FillHeader | fastcgipp/src/transceiver.cpp:119-121 | The header phase appends at most the missing header bytes |
| Reassembly.FdBuffer.StartRecord | fastcgipp/src/transceiver.cpp:136-137 | The record block has the announced size and starts with the header |
| Reassembly.FdBuffer.FillBody | fastcgipp/src/transceiver.cpp:140-155 | The body phase delivers exactly when the record is complete, also when no byte was missing, and then starts afresh |
| Reception.Receiver.Accept | fastcgipp/src/transceiver.cpp:96-102 | A new connection gets a poll entry and an empty receive buffer |
| Reception.Receiver.Read | fastcgipp/src/transceiver.cpp:111-155 | Reading one connection passes on exactly the completed records, addressed with the id in the header and the descriptor; the receive buffers of all other connections stay valid and keep what they hold; it throws exactly when a read that is made fails other than with EAGAIN; the connection is removed exactly when a header read returns 0 |
| Protocol.HeaderRoundTrip | fastcgipp/include/fastcgi++/protocol.hpp:168-247 | Decoding an encoded header gives the header, whatever follows it |
| Protocol.HeaderBytesRoundTrip | fastcgipp/include/fastcgi++/protocol.hpp:168-247 | Encoding a decoded header gives the eight bytes |
| ReceptionLaws.HeaderLayout | fastcgipp/include/fastcgi++/protocol.hpp:168-247 | Version, type, big-endian request id, big-endian content length and padding length stand in the bytes 0, 1, 2 to 3, 4 to 5 and 6 (section 3.3 of the FastCGI Specification 1.0) |
| ReceptionLaws.AnnouncedSize | fastcgipp/src/transceiver.cpp:136 | A record is as long as its header says: eight bytes, the content and the padding |
| Protocol.ReadBigEndian | fastcgipp/include/fastcgi++/protocol.hpp:144-154 | The byte loop reverses the representation |
| Protocol.SwappedIsBigEndian | fastcgipp/include/fastcgi++/protocol.hpp:144-154 | The reversed bytes, read as a little-endian number, have the big-endian value |
| Params.ProcessParamHeader | fastcgipp/src/protocol.cpp:24-41 | The decoder finds both lengths, one or four bytes each with the top bit masked, and the positions of name and value |
| Params.Fill | fastcgipp/src/http.cpp:110-118 | For every body of whole pairs the loop hands on the pairs in order and ends exactly at the end of the body, the remaining size being its measure; for every other body it hands on the leading whole pairs and says that it has come to one that does not lie inside |
| Params.CutShort | fastcgipp/src/http.cpp:110-118 | A body that ends inside a pair: no list of whole pairs, and none leading |
| Params.EncodeDecode | fastcgipp/src/http.cpp:110-118 | Any list of pairs with lengths below 2^31, in any mixture of length forms, is recovered from its section 3.4 encoding |
| Params.DecodeEncode | fastcgipp/src/http.cpp:110-118 | Conversely every body the loop can drain is the encoding of the pairs it yields, in some choice of length forms |
| Params.LengthRoundTrip | fastcgipp/src/protocol.cpp:26-38 | A length field in either form is read back with its size and value |
| Params.Word31Value | fastcgipp/src/protocol.cpp:28 | The masked big-endian word is the four-byte length value |
| ManagerSleep.SleepAlways | fastcgipp/include/fastcgi++/manager.hpp:326-343 | No lost wake-ups, in every interleaving: while the handler is about to sleep or sleeps and a task waits, a wake byte is pending or a pusher has yet to look at the flag; if the flag was cleared during the sleep section, a wake byte is pending |
| ManagerSleep.SleepLoop | fastcgipp/include/fastcgi++/manager.hpp:300-345 | Each step of the handler loop keeps this |
| ManagerSleep.SleepWork | fastcgipp/include/fastcgi++/manager.hpp:247-291 | Each step of push and of handling a task keeps this |
| ManagerSleep.SleepControl | fastcgipp/src/manager.cpp:12-34 | So do stop and terminate |
| ManagerTasks.TasksAlways | fastcgipp/include/fastcgi++/manager.hpp:247-291 | In every reachable state: for each registered id whose handler is not over, tasks in play equal queued messages; tasks with id 0, queued, taken or about to be queued, equal the manager's own messages; each request has handled, in order and once each, a prefix of what arrived; and nobody has taken from an empty queue |
| ManagerTasks.NothingWaitsInSleep | fastcgipp/include/fastcgi++/manager.hpp:329-342 | While the handler is blocked in its sleep without a wake byte and no completion message is on its way, there is no task and no message for anybody |
| ManagerTasks.TaskFound | fastcgipp/src/request.cpp:75-79 | The handler of a request that a task was taken for finds a message |
| ManagerTasks.TaskMessage | fastcgipp/include/fastcgi++/manager.hpp:259-262 | Queueing a message and then its task keeps the account for every id |
| ManagerTasks.TaskErased | fastcgipp/include/fastcgi++/manager.hpp:357-363 | Erasing a finished request keeps the account of all others |
| ManagerLife.Lifecycle | fastcgipp/src/request.cpp:49-166 | For every request of every run with clean reuse of ids, whatever throws: each event comes after those it needs (response after the empty PARAMS and IN records, the finishing step after the scheduled job has run) and none but output happens twice, except END_REQUEST after a failed transmission of the first; an erased request was aborted without END_REQUEST or ends with one, and that is its only one if and only if no transmission of its END_REQUEST has failed; there are never three |
| ManagerLife.OneEnd | fastcgipp/src/request.cpp:24-45 | In every run in which no completion throws after committing its record, an erased request was aborted without END_REQUEST or has sent exactly one, its last record |
| ManagerLife.LifeAlways | fastcgipp/include/fastcgi++/manager.hpp:351-364 | The stage of every live request matches its history, serials are unique, outstanding jobs belong to requests that wait for them, and erased requests are settled |
| ManagerLife.LifeJobRan | src/jobqueue.cpp:53-73 | Running the oldest outstanding job advances its own request only |
| ManagerProgress.RecordHandled | fastcgipp/include/fastcgi++/manager.hpp:247-365 | From every reachable quiet state a record for a live request can be taken in, queued, taken and handled, with exactly the effect of the handler on that request and no other change |
| ManagerProgress.CompletionHandled | src/jobqueue.cpp:53-73 | From every reachable quiet state with one job, the job can run, its completion message is queued and handled, and nothing else changes |
| ManagerProgress.WholeLife | fastcgipp/src/request.cpp:49-166 | From the start of the program a request can live its whole life: exactly the events from its begin over one scheduled and run job to one END_REQUEST, after which it is erased |
| ManagerProgress.EndsTwice | fastcgipp/src/request.cpp:159-164 | A run in which the transmission of a request's END_REQUEST fails: it is caught, a page and a second END_REQUEST follow, and the request is erased |
| ManagerDrain.EverythingHandled | fastcgipp/include/fastcgi++/manager.hpp:293-367 | No deadlock: from every reachable state in which both threads run and nobody has called stop or terminate, steps of the two threads alone, without a record, network activity or another call, lead to a state in which every job has run and every task and message of every request and of the manager has been handled |
| ManagerDrain.NextGoes | fastcgipp/include/fastcgi++/manager.hpp:326-343 | In such a state one of the threads can always step without input: whoever waits for a lock waits for a thread that can go on, and a sleeping handler with a task has its wake byte |
| ManagerStop.WakesSleeper | fastcgipp/src/manager.cpp:12-34 | In every reachable state in which the handler sleeps, a stop or terminate leaves a wake byte for it |
| ManagerStop.StopLostIff | fastcgipp/include/fastcgi++/manager.hpp:300-343 | A stop called in a reachable state can be followed, without another such call, by a handler blocked in its sleep with the flag set and no wake byte, if and only if at the call no task and no wake byte was there and the handler stood between the test of the stop flag and the decision to sleep, not about to terminate |
| ManagerStop.TerminateLostIff | fastcgipp/include/fastcgi++/manager.hpp:313-343 | The same for terminate with no requests left: if and only if the handler had released the terminate lock and not yet taken the locks for the decision to sleep, with no task, no request and no wake byte |
| ManagerStop.StopCanWait | fastcgipp/src/manager.cpp:24-34 | A run in which a stop that comes just before the handler goes to sleep wakes nobody |
| ManagerStop.TerminateCanWait | fastcgipp/src/manager.cpp:12-22 | A run in which a terminate that comes just before the handler goes to sleep wakes nobody |
| ManagerStop.Sleeps | fastcgipp/include/fastcgi++/manager.hpp:300-343 | From every place between the test of the stop flag and the sleep, with nothing to do, the handler alone goes on to block with the flags and requests unchanged |
| ManagerReturn.StopReturns | fastcgipp/include/fastcgi++/manager.hpp:300-310 | A stop in any reachable state that is not one of those in which it can be lost, the handler being in its loop, can always be followed by steps of the two threads alone that lead to the return of the handler with the flag cleared, unless the handler was about to return on a former terminate |
| ManagerReturn.TerminateReturns | fastcgipp/include/fastcgi++/manager.hpp:313-324 | The same for terminate when there are no requests |
| ManagerReturn.ReturnCalled | fastcgipp/include/fastcgi++/manager.hpp:300-324 | In every run, whenever the handler returns, a stop has been called on which it has not returned before, or such a terminate, and then there are no requests |
| ManagerReturn.NoRoundAfterStop | fastcgipp/include/fastcgi++/manager.hpp:300-311 | From a stop to the next return on one, the flag stays set and the handler begins no further round of its loop |
| ManagerReturn.FlagsChange | fastcgipp/include/fastcgi++/manager.hpp:302-324 | The three flags are set by their calls and by nothing else; the handler clears the first two, by returning on them and not otherwise |
| ManagerReturn.NoBatchAfterStop | src/jobqueue.cpp:40-52 | In every run the job thread is stopped exactly if it has been told to, and takes no jobs from the queue any more |
| ManagerOrder.TasksInOrder | fastcgipp/include/fastcgi++/manager.hpp:247-291 | In every run the tasks taken so far and behind them those queued are the tasks put in by either thread, in that order |
| ManagerOrder.JobsInOrder | src/jobqueue.cpp:26-76 | In every run jobs are done in the order in which they were added, each once and none left out |
| ManagerOrder.OpenIffBegun | fastcgipp/include/fastcgi++/manager.hpp:253-362 | In every run the requests known are exactly those whose first record has come and that have not been erased since |
| ManagerOrder.RequestsStep | fastcgipp/include/fastcgi++/manager.hpp:253-362 | A first record brings a request with its role, without messages and in its first stage; after that nothing changes its role and identity, and nothing but its erasure removes it |
| ManagerOrder.Discarded | fastcgipp/include/fastcgi++/manager.hpp:264-280 | A record that is no first record, for a request that is not known, changes nothing |
| ManagerOrder.GoneHow | src/main.cpp:201-218 | The handler thread is gone exactly from the step on in which an exception leaves the transceiver, the handler of the manager or the handler of a request, and for good |
| ManagerOrder.WakesHow | fastcgipp/include/fastcgi++/manager.hpp:288-290 | A wake-up byte is written for every look at a sleeping handler and for nothing else, and read one at a time |
| Request.HandleLawful | fastcgipp/src/request.cpp:81-164 | Handling any message in a matching phase, whatever throws, keeps to the lawful order of events: the request goes on, is over, or an exception is on its way out, and its job is not affected |
| Request.RefusedLawful | fastcgipp/src/request.cpp:56-73 | So does refusing an unknown role |
| Request.WhenSendFails | fastcgipp/src/request.cpp:44-164 | A failed transmission of END_REQUEST comes exactly from a completion that throws after committing it, in the try block or in the catch block |
| Request.RespondLawful | src/main.cpp:103-117 | The first response call schedules the job, ends the request or throws; the second one, after the job, ends it or throws; going on means that the job was scheduled |
| Request.AcceptedIsOrderly | fastcgipp/src/request.cpp:49-166 | Every history the phase automaton accepts is orderly: nothing twice but output and the END_REQUEST after a failed one, everything after what it needs, nothing after the end but a late job and the answer to a failed transmission; and the phase counts the END_REQUEST records |
| Request.RequestObject.constructor | fastcgipp/include/fastcgi++/manager.hpp:274-276 | A new request is in its first stage with no messages |
| Request.RequestObject.Push | fastcgipp/include/fastcgi++/manager.hpp:259-260 | A message goes to the back of the queue |
| Request.RequestObject.Pop | fastcgipp/src/request.cpp:76-78 | The oldest message is taken |
| Request.RequestObject.AttendRecord | fastcgipp/src/request.cpp:85-149 | The dispatch on the record type has exactly the effect of the try block in the state machine, exceptions included |
| Request.RequestObject.Response | src/main.cpp:103-154 | The handler goes on exactly if the job has been scheduled, and only then the state moves on; otherwise the request completes or an exception is on its way |
| Request.RequestObject.Handler | fastcgipp/src/request.cpp:49-166 | Try block, catch block and what leaves them have exactly the effect the state machine uses; an unknown role is rejected without touching the queue |
| RequestLaws.Answered | fastcgipp/src/request.cpp:85-134 | Any parameters, their end with a content length within the limit, any content that fits and its end with a known type: nothing is answered before that end, then the response starts, and either schedules the job or is the whole answer with its END_REQUEST |
| RequestLaws.AnnouncesTooMuch | fastcgipp/src/request.cpp:90-97 | Parameters that announce too much content: an error page and END_REQUEST, and nothing that follows is looked at |
| RequestLaws.ReceivesTooMuch | fastcgipp/src/request.cpp:136-141 | The first record of content that does not fit: an error page and END_REQUEST, never a response |
| RequestLaws.UnknownType | fastcgipp/src/request.cpp:111-124 | The end of content of an unknown type raises an exception, which is answered by an error page and END_REQUEST, never by a response |
| RequestLaws.AbortEnds | fastcgipp/src/request.cpp:147-150 | An abort record ends the request wherever it stands, without END_REQUEST and without regard to what follows |
| RequestLaws.OutOfOrder | fastcgipp/src/request.cpp:89-107 | A record out of order, or one that cannot be taken in, raises an exception and is answered by an error page and END_REQUEST |
| RequestLaws.OthersIgnored | fastcgipp/src/request.cpp:85-151 | Records of other types are passed over |
| RequestLaws.CompletionAnswers | fastcgipp/src/request.cpp:153-157 | The completion message of the job is answered by its result, or an error page if that throws, and one END_REQUEST |
| RequestLaws.CompletionThrows | fastcgipp/src/request.cpp:153-164 | What becomes of completions that throw, before or behind their END_REQUEST, in the try block and in the catch block |
| RequestLaws.RoleRefused | fastcgipp/src/request.cpp:56-73 | An unknown role is answered by END_REQUEST alone; if the transmission throws, by an error page and another one |
| Jobs.JobQueue.constructor | src/jobqueue.cpp:3-6 | A new queue is empty and not stopped |
| Jobs.JobQueue.Add | src/jobqueue.cpp:26-31 | The job goes to the back |
| Jobs.JobQueue.Stop | src/jobqueue.cpp:33-38 | Only the flag changes |
| Jobs.JobQueue.Round | src/jobqueue.cpp:40-76 | A round works through the swapped-out batch in order, each job once and followed by its completion; jobs that arrive meanwhile are queued in order for the next round; a stop leaves the queue as it is |
| TemplateRoundTrip.PrintParse | src/template.cpp:113-185 | Print, then parse: every normal form, at any nesting and with else and sep parts, is recovered from its printed form |
| TemplateRoundTrip.ParseNormal | src/template.cpp:113-185 | Whatever text is accepted, the tree is a normal form: no empty and no adjacent texts, names trimmed and free of closing brackets |
| TemplateRoundTrip.ParsePrint | src/template.cpp:113-185 | Hence for every accepted text, printing its tree and parsing again gives the same tree, stray tags and empty names included |
| TemplateRoundTrip.NormalIffParsed | src/template.cpp:113-185 | The normal forms are exactly the trees the parser can produce |
| TemplateSyntax.ParseBehind | src/template.cpp:113-118 | An accepted text and one that starts with a tag are parsed one after the other |
| TemplateSyntax.PlainText | src/template.cpp:122-130 | Text without an opening bracket is one token, or none if it is empty |
| TemplateSyntax.TextThenTag | src/template.cpp:122-130 | Text in front of a tag is a token of its own |
| TemplateSyntax.VariableTag | src/template.cpp:138-143 | A name between brackets, with spaces around it or not, is a variable |
| TemplateSyntax.ClosingTag | src/template.cpp:145-152 | The end, sep and else tags are what they say, with spaces around them or not |
| TemplateSyntax.UnclosedTag | src/template.cpp:132-135 | A tag that is not closed is an error |
| TemplateSyntax.BadTag | src/template.cpp:138-172 | An empty tag, an unknown command and a block command with nothing behind it are errors |
| TemplateSyntax.BlockRead | src/template.cpp:154-170 | An if or for tag, one skipped character and a name, then any text without stray tags up to an end tag: a block with that name and the tokens of that text, whatever follows |
| TemplateSyntax.BlockDivided | src/template.cpp:154-170 | With an else or sep tag in between, the block has both parts in this order |
| TemplateSyntax.BlockUnclosed | src/template.cpp:175-185 | A block that is not closed, divided or not, is an error |
| TemplateParser.GetNextToken | src/template.cpp:120-173 | The cursor-moving method agrees with the parsing function, strictly advances and stays within the text |
| TemplateParser.ReadTag | src/template.cpp:138-172 | The tag dispatch agrees with the parsing function, and the mutual recursion ends |
| TemplateParser.ParseSubtokens | src/template.cpp:175-185 | The section loop returns the tokens up to the first closing token and leaves the cursor behind it, or fails at the end of the text |
| TemplateParser.ParseTemplate | src/template.cpp:113-118 | The loop over a template gives exactly what the parsing function gives |
| Template.TrimProperties | src/main.cpp:42-49 | The result is a slice without spaces at either end, the text around it is spaces only, and a trimmed text is left alone |
| Template.FindFirst | src/template.cpp:122-124 | The bracket found is the first one; the length is returned exactly if there is none |
| TemplateRenderer.Renderer.YieldTokens | src/template.cpp:45-49 | Appends exactly the meaning of the token list, or fails exactly when that is an error |
| TemplateRenderer.Renderer.YieldToken | src/template.cpp:51-74 | The same for one token, if-branches included |
| TemplateRenderer.Renderer.YieldForeach | src/template.cpp:88-101 | The same for a foreach over its items |
| TemplateRenderer.RenderConcat | src/template.cpp:45-49 | The meaning distributes over concatenation, errors included |
| TemplateRenderer.ForeachJoins | src/template.cpp:88-101 | A foreach is the separator-join of its bodies; bodies see their item, separators only the global arguments, and the surrounding scope plays no part |
| TemplateRenderer.RenderSucceeds | src/template.cpp:51-74 | A tree without stray end, sep or else tags never fails |
| TemplateRenderer.RenderAgrees | src/template.cpp:76-111 | Arguments and items that agree on the names in the template render identically |
| TemplateLaws.IfShown | src/template.cpp:103-111 | Where its name stands for some text, an if shows what its first part would show in its place |
| TemplateLaws.IfHidden | src/template.cpp:103-111 | Where its name stands for empty text, for an array or for nothing, it shows what its second part would show |
| TemplateLaws.VariableShown | src/template.cpp:76-86 | A variable is the text that the item in scope has for its name, or, if that has none, the string argument |
| TemplateLaws.VariableMissing | src/template.cpp:76-86 | A variable that stands for nothing, or for an array, shows nothing |
| TemplateLaws.TextShown | src/template.cpp:55-57 | Text is shown as it is |
| TemplateLaws.ShowsOne | src/template.cpp:76-86 | Every name stands for exactly one text or for nothing |
| TemplateLaws.ForeachNothing | src/template.cpp:91-93 | A foreach over anything but an array shows nothing |
| TemplateLaws.StrayFails | src/template.cpp:71-73 | A stray end, sep or else tag makes the whole rendering fail, wherever it stands |
| Base64.EncodeDecode | fastcgipp/include/fastcgi++/http.hpp:574-644 | Decoding the encoding of any byte string returns it (section 4 of RFC 4648) |
| Base64.EncodeLength | fastcgipp/include/fastcgi++/http.hpp:617-644 | The encoded length is 4 times the number of groups of three, rounded up |
| Base64.EncodePadding | fastcgipp/include/fastcgi++/http.hpp:617-644 | Padding stands at the end only, as often as bytes are missing |
| Base64.DecodeEncode | fastcgipp/include/fastcgi++/http.hpp:574-644 | Encoding the decode of any canonical text returns the text |
| Base64.CanonicalIffEncoded | fastcgipp/include/fastcgi++/http.hpp:574-644 | The canonical texts are exactly the encodings |
| Base64Laws.EncodeThree | fastcgipp/include/fastcgi++/http.hpp:617-644 | Three bytes are four symbols of the alphabet of section 4 of RFC 4648, high bits first |
| Base64Laws.EncodeTwo | fastcgipp/include/fastcgi++/http.hpp:617-644 | Two bytes at the end are three symbols and one padding character |
| Base64Laws.EncodeOne | fastcgipp/include/fastcgi++/http.hpp:617-644 | One byte at the end is two symbols and two padding characters |
| Base64Laws.DecodeFour | fastcgipp/include/fastcgi++/http.hpp:574-615 | Four symbols are three bytes, and the rest is decoded behind them |
| Base64Laws.DecodePad | fastcgipp/include/fastcgi++/http.hpp:574-615 | A padding character ends the decoding wherever in its group it stands and whatever follows |
| Base64Laws.DecodeBroken | fastcgipp/include/fastcgi++/http.hpp:585-599 | A character outside the alphabet, or the end inside a group, is an error |
| Base64Loops.Base64Encode | fastcgipp/include/fastcgi++/http.hpp:617-644 | The bit-position loop produces the encoding |
| Base64Loops.FillBuffer | fastcgipp/include/fastcgi++/http.hpp:621-634 | Up to three bytes are gathered and the padding mark counts the missing ones |
| Base64Loops.Base64Decode | fastcgipp/include/fastcgi++/http.hpp:574-615 | Accepted text: the loop writes exactly the decoded bytes, returns their number and changes at most one scratch byte behind them; rejected text: it returns 0; in no case does it touch more than the bytes it is said to write |
| Base64Loops.RoomEnough | fastcgipp/include/fastcgi++/http.hpp:412-413 | The documented room of three bytes for every four characters is enough if and only if the text is not whole groups of symbols followed by a single padding character; one byte more is always enough |
| Base64Loops.OneMoreByte | fastcgipp/include/fastcgi++/http.hpp:603 | The text of a single padding character dangles: no room is documented for it and one byte is written |
| Base64Loops.CollectTells | fastcgipp/include/fastcgi++/http.hpp:585-599 | What a full, padded or broken group tells about the characters it was read from |
| Base64Loops.CollectGroup | fastcgipp/include/fastcgi++/http.hpp:585-599 | Four characters are shifted in, or padding or a stranger ends the group |
| FormDecode.DecodeOne | fastcgipp/src/http.cpp:75-96 | A character or an escape, possibly cut off by the end, is read and one byte written |
| FormDecode.DecodeInPlace | fastcgipp/src/http.cpp:67-101 | With source and destination the same, the region ends up starting with the decode of its old bytes; nothing before it and nothing behind the decoded bytes changes |
| FormDecode.EscapeDecode | fastcgipp/src/fcgistream.cpp:31-102 | Decoding the table-escaped form of any bytes gives them back |
| FormDecode.EscapeClean | fastcgipp/src/fcgistream.cpp:31-102 | An escaped text contains no character of the table but the percent sign |
| FormLaws.DecodePlain | fastcgipp/src/http.cpp:90-96 | A plus is a space, and any other character but the percent sign stands for itself |
| FormLaws.DecodeEscape | fastcgipp/src/http.cpp:75-89 | An escape is the byte of its two digits, upper or lower case; what is no digit counts as zero |
| FormLaws.DecodeCut | fastcgipp/src/http.cpp:78-80 | An escape cut off by the end is the byte of the digits that are there |
| FormLaws.AddsOne | fastcgipp/src/http.cpp:82-85 | Every character adds exactly one value of four bits |
| FormDecode.FormRoundTrip | fastcgipp/src/http.cpp:486-523 | Any list of name/value pairs is recovered from its escaped form joined by equals signs and separators, the last duplicate winning |
| FormLaws.FirstPair | fastcgipp/src/http.cpp:486-523 | Any text up to its first equals sign and from there to the next separator: name and value are decoded, every space in the name costs a character at its front unless spaces separate, and the scan goes on behind |
| FormLaws.LastPair | fastcgipp/src/http.cpp:486-523 | The same for the value that the end of the text ends |
| FormLaws.NoEquals | fastcgipp/src/http.cpp:486-523 | A text without an equals sign adds nothing |
| FormLaws.EqualsSeparates | fastcgipp/src/http.cpp:486-523 | With the equals sign as separator nothing is ever added |
| FormDecode.DecodeUrlEncoded | fastcgipp/src/http.cpp:486-523 | The scanner that decodes names and values where they stand computes the form function, for every text and every separator |
| AddressRoundTrip.ReadBack | fastcgipp/src/http.cpp:612-715 | Assigning the printed form of any 16-byte address, over any old value and with any characters behind the text, restores the address, with one exact exception: the last group is elided and only colons lie behind the text; then the reader leaves the readable memory |
| AddressRoundTrip.SafeIffTailPrinted | fastcgipp/src/http.cpp:624-634 | The address comes back whatever lies behind the text if and only if its last group is not elided |
| AddressRoundTrip.UnspecifiedOverruns | fastcgipp/src/http.cpp:624-634 | The unspecified address elides its last group, so reading it back with nothing behind the text leaves the readable memory |
| AddressRoundTrip.TailElidedIff | fastcgipp/src/http.cpp:734-772 | The last group is elided exactly when it is zero and no stretch of zeros is longer than the one it ends |
| AddressRoundTrip.PrintFitsBuffer | fastcgipp/src/http.cpp:728-729 | Every printed form fits the forty-character buffer, also with the dot that is written and taken back |
| AddressLaws.PlainQuad | fastcgipp/src/http.cpp:653-691 | A dotted quad alone, the form of REMOTE_ADDR and SERVER_ADDR, is the IPv4-mapped address of its four bytes, whatever was stored before and lies behind the text |
| AddressLaws.QuadAlone | fastcgipp/src/http.cpp:653-691 | The same behind any number of colons, for numbers modulo 256 and with anything behind the last digit |
| AddressLaws.QuadRead | fastcgipp/src/http.cpp:669-690 | Behind one to six groups, with or without a gap, a dotted quad gives the next four bytes |
| AddressLaws.QuadFails | fastcgipp/src/http.cpp:662-688 | A dotted quad with too few numbers, or behind seven groups, clears the address |
| AddressLaws.GroupsRead | fastcgipp/src/http.cpp:621-702 | Groups with or without a gap give their bytes, of each group the last four digits; a gap is filled with zeros, a text without gap leaves the bytes behind it as they were, and everything behind an eighth group is ignored |
| AddressLaws.LongGroup | fastcgipp/src/http.cpp:698-699 | Of a group anywhere in the text only the last four digits count |
| AddressLaws.GapLast | fastcgipp/src/http.cpp:624-634 | A text that ends at its gap, with a colon or empty gives groups with zeros behind them, if a character other than a colon lies behind the text |
| AddressLaws.SecondGap | fastcgipp/src/http.cpp:626-632 | A second gap clears the address |
| AddressLaws.Stranger | fastcgipp/src/http.cpp:693-697 | A character that cannot stand in an address clears it |
| AddressLaws.CaseFolds | fastcgipp/src/http.cpp:647-652 | Upper-case digits are read as lower-case ones, in every text |
| AddressLaws.NegativeNumber | fastcgipp/src/http.cpp:689 | A minus sign makes a number of a quad negative before it is stored modulo 256 |
| AddressLaws.PrintsMapped | fastcgipp/src/http.cpp:777-792 | An IPv4-mapped address, and no other, is printed with its last four bytes as decimal numbers |
| AddressLaws.PrintsGroups | fastcgipp/src/http.cpp:793-813 | Any other address is printed as its groups in hexadecimal with colons between them, two colons standing for the last of the longest stretches of zero groups |
| AddressLaws.MappedIff | fastcgipp/src/http.cpp:777 | Which addresses are printed that way: ten zero bytes and two of 255 in front |
| AddressLaws.HexLead | fastcgipp/src/http.cpp:807 | Groups are printed without leading zeros |
| AddressLaws.DecimalLead | fastcgipp/src/http.cpp:788 | So are decimal numbers |
| ZeroRuns.FindElided | fastcgipp/src/http.cpp:734-772 | The scan finds the run the specification elides |
| ZeroRuns.ElidedLongest | fastcgipp/src/http.cpp:734-772 | What is elided is the last of the longest stretches of zero groups, a single group included; nothing only if no group is zero |
| AddressObject.Address.Assign | fastcgipp/src/http.cpp:612-715 | The method leaves in the address what the reading function says, and stops where the program would read past the readable memory |
| AddressObject.Address.ReadText | fastcgipp/src/http.cpp:621-702 | The character loop over the bytes in place ends as the machine over the remaining characters does |
| AddressObject.Address.PutQuads | fastcgipp/src/http.cpp:679-690 | The last three numbers of a dotted quad, each behind a dot that is not the last character, are stored modulo 256 |
| AddressObject.Address.PutFirst | fastcgipp/src/http.cpp:671-677 | The first number is taken from three nibbles of the group collected so far |
| AddressObject.Address.Complete | fastcgipp/src/http.cpp:704-714 | An error clears the address; a pad moves what follows it to the end and clears the gap |
| AddressObject.Address.Print | fastcgipp/src/http.cpp:734-813 | The printed text is the text form, dotted for IPv4-mapped addresses |
| TransactionQueue.Atomicity | fastcgipp/include/asql/asql.hpp:242-322 | For any pattern of query and commit errors and any arrival of transactions, what a worker has committed is a sequence of whole submitted transactions in queue order, none twice |
| TransactionQueue.RunExplained | fastcgipp/include/asql/asql.hpp:242-322 | In every reachable state the committed, pending and queued statements are accounted for by the transactions committed, the one being executed and those behind it |
| TransactionQueue.NothingLost | fastcgipp/include/asql/asql.hpp:267-293 | Without errors nothing is lost, doubled or reordered |
| TransactionQueue.FailureSparesOthers | fastcgipp/include/asql/asql.hpp:301-311 | A failed query leaves exactly the other transactions queued, as the class documentation says, if and only if it is the last of its transaction or no other transaction is queued |
| TransactionLaws.TransactionCommits | fastcgipp/include/asql/asql.hpp:267-293 | A transaction whose queries and commit go well is committed whole, and nothing else changes |
| TransactionLaws.TransactionFails | fastcgipp/include/asql/asql.hpp:295-312 | One of whose queries fails, or whose commit does, leaves nothing committed and nothing pending, be it the last query or not; the rest of the queue stays exactly if it was the last |
| TransactionLaws.QueuedBehind | fastcgipp/include/asql/asql.hpp:344-364 | A transaction is queued behind the others with exactly its last query marked |
| TransactionQueue.QueueComplete | fastcgipp/include/asql/asql.hpp:344-364 | Queues always end with a query that commits |
| TransactionQueue.InnocentDropped | fastcgipp/include/asql/asql.hpp:301-311 | A run in which a failure drops another, innocent transaction, contrary to lines 45-48 |
| TransactionQueue.Worker.Queue | fastcgipp/include/asql/asql.hpp:357-361 | Queueing a transaction marks exactly its last query for commit |
| TransactionQueue.Worker.Turn | fastcgipp/include/asql/asql.hpp:267-312 | One turn of the worker loop, with the drain as written, is the transition of the run model |
| TransactionQueue.ShortestQueue | fastcgipp/include/asql/asql.hpp:346-355 | The first of the shortest queues is chosen |

## Left out

- The EAGAIN branch of `transmit`, which passes a negative count to `freeRead`; accepted sockets block.
- The choice of a ready descriptor by `poll`, the return value of the transceiver's handler and the accept branch's iterator, which is used after the vector it points into has grown.
- Canned replies to management records: their header lengths do not add up to the size of the structure that is sent, so no framing theorem covers them; only the manager's message count is modelled.
- When a handler that is awake notices its flag after `stop` or `terminate`: the program gives no bound.
- The classes `Manager` and `ManagerPar` as Dafny classes: their methods run concurrently, so they are steps of a state machine instead of methods; memory ordering below the level of locks is not captured.
- ManagerTasks.TasksAlways: does not model an overlap of the unlocked pushes for request id 0 with the job thread's locked push, see the assumptions.
- ManagerLife.Lifecycle: assumes clean reuse of ids.
- Sink.EndCaught: the error page that goes between the two END_REQUEST records is not written, because it passes the stream buffer that is left out; which exceptions of a stream's flush reach the handler is decided by the stream library, so the state machine allows all of them.
- The stream buffer of 8192 characters in front of the sink and the substitution loop of `Encoder::write`, whose length argument is negative; its URL table is modelled as the specification of escaping.
- Params.Fill: of a body that ends inside a pair, what the program goes on to read behind the body is not modelled; the loop stops there and says so. The program trusts the lengths and handles each record body alone, so a pair split over two records is read wrongly.
- Which environment variable a parameter sets, cookies, sessions, file uploads and multipart bodies.
- AddressObject.Address.Assign: the look-ahead of the number parser at the end of the text, which reads one character without using it, is not modelled, nor is the overflow of its numbers; neither are the address stream extractor, masks and comparison.
- The field width and fill characters of the address printer, wide characters, and locale-dependent digits.
- Signedness of `char` where only its bits matter, and the 32-bit width of counters that count bytes of one record or text.
- Cancellation of transactions, callbacks after a query, the terminate flag and the number of workers of the SQL connection; results and parameters of queries.
- Reading template files and the list of loaded templates.
- Page objects, routing, price formatting, the database layer, the administration scripts and the web assets, which would add only easy or foreign members.
