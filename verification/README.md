# A small CQL client, modelled and proved

The client speaks the CQL binary protocol v2 to a Cassandra server. The project models four of its
parts and proves what they promise.

* **The lock-free queue** (`MpmcProtocol`, `MpmcInvariant`, `MpmcFifo`, `MpmcCalls`, `MpmcProgress`,
  `Words`, `MpmcWords`, `MpmcQueueObject`). A transition system with one step for each access to shared
  memory, any number of threads, stale relaxed ticket loads and spuriously failing weak
  compare-exchanges. It refines a bounded FIFO; machine words of any width simulate it across
  wrap-around; every call that begins is accounted for; the object's two loops are proved against it.
* **The wire codecs** (`Bytes`, `Codecs`, `Serialization`, `Buffers`, `ErrorBody`, `StartupBody`,
  `QueryBody`, `ResultMetadata`, `ResultBody`, `ResultRows`, `WireVectors`). Printers and readers are
  combined from small ones; a reader undoes a printer wherever the bytes stand. Buffer-level methods
  with the source's loops and cursors are proved equal to them, and whole messages are written out byte
  by byte.
* **The framing** (`Framing`, `Messages`, `EndToEnd`). A byte stream cut anywhere gives the frames of
  the uncut stream.
* **Streams and the connection** (`StreamStorage`, `Connection`, `ConnectionRequests`,
  `ConnectionStreams`, `ConnectionCells`, `ConnectionHandshake`, `ConnectionCounts`,
  `ClientConnections`, `Arrivals`). A state machine over lookups, connects, submitted requests and
  responses, with theorems over all its runs, and the way from the bytes of a response to its step.

`Prelude` and `Protocol` hold small shared types and the protocol's constants.

## Where the code does not do what it promises

The models follow the code. Where that differs from what the code is for, a datatype names both rules,
the intended one is proved to keep the promise, and the code is proved to keep it under an exact
condition, with a failing input beside it.

| rule | as written | intended | exact condition |
|---|---|---|---|
| `Framing.CursorRule` | the body cursor moves by the size of the whole input | by the bytes copied | no chunk ends inside a body |
| `QueryBody.SerialRule` | the serial consistency is sized twice | once | no serial consistency is set |
| `ResultMetadata.VectorRule` | the vector is resized to the count and then appended to | one entry per column | no columns |
| `ResultRows.NullRule` | a negative cell size moves the cursor back | the cursor stays | no value follows a null |
| cells of `StreamStorage.Init` | Max cells for ids 1..Max | Max + 1 | no id is allocated when one is left, and only ids 0..Max - 1 are looked up |
| size of the queue | the constructor admits size 1 | | size at least 2 |

The stream arrays' condition is proved over every run of calls (`StreamStorage.AsWrittenIff`) and over every
run of the connection (`ConnectionCells.AsWrittenIff`).

Three more findings have no alternative rule. An empty CQL version is not sent, so the reader keeps its
default (`StartupBody.StartupRoundTripIff`). Responses other than a RESULT never give their stream id
back, and neither does a SET_KEYSPACE result (`ConnectionStreams.Conservation`). A SUPPORTED that
arrives at a ready connection restarts the handshake (`ConnectionHandshake.SupportedAgain`).

## Conventions

Objects are classes whose methods are proved equal to a step on values; the theorems over whole runs are
about those steps. A decoder that would read outside its input, which the source does not check, gives
None. A run ends at a fault (a failed assertion, a NULL request dereferenced, an access outside an
array); statements over runs are about the states before it. Fresh memory is taken as zeros. The fields
called history in `MpmcProtocol.State` and `Connection.Conn` exist for the theorems only: no branch
depends on them.

## Model

| member | source | states |
|---|---|---|
| `MpmcInvariant.InitInv` | include/cql_mpmc_queue.hpp:33-47 | The constructor's state satisfies the inductive invariant: tail <= head <= tail + size, every slot is free for or filled by exactly one ticket, and no two in-flight calls hold the same ticket. |
| `MpmcInvariant.StepInv` | include/cql_mpmc_queue.hpp:53-136 | Every atomic step of every thread, with stale ticket loads and spurious compare-exchange failures, keeps that invariant for size >= 2. |
| `MpmcInvariant.RunInv` | include/cql_mpmc_queue.hpp:53-136 | The invariant holds after every interleaving. |
| `MpmcInvariant.EnqCasSeesFreeSlot` | include/cql_mpmc_queue.hpp:68-76 | When an enqueuer's compare-exchange can still win, its slot is still free for its ticket, although the slot was looked at earlier. |
| `MpmcInvariant.DeqCasSeesFilledSlot` | include/cql_mpmc_queue.hpp:108-116 | When a dequeuer's compare-exchange can still win, its slot still holds the item of its ticket. |
| `MpmcInvariant.OwnersApart` | include/cql_mpmc_queue.hpp:77-81 | Two threads between their winning compare-exchange and their release store are in different slots. |
| `MpmcFifo.StepRefines` | include/cql_mpmc_queue.hpp:73-122 | A winning enqueue compare-exchange is a push on a bounded FIFO, a winning dequeue one is a pop, and every other step leaves the FIFO as it is. |
| `MpmcFifo.ReplayMatches` | include/cql_mpmc_queue.hpp:53-136 | The pushes and pops of any run, in compare-exchange order, replay on the FIFO and end in the queue's own contents. |
| `MpmcFifo.ReturnsArePops` | include/cql_mpmc_queue.hpp:113-122 | What the dequeue with ticket t returns, or is about to return, is the t-th item popped. |
| `MpmcFifo.Linearizable` | include/cql_mpmc_queue.hpp:53-136 | Every interleaving of any number of enqueuers and dequeuers, from the constructor on, is a run of the bounded FIFO: nothing lost, duplicated or reordered, and each dequeue returns the item of its own ticket. |
| `MpmcFifo.TicketsWonOnce` | include/cql_mpmc_queue.hpp:73-116 | On each side every ticket below the counter was won exactly once and no other ticket ever. |
| `MpmcFifo.MutualExclusion` | include/cql_mpmc_queue.hpp:77-81 | In every reachable state the plain write and the plain read of a slot's data never overlap with another access to that slot. |
| `MpmcFifo.NeverStuck` | include/cql_mpmc_queue.hpp:62-136 | A thread inside a call always has an enabled next step. |
| `MpmcFifo.EnqueueFailsIff` | include/cql_mpmc_queue.hpp:83-86 | At its sequence load an enqueue gives up if and only if its ticket is the current head and the ticket one lap earlier is not released; MpmcCalls.ReturnsIff says it gives up nowhere else. |
| `MpmcFifo.DequeueFailsIff` | include/cql_mpmc_queue.hpp:124-127 | At its sequence load a dequeue gives up if and only if its ticket is the current tail and that ticket is not published. |
| `MpmcFifo.QuietFalse` | include/cql_mpmc_queue.hpp:83-127 | With no operation in flight, false means exactly full or exactly empty, and every popped item has been returned. |
| `MpmcFifo.SizeOneOverfills` | include/cql_mpmc_queue.hpp:41-41 | The constructor admits size 1, and then two enqueues succeed with no dequeue between them. |
| `MpmcFifo.OverfullIff` | include/cql_mpmc_queue.hpp:41-81 | A queue of a given size never holds more items than slots if and only if the size is at least 2. |
| `MpmcProgress.ReloadMeansOvertaken` | include/cql_mpmc_queue.hpp:87-90 | The branch commented as never taken is taken only when the shared ticket has passed the thread's own. |
| `MpmcProgress.IterationsBounded` | include/cql_mpmc_queue.hpp:62-132 | With fresh ticket loads a thread's loop iterations never exceed its calls plus its spurious failures plus the tickets won by other threads on its side. |
| `MpmcCalls.EnqueueLoadIs` | include/cql_mpmc_queue.hpp:62-91 | Which way a sequence load sends an enqueue, in terms of tickets: at the current head it gives up exactly on a full queue and otherwise goes to its compare-exchange; with an older ticket it goes on to lose while that ticket is unpublished and reloads afterwards. |
| `MpmcCalls.DequeueLoadIs` | include/cql_mpmc_queue.hpp:102-131 | The same for a dequeue, at the current tail and behind it. |
| `MpmcCalls.LoadsDeliver` | include/cql_mpmc_queue.hpp:60-89 | A ticket load and a compare-exchange that fails, spuriously or not, may deliver any value up to the counter, and the call goes round its loop with that ticket and its own item. |
| `MpmcCalls.ReturnsIff` | include/cql_mpmc_queue.hpp:80-127 | A thread inside a call is idle after its step if and only if the step is its release store, or a sequence load at the current ticket of a full or empty queue. |
| `MpmcCalls.StaysInCall` | include/cql_mpmc_queue.hpp:53-136 | Any other step of its leaves it in the same call with the same item. |
| `MpmcCalls.EveryCallAccounted` | include/cql_mpmc_queue.hpp:53-136 | Over every interleaving the calls a thread began are, in order, those that returned and the one it is inside of; an item that was not stored was refused at a full queue. |
| `MpmcCalls.ReturnedIsDone` | include/cql_mpmc_queue.hpp:73-122 | Over every interleaving the items of a thread's successful enqueues are exactly those its winning compare-exchanges pushed, and what its dequeues returned exactly what they popped, in order and but for one under way. |
| `MpmcCalls.EnqueueArrives` | include/cql_mpmc_queue.hpp:60-86 | An enqueue nobody disturbs comes to its compare-exchange, or returns false at a full queue. |
| `MpmcCalls.EnqueueFinishes` | include/cql_mpmc_queue.hpp:73-81 | From there on it stores its item at the end of the queue and returns. |
| `MpmcCalls.DequeueArrives` | include/cql_mpmc_queue.hpp:100-127 | A dequeue nobody disturbs comes to its compare-exchange, or returns false at an empty queue. |
| `MpmcCalls.DequeueFinishes` | include/cql_mpmc_queue.hpp:113-122 | From there on it takes the first item and returns it. |
| `Words.SizeTestIff` | include/cql_mpmc_queue.hpp:41-41 | At every word width the constructor's bit test accepts exactly the powers of two. |
| `Words.MaskIsMod` | include/cql_mpmc_queue.hpp:63-63 | Masking with 2^k - 1 is the remainder modulo 2^k. |
| `Words.SignedDifference` | include/cql_mpmc_queue.hpp:65-65 | The two's-complement difference of two wrapped tickets is their true difference whenever that is within half the word range. |
| `MpmcWords.PowersOfTwoMask` | include/cql_mpmc_queue.hpp:63-63 | Masking a wrapped ticket finds the slot of the unbounded ticket. |
| `MpmcWords.DifExact` | include/cql_mpmc_queue.hpp:65-108 | On machine words the sign test takes the branch the unbounded tickets would take. |
| `MpmcWords.CasExact` | include/cql_mpmc_queue.hpp:73-116 | A compare-exchange on wrapped tickets succeeds only when the unbounded tickets are equal. |
| `MpmcWords.StepSimulates` | include/cql_mpmc_queue.hpp:53-136 | Each step of the machine-word queue is the wrapped step of the unbounded queue, enabled or not, branch for branch. |
| `MpmcWords.RunSimulates` | include/cql_mpmc_queue.hpp:53-136 | A whole run on words of any width, ticket wrap-around included, goes exactly as the unbounded run while no thread lags by half the range: it ends in the wrapped end state, or is disabled at a step where that one is. |
| `MpmcWords.SameLinear` | include/cql_mpmc_queue.hpp:73-116 | On words the same compare-exchanges win, in the same order and for the same items. |
| `MpmcWords.WordsLinearizable` | include/cql_mpmc_queue.hpp:53-136 | Every such word run from the constructor on is a run of the bounded FIFO: its winning compare-exchanges replay, the two word tickets are the FIFO's counts wrapped, and each dequeue returns the item popped under its ticket. |
| `MpmcQueueObject.MpmcQueue.constructor` | include/cql_mpmc_queue.hpp:33-47 | The object accepts what the bit test accepts, numbers its slots, and for size >= 2 is an empty queue. |
| `MpmcQueueObject.MpmcQueue.Enqueue` | include/cql_mpmc_queue.hpp:53-95 | The loop on wrapped words, from any stale load and through any number of spurious failures, ends; it returns true exactly when there was room and then appends the item. |
| `MpmcQueueObject.MpmcQueue.Publish` | include/cql_mpmc_queue.hpp:73-81 | From its winning compare-exchange on, an enqueue appends the item. |
| `MpmcQueueObject.MpmcQueue.Dequeue` | include/cql_mpmc_queue.hpp:97-136 | The loop ends; it returns nothing exactly when the queue was empty and otherwise takes the first item. |
| `MpmcQueueObject.MpmcQueue.Take` | include/cql_mpmc_queue.hpp:113-122 | From its winning compare-exchange on, a dequeue takes the first item. |
| `MpmcQueueObject.EnqueueSteps` | include/cql_mpmc_queue.hpp:73-81 | What the object does in one go is one thread's compare-exchange, data write and release store of the protocol, in that order. |
| `MpmcQueueObject.DequeueSteps` | include/cql_mpmc_queue.hpp:113-122 | The same for a dequeue's compare-exchange, data read and release store. |
| `Framing.ConsumeIsRight` | include/cql_message.hpp:141-205 | One call of consume with the cursor moved by the bytes copied does exactly what the stream demands: takes the bytes up to the frame's end, holds all of an incomplete frame where it belongs, or faults on a negative length or unknown opcode. |
| `Framing.FeedIsParse` | include/cql_client_connection.hpp:199-255 | The loop over one chunk emits the frames a one-shot parser finds in held bytes plus chunk, and holds the parser's unparsed rest. |
| `Framing.ChunkingIndependent` | include/cql_client_connection.hpp:199-255 | For every byte stream and every cut of it, the loop emits the frames of the uncut stream in order, stops where that stream is malformed, and otherwise holds exactly the unparsed rest. |
| `Framing.ParseAppend` | include/cql_client_connection.hpp:203-254 | Parsing more bytes continues from the unparsed rest of what came before. |
| `Framing.Consume` | include/cql_message.hpp:141-204 | On a non-empty input a call takes at least one byte and no more than there are; an unfinished message takes it all and still lacks part of its header or of its body. |
| `Framing.NotDisplaced` | include/cql_message.hpp:183-202 | After any cut of any stream the repaired framing holds as many bytes as the parser leaves over, and its body cursor stands at that count less the header; where the stream is malformed it stopped for that reason. |
| `Framing.DisplacedForever` | include/cql_message.hpp:197-202 | Once the body cursor as written is too far right it stays so, and nothing is ever delivered again. |
| `Framing.OneChunk` | include/cql_message.hpp:197-202 | On one chunk the code as written and the repaired code agree exactly when the chunk does not end inside a body. |
| `Framing.OneCall` | include/cql_message.hpp:183-202 | One call that starts short of a header differs from the repaired one just when its input ends inside the body, and then the cursor stands at the size of the whole input. |
| `Framing.CleanSoFar` | include/cql_message.hpp:197-202 | Over a run of chunks, the code as written agrees with the repaired code while bodies stay whole, and from the first cut body on it is displaced. |
| `Framing.AsWrittenIff` | include/cql_message.hpp:197-202 | The code as written assembles what the repaired code assembles if and only if no chunk ends inside a body. |
| `Framing.CutInsideBodyOverruns` | include/cql_message.hpp:199-201 | One frame with a one-byte body cut after its header makes the code as written copy past the body buffer, where the repaired code delivers the frame. |
| `Messages.Message.constructor` | include/cql_message.hpp:49-59 | A new message is at the start of a frame with empty cursors. |
| `Messages.Message.Consume` | include/cql_message.hpp:141-205 | The object's call does what the step function with the cursor as written says, in place on its two buffers. |
| `Messages.Message.ReceiveHeader` | include/cql_message.hpp:148-172 | The call that completes the header decodes its five fields, rejects a negative length and an unknown opcode, and allocates the body buffer. |
| `Messages.Message.ConsumeBody` | include/cql_message.hpp:183-204 | The body half of the call, overage and needed arithmetic included. |
| `Messages.Message.KeepHeaderPart` | include/cql_message.hpp:173-179 | A part of a header goes to the header cursor, which moves by its length. |
| `Messages.Message.CopyPiece` | include/cql_message.hpp:188-198 | A piece of a body goes to the body cursor and leaves the rest of the buffer. |
| `Messages.Message.Prepare` | include/cql_message.hpp:108-132 | The length is what the body left behind the header, the eight header bytes go in front and the body bytes are untouched. |
| `Messages.Receiver.Turn` | include/cql_client_connection.hpp:207-254 | One turn takes at least one byte and no more than there are, and delivers at most one frame. |
| `Messages.Receiver.Deliver` | include/cql_client_connection.hpp:213-215 | A finished message is handed over whole and a new one takes its place. |
| `EndToEnd.ReadFrameIff` | include/cql_body_error.hpp:55-77 | A prepared ERROR or STARTUP message is read back with the same header and body fields if and only if they fit their encodings. |
| `EndToEnd.FirstIsMail` | include/cql_message.hpp:108-132 | A prepared message at the front of any stream is that stream's first frame. |
| `EndToEnd.MailsParse` | include/cql_message.hpp:108-205 | The concatenation of prepared messages parses to exactly their frames with nothing left. |
| `EndToEnd.PreparedMailsArrive` | include/cql_message.hpp:108-205 | Any list of ERROR and STARTUP messages, prepared, concatenated and delivered in any chunking, comes back as the same list; under the code as written exactly when no chunk ends inside a body. |
| `EndToEnd.WholeMessagesAreClean` | include/cql_client_connection.hpp:199-255 | Sent one chunk for each message, the messages satisfy that condition. |
| `EndToEnd.PrepareError` | include/cql_message.hpp:108-132 | Preparing a message with an ERROR body gives the bytes the end-to-end theorem speaks of. |
| `EndToEnd.PrepareStartup` | include/cql_message.hpp:108-132 | Preparing a message with a STARTUP body gives the bytes the end-to-end theorem speaks of. |
| `WireVectors.BigEndian` | include/cql_serialization.hpp:34-65 | Two- and four-byte numbers are big-endian. |
| `WireVectors.NumberVectors` | include/cql_serialization.hpp:43-105 | Numbers and strings, positive and negative, byte by byte. |
| `WireVectors.HeaderVector` | include/cql_message.hpp:108-132 | Two headers, byte by byte. |
| `WireVectors.ErrorVector` | src/test/main.cpp:35-39 | The ERROR message of the repository's tests, byte by byte. |
| `WireVectors.StartupVector` | src/test/main.cpp:45-51 | The STARTUP message of the repository's tests, byte by byte. |
| `WireVectors.CompressionVector` | include/cql_body_startup.hpp:63-88 | With a compression its option comes first. |
| `WireVectors.QueryVectors` | src/test/main.cpp:53-92 | The plain query and the one with a paging state of the repository's tests, byte by byte. |
| `WireVectors.FullQueryVector` | include/cql_body_query.hpp:168-199 | A query with all its parts, byte by byte. |
| `WireVectors.NewQueryVector` | include/cql_body_query.hpp:51-57 | A new query is empty, of consistency ANY (0) and without any part. |
| `WireVectors.QueryLayout` | include/cql_body_query.hpp:168-199 | The parts of any query body, in order, with the value of its flags byte. |
| `WireVectors.SmallResultVectors` | include/cql_body_result.hpp:145-160 | VOID and SET_KEYSPACE results, byte by byte. |
| `WireVectors.SchemaChangeVector` | include/cql_body_result.hpp:258-264 | A SCHEMA_CHANGE result, byte by byte. |
| `WireVectors.RowsLayout` | include/cql_body_result.hpp:235-241 | A ROWS result is its kind, metadata, row count and rows. |
| `WireVectors.MetadataVector` | include/cql_body_result.hpp:166-234 | Metadata with more pages, a global table specification and one column, byte by byte. |
| `WireVectors.MapColumnVector` | include/cql_body_result.hpp:194-230 | A map column of its own table, with a custom key type, byte by byte. |
| `WireVectors.PreparedVectors` | include/cql_body_result.hpp:250-256 | PREPARED results with and without column metadata, byte by byte. |
| `WireVectors.ElementTypes` | include/cql_body_result.hpp:203-226 | Class names go with type 0, one element type with 0x20 to 0x22, a second one with 0x21. |
| `WireVectors.SupportedVector` | include/cql_serialization.hpp:166-185 | A SUPPORTED body, byte by byte. |
| `Codecs.ManyRoundTrip` | include/cql_serialization.hpp:121-144 | If every item comes back, the first n items of a longer encoding come back from a count of n, with the exact end position. |
| `Codecs.ThenUndone` | include/cql_serialization.hpp:187-198 | What is read in a way that depends on what came before comes back when both parts do. |
| `Serialization.StringRoundTrip` | include/cql_serialization.hpp:68-85 | A string comes back, wherever it stands, if and only if its length is at most 65535. |
| `Serialization.KeyedRoundTripIff` | include/cql_serialization.hpp:106-185 | For any values with an exact codec: entries under distinct keys come back, with their exact end position and whatever surrounds them, if and only if the count is at most 32767 and every key and value fits. |
| `Serialization.LongStringRoundTrip` | include/cql_serialization.hpp:87-104 | A long string comes back if and only if its length fits four bytes. |
| `Serialization.ListRoundTripIff` | include/cql_serialization.hpp:146-162 | A string list comes back with its exact end position if and only if its count is at most 32767 and each string at most 65535 bytes long. |
| `Serialization.MapDecodes` | include/cql_serialization.hpp:121-144 | A string map that fits decodes to its entries, the first occurrence of a repeated key winning. |
| `Serialization.MapRoundTripIff` | include/cql_serialization.hpp:106-144 | A string map with distinct keys comes back, any suffix untouched, if and only if its count and strings fit. |
| `Serialization.MultimapRoundTripIff` | include/cql_serialization.hpp:164-185 | A string multimap with distinct keys comes back if and only if its count, keys and lists fit. |
| `Serialization.FirstWinsAt` | include/cql_serialization.hpp:138-141 | The value kept for a key is that of its first occurrence. |
| `Serialization.OptionRoundTripIff` | include/cql_serialization.hpp:187-198 | A column type comes back if and only if it is a short and has a class name just when it is custom. |
| `Serialization.LargeCountReadsNothing` | include/cql_serialization.hpp:122-186 | A count from 0x8000 on is a negative short: the list or map comes out empty and nothing after the count is read. |
| `Buffers.EncodeString` | include/cql_serialization.hpp:77-85 | Writes exactly prefix and bytes at the cursor and nothing else. |
| `Buffers.EncodeStringMap` | include/cql_serialization.hpp:106-119 | The loop writes exactly the map's encoding and ends behind it. |
| `Buffers.EncodeValues` | include/cql_body_query.hpp:179-186 | The loop writes exactly the count and the values with four-byte lengths. |
| `Buffers.DecodeStringMap` | include/cql_serialization.hpp:121-144 | The loop computes the decoder the round trips are about, end position included, and fails exactly when a read would leave the input. |
| `Buffers.DecodeStringList` | include/cql_serialization.hpp:146-162 | The same for lists. |
| `Buffers.DecodeStringMultimap` | include/cql_serialization.hpp:166-185 | The same for multimaps. |
| `Buffers.DecodeOption` | include/cql_serialization.hpp:187-198 | The same for column types. |
| `ErrorBody.ErrorRoundTripIff` | include/cql_body_error.hpp:55-77 | An ERROR body comes back if and only if its code is a 32-bit value and its message at most 65535 bytes long. |
| `ErrorBody.BodyError.constructor` | include/cql_body_error.hpp:39-48 | Copies code and message. |
| `ErrorBody.StaleLengthIff` | include/cql_serialization.hpp:68-75 | Only the two low bytes of the stored length are written, so an object reads what a new one reads if and only if its earlier message had at most 65535 bytes, or neither reads inside the body. |
| `ErrorBody.BodyError.Consume` | include/cql_body_error.hpp:55-63 | Sets code and message to what the decoder reads, the high bytes of an earlier message's length included. |
| `ErrorBody.BodyError.Prepare` | include/cql_body_error.hpp:65-77 | The buffer is exactly the reserved bytes and the encoding. |
| `StartupBody.OptionsAre` | include/cql_body_startup.hpp:70-83 | The options sent are the non-empty ones, compression first, under distinct keys. |
| `StartupBody.StartupRoundTripIff` | include/cql_body_startup.hpp:43-88 | A fresh STARTUP body that consumes a prepared one equals it if and only if both strings fit and the version is not empty. |
| `StartupBody.StartupOver` | include/cql_body_startup.hpp:43-88 | Consumed into any object, an option that was sent replaces the object's own and one that was not leaves it. |
| `StartupBody.EmptyVersionLost` | include/cql_body_startup.hpp:78-83 | An empty version is not sent, and the reader keeps its default. |
| `StartupBody.OptionsSize` | include/cql_body_startup.hpp:68-83 | The size pass reserves exactly what the map encoder writes. |
| `StartupBody.BodyStartup.constructor` | include/cql_body_startup.hpp:33-36 | The default version and no compression. |
| `StartupBody.BodyStartup.Consume` | include/cql_body_startup.hpp:43-61 | Known options replace the fields, absent ones leave them. |
| `StartupBody.BodyStartup.Prepare` | include/cql_body_startup.hpp:63-88 | Size pass and write pass agree: the buffer is exactly full. |
| `QueryBody.QueryRoundTripIff` | include/cql_body_query.hpp:171-198 | For every combination of optional parts, a reader driven by the flags byte in the order of section 4.1.4 of the CQL binary protocol v2, with the code's length prefixes, recovers every field and the exact end if and only if every length and number fits. |
| `QueryBody.SizePassIsWritePass` | include/cql_body_query.hpp:131-167 | The size pass equals the write pass when the serial consistency is counted once; as written, if and only if no serial consistency is set, and two bytes too many otherwise. |
| `QueryBody.PreparedReadsBack` | include/cql_body_query.hpp:126-201 | The prepared body is read back whole with nothing left over if and only if it fits and, as written, no serial consistency is set. |
| `QueryBody.SerialLeavesStrayBytes` | include/cql_body_query.hpp:139-167 | An empty query with a serial consistency is prepared as eleven bytes of which nine are its body. |
| `QueryBody.PassWrites` | include/cql_body_query.hpp:171-198 | The bytes written part by part are the encoding the round trip is about. |
| `QueryBody.BodyQuery.constructor` | include/cql_body_query.hpp:50-56 | A new query has consistency ANY and no optional part. |
| `QueryBody.BodyQuery.QueryString` | include/cql_body_query.hpp:63-80 | Sets the query string and nothing else. |
| `QueryBody.BodyQuery.Consistency` | include/cql_body_query.hpp:104-108 | Sets the consistency and nothing else. |
| `QueryBody.BodyQuery.PageSize` | include/cql_body_query.hpp:82-87 | Sets the page size and nothing else. |
| `QueryBody.BodyQuery.PagingState` | include/cql_body_query.hpp:89-95 | Sets the paging state and nothing else. |
| `QueryBody.BodyQuery.AddValue` | include/cql_body_query.hpp:97-102 | Appends a value and changes nothing else. |
| `QueryBody.BodyQuery.SerialConsistency` | include/cql_body_query.hpp:110-115 | Sets the serial consistency and nothing else. |
| `QueryBody.BodyQuery.Size` | include/cql_body_query.hpp:131-167 | The size pass and the flags it collects by bitwise or, counting the serial consistency twice. |
| `QueryBody.BodyQuery.SizeOfValues` | include/cql_body_query.hpp:149-155 | The loop adds up four bytes and the length of each value. |
| `QueryBody.Write` | include/cql_body_query.hpp:171-198 | The write pass puts exactly the encoding behind the reserved bytes and touches nothing else. |
| `QueryBody.WriteHead` | include/cql_body_query.hpp:171-177 | Query string, consistency and flags. |
| `QueryBody.WriteParts` | include/cql_body_query.hpp:179-198 | The optional parts one behind the other, each only when set. |
| `QueryBody.BodyQuery.Prepare` | include/cql_body_query.hpp:126-201 | The buffer has the size of the size pass and holds the encoding right behind the reserved bytes. |
| `ResultMetadata.MetadataRoundTripIff` | include/cql_body_result.hpp:166-233 | What a printer following section 4.2.5.2 of the CQL binary protocol v2 writes, parse_metadata reads back, ending exactly where it ends, if and only if the metadata is one the layout can carry; any column count, global or per-column tables, paging state, custom and collection types. |
| `ResultMetadata.ColumnUndone` | include/cql_body_result.hpp:194-225 | One column specification comes back, nested element types included. |
| `ResultMetadata.IndexIsFirst` | include/cql_body_result.hpp:228-229 | column_index knows exactly the column names and maps each to the first column bearing it. |
| `ResultMetadata.VectorDescribesIff` | include/cql_body_result.hpp:192-227 | Entry i of the column vector describes column i when each column makes one entry; as written if and only if there is no column, because every entry below the count is a blank one. |
| `ResultMetadata.OneColumnBlank` | include/cql_body_result.hpp:192-229 | For any single column, as written the index leads to a blank entry. |
| `ResultBody.NewObjectColumns` | include/cql_body_result.hpp:192-229 | Whatever metadata a new object parses, its column vector and index are those of the columns that came with it, blank entries first. |
| `ResultBody.ResultRoundTripIff` | include/cql_body_result.hpp:136-265 | A printed RESULT body of any of the five kinds is read back, the rows region whole, if and only if it fits the layout. |
| `ResultBody.IndexedSnoc` | include/cql_body_result.hpp:228-229 | Inserting a column keeps a name that is there already. |
| `ResultBody.PrintedIsShown` | include/cql_body_result.hpp:135-258 | An object that consumed the printed form of any result that fits shows that result's own fields: kind, column count, flags, paging state, keyspace and table, columns and index, row count, rows, prepared id and change; what the result does not mention stays. |
| `ResultBody.BodyResult.Consume` | include/cql_body_result.hpp:135-163 | The object holds what the decoder reads, and shows the fields of whatever result the input is the printed form of. |
| `ResultBody.BodyResult.ParseContent` | include/cql_body_result.hpp:144-163 | Each kind goes to its parser and an unknown one fails. |
| `ResultBody.BodyResult.constructor` | include/cql_body_result.hpp:111-129 | A new object is the one with no columns, no index, no strings and no rows, and the table-specification flag set. |
| `ResultBody.BodyResult.ParseMetadata` | include/cql_body_result.hpp:166-233 | Stops where the decoder stops and fills the fields with what it reads, the vector resized and then appended to. |
| `ResultBody.BodyResult.ParsePaging` | include/cql_body_result.hpp:173-178 | The paging state just when the flag is set. |
| `ResultBody.BodyResult.ParseTable` | include/cql_body_result.hpp:180-186 | Keyspace and table just when the flag is set. |
| `ResultBody.BodyResult.ParseColumns` | include/cql_body_result.hpp:188-231 | The columns unless the flag says there is no metadata; a negative count throws. |
| `ResultBody.BodyResult.PushColumns` | include/cql_body_result.hpp:194-230 | The loop appends one entry per column and indexes each name once. |
| `ResultBody.BodyResult.ParseColumn` | include/cql_body_result.hpp:195-225 | Read by read, the loop body is the column decoder. |
| `ResultBody.BodyResult.ParseRows` | include/cql_body_result.hpp:235-241 | Metadata, row count and the start of the rows region. |
| `ResultBody.BodyResult.ParsePrepared` | include/cql_body_result.hpp:250-256 | The id and the metadata. |
| `ResultBody.BodyResult.ParseSetKeyspace` | include/cql_body_result.hpp:243-248 | The keyspace. |
| `ResultBody.BodyResult.ParseSchemaChange` | include/cql_body_result.hpp:258-265 | Change, keyspace and table. |
| `ResultRows.RowsVisited` | include/cql_body_result.hpp:292-326 | Constructing the iterator and calling next until it returns false visits row_count rows of column_count cells each, read one after another, and one row when there are none. |
| `ResultRows.NoRowsOverreads` | include/cql_body_result.hpp:298-300 | For a result without rows at the end of its body, the constructor stays inside the body if and only if there is no column. |
| `ResultRows.MatrixRecoveredIff` | include/cql_body_result.hpp:302-325 | From the printed rows of any matrix, nulls included, the iterator recovers every cell when the cursor stays on nulls; as written if and only if, in visiting order, no value follows a null. |
| `ResultRows.ResultRecoveredIff` | include/cql_body_result.hpp:136-326 | The whole way of a ROWS result: the printed body is parsed to its metadata and row count, and from the row pointer the iterator recovers the matrix, as written if and only if no value follows a null. |
| `ResultRows.AsWrittenIff` | include/cql_body_result.hpp:310-313 | As written the cells show the printed values if and only if no value follows a null. |
| `ResultRows.CellsFound` | include/cql_body_result.hpp:302-316 | When the cursor stays on nulls, exactly the printed cells are found, with the exact end. |
| `ResultRows.AsWrittenPlacesIff` | include/cql_body_result.hpp:310-313 | As written the cells are where they were printed if and only if only the very last one may be null. |
| `ResultRows.Lagging` | include/cql_body_result.hpp:310-313 | Once the cursor as written lags behind a null, everything that remains is read as null. |
| `ResultRows.MatrixTiled` | include/cql_body_result.hpp:302-325 | Under the protocol's null rule the length prefixes and cell slices, in visiting order, tile the printed rows without gap or overlap. |
| `ResultRows.NullFirstLosesValue` | include/cql_body_result.hpp:310-313 | Two columns, the first null: as written the second value is lost. |
| `ResultRows.ResultIterator.constructor` | include/cql_body_result.hpp:292-300 | Parses the first row from the rows pointer, whatever the row count. |
| `ResultRows.ResultIterator.ParseRow` | include/cql_body_result.hpp:302-316 | The loop reads exactly the cells the walk finds, with the cursor as written. |
| `ResultRows.ResultIterator.Advance` | include/cql_body_result.hpp:318-326 | True with the next row current, or false with the row position moved on. |
| `StreamStorage.InitGood` | include/cql_stream_storage.hpp:27-33 | A new allocator has every id 1..Max free, once, and stands for the empty map. |
| `StreamStorage.SetRefines` | include/cql_stream_storage.hpp:35-53 | set_stream adds a fresh id to the partial map; it reports no streams exactly when all Max ids are live; as written it writes past its arrays exactly when Max - 1 ids are live. |
| `StreamStorage.GetRefines` | include/cql_stream_storage.hpp:55-75 | get_stream reads the map; a release removes a live id and fails, changing nothing, for any other, without underflow. |
| `StreamStorage.ReleaseUndoesSet` | include/cql_stream_storage.hpp:48-64 | Releasing what was just allocated restores the stack and the flags. |
| `StreamStorage.SetTakesLastReleased` | include/cql_stream_storage.hpp:48-64 | The id released last is the next to be allocated. |
| `StreamStorage.ReleasedStillReads` | include/cql_stream_storage.hpp:60-73 | A released id still reads as what it was allocated for, and cannot be released again. |
| `StreamStorage.FirstInOrder` | include/cql_stream_storage.hpp:27-53 | After n allocations on a new allocator exactly the ids 1..n are live. |
| `StreamStorage.IndexCounts` | include/cql_stream_storage.hpp:77-84 | The stack index is the number of live ids and the available streams are the rest. |
| `StreamStorage.AlwaysGood` | include/cql_stream_storage.hpp:27-84 | In every reachable state the free part of the stack lists exactly the unallocated ids, each once. |
| `StreamStorage.OutsideIff` | include/cql_stream_storage.hpp:48-64 | One call leaves the arrays as written exactly when it allocates with one id left or looks up an id outside 0..Max - 1; with one cell more, exactly when it looks up an id outside 0..Max. |
| `StreamStorage.EnoughCellsIff` | include/cql_stream_storage.hpp:35-86 | With one cell more a run stays inside its arrays if and only if every id looked up is in 0..Max. |
| `StreamStorage.RunAgreesIff` | include/cql_stream_storage.hpp:35-86 | From any two good states that agree, the run as written stays inside its arrays if and only if no call along the other's run allocates with one id left or looks up an id outside 0..Max - 1, and then the two end in states that agree. |
| `StreamStorage.AsWrittenIff` | include/cql_stream_storage.hpp:27-86 | The same from the constructor on, for every Max and every run. |
| `StreamStorage.Filling` | include/cql_stream_storage.hpp:35-53 | Allocating n times in a row from any good state stays inside the arrays as written exactly when n is below the number available, and always with one cell more. |
| `StreamStorage.LastStreamOverruns` | include/cql_stream_storage.hpp:60-64 | With the client's 127 ids, looking up id 127 leaves the arrays as written, and does not with one cell more. |
| `StreamStorage.LastAllocationOverruns` | include/cql_stream_storage.hpp:48-51 | So does the 127th allocation in a row, which the repository's own test makes. |
| `StreamStorage.StreamStorage.constructor` | include/cql_stream_storage.hpp:27-33 | The loop over the arrays as written builds that initial state. |
| `StreamStorage.StreamStorage.SetStream` | include/cql_stream_storage.hpp:35-53 | In place on the three arrays: the next free id is stored under and flagged, or nothing changes. |
| `StreamStorage.StreamStorage.GetStream` | include/cql_stream_storage.hpp:55-75 | In place on the three arrays: the stored value comes out, and a release of a flagged id pushes it back and clears its flag. |
| `StreamStorage.StreamStorage.AvailableStreams` | include/cql_stream_storage.hpp:77-80 | Max minus the number of live ids. |
| `Connection.StepMoves` | include/cql_client_connection.hpp:171-197 | Every step that does not fault leaves the books alone, takes a fresh id for one message, refuses one new request, or gives back the id of one caller's request and notifies that request. |
| `Connection.AlwaysGood` | include/cql_client_connection.hpp:171-648 | The allocator inside the connection is good in every reachable state, whatever the server sends. |
| `ConnectionRequests.AlwaysSound` | include/cql_client_connection.hpp:427-485 | Over every run, with duplicated and unsolicited responses, the live ids of callers are exactly the ids of requests sent and not yet notified. |
| `ConnectionRequests.AnsweredByOwnId` | include/cql_client_connection.hpp:427-485 | Each request is notified at most once; a result it is notified with carries the id written in its own header; a refused request was never sent. |
| `ConnectionRequests.UnansweredApart` | include/cql_client_connection.hpp:591-648 | No two unanswered requests share an id, and no request made is lost. |
| `ConnectionRequests.ResultNotifiesOwner` | include/cql_client_connection.hpp:443-478 | In a reachable state a RESULT under the id of an unanswered request notifies that request and gives its id back. |
| `ConnectionRequests.SetKeyspaceNotifiesNobody` | include/cql_client_connection.hpp:436-441 | A SET_KEYSPACE result notifies no request and gives no id back. |
| `ConnectionRequests.ResultFaultsIff` | include/cql_client_connection.hpp:435-484 | A RESULT stops the connection if and only if its kind is unknown, or it is not SET_KEYSPACE and its id has no cell or is live for one of the connection's own messages, whose NULL request is then dereferenced. |
| `ConnectionRequests.DuplicateIgnored` | include/cql_client_connection.hpp:443-483 | A second RESULT for the same id changes no stream and notifies nobody. |
| `ConnectionStreams.Partition` | include/cql_client_connection.hpp:166-169 | In every state available, awaiting and orphaned ids add up to 127. |
| `ConnectionStreams.OwnNeverReturn` | include/cql_client_connection.hpp:505-569 | Whatever the server sends, every OPTIONS, STARTUP and keyspace change ever sent still holds its id. |
| `ConnectionStreams.StepKept` | include/cql_client_connection.hpp:487-527 | Against a conforming server an orphaned id stays orphaned. |
| `ConnectionStreams.AlwaysKept` | include/cql_client_connection.hpp:436-527 | Over every run against a conforming server, the callers' ids that were answered and not given back are exactly those listed, as many as the run had ERROR and SET_KEYSPACE responses to callers' requests. |
| `ConnectionStreams.Conservation` | include/cql_client_connection.hpp:437-527 | Over every run against a conforming server, available ids, awaiting ids, one id for each own message sent and one for each ERROR or SET_KEYSPACE response to a caller's request make up the 127. |
| `ConnectionStreams.DryMeans` | include/cql_client_connection.hpp:437-527 | No more ids can be orphaned than there are cells less one; once that many are, nothing is awaited, and one id is available with the arrays as written and none with one cell more. |
| `ConnectionStreams.DryRefuses` | include/cql_client_connection.hpp:612-634 | In that dry state a new request is refused with 128 cells and leaves the arrays as written. |
| `ConnectionStreams.StaysDry` | include/cql_client_connection.hpp:487-527 | No step against a conforming server leads out of a dry state. |
| `ConnectionStreams.RunsDry` | include/cql_client_connection.hpp:529-536 | A dry state is reached: by 127 keyspace changes with 128 cells, by 126 with the arrays as written. |
| `ConnectionCells.StepOverrunsIff` | include/cql_client_connection.hpp:430-635 | One step of the connection as written leaves the stream arrays if and only if it takes an id when one is left or looks up a result under an id of 127 or more. |
| `ConnectionCells.StepAlike` | include/cql_client_connection.hpp:171-635 | Every other step leads it and a connection with one cell more to the same outcome. |
| `ConnectionCells.AsWrittenIff` | include/cql_client_connection.hpp:171-669 | Over every run, whatever callers and server do, the connection as written ends as one with 128 cells does if and only if along that run no event takes the last id and no looked-up id is 127 or more; otherwise it leaves its arrays. |
| `ConnectionCells.UnaskedResultOverruns` | include/cql_client_connection.hpp:473-475 | A RESULT under id 127 before anything was sent leaves the arrays as written, and with 128 cells the run goes on. |
| `ConnectionHandshake.StepOrderly` | include/cql_client_connection.hpp:171-197 | Against a conforming server every step keeps the handshake in order and the phase never goes back. |
| `ConnectionHandshake.AlwaysOrderly` | include/cql_client_connection.hpp:171-197 | Over every such run each phase means what it says: which of the two messages are out and which are answered. |
| `ConnectionHandshake.SupportedOrderly` | include/cql_client_connection.hpp:514-527 | A conforming SUPPORTED comes in the handshake phase, for the one OPTIONS sent, and moves on to the supported phase. |
| `ConnectionHandshake.ReadyOrderly` | include/cql_client_connection.hpp:505-512 | A conforming READY comes in the supported phase, for the one STARTUP sent, and makes the connection ready. |
| `ConnectionHandshake.ForwardOnly` | include/cql_client_connection.hpp:34-43 | Along every conforming run the state only moves forward through the enumeration. |
| `ConnectionHandshake.HandshakeSafe` | include/cql_client_connection.hpp:505-569 | In every state such a run reaches, OPTIONS and STARTUP were sent at most once each and in that order, and the ready callback was called at most once, and then only with both answered. |
| `ConnectionHandshake.SentExactly` | include/cql_client_connection.hpp:171-190 | Against any server, over every run OPTIONS was sent once for each connect that succeeded, STARTUP once for each SUPPORTED and a keyspace change once for each call, an id being free. |
| `ConnectionHandshake.ReadyCalledExactly` | include/cql_client_connection.hpp:506-544 | Against any server, over every run the ready callback was called once for each READY, in whatever phase it came. |
| `ConnectionHandshake.OptionsOnce` | include/cql_client_connection.hpp:171-187 | Against any server, over every run OPTIONS is sent at most once, and never while the lookup or the connect is under way. |
| `ConnectionHandshake.BackwardIff` | include/cql_client_connection.hpp:171-197 | Against any server the phase goes back if and only if SUPPORTED arrives at a ready connection or a lookup or connect completes late. |
| `ConnectionHandshake.SupportedAgain` | include/cql_client_connection.hpp:514-527 | An unasked-for SUPPORTED takes a ready connection back and makes it send STARTUP again. |
| `ConnectionCounts.LookupsStartConnects` | include/cql_client_connection.hpp:176-181 | Against any server, over every run the one lookup is under way or done, and the connects under way and done are as many as the lookups that succeeded. |
| `ConnectionCounts.PhaseAfter` | include/cql_client_connection.hpp:171-197 | The phase after any step is the one its event stands for, and no other event changes it. |
| `ConnectionCounts.HandshakeCompletes` | include/cql_client_connection.hpp:171-569 | On a new connection a lookup, a connect, SUPPORTED for the OPTIONS id and READY for the STARTUP id lead to the ready phase, with the two messages sent under ids 1 and 2 and one call of the ready callback. |
| `ConnectionCounts.CompletingConforms` | include/cql_client_connection.hpp:505-569 | The server of that run is a conforming one, so the handshake theorems speak of it. |
| `ConnectionCounts.RequestsExactly` | include/cql_client_connection.hpp:591-648 | Against any server, over every run each call of a caller makes one request; those made with an id free are sent, the others refused, and the remaining notifications are one for each RESULT but SET_KEYSPACE under a caller's live id. |
| `ConnectionCounts.CallbackExactly` | include/cql_client_connection.hpp:436-553 | Against any server, over every run the callback is told of a server error once for each ERROR before the ready phase, of a library error once for each VOID, ROWS or SCHEMA_CHANGE result under an id that is not live, and of success once for each READY. |
| `ConnectionCounts.StopsIff` | include/cql_client_connection.hpp:228-250 | An assertion fails exactly on a negative id, a response of another kind or an unknown result kind; a NULL request is notified exactly on a result that gives back the id of one of its own messages. |
| `ClientConnections.ChunkIsRun` | include/cql_client_connection.hpp:199-255 | A chunk that arrives after any history of calls, lookups, connects and responses leads to a state the state machine reaches by that history and the chunk's responses, so the theorems over runs hold of the object. |
| `ClientConnections.CutsDoNotMatter` | include/cql_client_connection.hpp:199-255 | However the same bytes are cut, the repaired framing brings the connection to the same outcome; the code as written too when bodies are left whole. |
| `ClientConnections.ResultArrives` | include/cql_client_connection.hpp:228-242 | A printed RESULT body reaches the handler with its own stream id and kind. |
| `Arrivals.EveryHeader` | include/cql_message.hpp:155-161 | Every eight bytes are the header they decode to, so the next row covers every byte string. |
| `Arrivals.FirstFrameIs` | include/cql_message.hpp:74-107 | What becomes of a header and what follows it: a negative length is an error, and so is every opcode but 0, 1, 2, 5, 6, 7, 8 and 9; a body that is not all there waits; otherwise the frame is complete. |
| `Arrivals.MessageIsHandled` | include/cql_client_connection.hpp:199-255 | However it is cut, a message is handled as the frame it is; as written for every cut that leaves its body whole. |
| `Arrivals.ResultLeads` | include/cql_client_connection.hpp:240-242 | The bytes of opcode 8 and any printed result lead, cut anywhere, to the step on a RESULT of that kind under the header's id. |
| `Arrivals.SupportedLeads` | include/cql_client_connection.hpp:231-233 | The bytes of opcode 6 and a multimap that fits lead to the step on SUPPORTED. |
| `Arrivals.ErrorLeads` | include/cql_client_connection.hpp:234-236 | The bytes of opcode 0 and an error that fits lead to the step on ERROR. |
| `Arrivals.OthersLead` | include/cql_client_connection.hpp:237-246 | The bytes of opcode 2 lead to the step on READY, and those of 1, 5, 7 and 9 to the failed assertion. |
| `Arrivals.UnreadableIff` | include/cql_message.hpp:192-194 | A frame is unreadable exactly when it is an ERROR, SUPPORTED or RESULT whose decoder leaves the body. |
| `ClientConnections.ClientConnection.constructor` | include/cql_client_connection.hpp:115-145 | A new connection is in the first state with every id free. |
| `ClientConnections.ClientConnection.Init` | include/cql_client_connection.hpp:697-712 | Runs the phase event; on a new object that starts the lookup and leaves the object at the start of the runs the theorems are about. |
| `ClientConnections.ClientConnection.SendOwn` | include/cql_client_connection.hpp:626-648 | Takes an id for a NULL request and sends under it, or leaves everything as it was. |
| `ClientConnections.ClientConnection.OnEvent` | include/cql_client_connection.hpp:171-197 | By state: look up, connect, go on to the handshake and send OPTIONS, send OPTIONS, send STARTUP, or call the ready callback. |
| `ClientConnections.ClientConnection.Exec` | include/cql_client_connection.hpp:612-624 | Makes a new request and sends it or notifies it of its refusal. |
| `ClientConnections.ClientConnection.SetKeyspace` | include/cql_client_connection.hpp:529-536 | Sends with a NULL request and ignores a refusal. |
| `ClientConnections.ClientConnection.OnSupported` | include/cql_client_connection.hpp:514-527 | Whatever the state was, it becomes SUPPORTED and STARTUP is sent if an id is left. |
| `ClientConnections.ClientConnection.OnReady` | include/cql_client_connection.hpp:505-512 | Whatever the state was, it becomes READY and the ready callback is called. |
| `ClientConnections.ClientConnection.OnServerError` | include/cql_client_connection.hpp:487-503 | Reports to the connect callback before readiness and never gives the id back. |
| `ClientConnections.ClientConnection.OnResultOf` | include/cql_client_connection.hpp:427-485 | Gives the id back and notifies its request; reports an id that is not live to the connect callback unless the kind is PREPARED; leaves SET_KEYSPACE alone; stops at a NULL request or an id without a cell. |
| `ClientConnections.ClientConnection.WhenResolved` | include/cql_client_connection.hpp:650-683 | A successful lookup makes the state RESOLVED and starts the connect; a failed one leaves the state. |
| `ClientConnections.ClientConnection.WhenConnected` | include/cql_client_connection.hpp:374-425 | A successful connect goes straight into the handshake without TLS and sends OPTIONS; a failed one leaves the state. |
| `ClientConnections.ClientConnection.OnMessage` | include/cql_client_connection.hpp:228-250 | A finished message goes to the handler of its opcode; a negative id and any other opcode stop the run. |
| `ClientConnections.ClientConnection.Consume` | include/cql_client_connection.hpp:199-255 | For one chunk, the frames of the feed go to their handlers in order up to the first fault, and the rest stays in the message in progress. |
| `ClientConnections.ClientConnection.Turn` | include/cql_client_connection.hpp:206-254 | One turn takes at least one byte and handles the message it finishes, before the next turn. |
| `ClientConnections.ClientConnection.HandleLast` | include/cql_client_connection.hpp:213-250 | The message just finished goes to its handler, whose fault ends the run. |

## Left out

- TLS, DNS, sockets, libuv's loop and logging: foreign code; they appear as steps (a lookup or connect completes, a chunk arrives).
- `close`, `on_close` and the two states after it: the runs end where `close` is called.
- Memory ordering beyond stale ticket loads and spurious compare-exchange failures: sequence loads and stores are sequentially consistent.
- MpmcQueueObject.MpmcQueue.Enqueue: the object's loops run with no other thread in between; interleavings are the transition system's.
- MpmcQueueObject.MpmcQueue.Dequeue: as for Enqueue.
- MpmcWords.RunSimulates: requires that no thread lags half the word range behind, as the two's-complement test does.
- MpmcWords.WordsLinearizable: the same.
- MpmcProgress.IterationsBounded: bounds iterations when ticket loads are fresh; a load that may stay stale for ever allows no bound.
- Messages.Message.Consume: the running byte count is unbounded, so its overflow past 2^31 is not modelled, and neither is the return value -1, which nothing reaches.
- Messages.Message.Prepare: takes the buffer the body has filled; the bodies without content of their own (OPTIONS, READY), whose buffer is allocated before its size is set, and PREPARE, a single long string, have no codec here.
- ClientConnections.ClientConnection.SetKeyspace: the query text the source puts together is not modelled, only the id the message takes.
- ClientConnections.ClientConnection.Exec: `prepare` differs only in the body it sends and the statement it records; the prepare callback is never set and is not modelled.
- ClientConnections.ClientConnection.Consume: the message body is decoded when it is handed over, not inside the message's own call; `body_error` is never read and is not modelled.
- ClientConnections.ClientConnection.constructor: the stream storage is a value inside the object, updated by the steps its own class is proved against.
- ResultRows.ResultIterator.Advance: after a read outside the body nothing is said.
- QueryBody.BodyQuery.AddValue: stores the bytes; the source stores a pointer to the caller's memory.
- Callbacks: the connect callback is taken as set; the keyspace callback only observes and has no entry.
- Request waiting and notification (cql_request.hpp): a notification is an entry in a list.
- Pool, cluster, session, the demo client and server: no behaviour of their own worth a theorem.
- WireVectors.QueryVectors: without the query vector with a value in src/test/main.cpp:65-78, which expects a two-byte value length; the code writes four bytes, and the model follows the code.
