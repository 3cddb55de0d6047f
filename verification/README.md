# Verified models of the CQL client, the memory pool, the lock-free queue and dynamic structs

This project models four components and proves what they promise.

* **The CQL client** (`external/brpc/922.patch.new`), a Cassandra client that speaks the CQL binary protocol v3.
  * `StreamIds` is the lock-free allocator of stream ids as a transition system: any number of concurrent `AddStream`
    callers, one parser thread, one step per shared read, CAS or fetch-and-add.  `StreamTable` is the same code run by one
    thread at a time, as a class that changes its buckets, counter and slots in place; `StreamProgress` says when a call
    may give up, what calls achieve that nobody interferes with, and where scans begin.
  * `Handshake` is the connection handshake with any number of packing threads, the parser and a server;
    `HandshakeProgress` says when it can still be completed, `HandshakeCalls` what a packing thread achieves alone.
  * `CqlRequest` is the request builder with its back-patched value counts, `CqlReference` a reader of request bodies
    written from sections 4.1.4 and 4.1.7 of the protocol alone, `RequestMeaning` the proof that the reader gets back
    what the caller asked for, and `RequestRuns` any sequence of calls on one request.  `CqlStatements` is a reader of CQL
    statements, and `StatementMeaning` the proof that the texts of `Insert`, `Add` and `Delete` do what the calls say.
  * `ValueCodec` defines the value encoding on values, `ValueIo` is the code that reserves, patches and iterates.
    `ValueMeaning` is a reader of values written from section 6 of the protocol; `Truncation` and `SetDecoding` are about
    values cut short and collections sent in any order.
  * `Frames` is the incremental frame parser; `RowsResult` is the lazily indexed rows, `ColumnTypes` and
    `RowsLayout` are the bodies of section 4.2.5.2, with types nested at will, and what the decoder makes of them.
  * `Bytes` holds the integer notations, the buffer and the iterator.
* **`StaticMemoryPool`** (`example/brpc/memory_pool.hpp`).  `PoolSpec` says what each operation does to a chain of blocks;
  `MemoryPool` is the linked implementation, proved to do exactly that; `PoolSafety` shows that no operation makes buffers
  overlap; `PoolEffects` what they are for: what is obtained, released and reported; `PoolRuns`, `PoolOrder` and `PoolSizes` are about whole histories of any number of pools with moves between
  them; `CleanerVector` is the vector of registered destructors, which every pool holds; `BlockSize` is `get_block_size`.
* **`LockFreeQueue`** (`example/performance_units/lock_free_queue.cpp`), a transition system with any number of threads,
  proved linearizable against an abstract FIFO; `QueueProgress` shows that it is lock-free and that calls return.
* **The dynamic struct schema** (`example/brpc/dynamic_struct.h`, `.hpp`).  `StructLayout` is the layout and the merged
  lists on values, `StructData` what the lists do to memory, `DynamicStruct` the classes that change both in place.

How the world outside is modelled: atomics are sequentially consistent steps; a bucket word is the set of its one-bits;
`IOBuf` is a byte sequence and its iterator a position in one; a socket write appends to a trace; addresses returned by
`operator new` and the result of `buffer_size * 1.1f` are inputs, and the allocator's guarantee (16-byte alignment, no
overlap with a live block) is a hypothesis of the theorems that need it; float and double values are their bit patterns.

In eight places the code does something other than its surroundings suggest.  It is modelled as written; for each place
there is an input that shows it and a theorem that says exactly when the expected property holds:

* the bool decoder does not advance: `BoolListFails`, `BoolListRoundTrip`;
* `OnReady` never makes the connection ready: `StrandingRun`, `ReadyExactlyAfterAuthentication`,
  `ReadinessReachableExactly`;
* `set_block_size` after construction can let `size()` exceed `capacity()`: `OverflowIsReached`, `SizeWithinExactly`;
* a nested type in the metadata of a result is read short: `NestedLookupFails`, `TypeReadExactly`,
  `TableReadInPlaceExactly`, `GlobalTableReadExactly`;
* parsing stops after an internal frame even if another frame is complete: `ChunkingMatters`, `ChunksMatterExactly`,
  `SplitTakes`;
* a string is not read when so many bytes follow that their number turns negative as an `int`: `LongSuffixFails`,
  `RoundTrip`;
* an empty collection is sent as zero bytes, without its count of elements, also inside another: `EmptyListUnread`,
  `ValueReads`;
* a value appended to a batched query that was not opened by `ExecuteCql3Query` since the last encoding makes a `CHECK`
  fire: `ValueAfterConvenienceQuery`, `ValueAfterEncoding`, `EncodesExactly`.

## Model

| member | source | states |
|---|---|---|
| `LockFreeQueue.ReachableInv` | example/performance_units/lock_free_queue.cpp:33-74 | in every interleaving the linked nodes form one acyclic chain, `tail` is its last or second-to-last node, `head` is at most one node past `tail`, and every pending node belongs to one thread |
| `LockFreeQueue.MoveInv` | example/performance_units/lock_free_queue.cpp:33-74 | every step of every thread keeps that invariant |
| `LockFreeQueue.Linearizable` | example/performance_units/lock_free_queue.cpp:33-74 | every run shows its callers the calls and returns of some run of an abstract FIFO in which each operation takes effect in one step between its call and its return |
| `LockFreeQueue.MoveRefines` | example/performance_units/lock_free_queue.cpp:33-74 | every concrete step is at most one step of the abstract queue, with the same observable event |
| `LockFreeQueue.LinkTakesEffect` | example/performance_units/lock_free_queue.cpp:36-42 | the link CAS is the moment `input` appends its value |
| `LockFreeQueue.HeadTakesEffect` | example/performance_units/lock_free_queue.cpp:65-69 | the head CAS is the moment `output` removes the oldest value, and that value is the one it returns |
| `LockFreeQueue.EmptyReadTakesEffect` | example/performance_units/lock_free_queue.cpp:56-62 | when `output` reads a null `next` the abstract queue is empty, and that read is its effect |
| `LockFreeQueue.RetryMeansProgress` | example/performance_units/lock_free_queue.cpp:36-72 | an operation goes back to the top of its loop only if a node was linked or `tail` or `head` advanced since the attempt began; that it gets to the end is `QueueProgress.ReturnsAlone` |
| `LockFreeQueue.DeliveredIsPrefix` | example/performance_units/lock_free_queue.cpp:52-74 | in every run the delivered values followed by the queued ones are exactly the linked values in order |
| `LockFreeQueue.DeliveryStep` | example/performance_units/lock_free_queue.cpp:52-74 | only a head CAS changes the delivered values, and it appends the oldest queued one: none is lost or repeated |
| `QueueProgress.ReturnsAlone` | example/performance_units/lock_free_queue.cpp:33-74 | from any reachable state a pending operation that runs alone returns within twelve of its own steps: an `input` with its value appended once, an `output` with the front of the queue, or with nothing exactly if the queue was empty |
| `QueueProgress.CallsReturn` | example/performance_units/lock_free_queue.cpp:33-74 | the same for a call just made: it returns the answer of a FIFO queue and leaves the queue that a FIFO leaves |
| `QueueProgress.HeldUpByOthers` | example/performance_units/lock_free_queue.cpp:36-72 | lock freedom: over any stretch of any run in which an operation never takes effect it makes at most eight steps for each value that others link meanwhile, four for each value that others take out, and seven more |
| `StreamIds.ReachableInv` | external/brpc/922.patch.new:3472-3548 | for any number of callers and the parser, a free bit means an empty slot, reserved ids are held by one thread, every registration is in its slot, on its way out or delivered, and the counter counts them |
| `StreamIds.MoveInv` | external/brpc/922.patch.new:3472-3548 | every step of a caller or of the parser keeps that invariant |
| `StreamIds.ChecksNeverFire` | external/brpc/922.patch.new:3472-3543 | neither `CHECK` of allocation and removal fires in any run |
| `StreamIds.HandedOutOnce` | external/brpc/922.patch.new:3488-3520 | in any run the id that a caller's CAS claims was free with an empty slot, held by no other caller and not by the parser, and is below the range reserved for internal messages; when a call may fail instead is `StreamProgress.GivesUpOnlyIfEmpty` |
| `StreamIds.ClaimIsExclusive` | external/brpc/922.patch.new:3500-3502 | the same from any state that meets the invariant: the claimed id is the one of the bucket and bit found, and nobody else is using it |
| `StreamIds.DeliveredWasRegistered` | external/brpc/922.patch.new:3935-3942 | a correlation id is delivered only for the stream it was registered under, and no more often |
| `StreamIds.DeliveredAtMostOnce` | external/brpc/922.patch.new:3935-3942 | with a fresh correlation id for each call, each one is delivered at most once |
| `StreamIds.QuiescentCount` | external/brpc/922.patch.new:3481-3481 | with no call half way the in-flight counter is the number of registrations not delivered yet |
| `StreamIds.StrideExists` | external/brpc/922.patch.new:3045-3054 | for every permitted limit there is a stride and it does not divide the bucket count |
| `StreamIds.Coprime` | external/brpc/922.patch.new:3036-3054 | a stride that does not divide the bucket count is coprime to it, with the Bezout coefficients as witnesses |
| `StreamIds.StartsOnce` | external/brpc/922.patch.new:3505-3509 | among n consecutive allocations before the counter wraps no two start at the same of the n buckets |
| `StreamIds.StartsEverywhere` | external/brpc/922.patch.new:3505-3509 | and each bucket is the start of one of them |
| `StreamProgress.GivesUpOnlyIfEmpty` | external/brpc/922.patch.new:3509-3519 | in any interleaving a call ends with -1 only if every bucket had no free bit at some moment since the call began |
| `StreamProgress.EveryCallReturns` | external/brpc/922.patch.new:3472-3520 | from any reachable state a pending call that runs alone returns within the number of buckets and six steps |
| `StreamProgress.AddStreamAlone` | external/brpc/922.patch.new:3472-3520 | a call that runs alone from any reachable state fails if and only if no id is free, and else registers its stream under the lowest free id of the first bucket, going round, that has one |
| `StreamProgress.ResponseAlone` | external/brpc/922.patch.new:3522-3548 | a response that nobody interferes with delivers the registered correlation id and frees exactly that stream, and is refused exactly if nothing is registered under its id |
| `StreamProgress.BeginsAt` | external/brpc/922.patch.new:3505-3509 | the k-th call of a run, whoever makes it, begins its scan at the bucket that the round-robin counter gives |
| `StreamProgress.NeighboursBeginApart` | external/brpc/922.patch.new:3505-3509 | of any n calls of a run that begin one after the other before the counter wraps, no two begin at the same one of the n buckets |
| `StreamTable.Table.FindAndSetFirstAvailableStream` | external/brpc/922.patch.new:3488-3503 | takes the lowest one-bit of the bucket and clears it alone, or fails exactly when the bucket is empty |
| `StreamTable.Table.ScanBuckets` | external/brpc/922.patch.new:3509-3519 | finds the first bucket with a free bit going round from the start, or fails exactly when no id is free |
| `StreamTable.Table.AllocateStreamId` | external/brpc/922.patch.new:3505-3520 | fails if and only if no id is free, and every id stays below the reserved internal range |
| `StreamTable.Table.AddStream` | external/brpc/922.patch.new:3472-3486 | fails if and only if no slot is free; otherwise a free id gets the stream in its slot and nothing else changes, and bits and slots keep agreeing if and only if the correlation id is not the invalid one |
| `StreamTable.Table.RemoveStream` | external/brpc/922.patch.new:3522-3543 | answers whether the id was occupied, and frees exactly that id |
| `StreamTable.Table.FindStream` | external/brpc/922.patch.new:3545-3548 | returns the stream registered under the id, or none for ids that are free or out of range |
| `Handshake.ReachableInv` | external/brpc/922.patch.new:3550-3559 | in every interleaving of packers, parser and server: mutual exclusion, the status that goes with each point of the handshake, the frames on the wire, and every packed request in the pending buffer or on the wire exactly once |
| `Handshake.MoveInv` | external/brpc/922.patch.new:3689-3848 | every step keeps that invariant, whatever credentials and keyspace the authenticator holds |
| `Handshake.ReadyMeansSentOnce` | external/brpc/922.patch.new:3689-3699 | once the status is READY every packed request is on the wire exactly once and the pending buffer is empty |
| `Handshake.NeverSentTwice` | external/brpc/922.patch.new:4058-4076 | at any time a request is on the wire at most once, and not before its thread let go of it |
| `Handshake.PackedIsPending` | external/brpc/922.patch.new:3550-3559 | before readiness a packed request is in the pending buffer exactly once |
| `Handshake.WireOrder` | external/brpc/922.patch.new:3334-3338 | STARTUP is the first frame and is sent once; no request frame precedes readiness or a handshake frame |
| `Handshake.ReadyExactlyAfterAuthentication` | external/brpc/922.patch.new:3743-3788 | between messages the status is READY if and only if the server asked for authentication, accepted it and confirmed the keyspace if there is one |
| `Handshake.ReadyReplyStrandsRequests` | external/brpc/922.patch.new:3706-3715 | if the server answers STARTUP with READY, then however the run goes on no request reaches the wire |
| `HandshakeProgress.CanBecomeReady` | external/brpc/922.patch.new:3689-3848 | with credentials, every run whose parser has not failed and whose server has not answered READY has a continuation after which the status is READY, nothing is pending and every request packed before is on the wire once |
| `HandshakeProgress.ReadinessReachableExactly` | external/brpc/922.patch.new:3689-3848 | from any reachable state some continuation reaches READY if and only if there are credentials, the parser has not failed and the server has not answered STARTUP with READY |
| `HandshakeProgress.StrandingRun` | external/brpc/922.patch.new:3706-3715 | a run of nine moves in which the server answers READY, the packed request stays pending and no continuation puts it on the wire |
| `HandshakeProgress.ReadyRun` | external/brpc/922.patch.new:3743-3788 | a run that ends with status READY, nothing pending, and STARTUP, the credentials and the request on the wire in that order |
| `HandshakeCalls.PackAlone` | external/brpc/922.patch.new:4058-4076 | packing with nobody in the way: on a ready connection the request goes on the wire, else to the end of the pending buffer, and the first one sends STARTUP; nothing else changes |
| `HandshakeCalls.PackingReturns` | external/brpc/922.patch.new:4058-4076 | from any reachable state a thread half way through packing is done within seven steps of its own, unless another one holds the mutex |
| `HandshakeCalls.MutexIsReleased` | external/brpc/922.patch.new:3689-3699 | and whoever holds the mutex lets go of it within three steps of its own, writes failing or not |
| `CqlRequest.Request.constructor` | external/brpc/922.patch.new:131-142 | a new request asks for nothing, with the default settings |
| `CqlRequest.Request.EncodeValuesNumberOfLastBatchedQuery` | external/brpc/922.patch.new:249-258 | passes its `CHECK` if and only if no count is pending or bytes are reserved for it, and then writes the count there and leaves none pending |
| `CqlRequest.Request.MoveValuesToQuery` | external/brpc/922.patch.new:1346-1353 | the values collected so far and their count move behind the first query |
| `CqlRequest.Request.TurnIntoBatch` | external/brpc/922.patch.new:264-267 | the bytes of the only query become those of a batch of one, and the collected values are empty |
| `CqlRequest.Request.HandleBatchQueryAtBeginningIfNeeded` | external/brpc/922.patch.new:260-280 | passes its `CHECK` if and only if no value was bound where it cannot be counted, and then counts one more query modulo 2^16; from the second query on the request is a batch whose bytes are those of the queries so far and a kind byte |
| `CqlRequest.Request.WriteText` | external/brpc/922.patch.new:612-634 | the reserved length is patched to that of the pieces appended after it |
| `CqlRequest.Request.Insert` | external/brpc/922.patch.new:608-645 | adds one INSERT query with the key and the value bound to it, in query or batch form, with no count left open; the request stays encodable if and only if fewer than 65536 queries and values per query were asked for; the call passes the `CHECK` if and only if no value was bound where it cannot be counted |
| `CqlRequest.Request.Add` | external/brpc/922.patch.new:648-686 | adds one counter UPDATE with the key bound to it, with no count left open, and makes a batch a counter batch; the request stays encodable if and only if fewer than 65536 queries and values per query were asked for; the call passes the `CHECK` if and only if no value was bound where it cannot be counted; what the text says is `StatementMeaning.AddReads` |
| `CqlRequest.Request.Delete` | external/brpc/922.patch.new:688-718 | adds one DELETE with the key bound to it, with no count left open; the request stays encodable if and only if fewer than 65536 queries and values per query were asked for; the call passes the `CHECK` if and only if no value was bound where it cannot be counted |
| `CqlRequest.Request.ExecuteCql3Query` | external/brpc/922.patch.new:726-740 | adds a query, and opens a value count to be patched exactly if it is not the first one; the request stays encodable if and only if fewer than 65536 queries and values per query were asked for; the call passes the `CHECK` if and only if no value was bound where it cannot be counted |
| `CqlRequest.Request.AppendQueryParameterValue` | external/brpc/922.patch.new:742-751 | binds one more value to the last query, or to the next one if there is none yet; the request stays encodable if and only if the counts fit and, in a batch, the last query has a count open to be patched; without one the next query or encoding will abort |
| `CqlRequest.Request.EncodeParameter` | external/brpc/922.patch.new:1131-1147 | appends consistency, flags, values and options as the flags say |
| `CqlRequest.Request.EncodeBatchQueries` | external/brpc/922.patch.new:282-288 | appends the head of a batch and settles the pending count, unless its `CHECK` fires, which is exactly if a value was bound where it cannot be counted |
| `CqlRequest.Request.EncodeTo` | external/brpc/922.patch.new:290-299 | appends exactly the body of the queries asked for, leaves the request encodable to the same bytes and closes the pending count; aborts if and only if a value was bound where it cannot be counted |
| `CqlRequest.DigitsReadBack` | external/brpc/922.patch.new:629-632 | the digits appended for a number are decimal, have no leading zero and stand for that number |
| `CqlRequest.BindBytes` | external/brpc/922.patch.new:742-751 | binding a value to the last query of a batch changes its count and appends the value, and nothing before them |
| `RequestMeaning.QueryReads` | external/brpc/922.patch.new:290-299 | the body of one query reads, under section 4.1.4, as exactly its text, its values and the settings |
| `RequestMeaning.BatchReads` | external/brpc/922.patch.new:282-299 | the body of several queries reads, under section 4.1.7, as exactly those queries in order with their values and the settings |
| `RequestMeaning.BodyDetermined` | external/brpc/922.patch.new:290-299 | two query bodies, or two batch bodies, with the same bytes were asked for the same queries, values and settings, and the batches are of the same kind |
| `RequestRuns.Perform` | external/brpc/922.patch.new:249-299 | any sequence of queries, values, settings and encodings on a new request, in any order: a `CHECK` fires if and only if a value was appended to a batched query with no count open and a later call settles the count, and otherwise the request holds exactly what was asked for and every encoding sent exactly that |
| `RequestRuns.SendTwice` | external/brpc/922.patch.new:608-751 | any queries made by `Insert`, `Add`, `Delete` and `ExecuteCql3Query` with any values appended to the latter: nothing aborts, both encodings send the same bytes, and these read under section 4.1.4 or 4.1.7 as exactly those queries and values |
| `RequestRuns.RunReads` | external/brpc/922.patch.new:282-299 | after any orderly calls, settings included, two encodings send the same bytes, which the server reads as exactly what was asked for |
| `RequestRuns.EncodesExactly` | external/brpc/922.patch.new:249-258 | after any calls, encoding passes the `CHECK` if and only if every value appended from the second query on follows an `ExecuteCql3Query` with no other query and no encoding in between |
| `RequestRuns.ValueAfterConvenienceQuery` | external/brpc/922.patch.new:742-751 | two queries, the second made by `Insert`, `Add` or `Delete`, then a value: encoding aborts |
| `RequestRuns.ValueAfterEncoding` | external/brpc/922.patch.new:742-751 | two queries, an encoding, then a value: the next encoding aborts |
| `RequestRuns.ItemsAsked` | external/brpc/922.patch.new:608-751 | the calls for any list of queries ask for exactly those queries, in order, with their values, and for a counter batch exactly if an `Add` comes after the first query |
| `StatementMeaning.AddReads` | external/brpc/922.patch.new:660-672 | for all names and every count the text of `Add` reads, as CQL, as adding exactly that signed number to that counter in that row of that table |
| `StatementMeaning.InsertReads` | external/brpc/922.patch.new:621-632 | the text of `Insert` reads as setting the key and the column to the two values, for the time to live given if it is positive |
| `StatementMeaning.DeleteReads` | external/brpc/922.patch.new:700-708 | the text of `Delete` reads as removing that column, or the whole row if none is named, where the key is the value bound |
| `StatementMeaning.CallReads` | external/brpc/922.patch.new:608-718 | so the query that any of the three calls makes, with its values as the server sees them, does what the call says |
| `StatementMeaning.SentMeans` | external/brpc/922.patch.new:290-299 | end to end: in the body sent for any queries the server finds, in the place of each of these calls, a statement that does what the call says |
| `Bytes.Decode16` | external/brpc/922.patch.new:1849-1857 | two bytes read back the number modulo 2^16, whatever follows |
| `Bytes.Decode32` | external/brpc/922.patch.new:1859-1871 | four bytes read back the number modulo 2^32 |
| `Bytes.Decode64` | external/brpc/922.patch.new:1873-1876 | eight bytes read back the number modulo 2^64 |
| `Bytes.Signed32` | external/brpc/922.patch.new:1890-1896 | a 32-bit signed number survives encoding and decoding |
| `Bytes.Signed64` | external/brpc/922.patch.new:1898-1908 | a 64-bit signed number survives encoding and decoding |
| `Bytes.Encode32Inverts` | external/brpc/922.patch.new:1859-1871 | encoding inverts decoding: the four bytes are determined by the number |
| `Bytes.BigEndian` | external/brpc/922.patch.new:1849-1908 | of the bytes of an integer the first counts most |
| `ValueCodec.RoundTrip` | external/brpc/922.patch.new:1849-2090 | for int32, int64, float, double, strings and arbitrarily nested lists, sets and maps of them under 2^31 bytes, followed by any bytes at all: decoding yields the value, with empty values read as null, and leaves exactly those bytes if for every nonempty string in the value the bytes from its beginning to the end, cast to `int`, are not fewer than its length, and fails otherwise |
| `ValueCodec.NoStringsRead` | external/brpc/922.patch.new:1849-2090 | a value of a type without strings meets that condition before any number of bytes |
| `ValueCodec.ShortReads` | external/brpc/922.patch.new:1849-2090 | so does any value while value and following bytes are together under 2^31 |
| `ValueCodec.LongSuffixFails` | external/brpc/922.patch.new:1220-1241 | a list of one string of one byte fails to decode before 2^31 bytes |
| `ValueCodec.TextRoundTrip` | external/brpc/922.patch.new:1220-1241 | a string comes back if it is empty or the bytes left, cast to `int`, are not fewer than its length, and fails otherwise |
| `ValueCodec.BoolLeavesItsByte` | external/brpc/922.patch.new:1243-1258 | a bool comes back right but its byte stays unread |
| `ValueCodec.BoolListFails` | external/brpc/922.patch.new:1243-1258 | the encoding of the list [true, true] fails to decode |
| `ValueCodec.BoolListRoundTrip` | external/brpc/922.patch.new:2018-2042 | a list of bools comes back with the following bytes left if and only if it is empty |
| `ValueCodec.BoolReads` | external/brpc/922.patch.new:1243-1258 | one byte is read as true exactly if it is 1, and stays where it is; any other positive length is refused |
| `ValueCodec.WrongWidthRefused` | external/brpc/922.patch.new:1259-1330 | a number of any other positive width than its own is refused |
| `ValueMeaning.ValueReads` | external/brpc/922.patch.new:1910-2016 | a reader of section 6 gets back every value, nested at will and bools included, if and only if no collection in it is empty, and nothing otherwise |
| `ValueMeaning.EmptyListUnread` | external/brpc/922.patch.new:1946-2016 | from a map with an empty list as a value that reader gets nothing |
| `Truncation.CutFails` | external/brpc/922.patch.new:1220-1325 | any proper beginning of the bytes of a value, nested at will, fails to decode |
| `SetDecoding.SetReads` | external/brpc/922.patch.new:2044-2066 | a set whose elements are sent in any order and repeatedly is read as the set of them, in order |
| `SetDecoding.MapReads` | external/brpc/922.patch.new:2068-2090 | a map likewise, each key with the first value sent for it |
| `ValueIo.EncodeBytes` | external/brpc/922.patch.new:1910-1946 | appends exactly the encoding of the value |
| `ValueIo.EncodeElements` | external/brpc/922.patch.new:1949-1985 | a vector or set: reserves the length, writes count and elements, and patches the length to what was written |
| `ValueIo.EncodePairs` | external/brpc/922.patch.new:1987-2007 | the same for a map |
| `ValueIo.DecodeBytes` | external/brpc/922.patch.new:1243-1330 | the return code, the output and the iterator are those of the decoding on values |
| `ValueIo.DecodeTextBytes` | external/brpc/922.patch.new:1220-1241 | the string form |
| `ValueIo.DecodeElements` | external/brpc/922.patch.new:2018-2066 | the vector and set forms; a failing element fails the whole |
| `ValueIo.CollectElements` | external/brpc/922.patch.new:2031-2040 | the element loop collects what the recursive reading collects |
| `ValueIo.DecodePairs` | external/brpc/922.patch.new:2068-2090 | the map form |
| `Frames.HeadRoundTrip` | external/brpc/922.patch.new:1171-1177 | `CqlDecodeHead` inverts `CqlEncodeHead`, whatever follows |
| `Frames.HeadRoundTripBack` | external/brpc/922.patch.new:1332-1342 | and the other way round for any nine bytes |
| `Frames.HeadLayout` | external/brpc/922.patch.new:1171-1177 | which byte of a head is which: version, flags, signed stream, opcode and length, most significant first |
| `Frames.FeedSplit` | external/brpc/922.patch.new:3561-3573 | with `Consume` called until it asks for more data, two chunks have the effect of one |
| `Frames.ChunksDoNotMatter` | external/brpc/922.patch.new:3561-3619 | with `Consume` called until it asks for more data, the parser ends in the same state with the same frames taken however the bytes are split |
| `Frames.FramesComeBack` | external/brpc/922.patch.new:3575-3619 | any valid sequence of frames is taken frame by frame with nothing left over |
| `Frames.AnyChunksComeBack` | external/brpc/922.patch.new:3561-3619 | the same when their bytes arrive in any chunks |
| `Frames.AcceptsExactly` | external/brpc/922.patch.new:3581-3606 | a head is accepted if and only if it is a response of the client's version, with the opcode of a server message, on an awaited or internal stream |
| `Frames.RefusedFrameCloses` | external/brpc/922.patch.new:3575-3608 | in any chunks, the first head that is not acceptable closes the connection; exactly the frames before it are taken |
| `Frames.Parser.ConsumeHead` | external/brpc/922.patch.new:3575-3608 | takes a head off the buffer, or closes the connection if the head is refused |
| `Frames.Parser.ConsumeBody` | external/brpc/922.patch.new:3610-3619 | takes a whole body or waits |
| `Frames.Parser.Consume` | external/brpc/922.patch.new:3561-3573 | one call takes at most one head and one body, reports success exactly if it finished a frame, and asks for data otherwise unless it closed the connection |
| `Frames.Parser.Parse` | external/brpc/922.patch.new:3929-3949 | one call of `ParseCqlMessage` consumes once and hands a message over exactly if the finished frame is not an internal one |
| `Frames.Parser.Receive` | external/brpc/922.patch.new:3929-3949 | a chunk followed by calls of `ParseCqlMessage` for as long as each hands over a message leads to the state that the transition function gives |
| `Frames.PollStopsAtInternal` | external/brpc/922.patch.new:3944-3946 | if such calls stop while a complete frame could be read, then the last frame taken was an internal one |
| `Frames.TakeAllIsOnTheWay` | external/brpc/922.patch.new:3929-3949 | however the bytes are split, no frame is lost or changed: draining the rest leads to the state of all bytes at once |
| `Frames.ChunksMatterExactly` | external/brpc/922.patch.new:3929-3949 | all frames of a valid stream are taken however its bytes are split into chunks, if and only if no frame but the last is internal |
| `Frames.SplitTakes` | external/brpc/922.patch.new:3929-3949 | for each split, the frames taken are exactly as many as the sizes of the chunks, the sizes of the frames and their streams say: each chunk is good for the frames complete with it up to the first internal one |
| `Frames.TakenExactly` | external/brpc/922.patch.new:3929-3949 | the same from the middle of a stream and for any beginning of one |
| `Frames.RoundIsTaken` | external/brpc/922.patch.new:3929-3949 | of frames that arrive together exactly those up to the first internal one are taken |
| `Frames.RoundIsAll` | external/brpc/922.patch.new:3929-3949 | and these are all of them if and only if no frame but the last is internal |
| `Frames.ChunkingMatters` | external/brpc/922.patch.new:3944-3946 | an internal frame and any frame after it are both taken if they arrive in two chunks, and only the first if they arrive in one |
| `RowsResult.SkipSplits` | external/brpc/922.patch.new:1694-1703 | skipping j + k cells is skipping j and then k |
| `RowsResult.RowStartIsScan` | external/brpc/922.patch.new:1719-1728 | going row by row reaches the same offset as one scan over all the cells before the row |
| `RowsResult.NoLaterRow` | external/brpc/922.patch.new:1705-1717 | once a row cannot be reached no later one can |
| `RowsResult.DecodeColumnsSpec` | external/brpc/922.patch.new:1612-1650 | the loop reads the columns that the recursive reading reads |
| `RowsResult.OffsetInRange` | external/brpc/922.patch.new:1652-1659 | a name is looked up as the first column of that name, or not at all if there is none |
| `RowsResult.Decoder.Forward` | external/brpc/922.patch.new:1694-1703 | skips exactly the given number of cells or fails |
| `RowsResult.Decoder.BuildNextRowIter` | external/brpc/922.patch.new:1719-1728 | extends the index by the next row start exactly when there is one |
| `RowsResult.Decoder.GetRowIter` | external/brpc/922.patch.new:1705-1717 | whatever was looked up before, finds the row that a fresh scan finds |
| `RowsResult.Decoder.DecodeColumnValueOfRow` | external/brpc/922.patch.new:2543-2570 | whatever was looked up before, answers as a scan from the first row with no memory would; which types pass is `RowsLayout.ReadableExactly` |
| `ColumnTypes.TypeReadExactly` | external/brpc/922.patch.new:1550-1607 | of any type of section 4.2.5.2, nested at will, the decoder reads the id, the element ids and exactly the bytes that encode it if and only if it is a simple type or a collection or tuple of simple types; on any other it fails or stops short |
| `RowsLayout.ColumnReadExactly` | external/brpc/922.patch.new:1612-1650 | a column is read as laid out if and only if its type is such a type |
| `RowsLayout.TableReadInPlaceExactly` | external/brpc/922.patch.new:1494-1683 | of any body laid out as in section 4.2.5.2, columns, row count and the start of the rows are read, each column from its own bytes, if and only if all column types are such types |
| `RowsLayout.GlobalTableReadExactly` | external/brpc/922.patch.new:1494-1683 | with a global table spec, columns, row count and the start of the rows come out right if and only if all column types are such types |
| `RowsLayout.DisguisedTableRead` | external/brpc/922.patch.new:1612-1650 | without a global table spec a family of bodies with a nested type comes out right all the same, because the bytes left over pass for the next keyspace name |
| `RowsLayout.DisguisedBodyRead` | external/brpc/922.patch.new:1612-1650 | one body of that family |
| `RowsLayout.CellFound` | external/brpc/922.patch.new:1694-1728 | in every body with such column types the scan for cell (r, c) stops at the first byte of exactly that cell |
| `RowsLayout.ReadableExactly` | external/brpc/922.patch.new:2467-2486 | a column passes the type check if and only if its type, by its id in section 4.2.5.2, is that of the C++ type, with elements alike, or text is asked for |
| `RowsLayout.LookupFinds` | external/brpc/922.patch.new:2543-2570 | looking up a cell by its column's name as the C++ type that the column's type stands for, or as text, yields the value that the cell encodes, bool included, or for a null cell the default with the code for null |
| `RowsLayout.LookupRefused` | external/brpc/922.patch.new:2543-2570 | a lookup past the last row, by an unknown name, or as a type that is not the column's is refused |
| `RowsLayout.BareLookupRefused` | external/brpc/922.patch.new:1510-1550 | without column metadata the counts are read and every lookup is refused |
| `RowsLayout.MetadataRefused` | external/brpc/922.patch.new:1510-1538 | unknown flags, further pages and negative column counts are refused |
| `RowsLayout.StringAtEnd` | external/brpc/922.patch.new:1190-1207 | a string at the very end of a body is read if and only if it is not empty |
| `RowsLayout.NestedListMisread` | external/brpc/922.patch.new:1569-1577 | every list of lists is read as a list of an element id alone, and the decoder stops in front of the type of the inner elements |
| `RowsLayout.NestedLookupFails` | external/brpc/922.patch.new:2543-2570 | a whole body with a list of lists of int in which the one cell is there and its lookup fails |
| `BlockSize.GetBlockSize` | example/brpc/memory_pool.hpp:17-35 | computes the block size by its shift loop, which ends |
| `BlockSize.HighestBit` | example/brpc/memory_pool.hpp:24-29 | the shift loop finds the power of two with p <= n < 2p |
| `BlockSize.SmallIsLeastPow2` | example/brpc/memory_pool.hpp:23-33 | up to 4096 bytes the whole block is the least power of two that holds payload and header |
| `BlockSize.LargeIsLeastPages` | example/brpc/memory_pool.hpp:20-22 | beyond that it is the least multiple of 4096 |
| `BlockSize.BlockSizeAligned` | example/brpc/memory_pool.hpp:17-35 | the block size is a multiple of 16 and at least what was asked |
| `BlockSize.BlockSizeMonotone` | example/brpc/memory_pool.hpp:17-35 | it is monotone |
| `BlockSize.BlockSizeIdempotent` | example/brpc/memory_pool.hpp:17-35 | it is idempotent |
| `PoolSafety.CreateIsSafe` | example/brpc/memory_pool.hpp:349-397 | a new buffer is aligned, inside the blocks in use, disjoint from every live buffer, and no live buffer moves |
| `PoolSafety.CreateAlignedIsSafe` | example/brpc/memory_pool.hpp:129-137 | the same for any alignment after giving back what the alignment did not need |
| `PoolSafety.GiveBackTest` | example/brpc/memory_pool.hpp:133-135 | the address comparison holds exactly when the buffer is on top of the current block rather than in a block of its own |
| `PoolSafety.LiveIsContained` | example/brpc/memory_pool.hpp:294-303 | `contain` answers yes for every byte of every live buffer |
| `PoolSafety.LaterBlocksAreUnused` | example/brpc/memory_pool.hpp:249-259 | no block past the current one holds a live byte |
| `PoolSafety.ClearIsSafe` | example/brpc/memory_pool.hpp:224-231 | a cleared pool is well formed and holds nothing |
| `PoolSafety.ShrinkIsSafe` | example/brpc/memory_pool.hpp:249-259 | `shrink_to_fit()` keeps every live buffer; what it releases is `PoolEffects.ShrinkReleases` |
| `PoolSafety.ShrinkToIsSafe` | example/brpc/memory_pool.hpp:261-284 | so does `shrink_to_fit(m)` for m > 0 |
| `PoolSafety.ShrinkToKeepsEnough` | example/brpc/memory_pool.hpp:261-284 | it keeps the blocks in use and then the fewest more that reach m, returns exactly the capacity left, and that is at least m or all there was |
| `PoolSafety.TidyBounds` | example/brpc/memory_pool.hpp:305-319 | in a tidy pool `_pos` does not pass the current capacity and `size()` not `capacity()` |
| `PoolSafety.CreateIsTidy` | example/brpc/memory_pool.hpp:349-397 | allocation keeps a pool tidy and its block size from decreasing, and raises it to the size of an oversized request |
| `PoolEffects.ShrinkReleases` | example/brpc/memory_pool.hpp:249-259 | `shrink_to_fit()` keeps a front part of the chain that ends at the current block at the latest and releases the rest in order: the capacity left is that up to the current block, and 0 if nothing was in use |
| `PoolEffects.ShrinkTwice` | example/brpc/memory_pool.hpp:249-259 | after it a second one finds nothing to release |
| `PoolEffects.ShrinkToNothing` | example/brpc/memory_pool.hpp:261-268 | `shrink_to_fit(0)` leaves no block, no cleaner and capacity 0 |
| `PoolEffects.CompactMeans` | example/brpc/memory_pool.hpp:321-338 | compaction does nothing to a block that is large enough, and else replaces it and the fewest after it that reach the block size by one block of that size |
| `PoolEffects.ClearMeans` | example/brpc/memory_pool.hpp:224-231 | `clear` runs the cleaners first, then compacts the head alone; afterwards the size is 0 and no address is contained |
| `PoolEffects.CreateIsThrifty` | example/brpc/memory_pool.hpp:359-397 | a buffer obtains a block if and only if neither the rest of the current block nor the next one has room, never more than one, of the block size or, if that is too small, of its own size; blocks are released only when the next one is compacted |
| `PoolEffects.FirstIsThrifty` | example/brpc/memory_pool.hpp:360-362 | the first buffer obtains a block of the block size, and one of its own besides exactly if it is larger |
| `PoolEffects.OversizedRaises` | example/brpc/memory_pool.hpp:389-396 | the block size changes exactly for a request with a block of its own, to the least one offered for 1.1 times the request |
| `PoolEffects.GivesBack` | example/brpc/memory_pool.hpp:129-137 | the aligned form leaves no slack behind its buffer unless that has a block of its own |
| `PoolEffects.NewBytesAreNew` | example/brpc/memory_pool.hpp:294-303 | `contain` recognises the bytes of a buffer from its creation on and not before |
| `PoolEffects.SetBlockSizeMeans` | example/brpc/memory_pool.hpp:289-293 | with its header a block is the least power of two, or beyond a page the least multiple of a page, that has the bytes asked for |
| `PoolEffects.SizeGrows` | example/brpc/memory_pool.hpp:305-311 | in a tidy pool `size()` grows by at least the size of every buffer |
| `PoolEffects.SizeGrowsExactly` | example/brpc/memory_pool.hpp:305-311 | and in the current block by exactly the bytes up to the end of the buffer, which begins at the first aligned position |
| `PoolRuns.ReachableInv` | example/brpc/memory_pool.hpp:58-397 | after any history of any number of pools: live buffers are aligned, inside their pool and disjoint, alive blocks are those of the pools, and every registered cleaner is pending once or has run once |
| `PoolRuns.OpInv` | example/brpc/memory_pool.hpp:58-397 | every operation keeps that invariant |
| `PoolRuns.BuffersNeverOverlap` | example/brpc/memory_pool.hpp:58-397 | any two live buffers, of one pool or of two, are disjoint |
| `PoolRuns.LiveBytesContained` | example/brpc/memory_pool.hpp:294-303 | every live buffer has its alignment and every byte of it satisfies `contain` |
| `PoolRuns.BlocksAreConserved` | example/brpc/memory_pool.hpp:340-347 | no block is released twice or without having been allocated, and when all pools are gone none is left |
| `PoolRuns.CleanersRunOnce` | example/brpc/memory_pool.hpp:66-96 | each registered destructor runs at most once, and exactly once when all pools are gone, whatever moves happened |
| `PoolOrder.DestructorBeforeRelease` | example/brpc/memory_pool.hpp:224-284 | whenever any operation of any history releases a block that covers an object with a pending destructor, it has run that destructor before |
| `PoolOrder.ActInOrder` | example/brpc/memory_pool.hpp:224-284 | every operation releases a block in use only after running all cleaners |
| `PoolOrder.AnchoredUntilRun` | example/brpc/memory_pool.hpp:66-96 | from its registration until its destructor runs an object stays inside a live buffer, wherever its pool is moved |
| `PoolOrder.DestructorBeforeLaterRelease` | example/brpc/memory_pool.hpp:66-96 | in any history, a destructor registered for an object inside a live buffer has run before any later release of a block that covers the object, whatever moves happened in between |
| `PoolOrder.RegisterAnchors` | example/brpc/memory_pool.hpp:186-203 | a destructor registered for an object in a live buffer starts out so |
| `PoolSizes.SizeWithinCapacity` | example/brpc/memory_pool.hpp:305-319 | in every history without `set_block_size` after construction, `_pos` stays within the current block and `size()` within `capacity()` |
| `PoolSizes.WithinExactly` | example/brpc/memory_pool.hpp:305-319 | for every operation on any well-formed pool, `size()` is within `capacity()` afterwards if and only if a condition on the pool and the arguments does not hold, such as for an allocation: it takes a block of its own while the aligned position plus the capacities before the current block exceed the capacity |
| `PoolSizes.SizeWithinExactly` | example/brpc/memory_pool.hpp:289-319 | the same for the last operation of every history, `set_block_size` included |
| `PoolSizes.OverflowIsReached` | example/brpc/memory_pool.hpp:289-293 | a history of six operations, one of them `set_block_size`, after which `size()` is 112 and `capacity()` 108 |
| `PoolSizes.RunIsTidy` | example/brpc/memory_pool.hpp:349-397 | in such a history every block that becomes current has a capacity divisible by 16 |
| `PoolSizes.BlockSizeNeverDecreases` | example/brpc/memory_pool.hpp:389-396 | in such a history the block size of a pool never decreases unless another pool is moved into it |
| `PoolSizes.OversizedOnce` | example/brpc/memory_pool.hpp:373-396 | after an oversized request, plain or aligned, no request of at most that size gets a block of its own |
| `MemoryPool.DestroyBlocksStartFrom` | example/brpc/memory_pool.hpp:340-347 | releases every block of the chain once, front to back |
| `MemoryPool.AbsorbBlocks` | example/brpc/memory_pool.hpp:326-333 | the loop releases the fewest following blocks that reach the block size, or all, and finds the one after them |
| `MemoryPool.CompactBlock` | example/brpc/memory_pool.hpp:321-338 | the block that takes the place of a small one and of those absorbed, linked to what follows |
| `MemoryPool.StaticMemoryPool.constructor` | example/brpc/memory_pool.hpp:62-64 | a new pool is empty with the rounded block size |
| `MemoryPool.StaticMemoryPool.SetBlockSize` | example/brpc/memory_pool.hpp:289-293 | changes the block size alone |
| `MemoryPool.StaticMemoryPool.Clear` | example/brpc/memory_pool.hpp:224-231 | the linked chain after clearing is the one the specification gives, with the same releases |
| `MemoryPool.StaticMemoryPool.EnsureBlock` | example/brpc/memory_pool.hpp:360-362 | the first block is made on demand |
| `MemoryPool.StaticMemoryPool.AdvanceBlock` | example/brpc/memory_pool.hpp:373-386 | relinks the chain to the next block, compacted or new, and puts the buffer at its beginning |
| `MemoryPool.StaticMemoryPool.PushOwnBlock` | example/brpc/memory_pool.hpp:389-396 | an oversized request gets the new head block and leaves the current one alone |
| `MemoryPool.StaticMemoryPool.CreateBufferInternal` | example/brpc/memory_pool.hpp:359-397 | pool, releases and address are those of the specification, in all three branches |
| `MemoryPool.StaticMemoryPool.CreateAlignedBuffer` | example/brpc/memory_pool.hpp:129-137 | the same for the aligned form; the subtraction from `_pos` never underflows |
| `MemoryPool.StaticMemoryPool.ShrinkToFit` | example/brpc/memory_pool.hpp:249-259 | cuts the chain right after the current block, or empties it if nothing is in use, and releases the rest with the specified events |
| `MemoryPool.StaticMemoryPool.ReachCapacity` | example/brpc/memory_pool.hpp:271-279 | the two loops stop at the block that ends the shortest prefix in use that reaches the minimum |
| `MemoryPool.StaticMemoryPool.ShrinkToFitMin` | example/brpc/memory_pool.hpp:261-284 | chain, releases and returned capacity are those of the specification, and the cleaner storage stays |
| `MemoryPool.StaticMemoryPool.Contain` | example/brpc/memory_pool.hpp:294-303 | answers yes exactly for addresses in the blocks before the current one and in its used part |
| `MemoryPool.StaticMemoryPool.Size` | example/brpc/memory_pool.hpp:305-311 | sums `_pos` and the capacities before the current block |
| `MemoryPool.StaticMemoryPool.Capacity` | example/brpc/memory_pool.hpp:313-319 | sums all capacities |
| `MemoryPool.StaticMemoryPool.MoveFrom` | example/brpc/memory_pool.hpp:66-75 | the new pool is what the other was, and the other is left empty |
| `MemoryPool.StaticMemoryPool.DropAll` | example/brpc/memory_pool.hpp:78-79 | clearing and releasing runs the cleaners and then releases every block, with the specified events |
| `MemoryPool.StaticMemoryPool.TakeOver` | example/brpc/memory_pool.hpp:81-89 | block chain, position and vector of cleaners pass to an emptied pool, and the other is left empty |
| `MemoryPool.StaticMemoryPool.MoveAssign` | example/brpc/memory_pool.hpp:77-91 | the same after running the cleaners and releasing the blocks of the pool assigned to; assigning a pool to itself empties it |
| `MemoryPool.StaticMemoryPool.Destroy` | example/brpc/memory_pool.hpp:93-96 | runs the cleaners, then releases every block |
| `CleanerVector.Vector.Grow` | example/brpc/memory_pool.hpp:208-222 | moving the cleaners to larger storage and destroying the old ones keeps the list and runs nothing |
| `CleanerVector.Vector.EmplaceBack` | example/brpc/memory_pool.hpp:245-247 | adds one cleaner, growing or not, and runs nothing |
| `CleanerVector.Vector.Clear` | example/brpc/memory_pool.hpp:218-225 | runs each cleaner once, in order, however often the vector grew |
| `CleanerVector.Vector.MoveFrom` | example/brpc/memory_pool.hpp:66-75 | the new vector holds the cleaners, the other none, and nothing runs |
| `CleanerVector.Vector.Assign` | example/brpc/memory_pool.hpp:77-91 | the same for an emptied vector |
| `StructLayout.BuildIsLaidOut` | example/brpc/dynamic_struct.h:321-330 | after any registrations, fields are aligned, pairwise disjoint, after the schema pointer and inside an allocation whose size is a multiple of an alignment that every field's alignment divides |
| `StructLayout.FieldsAligned` | example/brpc/dynamic_struct.h:321-330 | in memory allocated with that alignment every field's address is aligned for its type |
| `StructLayout.NamesKeepFields` | example/brpc/dynamic_struct.hpp:66-69 | a registered name keeps its field through any further registrations, its own included |
| `StructLayout.FirstRegistrationCounts` | example/brpc/dynamic_struct.hpp:60-86 | a name's field has the type that was registered first under it |
| `StructLayout.NamesAreRegistered` | example/brpc/dynamic_struct.hpp:66-69 | only registered names are known, and each has one field |
| `StructLayout.BuildIsTight` | example/brpc/dynamic_struct.h:321-330 | no space is wasted: each field is less than its alignment away from the one before, the size less than its alignment beyond the last, and the alignment is the largest of the fields' and the header's |
| `StructLayout.BuildLists` | example/brpc/dynamic_struct.hpp:149-176 | both merged lists serve every field in disjoint ranges, make each object once, in order, and have no two zero-fills side by side |
| `StructData.MergedMeansPerField` | example/brpc/dynamic_struct.hpp:92-97 | running the merged constructors gives every byte of every field what one entry per field gives |
| `StructData.ZeroFillsSpareObjects` | example/brpc/dynamic_struct.hpp:163-176 | no merged zero-fill touches a field that is not trivial, and each of those is constructed once |
| `StructData.ClearMeans` | example/brpc/dynamic_struct.hpp:109-113 | whatever was written, clearing zeroes every trivial field and applies to every other field its reset function once, to exactly its bytes |
| `StructData.ClearRestoresExactly` | example/brpc/dynamic_struct.hpp:109-113 | clearing gives a field what construction had put there if and only if the field is trivial or its type's reset turns what was written into a constructed object |
| `DynamicStruct.BaseSchema.constructor` | example/brpc/dynamic_struct.h:136-140 | a new schema holds the schema pointer alone |
| `DynamicStruct.BaseSchema.AddFieldAndCalculateSize` | example/brpc/dynamic_struct.h:321-330 | returns the next aligned offset and updates size and alignment |
| `DynamicStruct.BaseSchema.AddConstructor` | example/brpc/dynamic_struct.hpp:149-176 | appends an entry or extends the last zero-fill |
| `DynamicStruct.BaseSchema.AddCleaner` | example/brpc/dynamic_struct.hpp:231-244 | the same for cleaners |
| `DynamicStruct.BaseSchema.RegisterField` | example/brpc/dynamic_struct.hpp:60-86 | the schema becomes the registered one, and the accessor's offset is that of the field known under the name |
| `DynamicStruct.BaseSchema.ConstructAll` | example/brpc/dynamic_struct.hpp:92-97 | the data becomes what the entries, run in order, make of it |
| `DynamicStruct.BaseSchema.ClearAll` | example/brpc/dynamic_struct.hpp:109-113 | the data becomes what the cleaners, run in order with the resets of their types, make of it |
| `DynamicStruct.ReusePool.Get` | example/brpc/dynamic_struct.hpp:397-409 | always returns a struct whose fields are as constructed, reused or new, if the resets of its types restore constructed objects |
| `DynamicStruct.ReusePool.Reconstruct` | example/brpc/dynamic_struct.hpp:389-395 | clears every struct in use, so that under the same condition all are as constructed again |

## Left out

- `StatementMeaning.AddReads`: names are those without spaces and the symbols `( ) , = ? + -`; quoted names are not CQL names in the reader. The same holds for `StatementMeaning.InsertReads` and `StatementMeaning.DeleteReads`, where a column is not the keyword FROM.
- `StreamProgress.NeighboursBeginApart`: says nothing of the calls around the wrap of the counter, where a bucket can come twice.
- Memory orders: atomics and mutexes are sequentially consistent.
- Overload decisions, monitors, printing, error texts, `Get`, prepared statements and protobuf boilerplate of the CQL client.
- Socket failures while a thread packs its own request; failures of the writes made by the parser are modelled.
- Malformed handshake messages, ERROR, SUPPORTED and AUTH_CHALLENGE during the handshake.
- `CqlRequest.Request.ExecuteCql3Query`: says nothing of what further calls do to a request whose counts no longer fit in 16 bits, nor of one on which a `CHECK` has fired. The same holds for the other query methods, for `CqlRequest.Request.AppendQueryParameterValue` and for `RequestRuns.Perform`.
- `CqlRequest.Request.Add`: the digits of the most negative `int`, whose absolute value the source leaves undefined, are those of its mathematical absolute value.
- `RowsLayout.CellFound`: and `RowsLayout.LookupFinds` cover bodies with flat column types, which are the bodies whose metadata is read in place, of less than 2^31 bytes; beyond that the cast to `int` described under `ValueCodec.RoundTrip` gets in the way.
- `RowsLayout.TableReadInPlaceExactly`: without a global table spec the condition is exact for reading each column from its own bytes; the right table can also come out of the wrong bytes, as `DisguisedTableRead` shows.
- `ValueIo.DecodeElements`: an element of a set that is read as null is the default value of its type; the source leaves a scalar uninitialised there. The same holds for `ValueIo.DecodePairs`.
- Keyspace and table names in the metadata are skipped, not stored; custom and user-defined types and paging, on which the decoder aborts, are failures in the model.
- `Frames.ChunksDoNotMatter`: whether a stream is registered when a head arrives is a function of the frames taken so far; its interplay with concurrent `AddStream` calls is the subject of `StreamIds`.
- `Frames.Parser.Receive`: the messenger that calls `ParseCqlMessage` again after each message is not part of the repository and is taken to do so. An internal message that its handler refuses, which closes the connection, belongs to `Handshake` and not to this model.
- `Frames.Parser.Parse`: the early return on an empty buffer is not a branch of its own: `Consume` then has nothing to take, because a head is never left waiting for a body of length zero.
- `StreamIds.DeliveredAtMostOnce`: assumes that brpc gives each call its own, valid correlation id.
- `MemoryPool.StaticMemoryPool.CreateAlignedBuffer`: requires a well-formed pool and that the allocator's new block overlaps no block of it; without the latter the address comparison in the source can be met by chance.
- `PoolSafety.CreateAlignedIsSafe`: holds for any positive alignment with the mask read as rounding up to a multiple, which it is for powers of two.
- `size_t` overflow in block sizes and positions of the memory pool, and buffers of size zero, which are never compared for overlap.
- The contents of buffers, `create_cstring_buffer` and its relatives, and `create_object` beyond its allocation and registration.
- The growth policy of `std::vector`: any larger capacity is allowed.
- Use of a block after its release is not tracked in `MemoryPool`; a released block appears in the returned events.
- `construct_with_metadata_all`, metadata, destructors and fields with caller-supplied offsets of dynamic structs, and the unlocked lookup in `register_field`.
- `DynamicStruct.ReusePool.Get`: the pool starts empty; the constructor that fills it from metadata is not modelled. What a type's reset does is a parameter, required to restore constructed objects; `ClearRestoresExactly` says what happens otherwise.
- The other queues, the shared pointer, the dictionaries, the graph demos, scripts and build files of the repository.
