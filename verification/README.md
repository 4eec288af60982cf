# A model of a C++ networking stack, and what holds of it

The stack moves framed messages over TCP (a select/poll flavour and an ASIO flavour), forwards requests between servers
under ids of its own, pools database connections behind retrying workers, and serialises requests and results in a nested
binary format. This project models those parts in Dafny, each in the form the source has: state updated in place as classes,
loops as loops, and the concurrent parts as transition systems in which every critical section, every unlocked atomic access
and every answer of the environment is one step. A run is any list of events; an event that is not enabled changes nothing, so
a statement about all lists is a statement about all interleavings.

`dafny verify dfyconfig.toml` checks everything.

## How it is laid out

- `Wrappers`, `Arith`, `Bytes`, `Tally`: options, division, byte strings, counting.
- `Codec`, `Serializer`, `DbMessages`, `MongoMessages`, `Handshake`: the serializer and the records built on it. A format is an
  encoder, a total decoder, and the exact set of values for which `decode(encode(x) ++ s) == (x, s)`.
- `Headers`, `Framing`, `Segmentation`, `Connection`, `Transport`, `EndToEnd`: the two frame formats, the receive buffer and
  frame loop, what the splitting of a stream can and cannot change, the sender with its write-interest flag, the two ends joined by a network that splits the stream anywhere, and database requests
  carried over all of it.
- `SafeQueue` (module `Queues`), `DbPool`, `PoolRequests`, `PoolClients`, `PoolWorker`: the database pools.
- `Sharding`, `Correlation`, `DbProxy`, `ProxyPools`: pending-request tables, reply routing, and the proxy with its pools.
- `Lifecycle`: accepted connections, their tables, the monitor thread, descriptor reuse.
- `AsioUser`, `Histogram`, `Observers`, `TimerWheel`, `Swimlanes`: the remaining cores.

Where a machine stands for code, a class beside it has the code's fields and methods, and each method's `ensures` says what
becomes of the fields and which of the machine's steps it performs. What a run was given is read off its list of events, not off
what the machine's steps write down about themselves: the accepted posts of a connection, the requests that drew an id, the
closes of a user, the submissions of a pool.

## What turned out false of the code

- `ntohll(htonll(x))` is not `x` but `x` with its halves exchanged (`Headers.NtohllHtonll`, iff); the request/response echo is
  the identity (`Headers.SerialEcho`).
- `genMessage` accepts a body its size field cannot hold (`Headers.GenMessageOverflow`; `Headers.GenMessageFrames`, iff).
- What is delivered depends on how the stream is split exactly when an oversized header is followed by another byte
  (`Segmentation.SegmentationExact`, iff; `Segmentation.LySplitMatters`, 21 bytes that show it). The default protocol cannot
  express such a header (`Segmentation.DefaultAlwaysClean`).
- A legal frame can get its connection cut off, depending on the split (`Segmentation.CutoffExact`, iff), and one over 10 MiB
  always does (`Segmentation.SurvivableExact`, iff; `Segmentation.TenMebibytesNeverArrive`).
- A timer slot that does not divide its wheel drifts (`TimerWheel.HonestExactly`, iff): 3 and 30 of the 10 ms wheel, 9 and 18 of
  the 10 s wheel.
- A database result may overtake the saving of its pending entry and is then lost (`DbProxy.PromptResultIsLost`;
  `DbProxy.AnsweredExactly`, iff).
- An I/O error served by descriptor number may close a connection it was not for (`Lifecycle.StaleEventClosesAnother`;
  `Lifecycle.IoCloseExactly`, iff).
- A Redis request with 2^31 or more arguments does not decode to itself (`DbMessages.RedisReqLaw`, iff).

## Model

| member | source | states |
|---|---|---|
| `Bytes.ValBE` | fszm/serialize_helper.hpp:68-95 | A big-endian integer field reads back as the value written if and only if the value fits the field's width. |
| `Bytes.ByteAt` | fszm/serialize_helper.hpp:68-95 | Byte i of a w-byte field is v / 256^(w-1-i) mod 256: most significant first. |
| `Codec.GetUint` | fszm/serialize_helper.hpp:56-95 | A read of a fixed-width integer is total: the value is below 256^width; a buffer that is too short reads as 0 and is left as it is, otherwise exactly the width is consumed. |
| `Codec.GetCount` | fszm/serialize_helper.hpp:82-95 | A 32-bit count is read back exactly when it is below 2^32; the bytes after it are found either way. |
| `Codec.BoolLaw` | fszm/serialize_helper.hpp:110-117 | Both booleans survive the one-byte form with any suffix behind them. |
| `Codec.AllExact` | fszm/serialize_helper.hpp:154-200 | If an element format has the exact prefix law, so has any number of elements in a row: the list comes back iff every element is representable, and the suffix is untouched. |
| `Codec.ListLaw` | fszm/serialize_helper.hpp:154-184 | A counted list comes back, leaving exactly the suffix, iff its length fits the count (31 bits where the count is read signed) and each element is representable. |
| `Codec.StrLaw` | fszm/serialize_helper.hpp:142-152 | deserialize_str(serialize_str(x) ++ s) gives x and leaves s iff x is shorter than 2^32 bytes. |
| `Codec.RowLaw` | fszm/serialize_helper.hpp:154-168 | The prefix law for rows of strings, with the exact set of rows it holds for. |
| `Codec.TableLaw` | fszm/serialize_helper.hpp:170-184 | The prefix law for tables of rows, with the exact set of tables it holds for. |
| `Codec.TablesLaw` | fszm/serialize_helper.hpp:186-200 | The prefix law three containers deep, with the exact set of values it holds for. |
| `Codec.FieldsLaw` | fszm/serialize_helper.hpp:202-216 | The prefix law for the column-type list: exactly for lists shorter than 2^32. |
| `Codec.ScoresLaw` | fszm/serialize_helper.hpp:236-252 | The prefix law for score arrays, scores carried as their 64 bits. |
| `Codec.MapLaw` | fszm/serialize_helper.hpp:218-234 | Whatever order the hash map is walked in, decoding rebuilds the same map and leaves exactly the suffix iff the map has fewer than 2^32 entries and all its strings fit. |
| `Serializer.SerializeHelper.SerializeU64` | fszm/serialize_helper.hpp:96-101 | The two 32-bit halves appended high first are the 8-byte big-endian form. |
| `Serializer.SerializeHelper.DeserializeU64` | fszm/serialize_helper.hpp:102-109 | Reading the halves consumes and returns what the 64-bit decoder does, also when only one half is there. |
| `Serializer.SerializeHelper.SerializeRow` | fszm/serialize_helper.hpp:154-159 | The loop appends exactly the row's encoding to the output and leaves the input buffer alone. |
| `Serializer.SerializeHelper.DeserializeRow` | fszm/serialize_helper.hpp:160-168 | The loop returns the decoder's row and leaves the decoder's remainder in the buffer. |
| `Serializer.SerializeHelper.SerializeTables` | fszm/serialize_helper.hpp:186-191 | The loop appends exactly the encoding of the tables. |
| `Serializer.SerializeHelper.DeserializeTables` | fszm/serialize_helper.hpp:192-200 | The loop returns the decoder's tables and leaves the decoder's remainder. |
| `Serializer.SerializeHelper.SerializeFieldsType` | fszm/serialize_helper.hpp:202-207 | The loop appends the encoding of the column types. |
| `Serializer.SerializeHelper.DeserializeFieldsType` | fszm/serialize_helper.hpp:208-216 | The loop returns the decoder's column types and remainder. |
| `Serializer.SerializeHelper.SerializeStringMap` | fszm/serialize_helper.hpp:218-224 | The loop over the map's entries appends the encoding of that walk. |
| `Serializer.SerializeHelper.DeserializeStringMap` | fszm/serialize_helper.hpp:225-234 | The loop that stores each pair ends with the decoder's map and remainder, a repeated key keeping its last value. |
| `Serializer.SerializeHelper.SerializeScoreArray` | fszm/serialize_helper.hpp:236-242 | The loop appends the score array's encoding. |
| `Serializer.SerializeHelper.DeserializeScoreArray` | fszm/serialize_helper.hpp:243-252 | The loop returns the decoder's score array and remainder. |
| `DbMessages.MysqlReqLaw` | wjp/mysql_client_req.hpp:84-126 | A MySQL request with or without statement parameters decodes to itself and leaves the suffix, iff its strings and containers fit their counts. |
| `DbMessages.MysqlReqLayout` | wjp/mysql_client_req.hpp:84-108 | The offset of every field of a MySQL request: version, type, slot, SQL length and text, transaction flag, parameter flag, parameters. |
| `DbMessages.SerializeMysqlReq` | wjp/mysql_client_req.hpp:84-108 | The field-by-field serialisation yields the request's encoding. |
| `DbMessages.DeserializeMysqlReq` | wjp/mysql_client_req.hpp:110-126 | The field-by-field deserialisation yields the decoder's request on every input, short or malformed ones included. |
| `DbMessages.MysqlRespLaw` | wjp/mysql_client_req.hpp:139-158 | A MySQL response with nested result tables decodes to itself and leaves the suffix, iff its containers fit. |
| `DbMessages.MysqlRespLayout` | wjp/mysql_client_req.hpp:139-147 | The offset of every field of a MySQL response. |
| `DbMessages.RedisReqLaw` | wjp/redis_client_req.hpp:38-60 | A Redis request decodes to itself iff it has fewer than 2^31 arguments (the count is read as a signed integer) and each fits. |
| `DbMessages.RedisReqLayout` | wjp/redis_client_req.hpp:38-48 | The offset of every field of a Redis request. |
| `DbMessages.RedisRespLaw` | wjp/redis_client_req.hpp:88-133 | The tagged response, for every tag, known or not: the tag, the head fields and the member the tag selects come back, the other members empty, iff the selected member fits its counts. |
| `DbMessages.RedisRespLayout` | wjp/redis_client_req.hpp:88-109 | The offset of every field of a Redis response. |
| `DbMessages.SerializeRedisResp` | wjp/redis_client_req.hpp:88-109 | The switch over the tag yields the response's encoding. |
| `DbMessages.DeserializeRedisResp` | wjp/redis_client_req.hpp:111-133 | The switch over the tag read from the wire yields the decoder's response. |
| `MongoMessages.DocLaw` | wjp/mongo_client_req.hpp:60-77 | An optional document decodes to itself and leaves the suffix iff it is absent, or fits its count and is accepted by the BSON validator. |
| `MongoMessages.OneLaw` | wjp/mongo_client_req.hpp:205-234 | One request of a chain, with its three optional documents and its list of documents, decodes to itself and leaves the suffix iff each part is representable. |
| `MongoMessages.OneLayout` | wjp/mongo_client_req.hpp:205-219 | The offset of every field of a MongoDB request and the order of its documents. |
| `MongoMessages.ChainLaw` | wjp/mongo_client_req.hpp:236-258 | A request chain of any length decodes to itself and leaves the suffix iff every link is representable. |
| `MongoMessages.SerializeChain` | wjp/mongo_client_req.hpp:236-245 | The loop along the links yields the chain's encoding, a continuation flag after each link. |
| `MongoMessages.DeserializeChain` | wjp/mongo_client_req.hpp:247-258 | The loop that reads links while the flag says so terminates on every input and builds the decoder's chain. |
| `Handshake.KxLaw` | lygc/handshake_helper_v2.hpp:21-70 | The key-exchange part of the request, either variant by its tag, has the prefix law. |
| `Handshake.ReqLaw` | lygc/handshake_helper_v2.hpp:100-126 | A handshake request decodes to itself and leaves the suffix iff its strings fit. |
| `Handshake.RespLaw` | lygc/handshake_helper_v2.hpp:140-163 | A handshake response decodes to itself and leaves any suffix, so also any padding. |
| `Handshake.ResponseTransport` | lygc/handshake_helper_v2.hpp:297-325 | For any cipher that inverts on whole blocks, the response survives serialise, zero-pad to whole blocks, encrypt, decrypt and deserialise. |
| `Handshake.Padded` | fszm/openssl_utils_v2.hpp:823-850 | Padding rounds up to whole blocks, keeps the data in front and adds only zeros, none if the length already fits. |
| `Handshake.ChunkedRoundTrip` | lygc/handshake_helper_v2.hpp:381-404 | For any block primitive that inverts and emits rsa_len bytes on inputs of 1 to rsa_len - 11 bytes, chunked decryption of chunked encryption is the identity on every string; each call may use fresh randomness. |
| `Handshake.RsaChunks` | lygc/handshake_helper_v2.hpp:381-404 | The loop over ceil(n / block) blocks computes the recursive chunking, and hands back nothing if any block fails. |
| `Handshake.BlockCount` | lygc/handshake_helper_v2.hpp:388-389 | The number of turns of the loop, rounded up, is where the last block ends. |
| `Headers.GenMessageFrames` | zbf/tcp_message.hpp:41-64 | Of the bodies genMessage accepts, exactly those below 2^24 bytes become well-formed frames, and those carry their type, size and body. |
| `Headers.GenMessageOverflow` | zbf/tcp_message.hpp:57-60 | The counterexample: an accepted 2^24-byte body announces a size of 0. |
| `Headers.NtohllHtonll` | lygc/lymsg_protocol.hpp:38-47 | ntohll(htonll(x)) is x with its 32-bit halves exchanged; it is x iff the halves are equal. |
| `Headers.NtohHton` | lygc/lymsg_protocol.hpp:48-61 | Converting a header there and back keeps every field but the serial, whose halves are exchanged. |
| `Headers.UnpackPack` | lygc/lymsg_protocol.hpp:134-157 | unpack(pack(h, data)) keeps origin, reserve, type and body, sets the size to the body length modulo 2^32 and exchanges the serial's halves. |
| `Headers.SerialEcho` | lygc/net_server.hpp:65-72 | Pack, unpack, createResponse, pack, unpack, for every header: the whole header of the reply as its reader finds it (the responder's origin, reserve 0, the request's type with bit 31 set, the request's own serial, the size of the data) and the response data. |
| `Headers.PackMsgLayout` | lygc/lymsg_protocol.hpp:48-61 | The swapped fields copied out of little-endian memory are origin, reserve, type, serial and size in that order, each most significant byte first, and then the body. |
| `Headers.PackMsgFrames` | lygc/lymsg_protocol.hpp:116-146 | A packed message is a well-formed frame iff its body is at most 16 MiB. |
| `Framing.Memchunk.Push` | zbf/memchunk.hpp:26-37 | The buffer's contents become the old contents followed by the data; an empty chunk is refused; growth, if any, is to a fresh buffer; the total comes back as a signed 32-bit number, negative from 2^31 up. |
| `Framing.Memchunk.Grow` | zbf/memchunk.hpp:29-32 | After growth the capacity is a multiple of the block size, more than the target and at most one block more, and the contents are unchanged. |
| `Framing.Memchunk.Pop` | zbf/memchunk.hpp:39-47 | The first sz bytes are dropped and the others moved down; 0 or more than there is changes nothing. |
| `Framing.DrainFrames` | zbf/socket_tcp_v5.hpp:1843-1868 | Draining inverts concatenation: well-formed frames in front of any tail come out whole and in order, and the tail is drained as if alone. |
| `Framing.DrainSound` | zbf/socket_tcp_v5.hpp:1843-1868 | Whatever is drained is well-formed, and on a stream without an oversized header the frames and the rest are exactly the bytes that went in. |
| `Framing.DrainSplit` | zbf/socket_tcp_v5.hpp:586-600 | If no oversized header is followed by another byte, draining a prefix and later its leftovers with what follows gives the same frames and rest as draining everything at once. |
| `Framing.CutsAlikeExactly` | zbf/socket_tcp_v5.hpp:1855-1859 | For headers longer than a byte that is the exact condition: a stream can be cut in two anywhere, with the same result, if and only if no oversized header in it is followed by another byte. |
| `Segmentation.SegmentationIndependence` | zbf/socket_tcp_v5.hpp:155-176 | However a stream is split in which no oversized header is followed by another byte, an open receiver has delivered and kept exactly what a parser on the whole stream gives. |
| `Segmentation.SegmentationExact` | zbf/socket_tcp_v5.hpp:1843-1868 | The exact condition, for streams that are not cut off and headers longer than a byte: every two splits into chunks of 1 to 4096 bytes give the same result if and only if no oversized header is followed by another byte. |
| `Segmentation.LySplitMatters` | lygc/lymsg_protocol.hpp:116-127 | The smallest real case: any message header announcing more than 16 MiB, and one byte behind it. |
| `Segmentation.OversizedOnWire` | lygc/lymsg_protocol.hpp:118-127 | A message header on the wire is oversized iff its size field is above 16 MiB. |
| `Segmentation.DefaultAlwaysClean` | zbf/tcp_message.hpp:49-53 | The default protocol's 24-bit size field cannot announce an oversized body, so every stream of it can be split at will. |
| `Segmentation.WholeStream` | zbf/socket_tcp_v5.hpp:586-600 | Any split of a stream of well-formed frames that does not trip the cutoff delivers exactly those frames and leaves nothing. |
| `Segmentation.CutoffExact` | zbf/socket_tcp_v5.hpp:155-167 | Some split into chunks of at most 4096 bytes trips the 10485760-byte cutoff if and only if some frame's peak (its length less one, plus the largest chunk that can follow) is over it. |
| `Segmentation.SurvivableExact` | zbf/socket_tcp_v5.hpp:155-167 | The second threshold: some split of a stream of well-formed frames gets through if and only if no frame is longer than 10485760 bytes. |
| `Segmentation.LegalFrameCutOff` | zbf/socket_tcp_v5.hpp:162-165 | Every message with a body from 10485741 bytes to 16 MiB is a well-formed frame that no split of any connection can deliver. |
| `Segmentation.TenMebibytesNeverArrive` | zbf/socket_tcp_v5.hpp:162-165 | One of them: a body of 10 MiB of zeros. |
| `Segmentation.NeverCutOff` | zbf/socket_tcp_v5.hpp:155-167 | A stream within the peak bound is never cut off, at any point of any split. |
| `Segmentation.FrameBound` | zbf/socket_tcp_v5.hpp:155-167 | Frames of at most 10485760 - 4095 bytes are within the bound whatever follows them. |
| `Segmentation.Received` | zbf/socket_tcp_v5.hpp:586-600 | After any split of any prefix, the receiver has delivered the frames that prefix completes and holds a proper beginning of the next. |
| `Framing.Receiver.TakeFrame` | zbf/socket_tcp_v5.hpp:1843-1868 | _PopMsg returns the frame the specification takes and leaves its rest in the buffer, the whole cache dropped on an oversized header. |
| `Framing.Receiver.OnRecv` | zbf/socket_tcp_v5.hpp:155-167 | The result code: 1 if closed, 2 on an empty chunk, 3 if more than the limit is cached, else 0 with the chunk appended. |
| `Framing.Receiver.OnReadable` | zbf/socket_tcp_v5.hpp:586-600 | One readable event is one step of the receiver: cache the chunk, close on an error, otherwise deliver every whole frame. |
| `Connection.NoLostWakeup` | zbf/socket_tcp_v5.hpp:99-153 | Over every interleaving, whenever the connection is monitored and the queue's mutex is free, unsent data (queued or in the I/O thread's hands) has the flag and the poller's write interest on, and the two agree. |
| `Connection.StreamConserved` | zbf/socket_tcp_v5.hpp:1815-1841 | Over every run, wire ++ in-flight remainder ++ flattened queue equals the concatenation of what the connection was given, and the queue never exceeds 258 entries. |
| `Connection.StreamIsPosts` | zbf/socket_tcp_v5.hpp:99-108 | Over every run that opens no new connection, the stream is the initial one followed by the messages of exactly those posts that met a free mutex and at most 256 waiting, read off the list of events. |
| `Connection.WireIsWritten` | zbf/socket_tcp_v5.hpp:1815-1841 | Over the same runs, the bytes on the wire are the initial ones followed by exactly what the sends of the run took. |
| `Connection.QuietMeansSent` | zbf/socket_tcp_v5.hpp:143-153 | A monitored connection at rest with write interest off has written everything it was given. |
| `Connection.StepKeepsInv` | zbf/socket_tcp_v5.hpp:1273-1320 | Every step of post, enableWrite, sendData, joinMonitor, leaveMonitor and reconnect keeps the combined invariant. |
| `Connection.ClientLeavesBetweenSends` | zbf/socket_tcp_v5.hpp:1595-1602 | Why a client is withdrawn only between sends: from a reachable state, withdrawing it in the middle of one leads to unsent data with flag and interest off. |
| `Connection.ServerJoinsOnce` | zbf/socket_tcp_v5.hpp:110-122 | Why an accepted connection is monitored once: monitoring it again leads to the same. |
| `Connection.StartedReachable` | zbf/socket_tcp_v5.hpp:99-153 | The state both start from is reached by joining, posting and popping. |
| `Connection.TcpUser.Post` | zbf/socket_tcp_v5.hpp:99-108 | post is refused, changing nothing, iff more than 256 messages wait; otherwise the message is the last of the queue and of the stream and, if the connection is monitored, the flag is on; it is the machine's post followed by the three steps of enableWrite. |
| `Connection.TcpUser.EnableWrite` | zbf/socket_tcp_v5.hpp:134-141 | enableWrite is load, compare-and-swap, poll update: on a monitored connection the flag and the poller's interest end at the value asked for, and nothing else changes. |
| `Connection.TcpUser.SendQueued` | zbf/socket_tcp_v5.hpp:1815-1841 | _SendData is pop, the socket's answer, and putting back what was not taken: the bytes taken are appended to the wire, the others are the head of the queue again, and the result code says which. |
| `Connection.TcpUser.SendData` | zbf/socket_tcp_v5.hpp:143-153 | sendData is _SendData and, on an empty queue, the second look and enableWrite(false). |
| `Connection.TcpUser.JoinMonitor` | zbf/socket_tcp_v5.hpp:110-117 | joinMonitor clears the flag, publishes the poller and, if messages wait, enables writing. |
| `Connection.TcpUser.LeaveMonitor` | zbf/socket_tcp_v5.hpp:119-122 | leaveMonitor is the two unlocked stores, in order. |
| `Transport.FifoOfFrames` | zbf/socket_tcp_v5.hpp:1815-1868 | End to end, for every interleaving of posts, partial and refused sends and every split by the network: the delivered frames are a prefix of what was queued when the connection opened followed by the accepted posts of the run, in order, no byte is unaccounted for, and the connection is not cut off. |
| `Transport.AllDelivered` | zbf/socket_tcp_v5.hpp:1815-1868 | Once nothing is queued, in flight or unread, the delivered frames are exactly what was queued at the start followed by the run's accepted posts. |
| `EndToEnd.CallsArrive` | lygc/dbproxy_mysql.hpp:121-135 | MySQL requests serialised, packed and sent over one connection in any interleaving and split are read back by the type test and decoder of onRecvMsg as the requests that were made, in order. |
| `Queues.SafeQueue.Push` | zbf/safequeue.hpp:31-42 | Accepted iff below capacity, and then the item is the last of the queue, also after a stop; refused, the queue is as it was. |
| `Queues.SafeQueue.PopTimeout` | zbf/safequeue.hpp:58-70 | A stopped queue hands out nothing; otherwise the head, or a timeout if empty. |
| `Queues.SafeQueue.Requeue` | zbf/safequeue.hpp:72-75 | To the head, past the capacity if need be. |
| `Queues.SafeQueue.DrainAll` | zbf/safequeue.hpp:100-106 | The shutdown loop takes out everything that was left, in order. |
| `PoolRequests.ExactlyOnceResponse` | wjp/mysql_client.hpp:658-666 | Over every run with any number of workers and borrowing callers, each submission of the run that found room has its request in exactly one of queue, one worker's hands, answers, drained rest, under the number of submissions before it plus 100, and no other id is anywhere; queue plus held is at most 256 plus the number of workers. |
| `PoolRequests.AcceptedExactly` | wjp/mysql_client.hpp:658-666 | An id is accepted if and only if a submission of the run drew it and met fewer than 256 waiting requests; every submission, accepted or not, uses up one number. |
| `PoolRequests.AtMostFourAttempts` | wjp/mysql_client.hpp:768-781 | Over every run no request is taken from the queue more than four times, wherever it is: waiting or drained at most three, held or answered at most four, refused for want of a connection exactly four. |
| `PoolRequests.FirstComeFirstServed` | zbf/safequeue.hpp:31-75 | Over every run a request waiting for its first attempt was submitted after every request ahead of it, in a worker's hands or answered; only retried requests are ahead of a retried one. |
| `PoolRequests.MovesStep` | wjp/mysql_client.hpp:752-786 | No step but a submission makes, loses or duplicates a request, and none comes back once answered or drained. |
| `PoolRequests.SettlesStep` | wjp/mysql_client.hpp:752-786 | Without new submissions every step that changes anything strictly decreases the work left. |
| `PoolRequests.BoundedRun` | wjp/mysql_client.hpp:752-786 | Hence a run without new work has at most as many effective steps as there was work. |
| `PoolRequests.QuiescentExact` | wjp/mysql_client.hpp:752-786 | The pool is stuck iff every thread is idle or gone and no idle worker has anything to take. |
| `PoolRequests.RestMeansAnswered` | wjp/mysql_client.hpp:752-786 | A pool that is not stopped and at rest has answered every submission that found room exactly once. |
| `PoolClients.AllocatorSafe` | wjp/mysql_client.hpp:788-835 | Over every run: no connection is held by two threads, the busy entries are exactly the held connections, the table is within the pool size, every idle connection is connected. |
| `PoolClients.HandedOutIsConnected` | wjp/mysql_client.hpp:759-768 | A connection handed to a worker is connected, so the branch that closes a broken one before use is never taken. |
| `PoolClients.NeverFull` | wjp/mysql_client.hpp:788-820 | With workers and no borrowing callers, at most as many threads as the pool has places, getIdleClient never fails for want of room: a null comes only from the thread's own failed connect. |
| `PoolClients.RefusedMeansAllHeld` | wjp/mysql_client.hpp:669-681 | With borrowing callers too, a refusal means at least pool-size connections are in threads' hands. |
| `PoolClients.TableExactly` | wjp/mysql_client.hpp:759-835 | A connection leaves the table if and only if its own thread failed to connect it or gives it back broken, and becomes idle if and only if its thread gives it back working. |
| `PoolClients.DownExactly` | wjp/mysql_client.hpp:759-768 | A connection in the table stops working if and only if a request executed over it breaks it. |
| `PoolClients.LivesUntilBroken` | wjp/mysql_client.hpp:762-766 | Over every run from a reachable state, a working connection stays in the table, working, as long as no request of the run breaks it. |
| `PoolClients.StepKeepsInv` | wjp/redis_client.hpp:837-888 | Every step keeps the allocator's invariant, for closing under the lock and for erasing first and closing afterwards, addresses being reused. |
| `PoolClients.ClientTable.TakeOrInsert` | wjp/mysql_client.hpp:788-805 | The scan under the lock takes some idle entry iff there is one, else inserts a busy one iff there is room, and changes nothing else. |
| `PoolWorker.ClientPool.Submit` | wjp/mysql_client.hpp:658-666 | submit is the machine's submission: the request is the last of the queue and the caller gets its fresh id, or the queue is full and unchanged and the caller gets the busy code; a number is used up either way. |
| `PoolWorker.ClientPool.GetIdleClient` | wjp/mysql_client.hpp:788-820 | An idle entry, marked busy, if there is one; else a new connected one if there is room and it connects; else none and the table as it was; the allocation step and the connection step of the machine. |
| `PoolWorker.ClientPool.HandleRequest` | wjp/mysql_client.hpp:706-743 | On every branch of the switch the listener is called exactly once, with the database's code, or the code for missing parameters or an unknown type; a request that is not executed cannot break the connection. |
| `PoolWorker.ClientPool.RetryOrFail` | wjp/mysql_client.hpp:770-779 | Out of retries the listener is called once with the no-client code, otherwise the request returns to the head of the queue with one retry more and nobody is called. |
| `PoolWorker.ClientPool.GiveBack` | wjp/mysql_client.hpp:762-766 | A connection still connected becomes idle in the table and stays; a broken one is taken out; no other entry changes. |
| `PoolWorker.ClientPool.Turn` | wjp/mysql_client.hpp:755-783 | One turn of a worker's loop is a sequence of the machine's steps. A stopped or empty queue changes nothing else. A request that gets a connection is answered once and its connection ends idle in the table if it survived and out of it if not; one that gets none goes back to the head of the queue or, out of retries, is answered with the no-client code. |
| `PoolWorker.EndsUsing` | wjp/mysql_client.hpp:755-766 | How the turn with a connection ends, in terms of queue, listener, table and live connections before it. |
| `PoolWorker.EndsWithout` | wjp/mysql_client.hpp:767-780 | How the turn without a connection ends, in the same terms; a connection found broken is taken out. |
| `Sharding.ShardsAreOneTable` | lygc/net_server.hpp:345-358 | After any sequence of saves, takes and cleanups the sixteen shards hold, id by id, what one flat table holds, each id in its own shard only. |
| `Sharding.RefinesStep` | lygc/net_server.hpp:271-338 | Each operation on the shards refines the same operation on the flat table. |
| `Sharding.CleanupFilters` | lygc/net_server.hpp:301-316 | A cleanup that nothing interferes with, shard after shard, equals one filter of the flat table by user-gone-or-equal. |
| `Sharding.EntryStays` | lygc/net_server.hpp:265-316 | An entry stays as it was saved through any operations until one takes its id or cleans it away. |
| `Sharding.EntryChanges` | lygc/net_server.hpp:265-316 | Those remove it, and an id without an entry gets one only by a save under it. |
| `Sharding.EraseStale` | lygc/net_server.hpp:305-313 | The erase-while-iterating loop keeps exactly the entries of live other users. |
| `Sharding.PendingTable.SaveReq` | lygc/net_server.hpp:326-333 | insert: an id already there keeps its entry, a new one gets the given context, and no other entry changes. |
| `Sharding.PendingTable.TakeReq` | lygc/net_server.hpp:271-281 | find and erase: the entry comes out and is gone, an absent id changes nothing. |
| `Sharding.PendingTable.CleanShard` | lygc/net_server.hpp:303-315 | One shard's cleanup is the machine's operation on that shard. |
| `Sharding.PendingTable.Cleanup` | lygc/net_server.hpp:301-316 | The sixteen operations in turn; every shard keeps exactly the entries of live other users. |
| `Correlation.RepliesCorrelate` | lygc/net_server.hpp:265-338 | Over every interleaving of many users, forwards, late, duplicate or made-up upstream replies, disconnects and cleanups: each reply has an arrival in the run that drew its id (101 plus the number of arrivals before it), goes to that arrival's user, is made from its header and carries the data of an upstream reply of the run under that id; at most one per request; no handler runs twice. |
| `Correlation.OrdinaryCourse` | lygc/net_server.hpp:265-338 | From any reachable state a request that is saved, registered, posted and answered upstream is answered to its user from its header with that data. |
| `Correlation.AnsweredExactly` | lygc/net_server.hpp:271-298 | The exact condition: after a handler's lookup some continuation answers the request if and only if the lookup found the context, not cleaned away, with its user alive. |
| `Correlation.DeliveredNext` | lygc/net_server.hpp:286-298 | In that case the next step posts exactly one reply, to that user, with the upstream data. |
| `Correlation.NetServer.CleanupUserContext` | lygc/net_server.hpp:301-316 | The cleanup is the machine's sixteen cleaning steps. |
| `Correlation.UserSeesOwnSerial` | lygc/net_server.hpp:65-72 | On the wire, over every run: a reply to a request unpacked from bytes packed with header h goes to that request's user and unpacks there to h's own serial, h's type with the response flag, and data that upstream sent under the id. |
| `Correlation.UpstreamEchoesId` | examples/lygate.cpp:16-30 | On the upstream hop, a server's answer unpacks at the gate to the id the gate forwarded, the type with the response flag and the server's origin. |
| `Correlation.NetServer.SavePendingReq` | lygc/net_server.hpp:265-269 | Draws a fresh id; the calling user and its header are then the entry under it in the right shard, and no other entry changes. |
| `Correlation.NetServer.Response` | lygc/net_server.hpp:271-298 | Takes the context out in any case; posts the data to the user and with the header found under the id iff there was one and the user is alive, and says so. |
| `Correlation.NetClient.Request` | lygc/net_server.hpp:102-119 | The handler is in the table at the moment of the post, and withdrawn if the post fails. |
| `Correlation.NetClient.OnResponse` | lygc/net_server.hpp:121-146 | The handler found under the reply's serial is removed and run once; an unknown serial runs none. |
| `DbProxy.RepliesCorrelate` | lygc/dbproxy_mysql.hpp:48-73 | Over every interleaving, the gap between push and save included: each reply has a submission in the run that drew its id from its slot's counter, goes to that submission's connection, is made from its header and carries a result reported under that key; at most one per request. |
| `DbProxy.OrdinaryCourse` | lygc/dbproxy_mysql.hpp:48-73 | From any reachable state a request that is accepted, saved and then executed is answered on its connection from its header with its result. |
| `DbProxy.AnsweredExactly` | lygc/dbproxy_base.hpp:146-180 | The exact condition: when a result arrives, some continuation answers its request if and only if the entry is saved, has not been cleaned away, and its user is alive; otherwise none does. |
| `DbProxy.DeliveredAfterSave` | lygc/dbproxy_base.hpp:146-180 | In that case the next step posts the reply. |
| `DbProxy.OvertakenNeverAnswered` | lygc/dbproxy_mysql.hpp:58-61 | A result that arrives before the save is lost: in no continuation is the request answered. |
| `DbProxy.PromptResultIsLost` | lygc/dbproxy_mysql.hpp:58-61 | That is reachable: from the start, one request and its prompt result. |
| `DbProxy.OrphanStaysUntilCleaned` | lygc/dbproxy_base.hpp:183-198 | The entry saved too late stays until a cleanup that covers it. |
| `DbProxy.CleanupRemoves` | lygc/dbproxy_base.hpp:120-139 | Cleaning up after its user removes an entry, orphaned or not, for good. |
| `DbProxy.ProxyServer.Submit` | lygc/dbproxy_mysql.hpp:48-66 | A bad or empty slot is refused; otherwise the pool draws an id first and the entry is saved second, unless the pool is busy. |
| `DbProxy.ProxyServer.OnResponse` | lygc/dbproxy_base.hpp:146-180 | For any key at all: a bad or empty slot is ignored; otherwise the entry, if any, is taken out and answered iff its user is alive. |
| `DbProxy.ProxyServer.CleanupUserPending` | lygc/dbproxy_base.hpp:120-139 | The nested loops are the machine's cleaning steps for every shard of every slot. |
| `DbProxy.CleanKeeps` | lygc/dbproxy_base.hpp:120-139 | Those steps, uninterrupted, remove exactly the entries of the user and of users already gone, and change nothing else. |
| `DbProxy.AllCleaned` | lygc/dbproxy_base.hpp:120-139 | Looked up key by key: what is left after the cleanup is every entry but those of the user and of users gone. |
| `ProxyPools.EachAnsweredOnce` | lygc/dbproxy_mysql.hpp:48-73 | Proxy and pools composed, over every interleaving: each reply goes to the connection of the client's request that drew its id, made from that request's header and carrying a result of that slot's pool, and a request has at most as many replies as its pool has answers, at most one. |
| `ProxyPools.ProxyRuns` | lygc/dbproxy_mysql.hpp:48-73 | The proxy inside the composition is the proxy's own machine, run on what clients and pools tell it. |
| `ProxyPools.ReportIsResult` | lygc/dbproxy_mysql.hpp:70-73 | What a pool's worker reports is always a request the proxy is still waiting for. |
| `DbProxy.AgreesClean` | lygc/dbproxy_base.hpp:59-71 | The per-slot shards hold the machine's pending entries after each shard's cleanup. |
| `Lifecycle.NotifiedOnce` | zbf/socket_tcp_v5.hpp:624-660 | Over every run each user is told of its disconnection at most once; until then it is in exactly one place on the way there (being created, in the list, with the monitor), and it is not destroyed before. |
| `Lifecycle.NotifiedAfterClose` | zbf/socket_tcp_v5.hpp:643-652 | onDisconnect runs only for a closed user that is no longer in the descriptor table. |
| `Lifecycle.NotifiedExactly` | zbf/socket_tcp_v5.hpp:643-652 | The monitor tells exactly the users it finishes with and finds closed. |
| `Lifecycle.ExpiryClosesItsOwn` | zbf/socket_tcp_v5.hpp:643-646 | The monitor's close by descriptor number closes the expired user and never another, although numbers are reused. |
| `Lifecycle.ClosedExactly` | zbf/socket_tcp_v5.hpp:517-539 | Over every run a user is closed if and only if an I/O close under its number, or an expiry while the monitor has it, is among the events. |
| `Lifecycle.ServedUntilClosed` | zbf/socket_tcp_v5.hpp:517-539 | A user leaves the descriptor table exactly when one of those two happens to it. |
| `Lifecycle.IoCloseExactly` | zbf/socket_tcp_v5.hpp:517-539 | An event the poller reported for a user, served later by descriptor number, closes another user if and only if that user has been destroyed since and the number is in the table again; until then it closes that user or nobody. |
| `Lifecycle.StaleEventClosesAnother` | zbf/socket_tcp_v5.hpp:560-616 | That is reachable: the user expires and is destroyed while its error waits, the number is accepted again, and the error closes the new connection. |
| `Lifecycle.DescriptorsAreDistinct` | zbf/socket_tcp_v5.hpp:473-503 | Live users have different descriptors, entering a new user never displaces another, and the table stays within the connection limit. |
| `Lifecycle.DestroyedExactly` | zbf/socket_tcp_v5.hpp:182-191 | A user is destroyed exactly when its last owner (list, table, either thread, the application) has let go. |
| `Lifecycle.StepKeepsInv` | zbf/socket_tcp_v5.hpp:182-191 | Every step keeps the lifecycle's invariant, the descriptor being released only by its user's destruction. |
| `Lifecycle.SockServer.CloseByFd` | zbf/socket_tcp_v5.hpp:517-539 | closeUser closes and removes the user under the number, with its three result codes. |
| `Lifecycle.SockServer.EnterUser` | zbf/socket_tcp_v5.hpp:490-497 | The two insertions at the end of createUser. |
| `Lifecycle.SockServer.MonitorTurn` | zbf/socket_tcp_v5.hpp:640-657 | One turn of the monitor's loop: only an expired head of the list is closed and removed from the table, a closed one is notified and leaves the list, and any other goes to the list's end with nothing else changed. |
| `AsioUser.OneWriteAtATime` | zbf/asio_socket_tcp.hpp:384-433 | Over every run at most one write is in progress and, until stopped, one exactly when the write queue is not empty; written ++ queue is exactly the write_data calls of the run that found room when their handler ran, the handlers run the calls in order and none is forgotten; the queue stays within 256. |
| `AsioUser.NothingReadIsLost` | zbf/asio_socket_tcp.hpp:299-358 | Over every run delivered ++ posted chunks ++ read queue is exactly the messages of the run, heartbeats aside, that were read before a stop and with room, in order; a non-empty read queue has exactly one dispatch on its way; chunks hold at most 32. |
| `AsioUser.OneNotice` | zbf/asio_socket_tcp.hpp:360-382 | The listener hears of the end of the connection once if a failure of the run came before any stop, and otherwise never. |
| `AsioUser.ChunksFlatten` | zbf/asio_socket_tcp.hpp:337-354 | Cutting a batch loses nothing and keeps the order; every chunk but the last has 32 messages and none is empty. |
| `AsioUser.CutBatch` | zbf/asio_socket_tcp.hpp:340-346 | The nested loops produce that cut. |
| `AsioUser.TcpUser.RunWriteData` | zbf/asio_socket_tcp.hpp:384-394 | The posted write: push below capacity, start a write only if the queue was empty. |
| `AsioUser.TcpUser.HandleWrite` | zbf/asio_socket_tcp.hpp:406-433 | Completion of a write: pop, and start the next unless stopped. |
| `AsioUser.TcpUser.HandleRead` | zbf/asio_socket_tcp.hpp:299-331 | A received message is last in the read queue and a dispatch is scheduled unless one is; a heartbeat, an overflow or a stopped connection changes nothing. |
| `AsioUser.TcpUser.DispatchBatch` | zbf/asio_socket_tcp.hpp:333-358 | The dispatch empties the queue and posts its chunks, which are the queue in order. |
| `Histogram.EstimateAccurate` | zbf/request_stat.hpp:57-76 | For every non-empty list of observations and every rank, the estimate and the true order statistic lie between the same bucket bounds, differ by at most the bucket's width, and the estimate is at most maxCost. |
| `Histogram.CrossingIsRank` | zbf/request_stat.hpp:62-73 | The bucket found by accumulation holds the order statistic; it exists and is not empty, so neither fallback is reached. |
| `Histogram.EstimateMonotone` | zbf/request_stat.hpp:57-76 | A higher rank never gets a lower estimate. |
| `Histogram.ProductInRange` | zbf/request_stat.hpp:71-72 | The intermediate product fits 32 bits if the number of observations times the largest does. |
| `Histogram.TimesIsDivision` | zbf/request_stat.hpp:72 | The quotient used is integer division. |
| `Histogram.BucketOf` | zbf/request_stat.hpp:20-24 | Each cost's bucket is the first whose limit it does not exceed, or the last. |
| `Histogram.Histogram.Observe` | zbf/request_stat.hpp:20-35 | Buckets, count, sum, maximum and minimum always describe the list of observations so far; a negative cost is ignored. |
| `Observers.QuietDescribes` | zbf/request_stat.hpp:20-35 | Any number of concurrent observers, each update a separate atomic step and each compare-and-swap free to fail: once all are done the five statistics are those of the non-negative costs the run was given, whatever the interleaving. |
| `Observers.AloneFinishes` | zbf/request_stat.hpp:29-34 | No observer can be kept from finishing: left alone it is done after at most seven steps, whatever the others did. |
| `Histogram.Histogram.Snapshot` | zbf/request_stat.hpp:45-55 | A snapshot hands those out and starts afresh. |
| `Histogram.Target` | zbf/request_stat.hpp:58-60 | For 0 <= p < 1 the rank is total * p rounded down, for p >= 1 the last; for negative p it is total * p rounded towards zero. |
| `Histogram.PercentileMeans` | zbf/request_stat.hpp:57-76 | For every list of observations and every p >= 0, with k the rank that total * p rounds down to: the result lies in the bucket of the k-th order statistic, at its lower bound plus the share of the width that the rank's place in the bucket gives. |
| `Histogram.ShareExact` | zbf/request_stat.hpp:71-72 | That share is needed * width / inBucket rounded down. |
| `Histogram.PercentileMonotone` | zbf/request_stat.hpp:57-76 | A larger p never gets a smaller percentile. |
| `Histogram.TargetMonotone` | zbf/request_stat.hpp:58-60 | A larger p never asks for a lower rank. |
| `Histogram.Percentile` | zbf/request_stat.hpp:57-76 | 0 for no observations; otherwise, of whatever observations the counts are, the interpolated value in the bucket of the order statistic whose rank total * p rounds down to. |
| `TimerWheel.HonestExactly` | zbf/timer_helper.hpp:99-115 | A slot fires at exactly the multiples of its length, for ever, if and only if its length divides the wheel's. |
| `TimerWheel.HonestSlots` | zbf/timer_helper.hpp:61-64 | That holds for every offered slot but 3 and 30 of 100 and 9 and 18 of 60. |
| `TimerWheel.OddSlot` | zbf/timer_helper.hpp:99-115 | Where a slot that does not divide the wheel is caught out. |
| `TimerWheel.TimerProc` | zbf/timer_helper.hpp:97-115 | The loop with its resetting counter fires what the closed form says, in order. |
| `TimerWheel.FiredContents` | zbf/timer_helper.hpp:97-115 | What that form contains: slot s at tick t, for every slot of the table and every tick served, exactly when the counter shows a multiple of s. |
| `TimerWheel.FiredInOrder` | zbf/timer_helper.hpp:97-115 | Each firing happens once, tick by tick and the shorter slots first. |
| `TimerWheel.TimerHelper.OnTicks` | zbf/timer_helper.hpp:119-131 | Each queued job is called once, in order, until a stop is seen; those that return true stay, behind the ones not reached. |
| `TimerWheel.TimerHelper.AddTimerTask` | zbf/timer_helper.hpp:52-54 | A job joins the end of the list its interval, taken modulo 2^16, is filed under, and no other list changes. |
| `TimerWheel.KeptContents` | zbf/timer_helper.hpp:126-129 | The jobs kept are exactly those whose call returned true. |
| `TimerWheel.KeptConcat` | zbf/timer_helper.hpp:126-129 | They stay in order. |
| `Swimlanes.LanesDisjoint` | zbf/socket_tcp_v5.hpp:425-444 | The workers of two usable lanes are disjoint and not empty. |
| `Swimlanes.DefaultIsApart` | zbf/socket_tcp_v5.hpp:445-447 | The default always has a worker, and shares none with a lane. |
| `Swimlanes.SlicesInRange` | zbf/socket_tcp_v5.hpp:422-438 | Whenever lanes are used at all, every slice is within the workers. |
| `Swimlanes.SharedOut` | zbf/socket_tcp_v5.hpp:416-453 | The lanes' slices one after the other, each as long as the lane asks, and then the default's are all the workers; if the lanes ask for too many, the default has everyone. |
| `Swimlanes.NeedAdds` | zbf/socket_tcp_v5.hpp:416-424 | What is needed is the sum of all the lanes' threads, and what is taken the sum of the usable ones'. |
| `Swimlanes.Balanced` | zbf/socket_tcp_v5.hpp:720-732 | After any messages, any two workers of a group have been given numbers that differ by at most one. |
| `Swimlanes.RoundRobin` | zbf/socket_tcp_v5.hpp:720-732 | A group's cursor and deal depend only on the number of messages through it. |
| `Swimlanes.DealIsEven` | zbf/socket_tcp_v5.hpp:730-731 | Worker k of a group of size m gets n / m of n messages, and one more if k < n mod m. |
| `Swimlanes.PicksLand` | zbf/socket_tcp_v5.hpp:720-732 | Every message goes to a worker of its type's group, or of the default group if its type has none. |
| `Swimlanes.PickedInTurn` | zbf/socket_tcp_v5.hpp:720-732 | It goes to the worker whose place is the number of earlier messages of that group modulo the group's size. |
| `Swimlanes.ConfiguredIsReady` | zbf/socket_tcp_v5.hpp:416-453 | A configured table is ready for any message. |
| `Swimlanes.Dispatcher.ConfigSwimlanes` | zbf/socket_tcp_v5.hpp:416-453 | The loops build the table in which each type has the slice of the last usable lane that lists it, and the default has the rest. |
| `Swimlanes.Dispatcher.DispatchMsg` | zbf/socket_tcp_v5.hpp:720-732 | The worker at the cursor of the type's own group, or of the default if it has none; that cursor moves on by one, around the end, and nothing else changes. |

## Left out

- Sockets, epoll and WSAPoll, accept and connect, TLS, OpenSSL, libmysqlclient, hiredis and mongoc: only their answers appear, as event data or parameters.
- Framing.Memchunk.Push: the total size is required to stay below 2^32, past which the source writes outside its buffer; a failing allocation is not modelled.
- Segmentation.SegmentationExact: stated for streams no split of which is cut off by size; which streams are, is the exact condition beside it.
- Transport.FifoOfFrames: one connection at a time; an asynchronous client's queue and receive cache survive a reconnect, so a new connection may begin in the middle of a message.
- Codec.ScoresLaw: a score is its 64 bits; the meaning of those bits as a floating-point number is not modelled.
- Histogram.Percentile: the product of count and percentile is taken over the reals, and counters are unbounded; the accuracy results hold for every rank, so rounding can only move the rank.
- Histogram.Histogram.Observe: one call at a time; concurrent calls are `Observers.QuietDescribes`. A snapshot taken while observers are at work may miss part of an observation and is left out.
- Connection.NoLostWakeup: an accepted connection is monitored once and a client is withdrawn only by its I/O thread, as the source does; `Connection.ClientLeavesBetweenSends` and `Connection.ServerJoinsOnce` show that the claim depends on it.
- Connection.TcpUser.SendData: the I/O thread is required to have found the connection in its table, as the source's callers do; the socket is required to take between one byte and all of the message when it takes any.
- Correlation.RepliesCorrelate: request ids do not wrap around at 2^64; replies a handler gives synchronously, and the default responder, are left out.
- DbProxy.RepliesCorrelate: the Mongo and Redis proxies, which submit in the same way, have no copy of their own.
- Lifecycle.DescriptorsAreDistinct: the connection limit is fixed for a run.
- Swimlanes.Dispatcher.ConfigSwimlanes: the sum of the lanes' threads does not wrap around; messages that arrive before the lanes are configured are left out.
- TimerWheel.TimerProc: a stop between two ticks only shortens the run; jobs that add jobs while they run are left out.
- PoolClients.ClientTable.TakeOrInsert: the hash map's order of iteration is arbitrary.
- Tearing the pools and servers down (joining threads, deleting connections and users that are left) and thread creation.
- The Mongo client pool, whose pool is inside mongoc; the synchronous clients and their pool.
- Liveness: nothing is said about messages that a full queue or a failing post drops, beyond that they are not duplicated.
- Logging, memory tracking, configuration, the central registry and HTTP, random strings; cryptographic strength.
