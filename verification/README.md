# hiaux: verified models

hiaux is a C++ library for network services: an HTTP server with a binary protocol for remote calls on top
of it, a client pool for that protocol, a string matcher, a thread pool, hashes and a UTF-8 codec. This
project models six of its parts in Dafny and proves what they are for.

- **The HTTP/1.x request parser** (`HttpTypes`, `HttpStep`, `HttpInvariant`, `HttpBodies`, `HttpParser`,
  `HttpMatchers`, `HttpHeaders`, `HttpRequestLine`, `HttpMessages`). `HttpStep.Step` is the parser one byte at a
  time. The class `HttpParser` is `http_parser_execute` as it works on buffers, with marks into the caller's data and
  bulk skipping; it is proved to refine the bytewise machine, so that nothing depends on how a stream is cut. The
  parser's assertions are an invariant, and rendered requests come back out of it unchanged.
- **The binary protocol "hiapi"** (`BinFraming`, `BinParsers`, `RpcLink`, `RpcSystem`, `RpcOpening`, `RpcClient`,
  `RpcServer`). `RpcSystem` is a state machine over a pool of connections, two byte channels for each and the
  server's connections; its theorems hold in every state of every run. The classes of client and server are both
  proved to be a side of it (`BinClientA.Shows`, `HttpServer.Shows`): every operation takes exactly its steps there,
  byte by byte on the wire, and leaves the object ready for the next one. The upgrade is tied to the HTTP parser: the
  opening is a request that it leaves after exactly its last byte.
- **The Aho-Corasick matcher** (`TrieWords`, `AhoCorasick`): the trie on the heap, the breadth-first failure links
  and the scan, against naive search.
- **The thread pool and the task launcher** (`ThreadPool`, `TaskLauncher`): interleavings at the granularity of
  locking operations and atomic accesses.
- **MD5, SHA-1 and base64** (`Md5Block`, `Md5`, `Sha1`, `Base64`) against RFC 1321, FIPS 180-4 and RFC 4648.
- **The UTF-8 and UTF-16 codec** (`Utf8`, `Utf8Strings`, `Utf8Repair`) against RFC 3629 and RFC 2781.

`Machine` holds what the two stream parsers share: machines that consume a stream item by item, and the law that
a run over two pieces is the second piece run from where the first one ended. `Numbers`, `Sequences`, `Wrappers` and
`Blocks` hold small definitions that several parts share.

`dafny verify dfyconfig.toml` checks the whole project.

## How the model reads the code

- A byte of a stream is a `char` in the HTTP and protocol modules, an `int` below 256 in `Utf8` and `Base64`, and a
  `bv8` in `Md5` and `Sha1`. Where 32-bit or 64-bit width matters, it is written out: the parser's length limits,
  the counters of MD5, the surrogate offset.
- The parser is modelled in strict mode and for requests, which is how the server uses it, with callbacks that
  return 0. Its table of hexadecimal digits has only 128 initialisers, so bytes from 128 up count as the digit 0.
- `send` and `recv` move any number of bytes; a broken connection may show itself at any call. The handler of the
  binary protocol is an arbitrary function that answers at once, with one framed reply.
- A size line is read as `sscanf` with `%llu` reads it: behind white space and a sign, and up to the first character
  that is no digit. A line without digits leaves the size unset in the source; the model lets the receiver throw there.
- Errors of `send` and `recv`, and the clock by which an idle connection is given up, are parameters of the server's
  operations. Links whose client has gone are served by the server, but are no links of the system.
- The server may refuse an upgrade: its header callbacks overwrite what they hold when a header arrives in pieces,
  so whether the protocol's name is recognised is left open.
- The system's `owner` and `calls`, the pool's `place`, `claim` and `started` and the launcher's `owner` and
  `acquired` are history: no step depends on them.
- In `TaskLauncher` every load of an atomic counter is a step of its own, with the operands of a comparison in either
  order and the difference of `size_t` wrapping around; `task_q.empty()`, which is called without the lock, is one
  step, too.

## What is false of the code

- A chunk size may hold characters that are no hexadecimal digits, if and only if they are 128 or more; they count as
  zeros (`HttpBodies.SizeExactly`).
- The server erases an entry of its table that it has not found, which is undefined, if and only if it takes a queued
  response to a connection that is no longer registered and found dead with the response not sent as a whole
  (`RpcServer.HttpServer.HandleResponse`); a run that comes to that is `RpcServer.StrayErase`.
- The client erases an entry of its table of free connections twice, which is undefined, if and only if the send of a
  request breaks the free connection it has just been given to (`RpcClient.BinClientA.PutRequestsToFreeConnections`);
  a run that comes to that is `RpcClient.StrayErase`.
- With an empty word in the dictionary the matcher misses it behind the first character of every text
  (`TrieWords.Exactness` gives the exact condition): nodes of depth one inherit nothing.
- A task can be left in the thread pool's global queue with all threads asleep (`ThreadPool.Stranded`). That happens
  if and only if no thread is ahead of its next look at that queue when the task is pushed (`ThreadPool.HandOver`).
- The task launcher can leave its finish lock locked for ever after its callback (`TaskLauncher.BothPass`), if and only
  if a second thread gets the lock (`TaskLauncher.LockKept`); a thread that has the lock keeps it if and only if the
  callback has had its turn (`TaskLauncher.KeepsLock`).
- It can call its callback while a task is still to run (`TaskLauncher.CalledEarly`): with equal counters
  and an empty queue everything has been run if and only if no thread is in `addTask` before its push or between
  taking a task and counting it (`TaskLauncher.TestSays`).
- It need not call its callback at all (`TaskLauncher.NeverCalled`): it does if and only if a task is queued
  when `setNoMoreTasks` is called, some thread is still to make its last check then, or a task is added later
  (`TaskLauncher.CalledIff`).
- `replace_invalid` throws on some invalid text instead of repairing it (`Utf8Repair.RepairFails` says exactly on which).

## Model

| member | source | states |
|---|---|---|
| HttpInvariant.StepInv | thirdparty/http-parser/http_parser.cpp:654-1869 | Every byte keeps the parser's invariant, whatever the byte and the state; the parser rejects a byte exactly by setting its error number, and announces nothing with it; it leaves for another protocol exactly when it sets `upgrade`. |
| HttpInvariant.RunInv | thirdparty/http-parser/http_parser.cpp:1694-1858 | After every stream of bytes the invariant holds and none of the internal assertions can fail on the next byte: a body state has a length strictly between 0 and 2^64-1, chunk states have the chunked flag, a chunk size starts with `nread` 1, a header value is never met in the two header states that are impossible there. |
| HttpMatchers.MethodSeen | thirdparty/http-parser/http_parser.cpp:946-1027 | Whenever the parser is inside a method, the last `index` bytes of the stream are the first `index` characters of the name of the method it holds, although the method changes under way. |
| HttpMatchers.MethodAccepted | thirdparty/http-parser/http_parser.cpp:946-1027 | A request line gets past its method only with a full known method name followed by a space. |
| HttpMatchers.MethodRun | thirdparty/http-parser/http_parser.cpp:905-1027 | The name of each of the 26 methods and a space are taken, whatever detours the method switch makes, and the method is the one named. |
| HttpBodies.BodyRun | thirdparty/http-parser/http_parser.cpp:1694-1729 | Taking any number of body bytes at once is the same as taking them one by one, including the end of the message. |
| HttpBodies.SizeBegins | thirdparty/http-parser/http_parser.cpp:1742-1756 | A chunk size is rejected at its first byte if and only if that is no hexadecimal digit and is below 128; bytes from 128 up are taken for a 0, because the table of digits has no initialisers for them. |
| HttpBodies.SizeExactly | thirdparty/http-parser/http_parser.cpp:1742-1793 | Up to its first delimiter a whole chunk size is accepted if and only if each of its characters is a hexadecimal digit or at least 128, within the overflow test; its value counts the latter as zeros. |
| HttpBodies.SizeRun | thirdparty/http-parser/http_parser.cpp:1742-1793 | A chunk size, in either case and with any leading zeros, is accumulated to exactly the number it stands for, up to the largest size the overflow test lets through. |
| HttpBodies.OneChunkRun | thirdparty/http-parser/http_parser.cpp:1742-1858 | A chunk, with or without parameters behind its size, is handed over as exactly its data, and the parser is ready for the next size line. |
| HttpBodies.ChunksRun | thirdparty/http-parser/http_parser.cpp:1742-1858 | A chunked body is handed over as exactly the concatenation of its chunks, however their sizes are written and whatever parameters they carry (section 3.6.1 of RFC 2616). |
| HttpBodies.HexRendered | thirdparty/http-parser/http_parser.cpp:1742-1793 | Every number has a hexadecimal rendering among the sizes so read. |
| HttpHeaders.NameRun | thirdparty/http-parser/http_parser.cpp:1274-1402 | A header name is handed over byte by byte, and the incremental matcher ends in the state that comparing the whole name in lower case with the special names gives. |
| HttpHeaders.ValueRun | thirdparty/http-parser/http_parser.cpp:1404-1566 | A header value is handed over byte by byte; the value matchers end where comparing the whole value does, and a Content-Length is accumulated to exactly its decimal value, with no wrap-around. |
| HttpHeaders.HeaderRun | thirdparty/http-parser/http_parser.cpp:1274-1601 | A header line, with its colon or without one, with any white space before its value, either line break and any number of folded lines, is handed over as its name and the text of its value, and has exactly the effect on flags and length that `HeaderMeaning` gives by plain comparison. |
| HttpHeaders.LinesMeaningIs | thirdparty/http-parser/http_parser.cpp:1404-1601 | What the nested matchers make of a folded value is what comparing its lines gives: only the first line can set a flag, the last length is the one that counts, and an empty line makes the parser forget the name. |
| HttpRequestLine.TargetExactly | thirdparty/http-parser/http_parser.cpp:425-558 | The URL machine accepts exactly the targets: a path or `*`, an absolute one, and, of `CONNECT`, one that begins with the server, with no two `@` in a row. |
| HttpRequestLine.TargetRun | thirdparty/http-parser/http_parser.cpp:1029-1100 | A target is handed over byte by byte, and the parser is where the URL machine is. |
| HttpRequestLine.VersionRun | thirdparty/http-parser/http_parser.cpp:1102-1222 | Behind the target, a version of any numbers up to 999 is read as those numbers, and a line without a version counts as HTTP/0.9. |
| HttpRequestLine.RequestLineRun | thirdparty/http-parser/http_parser.cpp:905-1222 | A request line, with empty lines before it and spaces in its gaps, is announced once and read with its method, target and version. |
| HttpMessages.HeadRun | thirdparty/http-parser/http_parser.cpp:905-1601 | A request line and its headers, those without a colon included, are read with their method, target, version and the joint meaning of all headers. |
| HttpMessages.EmptyLineRun | thirdparty/http-parser/http_parser.cpp:1603-1692 | What the empty line does: the message ends or its body begins, and the parser leaves or goes on. |
| HttpMessages.RequestRun | thirdparty/http-parser/http_parser.cpp:573-1897 | Rendering a request and parsing it gives back exactly its target, headers, content and trailer, with one notification each for its beginning, the end of its headers and its end; the body is the one its headers announce (section 4.4 of RFC 2616), and the next state is the one `http_should_keep_alive` decides from headers and trailer. |
| HttpMessages.PipelineRun | thirdparty/http-parser/http_parser.cpp:573-1897 | Any number of requests one behind the other come out one behind the other, for as long as the connection is kept; a trailer counts towards the limit of the head behind it. |
| HttpMessages.PipelineAnyCut | thirdparty/http-parser/http_parser.cpp:573-1897 | The same however the stream is cut into pieces. |
| HttpParser.HttpParser.Execute | thirdparty/http-parser/http_parser.cpp:573-1897 | One call on one buffer, with its marks and its bulk skipping, ends in the fields of the byte-at-a-time run, consumes as many bytes, and has told the callbacks the same data and notifications; after an error it has told a prefix of them. |
| HttpParser.HttpParser.Byte | thirdparty/http-parser/http_parser.cpp:905-1692 | One turn of the loop outside bodies: fields, marks and callbacks stay in step with the byte-at-a-time run, or the call returns in agreement with it. |
| HttpParser.HttpParser.BulkBody | thirdparty/http-parser/http_parser.cpp:1694-1729 | One turn in a body of known length: as many bytes as message and buffer both have, in step with the byte-at-a-time run. |
| HttpParser.HttpParser.BulkChunk | thirdparty/http-parser/http_parser.cpp:1822-1843 | One turn in chunk data, likewise. |
| HttpParser.FlushAll | thirdparty/http-parser/http_parser.cpp:1877-1895 | At the end of a buffer at most one mark is left, and the four final callbacks hand over exactly the data it stands for. |
| HttpParser.CutIndependence | thirdparty/http-parser/http_parser.cpp:573-1897 | However a stream is cut into pieces, the parser ends in the same fields, after the same trace and the same number of bytes, as on the whole stream. |
| HttpParser.Feed | thirdparty/http-parser/http_parser.cpp:573-1897 | The loop of an embedder over pieces of any size: the callbacks are told what they are told for the whole stream at once. |
| BinFraming.FrameRun | network/HttpApi/BinClient/Connection.cpp:51-59 | A frame of any payload (any bytes, newlines and `k` included) is received as exactly that payload if it is within the limit, and stops the receiver if it is not. |
| BinFraming.ScanDigits | strings/string_utils.cpp:332-342 | A line of digits is scanned as the number it stands for, or as the largest 64-bit number if that is smaller. |
| BinFraming.StreamRoundTrip | network/HttpApi/BinServer/Parser.cpp:13-68 | Any payloads, framed, with keep-alives anywhere between frames, come out as exactly those payloads in order. |
| BinFraming.HandshakeRun | network/HttpApi/BinClient/Parser.cpp:19-40 | The first bytes are accepted as the handshake exactly if they are the handshake. |
| BinFraming.ReplyRoundTrip | network/HttpApi/BinClient/Parser.cpp:19-80 | The handshake and then any framed replies come out as the connection and then those replies in order. |
| BinParsers.ServerParser.Parse | network/HttpApi/BinServer/Parser.cpp:13-68 | One call consumes the token buffer up to the end of the next request, exactly as the byte-at-a-time framing of the buffered bytes says, and throws exactly where that rejects. |
| BinParsers.ServerParser.GetRequest | network/HttpApi/BinServer/Parser.cpp:83-89 | Hands out the request found last and looks for the next one, without losing or repeating a byte. |
| BinParsers.ServerParser.Receive | network/HttpApi/BinServer/Parser.cpp:70-89 | A read of any size, drained, yields the requests that the framing of the whole stream yields there; the parser's state is the framing's state. |
| BinParsers.ResponseParser.Parse | network/HttpApi/BinClient/Parser.cpp:19-80 | As for the server's parser; the handshake is announced exactly once, when it completes. |
| BinParsers.ResponseParser.Receive | network/HttpApi/BinClient/Parser.cpp:82-99 | A read of any size, drained, yields the handshake and the responses that the framing yields there; after an error exactly the last response found is not handed out. |
| BinParsers.ReceiveAll | network/HttpServer/Connection.impl:234-305 | Read by read, in pieces of any size, the server's parser hands out exactly the requests that the framing finds in the whole stream, and fails exactly if that rejects. |
| BinParsers.ReceiveReplies | network/HttpApi/BinClient/Connection.cpp:111-160 | The same for the client's parser: the handshake is announced at most once and before any response, and all responses but perhaps a last one are handed out in order. |
| BinParsers.ServerRoundTrip | network/HttpApi/BinServer/Parser.cpp:13-89 | Whatever payloads and keep-alives a client writes, and however the stream is cut into reads, a new server parser hands out exactly the payloads, in order. |
| BinParsers.ClientRoundTrip | network/HttpApi/BinClient/Parser.cpp:19-99 | Whatever replies a server writes behind its handshake, and however the stream is cut, a new client parser announces the connection once and hands out exactly the replies, in order. |
| RpcOpening.OpeningRendered | network/HttpApi/BinClient/Connection.cpp:17-24 | The bytes a client opens a connection with are the rendering of a valid HTTP request that asks for an upgrade. |
| RpcOpening.OpeningUnfinished | thirdparty/http-parser/http_parser.cpp:573-1897 | No beginning of the opening completes a message or its headers, or stops the HTTP parser. |
| RpcOpening.OpeningFinished | thirdparty/http-parser/http_parser.cpp:573-1897 | Whatever follows it, the HTTP parser leaves after exactly the opening's last byte, with the message complete, `upgrade` set and the connection to be kept alive. |
| RpcLink.AddRequestInv | network/HttpApi/BinClient/Connection.cpp:51-59 | Handing a request to an active connection keeps the two directions in step: the client is owed one more answer, and one more request is on its way. |
| RpcLink.HttpReadInv | network/HttpServer/Connection.impl:82-111 | At the upgrade no frame can be lost: what may be behind the opening are keep-alives only, because frames are sent only when the client is active. |
| RpcLink.ServerReadInv | network/HttpServer/HttpServer.impl:78-146 | Reading any piece on the server's side keeps the answers under way, followed by the answers to the requests under way, equal to what the client is owed. |
| RpcLink.ServerSendInv | network/HttpServer/Connection.impl:182-231 | Sending any part of a response keeps it, too. |
| RpcLink.HandleWaitingInv | network/HttpServer/HttpServer.impl:78-103 | Answering the next waiting request keeps it; an answer for a connection that is gone is dropped. |
| RpcLink.AddResponseInv | network/HttpServer/HttpServer.impl:286-311 | Moving the oldest queued response to its connection keeps it. |
| RpcLink.ClientReadInv | network/HttpApi/BinClient/Connection.cpp:111-160 | Reading any piece on the client's side: every response found has its request in flight, is the handler's answer to that request, and the rest stays in step. |
| RpcSystem.NextInv | network/HttpApi/BinClient/BinClientA.cpp:35-135 | Every step of the pool and its server, in any order and with any segmentation, partial send, keep-alive, refusal or loss, keeps the invariant of the whole system. |
| RpcSystem.Soundness | network/HttpApi/BinClient/Connection.cpp:61-67 | In every run, a callback that is called with success gets the handler's answer to that very request, and a response is never matched with an empty queue of requests in flight. |
| RpcSystem.Conservation | network/HttpApi/BinClient/BinClientA.cpp:178-227 | In every run, a request is queued, in flight on exactly one connection, or finished, never two of these, and its callback is called at most once. |
| RpcSystem.CallOrder | network/HttpApi/BinClient/BinClientA.cpp:197-227 | Requests leave in the order of their calls: everything in flight is older than everything queued, each connection's requests are in call order, and the free connections are connections. |
| RpcSystem.Quiescence | network/HttpApi/BinClient/Connection.cpp:111-160 | No answer is lost on a healthy connection: when nothing is buffered or on the wire in either direction, the client is connected and nothing is in flight. |
| RpcClient.Connection.constructor | network/HttpApi/BinClient/Connection.cpp:10-28 | A new connection is the client's half of a new link. |
| RpcClient.Connection.AddRequest | network/HttpApi/BinClient/Connection.cpp:51-59 | Queues the frame and remembers the request, as the link's operation does. |
| RpcClient.Connection.CheckKeepAlive | network/HttpApi/BinClient/Connection.cpp:69-77 | A keep-alive is due exactly if nothing is waiting to be sent and the period is over. |
| RpcClient.Connection.PerformSend | network/HttpApi/BinClient/Connection.cpp:79-109 | What goes out is a prefix of the buffer, what stays is the rest; nothing is lost or sent twice, and when nothing can be sent now the buffer is unchanged. |
| RpcClient.Connection.PerformRecv | network/HttpApi/BinClient/Connection.cpp:111-160 | One read calls the callbacks of the oldest requests in flight, in order, each with its own response, as the link's operation does. |
| RpcClient.Connection.Destroy | network/HttpApi/BinClient/Connection.cpp:30-43 | Every request still in flight fails, in order, exactly once. |
| RpcClient.BinClientA.Call | network/HttpApi/BinClient/BinClientA.cpp:178-188 | The request joins the end of the queue. |
| RpcClient.BinClientA.OnWrite | network/HttpApi/BinClient/BinClientA.cpp:99-135 | Takes exactly the system's step for a writable socket: the buffer is sent, or the next request is assigned and sent, or the connection is free; the bytes returned are those that join the link. A connection that breaks is replaced. |
| RpcClient.BinClientA.OnRead | network/HttpApi/BinClient/BinClientA.cpp:89-97 | Takes exactly the system's step for a readable socket, with the replacement of a connection that is lost; in every reachable state it finds a request in flight for every response. |
| RpcClient.BinClientA.PerformSend | network/HttpApi/BinClient/BinClientA.cpp:65-87 | Sends what it says it sends, and gives the connection up with all its requests if it is broken. |
| RpcClient.BinClientA.OnLostConnection | network/HttpApi/BinClient/BinClientA.cpp:256-274 | The connection leaves both tables, its requests fail, and a new connection takes its place unless connecting fails; every other connection is unchanged. |
| RpcClient.BinClientA.RemoveConnection | network/HttpApi/BinClient/BinClientA.cpp:243-254 | Exactly the system's loss of a link, the callbacks of its requests included. |
| RpcClient.BinClientA.OnError | network/HttpApi/BinClient/BinClientA.cpp:142-151 | A failed connection is lost and replaced; an unknown socket changes nothing. |
| RpcClient.BinClientA.EstablishNewConnection | network/HttpApi/BinClient/BinClientA.cpp:229-241 | A new connection is a new link. |
| RpcClient.BinClientA.CheckKeepAlive | network/HttpApi/BinClient/BinClientA.cpp:276-287 | For one connection, exactly the system's step if a keep-alive is due, with its bytes and the new time of its last activity, and no step if not; afterwards none is due. |
| RpcClient.BinClientA.CheckKeepAlives | network/HttpApi/BinClient/BinClientA.cpp:276-287 | The loop over all connections is a sequence of such steps, with exactly the bytes returned on each link; unless a broken connection ends it, no keep-alive is due any more. |
| RpcClient.BinClientA.PutRequestsToFreeConnections | network/HttpApi/BinClient/BinClientA.cpp:197-227 | The oldest request goes to the first free connection in the order of the sockets that is active, with the bytes returned, and that connection is free no longer; otherwise nothing changes. The source erases an entry twice exactly if that send breaks. |
| RpcClient.BinClientA.Follow | network/HttpApi/BinClient/BinClientA.cpp:35-135 | The pool is the client's side of the system behind every step of the server, too. |
| RpcClient.StrayErase | network/HttpApi/BinClient/BinClientA.cpp:197-227 | The other case occurs: from its constructor on, a pool comes to the dispatch whose send breaks. |
| RpcServer.ServerExpects | network/HttpServer/Connection.impl:234-305 | In every state of a link, the bytes a server's connection reads before the upgrade are a part of the opening and keep-alives. |
| RpcServer.OpeningBuffer | network/HttpServer/Connection.impl:271-295 | For every cut of the opening, the HTTP parser reports a complete message with exactly the buffer that completes the opening, and complete headers with no other; the connection is then to be kept alive. |
| RpcServer.HttpConnection.ParseHttp | network/HttpServer/Connection.impl:271-295 | A request is finished exactly when the opening has been read completely, and never again on that connection. |
| RpcServer.HttpConnection.ParseCustom | network/HttpServer/Connection.impl:276-303 | The requests that the framing finds in the read are queued behind the others; it fails exactly if the framing rejects. |
| RpcServer.HttpConnection.PerformSend | network/HttpServer/Connection.impl:182-231 | The rest of the response under way, or else the next queued response, goes out from its first unsent byte; it reports success exactly if there was something to send and nothing of it is left. A connection that has sent a response and is not to be kept alive dies instead, and so does one whose send breaks. |
| RpcServer.HttpServer.constructor | network/HttpServer/HttpServer.impl:12-33 | A new server is the server's side of the initial system. |
| RpcServer.HttpServer.Accept | network/HttpServer/HttpServer.impl:43-69 | A new connection is the system's new link; all other connections serve their links as before. |
| RpcServer.HttpServer.OnRead | network/HttpServer/HttpServer.impl:106-146 | On a server that is the server's side of a system, takes exactly the system's read on the link of the connection, or its loss if the connection fails or is found dead, and is the server's side of the next system. What the connection can take follows from the system's invariant, and every connection stays ready for its next operation. |
| RpcServer.HttpServer.PerformRecv | network/HttpServer/HttpServer.impl:106-146 | On the tables alone: the server's half of the link's read, with the queued responses of all other connections as they were; a connection whose parser throws, or which is lost or found dead, is no longer registered. |
| RpcServer.HttpServer.OnWrite | network/HttpServer/HttpServer.impl:148-182 | Takes exactly the system's send on the link of the connection, followed by its loss exactly if it is found dead with something left unsent; the bytes returned are those that join the link. |
| RpcServer.HttpServer.PerformSend | network/HttpServer/HttpServer.impl:148-171 | On the tables alone: sends for the registered connection of the socket only. |
| RpcServer.HttpServer.OnError | network/HttpServer/HttpServer.impl:72-75 | Takes exactly the system's loss of the connection on the server's side. |
| RpcServer.HttpServer.AnswerOpening | network/HttpServer/Connection.impl:82-111 | A complete opening is granted, with the handshake queued, or answered by the handler of plain requests, with its response in the queue of plain ones. |
| RpcServer.HttpServer.HandleWaitingRequests | network/HttpServer/HttpServer.impl:78-103 | The next request goes to the handler unless one is being answered; its framed answer joins the queue, or is dropped if the connection is gone. |
| RpcServer.HttpServer.SendResponse | network/HttpServer/HttpServer.impl:210-218 | A plain response joins its own queue, and with that goes before the connection's responses of the binary protocol, only if the connection is registered. |
| RpcServer.HttpServer.SendCustomResponse | network/HttpServer/HttpServer.impl:221-228 | The response joins the queue of its connection only, and only if the connection is registered. |
| RpcServer.HttpServer.HandleResponse | network/HttpServer/HttpServer.impl:231-248 | The connection is free for its next request, a send is tried, and the next request is handled; a connection found dead with its response not sent as a whole is deregistered and handles nothing. `stray` is exactly the case in which the source erases what it has not found. |
| RpcServer.HttpServer.DrainOne | network/HttpServer/HttpServer.impl:286-320 | One turn of the draining loops takes exactly the system's reply step on the link of the connection at the head of the queues; the bytes returned are those that join the link. |
| RpcServer.HttpServer.Drain | network/HttpServer/HttpServer.impl:286-320 | The loops end, with both queues empty; together they are a sequence of the system's reply steps, and exactly the bytes returned have joined each link. |
| RpcServer.HttpServer.FollowStep | network/HttpApi/BinClient/BinClientA.cpp:35-135 | The server is the server's side of the system behind every step of the client, too; links whose client is gone are served on. |
| RpcServer.ClientKeepsServers | network/HttpApi/BinClient/BinClientA.cpp:35-135 | No step of the client changes a server's half. |
| RpcServer.StrayErase | network/HttpServer/HttpServer.impl:231-248 | The other case occurs: from its constructor on, a server comes to the turn that erases what it has not found. |
| TrieWords.LongestIsLongest | strings/AhoCorasick.cpp:52-63 | The longest suffix of a string that is a path is longer than every other one. |
| TrieWords.FallIsLongest | strings/AhoCorasick.cpp:52-63 | Following failure links from the longest suffix of a text until the next character can be taken leads to the longest suffix of the longer text. |
| TrieWords.FailOfChild | strings/AhoCorasick.cpp:52-63 | What `getFallNode` finds for a missing child is the failure link of that child. |
| TrieWords.InheritedIsEnding | strings/AhoCorasick.cpp:109-143 | For a dictionary without empty words, a node's inherited matches are exactly the dictionary's words that are suffixes of its path, the longest first. |
| TrieWords.Exactness | strings/AhoCorasick.cpp:150-175 | A scan reports exactly the occurrences if and only if the dictionary has no empty word or the text is empty. |
| TrieWords.OccurrencesCount | strings/AhoCorasick.cpp:150-175 | Among the occurrences, a word at a start is listed once for every entry of it in the dictionary if it stands there, and not at all otherwise. |
| TrieWords.OccurrencesOrder | strings/AhoCorasick.cpp:150-175 | Occurrences are in the order of their ends, and for the same end in decreasing length. |
| AhoCorasick.BorNode.AddWord | strings/AhoCorasick.cpp:22-35 | The tree gains exactly the nodes on the way to the word, every old node is kept, and exactly the word's node gains the word. |
| AhoCorasick.BorNode.GetFallNode | strings/AhoCorasick.cpp:52-63 | Finds the node it has to find, and terminates because the depth falls. |
| AhoCorasick.BorNode.PushChildrenToQueue | strings/AhoCorasick.cpp:41-50 | Adds every child exactly once behind what is there. |
| AhoCorasick.FrontierNext | strings/AhoCorasick.cpp:122-143 | One turn of the breadth-first loop keeps the frontier: the queue holds, each once and by depth, the nodes with a link whose children have none. |
| AhoCorasick.ShallowDone | strings/AhoCorasick.cpp:122-143 | Everything above the head of the queue is done. |
| AhoCorasick.SettleChild | strings/AhoCorasick.cpp:128-139 | One turn of the inner loop gives the child its longest proper suffix as its link and its complete list of matches, and changes nothing else. |
| AhoCorasick.SetLinks | strings/AhoCorasick.cpp:109-143 | When the queue is empty, every node's failure link is its longest proper suffix in the trie, and its matches are complete. |
| AhoCorasick.AhoCorasick.constructor | strings/AhoCorasick.cpp:100-144 | The finished matcher: the paths are exactly the prefixes of the words, with all links and matches. |
| AhoCorasick.AhoCorasick.FindMatches | strings/AhoCorasick.cpp:150-175 | Appends exactly the occurrences, in order, if and only if the dictionary has no empty word or the text is empty; the loop takes at most twice as many turns as the text has characters. |
| ThreadPool.NextInv | threads/threadpool.cpp:46-152 | Every step of every caller and worker keeps the invariant: a waiting worker is in the queue of waiting threads with nothing to do, or claimed by exactly one caller, or has one task and will find it. |
| ThreadPool.TaskConservation | threads/threadpool.cpp:46-152 | Under every interleaving, a task is with its caller, in the global queue, in one thread's queue, being run by one thread, or finished; in one of these only; it is started at most once. |
| ThreadPool.WaitingThreads | threads/threadpool.cpp:134-152 | No thread is twice in the queue of waiting threads, those in it are waiting with an empty queue of their own, and no thread ever has more than one task of its own. |
| ThreadPool.NoLostWakeup | threads/locks.cpp:105-133 | A thread that is blocked without a signal has no task, or the caller that gave it one holds its mutex and signals next; a blocked thread that is not in the queue has been taken by a caller that has still to signal. |
| ThreadPool.Quiescence | threads/threadpool.cpp:46-99 | When no call is under way and all threads are blocked, a task is finished if and only if it is not in the global queue. |
| ThreadPool.LuckyFinishes | threads/threadpool.cpp:134-145 | A task whose call finds a waiting thread is finished whenever everything has come to rest, under every interleaving. |
| ThreadPool.AheadFinishes | threads/threadpool.cpp:46-99 | A task that is in the global queue while some thread is still to look there is finished at rest, whatever calls come in between. |
| ThreadPool.HandOver | threads/threadpool.cpp:146-151 | Whether a task pushed into the global queue is ever run is decided at the push: with no call still to ask for a thread and none later, it is finished at rest if and only if some thread was ahead of its next look at that queue. |
| ThreadPool.Stranded | threads/threadpool.cpp:69-98 | The other case occurs: a run in which a task is added between a thread's look at the global queue and its announcement, and everything comes to rest with the task still there. |
| TaskLauncher.NextInv | threads/tasklauncher.cpp:17-88 | Every step of every thread of control, the reads of single counters included, keeps ownership, counters and the state of the end in order. |
| TaskLauncher.Ownership | threads/tasklauncher.cpp:17-68 | Under every interleaving a task object has exactly one owner, one thread or the queue, until it is deleted, and none afterwards; it is deleted at most once. |
| TaskLauncher.DeletedForGood | threads/tasklauncher.cpp:17-33 | A deleted task stays deleted whatever happens next, so that with ownership it is never run, queued or relaunched again. |
| TaskLauncher.Counters | threads/tasklauncher.cpp:35-39 | The tasks counted as finished never outnumber the launches; the difference is exactly the launches that are under way. |
| TaskLauncher.CalledOnce | threads/tasklauncher.cpp:75-88 | The finish callback is called at most once, only after `setNoMoreTasks`, and only one thread is ever about to call it. |
| TaskLauncher.LockKept | threads/tasklauncher.cpp:79-87 | In every run at most two threads get the finish lock, and its holder has returned without releasing it if and only if a second one has got it and gone on. |
| TaskLauncher.KeepsLock | threads/tasklauncher.cpp:79-87 | A thread that has the lock returns without releasing it if and only if the callback has had its turn. |
| TaskLauncher.KeptForGood | threads/tasklauncher.cpp:79-87 | Once a second thread has got the lock it is never free again. |
| TaskLauncher.BothPass | threads/tasklauncher.cpp:75-88 | A run that keeps the lock, for every limit on parallel tasks: two tasks are run and deleted, both jobs are at their last check with two launched, two finished and none queued, and the test passes for both. |
| TaskLauncher.TestSays | threads/tasklauncher.cpp:75-88 | In every reachable state whose counters are equal and whose queue is empty, every task has been deleted if and only if no thread is before its push in `addTask` or holds a task it has taken off the queue and not yet counted. |
| TaskLauncher.CalledEarly | threads/tasklauncher.cpp:41-60 | The other case occurs: a run in which the callback is called while a relaunched task is still to run. |
| TaskLauncher.NothingLeft | threads/tasklauncher.cpp:41-68 | In every run, with each counter read at a moment of its own and in either order, and with a limit that may change but is never 0: when all callers and jobs have returned, no task is left behind, every one has been run for good. |
| TaskLauncher.NoRoom | threads/tasklauncher.cpp:41-60 | With a limit of 0 a task is left: a run in which it stays in the queue when its caller has returned. |
| TaskLauncher.CalledIff | threads/tasklauncher.cpp:75-98 | In every such run whether the callback is ever called is decided at `setNoMoreTasks`: when all have returned, it has been called if and only if a task was queued then, or some thread was still to make its last check or stood for one that was, on counters it had not read too early, or a task was added later. |
| TaskLauncher.NeverCalled | threads/tasklauncher.cpp:95-98 | The other case occurs: one task is added, run and checked for before `setNoMoreTasks`, and the callback is never called. |
| Md5Block.AuxF | crypt/md5.cpp:49 | The optimised `F` is the function of RFC 1321. |
| Md5Block.AuxG | crypt/md5.cpp:50 | The optimised `G` is the function of RFC 1321. |
| Md5Block.Quad1 | crypt/md5.cpp:112-128 | Four unrolled steps of round 1, in which the registers take turns, are four operations of section 3.4 of RFC 1321 with their words, constants and shifts. |
| Md5Block.Block | crypt/md5.cpp:93-198 | The 64 unrolled steps are the compression of section 3.4 of RFC 1321. |
| Md5.CountsNext | crypt/md5.cpp:216-219 | After any update, `hi` times 2^29 plus `lo` is the number of bytes modulo 2^61. |
| Md5.Context.constructor | crypt/md5.cpp:200-209 | A context of the empty message. |
| Md5.Context.Body | crypt/md5.cpp:93-198 | Compresses all blocks of the data, in order. |
| Md5.Context.Update | crypt/md5.cpp:211-243 | The context stands for the longer message: the state is the fold over all its full blocks, the buffer holds the rest, the counters its length. |
| Md5.Context.Final | crypt/md5.cpp:245-294 | The digest of the message with the padding of sections 3.1 and 3.2 of RFC 1321, whether that takes one more block or two; the context is wiped. |
| Md5.DigestOf | crypt/md5.cpp:200-294 | However a message is cut into updates, the digest is that of the whole message. |
| Sha1.InnerHash | crypt/sha1.cpp:58-115 | The five loops over the round buffer, which is expanded in place, are the schedule and the 80 rounds of section 6.1.2 of FIPS 180-4. |
| Sha1.OrInBlock | crypt/sha1.cpp:152-155 | Or-ing a byte into its word is putting it at its place in the block. |
| Sha1.LastBlock | crypt/sha1.cpp:147-163 | The bytes left over, the one bit, zeros and the length are the padding of section 5.1.1 of FIPS 180-4, for fewer than 56 bytes and for 56 or more. |
| Sha1.Store | crypt/sha1.cpp:166-169 | The hash is the state, each word's high-order byte first. |
| Sha1.Calc | crypt/sha1.cpp:118-172 | The hash of every message of fewer than 2^28 bytes is that of FIPS 180-4. |
| Base64.Encode | crypt/base64.cpp:47-88 | The masks and shifts compute the encoding of section 4 of RFC 4648, read as 24-bit groups, with its padding. |
| Base64.Encoded | crypt/base64.cpp:47-88 | The encoding of n bytes has 4 times ceil(n/3) characters. |
| Base64.JoinIs | crypt/base64.cpp:112-127 | The bytes of a group do not depend on the 255 that stands for its missing characters. |
| Base64.Decode | crypt/base64.cpp:90-130 | Decodes the characters before the first one that is not of the alphabet. |
| Base64.DecodeVec | crypt/base64.cpp:132-172 | Gives the same bytes as the string version on every input. |
| Base64.RoundTrip | crypt/base64.cpp:47-130 | Decoding undoes encoding, for all byte strings. |
| Utf8.ValidateExactly | thirdparty/utf8_v2_3_4/source/utf8/core.h:223-272 | A sequence is accepted, with a code point and a length, exactly if the text begins with the encoding of that scalar value and has that length. |
| Utf8.ValidateEncoded | thirdparty/utf8_v2_3_4/source/utf8/checked.h:72-96 | What `append` writes for a scalar value is read back as that value, whatever follows. |
| Utf8.EncodeValidated | thirdparty/utf8_v2_3_4/source/utf8/core.h:163-272 | What is accepted is the encoding of the code point it is read as. |
| Utf8Strings.ValidateNext | thirdparty/utf8_v2_3_4/source/utf8/core.h:223-272 | Advancing octet by octet comes to that decision, and goes back to where it was on every error. |
| Utf8Strings.GetSequence | thirdparty/utf8_v2_3_4/source/utf8/core.h:137-219 | Takes the trail octets one by one: the first that is missing or no trail octet decides the error. |
| Utf8Strings.Append | thirdparty/utf8_v2_3_4/source/utf8/checked.h:72-96 | Appends the encoding, or fails exactly if the code point is no scalar value. |
| Utf8Strings.FindInvalid | thirdparty/utf8_v2_3_4/source/utf8/core.h:287-303 | Finds the end of the longest valid beginning, which is the end of the text exactly if the text is valid. |
| Utf8Strings.DecodeEncodeAll | thirdparty/utf8_v2_3_4/source/utf8/checked.h:248-264 | Decoding undoes encoding, for all sequences of scalar values. |
| Utf8Strings.EncodeAllDecode | thirdparty/utf8_v2_3_4/source/utf8/checked.h:248-264 | Encoding undoes decoding, for all valid texts. |
| Utf8Strings.Utf32To8 | thirdparty/utf8_v2_3_4/source/utf8/checked.h:248-255 | The encoding of all code points, or an exception exactly if one is no scalar value. |
| Utf8Strings.Utf8To32 | thirdparty/utf8_v2_3_4/source/utf8/checked.h:257-264 | The code points of the text, or an exception exactly if it is not valid. |
| Utf8Strings.PairIs | thirdparty/utf8_v2_3_4/source/utf8/core.h:48-53 | The wrapping 32-bit arithmetic puts a surrogate pair together as section 2.2 of RFC 2781 says. |
| Utf8Strings.Validate16Exactly | thirdparty/utf8_v2_3_4/source/utf8/checked.h:206-231 | A UTF-16 decoder accepts exactly what begins with the units of a scalar value. |
| Utf8Strings.Utf8To16 | thirdparty/utf8_v2_3_4/source/utf8/checked.h:233-246 | The same text in UTF-16, or an exception exactly if the input is not valid. |
| Utf8Strings.Utf16To8 | thirdparty/utf8_v2_3_4/source/utf8/checked.h:206-231 | The same text in UTF-8, or an exception exactly if there is a surrogate without its partner. |
| Utf8Strings.RoundTrip8 | thirdparty/utf8_v2_3_4/source/utf8/checked.h:206-246 | From UTF-8 to UTF-16 and back is the identity on valid text. |
| Utf8Strings.RoundTrip16 | thirdparty/utf8_v2_3_4/source/utf8/checked.h:206-246 | From UTF-16 to UTF-8 and back is the identity on valid text. |
| Utf8Repair.ReplaceInvalid | thirdparty/utf8_v2_3_4/source/utf8/checked.h:98-127 | What comes out is always valid, and valid text is left as it is. |
| Utf8Repair.RepairedValid | thirdparty/utf8_v2_3_4/source/utf8/checked.h:98-127 | Repaired text is valid, whatever went in. |
| Utf8Repair.RepairFails | thirdparty/utf8_v2_3_4/source/utf8/checked.h:98-127 | With a scalar value for the mark, repair throws if and only if the text ends inside a sequence: its last octet that is no trail announces more octets than there are. |
| Utf8Repair.Prior | thirdparty/utf8_v2_3_4/source/utf8/checked.h:162-175 | Goes back to the last octet that is no trail and reads from there; at every boundary it undoes `next`. |
| Utf8Repair.UncheckedNext | thirdparty/utf8_v2_3_4/source/utf8/unchecked.h:60-89 | On everything the checked `next` accepts, the unchecked one reads the same code point and goes as far. |
| Utf8Repair.UncheckedUtf8To32 | thirdparty/utf8_v2_3_4/source/utf8/unchecked.h:168-175 | On valid text the unchecked conversion is the checked one. |
| Utf8Repair.UncheckedPrior | thirdparty/utf8_v2_3_4/source/utf8/unchecked.h:97-103 | At every boundary of valid text the unchecked `prior` undoes `next`, too. |

## Left out

- Sockets, epoll and kqueue, curl, PostgreSQL, JSON, daemon, fork and signal code: input and output, and foreign calls.
- Time and the accept loop: a server may find a connection dead at any step instead. `cleanUpDeadConnections`, which goes on with an iterator it has erased.
- Responses, non-strict mode, `http_parser_parse_url`, and pausing: the server uses none of them.
- HttpParser.HttpParser.Execute: after an error the piece still marked is lost in the source, so the callbacks are told a prefix of the trace only.
- The callbacks that assemble a plain HTTP request, and plain pipelined requests and responses on the server.
- The contents of requests and replies, which are protobuf messages: opaque bytes here.
- RpcSystem.Soundness: says nothing about when a callback is called; liveness is not modelled.
- BinParsers.ServerParser.Parse: a size line without digits is a throw; the source goes on with a size it has not set.
- BinParsers.ResponseParser.Parse: the same.
- RpcServer.HttpServer.OnRead: what a connection found dead has parsed is not stated; it is served no more.
- RpcServer.HttpServer.Drain: handlers that answer later or twice are not modelled; that the loops end rests on handlers that answer at once.
- RpcServer.HttpServer.AnswerOpening: the response of the handler of plain requests is any text that begins like an HTTP response; how it is rendered is not modelled.
- The matcher's node numbers, its destructors and `print`.
- AhoCorasick.BorNode.PushChildrenToQueue: any order among children, of which the source's alphabetical one is a case.
- ThreadPool.NextInv: runs without `kill` and `join`; starting threads is not a step.
- TaskLauncher.Counters: no bound on the tasks running at once, because a test and the launch behind it are separate steps. The limit is read together with the second counter.
- TaskLauncher.TestSays: for counters that are equal in one state; a test that reads them in two may pass in others.
- ThreadPool.HandOver: if other calls are still to ask for a waiting thread, or come later, one of them may wake a thread that runs the task, too; `AheadFinishes` covers those runs in one direction.
- Md5.Context.Update: an update of fewer than 2^64 bytes; reading words from memory is by bytes, low-order first.
- Sha1.Calc: messages from 2^28 bytes up, for which the source's length overflows an `int`; `toHexString` and the overloads on strings.
- The code point that the exception of `next` carries, which is always 0 in the source; `advance`, `distance`, the iterator classes and the byte order mark.
