# A verified model of httpserver-cpp

httpserver-cpp is an embeddable HTTP server: every connection is an asynchronous session on its own
strand, handlers are found in a path trie, responses may be gzip-compressed, and a block of shared
counters describes what the server is doing. This project models the parts whose correctness is not
visible from one function and proves what they promise, for all inputs, all interleavings and all
runs.

| file | part of the server |
|---|---|
| `Session.dfy` | one connection as a state machine; a step touches the session and at most one shared counter |
| `Server.dfy` | all sessions interleaved, the shared counters, the invariant that every run keeps |
| `Guarantees.dfy` | what follows from it for order, isolation, persistence, identity, statistics and the observer |
| `Steps.dfy`, `SessionObject.dfy`, `ServerObject.dfy` | the callbacks as imperative code on an object, tied step by step to the machine |
| `Serving.dfy` | a connection served by those objects from registration to the last response |
| `Witness.dfy` | a complete run of the machine, and what a statistics snapshot does not promise |
| `Http.dfy` | the decision about a request and the message a reply becomes |
| `Routes.dfy`, `PathTrie.dfy` | the router as a map, and as the heap trie that refines it |
| `Url.dfy`, `Text.dfy` | the `\|` rewrite, percent decoding, origin-form |
| `GzipHeader.dfy`, `GzipFooter.dfy` | the byte-at-a-time gzip parsers and their encoders |
| `Crc32.dfy`, `Crc32Value.dfy`, `Zlib.dfy` | the running checksum, its generator and check value, and the buffer bookkeeping |

## How the session protocol is modelled

A session's state holds the strand's position inside its running callback, the pending asynchronous
operation, the writer a handler may still hold, the stored request and response, the request number,
and a record of what was read, decided, sent and written. An event is one atomic step; counter
increments are steps of their own, so any other session, a reply from another thread, or an observer
can come between any two of them. A run is any finite interleaving of such steps with newly accepted
connections.

The central invariant says that the whole block of counters is, at every moment, the sum over all
sessions of a closed expression in the session's request number, position and fate (`Server.Share`).
No tally is kept; the balance laws between counters follow by arithmetic.

What is assumed about the libraries underneath:

- A strand runs at most one callback of a session at a time, so a completion is delivered only to an
  idle session (`src/http_server_impl.cpp:139`), and a completion handler occupies one io thread
  (`Server.ThreadFreeIffThreadIdle` turns this into the guard of the machine).
- A completed read replaces start line and header fields of the stored request and appends to its body.
- A writer is used for at most one `send`, from any thread, at any time after the handler was called.
- Each run starts without live sessions and counts sessions and requests from 0. Opening an acceptor that
  is already open fails.
- Setting keep-alive on a response without a Connection field adds `close` or nothing;
  `prepare_payload` sets Content-Length; responses are HTTP/1.1; field names compare up to case.
- Compression is an arbitrary function; deflate and inflate are arbitrary steps inside their windows.

## Model

| member | source | states |
|---|---|---|
| Session.StepKeepsGood | src/http_session.cpp:52-325 | every step of a connection keeps the relation between position, pending operation, writer, stored messages and the record of all exchanges |
| Session.NewSessionIsGood | src/http_session.cpp:12-36 | a new session satisfies that relation |
| Session.ReceiveIsExact | src/http_session.cpp:64-71 | a completed read is exactly the request that arrived if and only if no body was stored |
| Server.ShareMovesWithEffect | src/http_session.cpp:26-272 | each step changes the closed form of the session's share of all nine counters by exactly what it adds to them |
| Server.SessionStepKeepsSound | src/http_session.cpp:52-325 | a step of one session among many keeps ids, all sessions' relations, the counter sum and the thread bound |
| Server.AcceptKeepsSound | src/http_server_impl.cpp:143-153 | so does a new connection |
| Server.RunsAreSound | src/http_session.cpp:12-325 | every state of every interleaving satisfies the invariant |
| Server.ThreadFreeIffThreadIdle | src/http_server_impl.cpp:94-99 | when every running callback occupies an io thread of its own, no more callbacks run than there are threads, and a completion can be delivered exactly when some thread runs none |
| Guarantees.OperationsNeverOverlap | src/http_session.cpp:52-160 | no read or write is started while another is pending, and a read starts only when all earlier responses are completely written, with an empty stored body and a clean stored response |
| Guarantees.ResponsesAnswerInOrder | src/http_session.cpp:52-160 | the j-th message written is the reply to the j-th request read, composed from that request and that reply alone, as section 9.3.2 of RFC 9112 requires of pipelined requests |
| Guarantees.BodiesAreIsolated | src/http_session.cpp:171-273 | no body is stored when a read starts, so handlers get exactly the body of their request, in every run including all three refusals; refusals are answered with their own text |
| Guarantees.RefusalsAreBadRequests | src/http_session.cpp:188-229 | in every run the message written for a refused request has status 400 and one of the three texts |
| Guarantees.LateRepliesSeeTheirRequest | src/http_session.cpp:275-325 | however late a reply is sent, it is built against the request it answers and on a response without fields or body |
| Guarantees.RequestStaysInPlace | src/http_session.cpp:104-160 | the stored request is not overwritten between its read and the counting of its write |
| Guarantees.NoDataRace | src/http_session.cpp:171-325 | neither stored message ever has two of the pending operation, the strand and a sending thread as users |
| Guarantees.PersistenceIsObeyed | src/http_session.cpp:144-159 | a session that went on to another request had sent a persistent response, one that closed after a reply had not |
| Guarantees.ReadsAgainIffKeepAlive | src/http_session.cpp:117-159 | a completed write leads to the next read exactly when the message as finally built keeps the connection |
| Guarantees.EndedOnlyWindsUp | src/http_session.cpp:76-151 | a session that has ended can only be released: it starts no read, no write and no handler |
| Guarantees.EndedStaysEnded | src/http_session.cpp:76-151 | along the rest of any run its outcome stands and nothing more is read, decided, sent or written on it |
| Guarantees.IdsNeverRepeat | src/http_session.cpp:16-54 | pairs of session id and request id handed out are unique, and request ids count 1, 2, 3, ... |
| Guarantees.StatisticsBalance | src/http_session.cpp:73-272 | successful reads = handled + sessions between the two counts; handled = writes + timeouts + failures + replies outstanding; timeouts and failures = the sessions they ended; both gauges exact; request numbers sum to read outcomes and to first reads plus persistent responses |
| Guarantees.HandlersFitThreads | src/http_server_impl.cpp:94-99 | the handler gauge is the number of callbacks inside a handler and never exceeds the thread count of the options, which is the number of threads `Run` starts |
| Guarantees.RunGrows | src/http_session.cpp:83-272 | handled, read and write counters never decrease along a run |
| Guarantees.SnapshotIsOrdered | src/http_server_impl.cpp:168-181 | a snapshot loaded counter by counter during a run never shows more handled requests than successful reads, and bounds its writes by the requests read |
| Guarantees.QuietSnapshotIsOrdered | src/http_server_impl.cpp:168-181 | if no request was counted as handled while the snapshot was taken, its writes do not exceed its handled requests |
| Guarantees.SecondSnapshotVouches | src/http_server_impl.cpp:168-181 | an observer knows this to be so when a second snapshot shows the same number of handled requests |
| Guarantees.SnapshotColumns | src/http_server_impl.cpp:168-181 | each column is its own counter at its own load time, below the counters' widths |
| Guarantees.SnapshotOfStillCounters | src/http_server_impl.cpp:168-181 | a snapshot of counters that stand still is those counters |
| Witness.SnapshotMayShowWritesUnhandled | src/http_server_impl.cpp:168-181 | for every configuration there is a run and a snapshot with one response written and no request handled |
| Witness.RunGoesOn | src/http_session.cpp:45-160 | whatever a session can do alone extends a run of the server |
| Witness.SoloRun | src/http_session.cpp:45-160 | every legal sequence of steps of one session is a run of the server whose counters are that session's share |
| Steps.LeadsKeepsGood | src/http_session.cpp:52-325 | any sequence of steps keeps the session's relation and moves its share of the counters by what it adds |
| SessionObject.HttpSession.constructor | src/http_session.cpp:12-26 | a new session object is one legal step into the machine and counted once |
| SessionObject.HttpSession.OnRead | src/http_session.cpp:73-102 | the read callback performs a legal sequence of machine steps determined by outcome and decision, and adds exactly their counts |
| SessionObject.HttpSession.ReadSucceeded | src/http_session.cpp:96-100 | after a read the stored request is exactly the one that arrived |
| SessionObject.HttpSession.ReadStopped | src/http_session.cpp:76-95 | the three failing outcomes of a read |
| SessionObject.HttpSession.Examine | src/http_session.cpp:171-260 | parsing, search, method test and the copying loops compute the decision that `Http.DecisionIs` characterises |
| SessionObject.HttpSession.ProcessRequest | src/http_session.cpp:171-273 | a request is refused and answered, or handed over, with the steps in that order; either the one message composed from it is being written or its handler holds the writer |
| SessionObject.HttpSession.RefuseRequest | src/http_session.cpp:188-229 | a refusal ends in the machine state of its five steps |
| SessionObject.HttpSession.CallHandler | src/http_session.cpp:261-270 | the hand-over ends in the machine state of its steps |
| SessionObject.HttpSession.HandOver | src/http_session.cpp:261-272 | a handler that answers before it returns has its message, composed from the request it was given, under way; one that does not keeps the writer |
| SessionObject.HttpSession.BuildResponse | src/http_session.cpp:275-322 | building in place on the stored response equals the model's message |
| SessionObject.HttpSession.Send | src/http_response.cpp:19-23 | a reply through the writer, however late, becomes the message composed from the request it answers and starts its write |
| SessionObject.HttpSession.OnWrite | src/http_session.cpp:124-160 | the next read starts exactly after a written message that keeps the connection, every other outcome ends the session, and each is counted once |
| SessionObject.CopyPairs | src/http_session.cpp:233-259 | the copying loops compute the table of module Http |
| Http.LastWinsIsLast | src/http_session.cpp:233-259 | that table holds exactly the names that occur, each with the value of its last occurrence |
| SessionObject.SetFields | src/http_session.cpp:290-294 | the header loop equals setting the fields in order, names up to case |
| ServerObject.HttpServerImpl.Run | src/http_server_impl.cpp:27-100 | starts if and only if threads, request size and address are given, no socket is open and the system refuses nothing; a bad option changes nothing; otherwise ids and counters restart from 0; a successful start has exactly the requested number of threads |
| ServerObject.OptionErrorIs | src/http_server_impl.cpp:29-42 | exactly the usable options pass, and of several bad ones the first is named |
| ServerObject.StartErrorIs | src/http_server_impl.cpp:29-80 | every obstacle is reported exactly when it is the first |
| ServerObject.HttpServerImpl.OnAccept | src/http_server_impl.cpp:143-153 | a connection becomes a session under the next id with the server's options, routes and counters, counted once, its first read scheduled; a failed accept changes nothing |
| ServerObject.HttpServerImpl.Stop | src/http_server_impl.cpp:102-130 | from any state, also when the io context had already stopped and the pool is not looked at, every thread of the pool has been joined, no socket is left and the server can start again |
| ServerObject.HttpServerImpl.RegisterHandler | src/http_server_impl.cpp:132-135 | the routes the server's sessions run with are updated by exactly this registration |
| Serving.Prepare | src/http_server_impl.cpp:132-135 | a server with any sequence of registrations runs with the map of that sequence |
| Serving.ServeOne | src/http_session.cpp:73-160 | one request and its answer: the message is composed from that request and the decision about it, and the session reads on exactly if the message says so |
| Serving.ServeAll | src/http_session.cpp:52-160 | on one connection the messages are the answers to the requests in order, up to the first that ends the connection, and the counters are exact |
| Serving.ServeConnection | src/http_server_impl.cpp:27-153 | a server with usable options and a willing system starts, and from registration through start, accept and all exchanges what the objects do on their first connection is a run of the state machine with these messages and counters, for all options, registrations, requests and replies |
| Http.FillIsCompose | src/http_session.cpp:275-325 | on a clean stored response the message depends on request head, reply and options only, whatever body the stored request has |
| Http.PersistenceOfMessage | src/http_session.cpp:277-294 | the last Connection header of the reply decides persistence; without one, the request and the reply's flag do |
| Http.RequestPersistence | src/http_session.cpp:277-284 | from version 1.1 on a request persists unless its first Connection field lists "close", before that only if it lists "keep-alive" (section 9.3 of RFC 9112) |
| Http.UsualSpellings | src/http_session.cpp:283 | `Connection: Close` and `Connection: Keep-Alive` as they are usually spelt |
| Http.ConnectionField | src/http_session.cpp:277-284 | a reply that sets no Connection field carries "close" or none |
| Http.MessageContent | src/http_session.cpp:287-322 | status, payload or nothing for HEAD, matching length, gzip label exactly on compressed replies, handler's headers before defaults |
| Http.GzipExactlyWhen | src/http_session.cpp:296-312 | a reply is compressed and labelled exactly if forced, or if it has more than 500 octets, the option is on and the first Accept-Encoding field names gzip in any case or has a `*` |
| Http.AcceptsGzipIs | src/http_session.cpp:305-306 | what such a field is |
| Http.OtherFields | src/http_session.cpp:290-294 | every other field is the handler's own and nothing is added |
| Http.LastNamedIs | src/http_session.cpp:290-294 | a handler's header is the last of its name up to case |
| Http.HeadLength | src/http_session.cpp:314-322 | a HEAD reply has the status and fields of the GET reply, and the same length if and only if there is no payload; otherwise it announces 0 |
| Http.SetAllIsLast | src/http_session.cpp:290-294 | a field has the value of the last header of its name, or keeps its own |
| Http.PipesAreOrdinary | src/http_session.cpp:171-259 | a GET target is refused, routed and decoded as if `\|` were an ordinary character; only undecoded parameters show the escape |
| Http.DecisionIs | src/http_session.cpp:171-273 | every request: refused for its target, for want of a handler, or for a method above 5, in this order, or else delivered with its method, the last value of each field and parameter, its segments and its body |
| Http.PipesElsewhereAreRefused | src/http_session.cpp:176-200 | a `\|` in the target of any method but GET is refused |
| Http.RefusalMessage | src/http_session.cpp:188-229 | a refusal is status 400, text/plain, uncompressed, its text as body, and persists as its request asks |
| Url.RewriteRemovesPipes | src/http_session.cpp:176-181 | no `\|` survives and each costs two characters |
| Url.RewriteKeepsValidity | src/http_session.cpp:176-181 | escapes are valid after the rewrite exactly when they were before |
| Url.RewriteKeepsMeaning | src/http_session.cpp:176-181 | the rewritten text decodes to what the original decodes to with `\|` literal |
| Url.RewriteKeepsSplit | src/http_session.cpp:176-181 | splitting at any delimiter the rewrite cannot create commutes with it |
| Url.RewriteKeepsCut | src/http_session.cpp:176-181 | so does cutting at the first such delimiter |
| Url.RewriteKeepsUrl | src/http_session.cpp:176-186 | the rewritten target parses exactly when the original does with `\|` admitted, to the same segments and parameters |
| Url.TargetRoundTrip | src/http_session.cpp:173-259 | any path and parameters, printed with escapes in either case, parse back to themselves |
| Url.ParsesExactlyWhen | src/http_session.cpp:173-189 | a target parses exactly if it begins with `/` and every position before and after the first `?` fits the grammar |
| Url.ValidTextIs | src/http_session.cpp:173-189 | valid text is text in which every position holds an admitted character or starts a complete escape |
| Url.EncodedParamIs | src/http_session.cpp:254-258 | a parameter is cut at its first `=` |
| Url.DecodeOther | src/http_session.cpp:247-252 | outside escapes characters stand for themselves, except `+` in parameters |
| Text.SplitJoin | src/http_router.h:86-99 | splitting a path loses nothing and no segment holds the separator |
| Text.JoinSplit | src/http_router.h:86-99 | and joining segments loses nothing either |
| Text.HasTokenIs | src/http_session.cpp:283 | the tokens of a comma-separated list are its elements up to case and blanks |
| Text.DecimalIs | src/http_session.cpp:321 | decimal notation denotes its number and has no leading zero |
| Routes.Normal | src/http_router.h:97-103 | a path is the longest leading part without an empty segment |
| Routes.Depth | src/http_router.h:128-144 | the deepest point of a query that lies on some registered path |
| Routes.LookupIsLongest | src/http_router.h:120-154 | the answer is the longest registered nonempty prefix if and only if the deepest point reached holds a handler or nothing shorter does |
| Routes.LookupIsLongestOrRoot | src/http_router.h:120-154 | with "/" counted as a prefix of every path, the answer is the longest registered prefix if and only if the query is "/", or the deepest point below the root holds a handler, or no point up to it does, the root included |
| Routes.LookupMissesShorterRoute | src/http_router.h:146-153 | two registrations and a query where the longest registered nonempty prefix is not returned |
| Routes.LookupMissesRoot | src/http_router.h:146-149 | one registration of "/" and a query below it that it does not answer |
| Routes.PlainPathIsAccepted | src/http_router.h:69-118 | every list of plain names is the key of a path that registration accepts |
| Routes.PrefixClosedIsLongest | include/httpserver/detail/http_server.h:53-56 | with a handler at every interior point the longest nonempty match is found for all queries, and the longest match with "/" included exactly if "/" is not registered or some nonempty prefix is |
| Routes.Longest | include/httpserver/detail/http_server.h:54 | the reference over nonempty prefixes: none exactly when no such prefix is registered, else the longest one's handler |
| Routes.LongestOrRoot | include/httpserver/detail/http_server.h:54 | the documented reference over all prefixes, "/" included |
| Routes.InsertLocality | src/http_router.h:93-117 | a registration changes an answer only by reaching deeper into the query or by replacing the handler that answered |
| Routes.LastRegistrationWins | src/http_router.h:69-118 | the map holds exactly the last accepted registration of each path |
| Routes.CheckIs | src/http_router.h:69-86 | each of the four errors is given exactly when its condition is the first to hold |
| Routes.RegistrationsCommute | src/http_router.h:69-118 | neighbouring registrations of different paths can be exchanged anywhere in a sequence |
| Routes.TrailingSlash | include/httpserver/detail/http_server.h:55 | a trailing slash changes no registration, neither what is accepted nor what it does, and no answer, except on the empty path and "/" |
| PathTrie.Router.Attach | src/http_router.h:112-114 | a new child keeps the nodes an unshared tree |
| PathTrie.Router.Descend | src/http_router.h:105-115 | the walk finds or makes the child and changes no content |
| PathTrie.Router.Grow | src/http_router.h:95-116 | the loop makes the whole branch exist and returns its end |
| PathTrie.Router.SetData | src/http_router.h:117 | exactly one key of the content changes |
| PathTrie.Router.InsertSegments | src/http_router.h:86-118 | the heap trie refines the map with one key updated and all others kept |
| PathTrie.Router.Insert | src/http_router.h:69-118 | the four rejections in order, each changing nothing, or the map update |
| PathTrie.Router.SearchSegments | src/http_router.h:120-154 | the walk returns the answer of the map |
| PathTrie.Router.Search | src/http_router.h:156-203 | empty, relative and malformed paths, or the answer of the map |
| PathTrie.Router.NodesAreKnown | src/http_router.h:97-117 | nodes exist exactly for the points on registered paths |
| PathTrie.Router.WalkEndsAtDepth | src/http_router.h:128-144 | a walk that cannot go on has reached the depth of the query |
| PathTrie.Router.Delete | src/http_router.h:27-34 | deleting a node frees it and everything below it once each |
| PathTrie.Router.Destroy | src/http_router.h:56-64 | destruction frees every node of the tree exactly once |
| PathTrie.RegisterHandlers | src/http_server_impl.cpp:132-135 | a router built by any sequence of registrations holds the map of that sequence |
| GzipHeader.HeaderParser.Process | src/gzip.cpp:27-129 | the in-place switch equals the step function, whose behaviour the rows below state in bytes; a rejected byte changes nothing |
| GzipHeader.StagesAdvance | src/gzip.cpp:30-128 | over any input the stage never moves back and the offset stays in range and is 0 between fields |
| GzipHeader.RoundTrip | src/gzip.cpp:27-138 | parsing the encoding of any well-formed header finishes and recovers flags, OS, time, name and comment |
| GzipHeader.DoneOnLastByte | src/gzip.cpp:27-138 | the header is complete on its last byte and not before |
| GzipHeader.TimeIsExactBelowSignBit | src/gzip.cpp:50-58 | the time agrees modulo 2^32 and is equal if and only if it is below 2^31 |
| GzipHeader.AcceptedIsEncoding | src/gzip.cpp:27-129 | every accepted byte string is the encoding of a well-formed header whose optional parts are those its flags name |
| GzipHeader.MagicIsChecked | src/gzip.cpp:31-45 | only 1f 8b 08 is accepted, and the first other byte decides the error |
| GzipHeader.FlagsAreBits | src/gzip.cpp:60-125 | the four flags are bits 1 to 4 of the flag byte |
| GzipHeader.OnePartLayout | src/gzip.cpp:46-125 | the bytes of a header with none or one of the optional parts, for flag bytes 0, 2, 4, 8 and 16 |
| GzipHeader.FullLayout | src/gzip.cpp:46-125 | the order of the parts when all are present |
| GzipHeader.NameAndComment | src/gzip.cpp:98-117 | flag byte 8 and a text give that name, flag byte 16 that comment, flag byte 0 neither |
| GzipHeader.EncodingIsUnique | src/gzip.cpp:27-129 | of exactly one |
| GzipHeader.PrefixFree | src/gzip.cpp:27-129 | no accepted string is a proper prefix of another |
| GzipHeader.ZeroLengthExtraNeverFinishes | src/gzip.cpp:76-97 | an extra field announced with length 0 is never completed by any input |
| GzipFooter.FooterParser.Process | src/gzip.cpp:142-164 | the in-place code equals the step function, in unsigned 32-bit arithmetic |
| GzipFooter.FooterRoundTrip | src/gzip.cpp:142-170 | both words are recovered over their whole range |
| GzipFooter.FooterAcceptsAnyEight | src/gzip.cpp:142-164 | any eight bytes complete the footer and print back to themselves |
| GzipFooter.FooterIs | src/gzip.cpp:142-164 | the checksum is the first four bytes and the size the last four, lowest byte first |
| Crc32.TableLoopIsDivision | src/zlib.cpp:124 | the table-driven checksum equals bit-by-bit division, for every register width and polynomial |
| Crc32.UpdateFromZero | src/zlib.cpp:124 | one running call from 0 gives the checksum of section 8 of RFC 1952 |
| Crc32.UpdateContinues | src/zlib.cpp:115-125 | a running call continues the checksum of everything before it |
| Crc32Value.GeneratorTerms | src/zlib.cpp:124 | the generator has exactly the terms x^26 + x^23 + x^22 + x^16 + x^12 + x^11 + x^10 + x^8 + x^7 + x^5 + x^4 + x^2 + x + 1 below x^32 |
| Crc32Value.CheckValue | src/zlib.cpp:124 | the checksum of "123456789" is the published 0xCBF43926 |
| Zlib.ZlibBase.Before | src/zlib.cpp:100-108 | the codec sees the unread input and unwritten output, lengths narrowed to 32 bits |
| Zlib.ZlibBase.After | src/zlib.cpp:110-130 | the reported checksum is that of all bytes gone through since the reset; cursors and totals follow the codec |
| Zlib.ZlibBase.Reset | src/zlib.cpp:142-154 | a new message begins; the last reported checksum stays readable |
| Zlib.ZlibBase.Round | src/zlib.cpp:100-130 | one round with any amounts consumed and produced: checksum of everything seen, totals, cursors, and the output buffer changed only where bytes were produced |
| Zlib.ChunkingIsInvisible | src/zlib.cpp:115-125 | however a message is cut up, the running checksum is that of the message |
| Zlib.TrailerMatches | src/gzip.cpp:142-170 | the trailer of a message, parsed, gives the checksum and length a decompressor reaches on the same bytes in any chunking |

## Where code and documentation differ

- `include/httpserver/detail/http_server.h:54` promises the longest match. The code answers from the
  deepest existing node, which may be an interior node without a handler (`LookupMissesShorterRoute`),
  and uses the root's handler only for paths without segments (`LookupMissesRoot`).
  `Routes.LookupIsLongest` gives the exact condition for nonempty prefixes,
  `Routes.LookupIsLongestOrRoot` the exact condition with the root counted as a prefix of every path.
- The gzip time field is added as a signed shift, so from 2^31 on it comes back as a negative number.
- A reply to HEAD with a body is sent with `Content-Length: 0`: the length is taken from the stored,
  empty body (`src/http_session.cpp:314-322`). `Http.HeadLength` says exactly when that is the length
  GET would announce.
- A statistics snapshot may show more responses written than requests handled
  (`Witness.SnapshotMayShowWritesUnhandled`); `Guarantees.QuietSnapshotIsOrdered` says when it does not.

## Left out

- Sockets, timers, acceptor set-up and thread start and join: their outcomes are events and parameters.
- HTTP parsing and serialisation and the full URL grammar: a small origin-form grammar with percent decoding stands in for them; `+` decodes to a space in parameters.
- Deflate and inflate: arbitrary steps; that decompressing undoes compressing is not stated.
- Responses with an empty body carry no Content-Length, so it is not claimed that every response is self-delimiting.
- More than one `send` through a copied writer: excluded by assumption; the code has no guard.
- Shutting down while operations are pending: a run simply ends, and joining a thread waits for nothing.
- Guarantees.SnapshotIsOrdered: stated for read counters that have not wrapped around at 2^64; session and request numbers are unbounded.
- Guarantees.QuietSnapshotIsOrdered: one direction only, under the same bound on the read counter; other snapshots may happen to be ordered too.
- GzipHeader.ZeroLengthExtraNeverFinishes: the remaining length is an unbounded integer; the wrap-around of a 32-bit one after 2^32 bytes is not modelled.
- GzipHeader.TimeIsExactBelowSignBit: the time type is taken to be wider than 32 bits.
- Http.FillIsCompose: keep-alive on a stored response that already has a Connection field is not modelled; the invariant shows that this never happens.
- SessionObject.HttpSession.OnRead: the callback runs without interference; interleavings are the subject of `Server.dfy`.
- Zlib.ZlibBase.Reset: when the stream is ended instead of reset, its totals are left as they were.
- Logging, option structs, accessors and forwarding classes: they would only add easy members.
