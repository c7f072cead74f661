# Verified model of winasio

winasio puts asio-style completion handlers on Windows' asynchronous HTTP and
named-pipe calls. This project models the code between asio and Windows, and
proves what it keeps over whole runs. The system calls are relations (the
answers Windows may give); asio's dynamic buffer and event are small classes.

| file | what it models |
|---|---|
| `Basics.dfy`, `Buffers.dfy` | lengths, error codes, the dynamic vector buffer |
| `WinHttpContext.dfy` | the shared state word, result slot and event; the status callback; the initiators |
| `WinHttpOps.dfy` | the composed WinHTTP operations as objects and as step functions |
| `WinHttpSystem.dfy`, `WinHttpRuns.dfy` | issuing thread, callback thread and WinHTTP interleaved word by word; what holds of every run |
| `WinHttpBody.dfy`, `WinHttpStream.dfy` | the sequential programs the machines stand for; reassembly of the body; the two readers; sequences of writes |
| `WinHttpSharing.dfy` | two operations on one request handle |
| `WinHttpStandalone.dfy` | what holds of every run of a reader or writer that is used on its own |
| `HttpSysReceive.dfy`, `HttpSysRequest.dfy`, `HttpSysBody.dfy` | the http.sys receive operations |
| `Overlapped.dfy`, `PipeAcceptor.dfy` | ownership of overlapped handlers, the accept slot |
| `Serving.dfy`, `ServingCodes.dfy` | the serving loops: what is outstanding, and what each error code leads to |
| `OrderedMaps.dfy`, `Convert.dfy`, `ResponseCalls.dfy` | response marshalling, also in terms of the application's calls |
| `HeaderBlock.dfy`, `Controller.dfy` | the header block, routing |

Objects whose methods update fields are classes; each method's postcondition
gives the new state as a step function of the old one, and the lemmas are about
those functions. Protocols are runs: lists of moves in any order the rules allow.

## Assumptions about the environment

- WinHTTP answers each accepted call with exactly one notice of the matching
  kind and none to a refused one; an error notice carries a non-zero error and
  the identifier of the call; a length notice carries a DWORD; a read never
  brings more than was asked for (`WinHttpContext.Matches`;
  `include/boost/winasio/winhttp/winhttp_asio.hpp:248-275`).
- Only the reassembly results also assume a server that announces 0 bytes
  exactly at the end of the body and brings at least one byte to a read of a
  positive number of bytes before that (`WinHttpBody.Honest`;
  `include/boost/winasio/winhttp/winhttp_asio.hpp:394`).
- A wait on an event that is already set fires
  (`tests/winhttp/winhttp_infra_test.cpp:74-106`).
- http.sys posts a completion packet when it returns NO_ERROR and when the
  operation is pending, a pipe only when pending
  (`include/boost/winasio/http/basic_http_queue_handle.hpp:197-201`).
- A receive of a request head can be refused at once with any error, and is then
  completed with length 0
  (`include/boost/winasio/http/basic_http_queue_handle.hpp:117-130`); as too small
  for the request structure only if the buffer is
  (`include/boost/winasio/http/basic_http_queue_handle.hpp:123-126`). A packet with
  ERROR_MORE_DATA names a size above the one asked for, which is what the message
  of the assertion at `include/boost/winasio/http/http_asio.hpp:67` expects, and
  leaves the request structure at the front of a buffer that has room for it,
  which the retry's use of the id relies on
  (`include/boost/winasio/http/http_asio.hpp:95-101`).
- http.sys hands a request body over in order, at least one byte for each receive
  with room until the end of file, which comes with the last bytes or alone. A
  receive refused at once carries no bytes, and is refused with ERROR_HANDLE_EOF,
  which the caller is expected to handle
  (`include/boost/winasio/http/basic_http_queue_handle.hpp:161-165`), only when no
  bytes are left (`HttpSysBody.MayAnswer`); only the cost result assumes full buffers and an end
  of file that comes alone (`include/boost/winasio/http/http_asio.hpp:145-148`).
- The query string http.sys reports starts at the first question mark of the URL
  (`include/boost/winasio/http/basic_http_controller.hpp:133-137`).
- Memory allocation does not fail; only dispatch and the handlers it runs throw.

## What the proofs found

- `async_receive_op` reports success on ERROR_HANDLE_EOF without having committed
  a request (`HttpSysRequest.RequestOutcome`).
- The growth assertion of `async_receive_op` compares the size reported with what
  the buffer had committed, not with the size asked for. It holds against every
  kernel if and only if the caller's buffer has committed no more than the first attempt
  asks for and no receive is refused at once with ERROR_MORE_DATA
  (`HttpSysRequest.GrowthHoldsIff`). Such a refusal carries length 0, so the retry
  asks for 0 bytes with an id outside the vector
  (`HttpSysRequest.RefusedAsTooSmall`); then the initiator's own assertion can
  fail too (`HttpSysRequest.RoomHoldsIff`), and nothing bounds the retries
  (`HttpSysRequest.RetriesBoundedIff`).
- A body size hint of 0 never ends, and every other hint does
  (`HttpSysBody.BoundedIffHintPositive`). One of 2^32 or more is truncated on the
  way to the system call and costs a receive for every byte behind the first
  answer (`HttpSysBody.ExactCost`).
- The comment in `async_recieve_request` asks whether NO_ERROR should release or
  complete: handlers are delivered exactly once if and only if the program
  releases exactly where a packet is promised (`Overlapped.ReleaseIffPromised`).
- `get_response` is idempotent exactly for responses without body and trailers
  (`Convert.IdempotentIffNoEntity`). The chunks of earlier calls are published
  again with their old lengths, and each still stands for the text it was made for
  if and only if the body, or the trailers, have not been set since
  (`Convert.ChunkIsReadableIff`): a body cleared between two calls leaves a chunk
  of the old length whose text is gone (`Convert.ClearedBodyIsPublished`).
- `format_url_base` is commented as ensuring a scheme and no final slash; the code
  checks the length only and removes one slash, so the result is as commented
  exactly when the argument has a scheme and does not end in two slashes
  (`Controller.BaseAsCommentedIff`).
- A routing entry registered with an empty function withdraws an earlier one
  (`Controller.LatestRegistrationWins`).
- A part with a question mark after its first character is accepted and never
  served; the requests for a part go to its latest registration, with any query,
  if and only if the URL holds no question mark (`Controller.PartIsServedIff`,
  `Controller.MarkedPartIsNotFound`).
- A call for a second operation on a request handle leaves the first one's
  invariant, and is left alone by it, if and only if the first has no call in
  progress or to come (`WinHttpSharing.SharesIffNoCallToCome`); a write started
  while a read is outstanding makes the read's callback fail its assertion
  (`WinHttpSharing.SecondCallFaultsIff`).
- A second accept started too early either throws or hands the pipe that is
  still connecting to the wrong handler
  (`PipeAcceptor.AcceptOnlyWhenIdle`, `PipeAcceptor.OverlappingAcceptStealsPipe`).

## Model

| member | source | states |
|---|---|---|
| `DynamicBuffers.PrepareFillCommit` | tests/winhttp/winhttp_infra_test.cpp:37-51 | what arrives in the prepared area is appended by the commit of its length, and the vector is trimmed to it |
| `DynamicBuffers.DynamicBuffer.Prepare` | tests/winhttp/winhttp_infra_test.cpp:42-48 | resizes to the committed size plus n, keeps the prefix, commits nothing |
| `DynamicBuffers.DynamicBuffer.Commit` | tests/winhttp/winhttp_infra_test.cpp:48-50 | takes over at most what was prepared and drops the rest |
| `WinHttpContext.RequestContext.StepComplete` | include/boost/winasio/winhttp/winhttp_asio.hpp:138-151 | stores error and length, then sets the event |
| `WinHttpContext.RequestContext.StepReset` | include/boost/winasio/winhttp/winhttp_asio.hpp:155-164 | resets the event and clears the result |
| `WinHttpContext.RequestContext.Initiate` | include/boost/winasio/winhttp/winhttp_asio.hpp:349-457 | state of the context when the call returns refused, pending, or already answered inside the call |
| `WinHttpContext.StatusCallback` | include/boost/winasio/winhttp/winhttp_asio.hpp:177-289 | under the callback's assertions each notice completes the step with its error and length |
| `WinHttpContext.MatchingNoticeAsserts` | include/boost/winasio/winhttp/winhttp_asio.hpp:196-288 | a matching notice meets every assertion of the callback in exactly one state of the context, the one its initiator sets |
| `WinHttpOps.ReadBodyOp.Resume` | include/boost/winasio/winhttp/winhttp_asio.hpp:474-514 | one resumption of the body operation as a step of state and buffer |
| `WinHttpOps.ExecOp.Deliver` | include/boost/winasio/winhttp/client.hpp:47-77 | a completion reaches the body operation first while there is one, and its completion reaches async_exec |
| `WinHttpOps.ExecOp.Step` | include/boost/winasio/winhttp/client.hpp:47-77 | send, receive, then a fresh body operation |
| `WinHttpOps.ReadSomeOp.Resume` | include/boost/winasio/winhttp/winhttp_stream.hpp:33-62 | query, then one read of at most the buffer's size |
| `WinHttpOps.WriteSomeOp.Resume` | include/boost/winasio/winhttp/winhttp_stream.hpp:80-102 | one write, then completion with its length |
| `WinHttpSystem.InvMove` | include/boost/winasio/winhttp/winhttp_asio.hpp:106-289 | one inductive invariant ties operation, context, outstanding call, event and histories, and every move of either thread or of WinHTTP keeps it |
| `WinHttpSystem.InvAlways` | include/boost/winasio/winhttp/winhttp_asio.hpp:106-457 | the invariant holds after every run of every operation, whatever an earlier operation left in the context, and whatever uncommitted tail a read left in the buffer |
| `WinHttpRuns.EveryRunIsSafe` | include/boost/winasio/winhttp/winhttp_asio.hpp:41-93 | in every interleaving: no assertion of callback or machines fails, no byte outside the prepared area, each handler gets the result of its own call, the token runs at most once and exactly at the end |
| `WinHttpRuns.HandlersGetTheNotice` | include/boost/winasio/winhttp/winhttp_asio.hpp:177-289 | in every run, by kind of notice: a handler is called with the error of its refusal or error notice and length 0, with the number its query or write notice carries, or with the number of bytes read |
| `WinHttpRuns.NoLostWakeup` | include/boost/winasio/winhttp/winhttp_asio.hpp:138-164 | a run can always go on until the operation has ended, not only by an error, and never after |
| `WinHttpRuns.EachCallTakesTwelveMoves` | include/boost/winasio/winhttp/winhttp_asio.hpp:349-457 | whatever the interleaving, a call takes exactly twelve moves from its first store to its handler, accepted or refused |
| `WinHttpRuns.ArmedByMoves` | include/boost/winasio/winhttp/winhttp_asio.hpp:353-356 | the initiator up to its WinHTTP function is the first four moves of the issuing thread |
| `WinHttpRuns.RefusalIsMoves` | include/boost/winasio/winhttp/winhttp_asio.hpp:352-362 | the initiator method for a pending or refused call is the moves of the two-thread model with nothing in between |
| `WinHttpRuns.InlineAnswerIsMoves` | include/boost/winasio/winhttp/winhttp_asio.hpp:138-151 | so is a callback that runs inside the WinHTTP function |
| `WinHttpRuns.RunPlaysMachine` | include/boost/winasio/winhttp/winhttp_asio.hpp:41-93 | calls, buffer and token of a run are those of the operation's machine fed with the answers in order |
| `WinHttpRuns.ExecRefinesProgram` | include/boost/winasio/winhttp/client.hpp:95-161 | every run of async_exec is a run of send; receive; (query; read)*: same calls, none after the first error, the token carries that error or success, also when opening fails |
| `WinHttpRuns.EarlyErrorIsReported` | include/boost/winasio/winhttp/client.hpp:114-137 | a token posted before the first call carries the error of the failed open or option |
| `WinHttpRuns.EntryDecides` | include/boost/winasio/winhttp/client.hpp:107-137 | in every run of async_exec, the results of opening the request and setting its option decide: past them both were 0 and the option was set exactly when asked for; otherwise no call is ever made |
| `WinHttpRuns.FailedEntryStops` | include/boost/winasio/winhttp/client.hpp:117-136 | after a failed open or option no call has been made, and the token is queued with that error or has run with it |
| `WinHttpRuns.CallsFollowEntry` | include/boost/winasio/winhttp/client.hpp:107-142 | a run with a call has opened the request, and set its option exactly when asked to |
| `WinHttpRuns.ExecAsksWhatIsAnnounced` | include/boost/winasio/winhttp/winhttp_asio.hpp:488-496 | each read of a run of async_exec asks for the number its query's notice carried |
| `WinHttpRuns.ExecRunsAreFinite` | include/boost/winasio/winhttp/client.hpp:48-77 | the length of a run is bounded by a linear function of the body's length, for every split and interleaving |
| `WinHttpRuns.StuckExecRunHasDelivered` | include/boost/winasio/winhttp/client.hpp:48-77 | a run that cannot go on has run its token once, with the whole body committed on success and a prefix on an error |
| `WinHttpStandalone.ReadBodyAsksWhatIsAnnounced` | include/boost/winasio/winhttp/winhttp_asio.hpp:488-496 | so with async_read_body on its own |
| `WinHttpStandalone.ReadBodyRunsAreFinite` | include/boost/winasio/winhttp/winhttp_asio.hpp:475-514 | so is the length of every run of async_read_body used on its own |
| `WinHttpStandalone.StuckReadBodyHasDelivered` | include/boost/winasio/winhttp/winhttp_asio.hpp:475-514 | its run that cannot go on has run its token once, with the body committed, or with the last answer's error and a prefix |
| `WinHttpStandalone.ReadSomeRunsAreFinite` | include/boost/winasio/winhttp/winhttp_stream.hpp:33-62 | a run of async_read_some has at most 36 moves, honest server or not |
| `WinHttpStandalone.StuckReadSomeHasDelivered` | include/boost/winasio/winhttp/winhttp_stream.hpp:33-62 | its run that cannot go on has run its token once; on success the next bytes of the body are in the caller's memory, none exactly at the end or without room |
| `WinHttpStandalone.StuckReadSomeTells` | include/boost/winasio/winhttp/winhttp_stream.hpp:33-62 | its token carries the error of the last call, or the number of bytes read |
| `WinHttpStandalone.WriteSomeRunsAreFinite` | include/boost/winasio/winhttp/winhttp_stream.hpp:80-102 | a run of async_write_some has at most 24 moves |
| `WinHttpStandalone.StuckWriteSomeHasDelivered` | include/boost/winasio/winhttp/winhttp_stream.hpp:80-102 | its run that cannot go on has run its token once, with the error of its one call or the number of bytes WinHTTP has reported |
| `WinHttpSharing.SharesIffNoCallToCome` | include/boost/winasio/winhttp/winhttp_asio.hpp:349-460 | a call started for another operation keeps the invariant of the first and keeps its own state and unset event, whatever the first does, if and only if the first has no call in progress or to come |
| `WinHttpSharing.SecondCallFaultsIff` | include/boost/winasio/winhttp/winhttp_asio.hpp:196-288 | once another call has written its state, the callback of an outstanding call fails its assertion if and only if the two states differ |
| `WinHttpBody.ReaderIsLoop` | include/boost/winasio/winhttp/winhttp_asio.hpp:482-513 | the body operation, alone or inside async_exec, issues the calls and commits the data of the plain loop, and leaves an uncommitted tail in the vector on success |
| `WinHttpBody.ExecIsProgram` | include/boost/winasio/winhttp/client.hpp:55-76 | async_exec's machine issues the calls, commits the data and ends with the verdict of the plain program |
| `WinHttpBody.LoopReassembles` | include/boost/winasio/winhttp/winhttp_asio.hpp:488-508 | every split of the body into query and read answers is put together again, within a bounded number of answers |
| `WinHttpBody.ExecStops` | include/boost/winasio/winhttp/client.hpp:50-53 | the call sequence has the shape send, receive, then query and read in turn, and only the last answer can be an error |
| `WinHttpStream.ReadBodyReassembles` | include/boost/winasio/winhttp/winhttp_asio.hpp:475-514 | initial content followed by the body on success, by a prefix otherwise; an error is the last answer's |
| `WinHttpStream.SessionReadsNext` | include/boost/winasio/winhttp/winhttp_stream.hpp:34-62 | one async_read_some returns the next bytes, at most its buffer, and 0 exactly at the end or without room |
| `WinHttpStream.SessionCalls` | include/boost/winasio/winhttp/winhttp_stream.hpp:40-56 | a session queries once and then reads once, for the number announced or for the size of its memory, whichever is less |
| `WinHttpStream.SessionsReadInOrder` | include/boost/winasio/winhttp/winhttp_stream.hpp:34-62 | repeated async_read_some yields in-order prefixes of the body and 0 exactly when it is consumed |
| `WinHttpStream.ReadersAgree` | include/boost/winasio/winhttp/winhttp_stream.hpp:127-143 | sessions until 0 hand over exactly what async_read_body commits |
| `WinHttpStream.WriteSomeOffersBuffer` | include/boost/winasio/winhttp/winhttp_stream.hpp:81-98 | one call, for the whole buffer exactly when its size is a DWORD; the handler is told the call's error or WinHTTP's own number, never more than the size |
| `WinHttpStream.WritesInOrder` | include/boost/winasio/winhttp/winhttp_stream.hpp:80-102 | writes that each offer some of what is left hand the data over in order without a gap, all of it exactly when the lengths reported add up to its size |
| `WinHttpStream.WritesAreBounded` | include/boost/winasio/winhttp/winhttp_stream.hpp:80-102 | if each takes something there are no more writes than bytes |
| `HttpSysReceive.ReceiveOp.Resume` | include/boost/winasio/http/http_asio.hpp:47-83 | one resumption of the request receive as a step |
| `HttpSysReceive.ReceiveOp.Receive` | include/boost/winasio/http/http_asio.hpp:92-103 | prepares, nulls the id the first time only, and asks with the id found in the buffer |
| `HttpSysReceive.ReceiveBodyOp.Resume` | include/boost/winasio/http/http_asio.hpp:117-158 | one resumption of the body receive as a step |
| `HttpSysReceive.VerdictsDecide` | include/boost/winasio/http/http_asio.hpp:58-80 | which completions are retried, and which end in success or failure |
| `HttpSysRequest.RetryFollowsAnswer` | include/boost/winasio/http/http_asio.hpp:58-104 | after any answers, a retry follows ERROR_MORE_DATA only, commits nothing, and fails the growth assertion exactly when the length reported is no larger than what the buffer had committed at the start |
| `HttpSysRequest.RefusedAsTooSmall` | include/boost/winasio/http/basic_http_queue_handle.hpp:117-130 | a receive refused at once with ERROR_MORE_DATA fails the assertion and is retried with 0 bytes and an id outside the vector |
| `HttpSysRequest.RetriesKeepTheId` | include/boost/winasio/http/http_asio.hpp:58-104 | unless a receive was so refused, every retry asks for the size reported last with the id the kernel left in the buffer, and sizes grow |
| `HttpSysRequest.RequestOutcome` | include/boost/winasio/http/http_asio.hpp:59-80 | for any buffer and any answers, a head is appended exactly when the kernel delivered one; end of file, also by refusal, is a success that committed nothing; any other error is reported |
| `HttpSysRequest.GrowthHoldsIff` | include/boost/winasio/http/http_asio.hpp:64-68 | the growth assertion holds against every kernel if and only if the buffer has committed at the start no more than the first attempt asks for, and receives are never refused at once with ERROR_MORE_DATA |
| `HttpSysRequest.RoomHoldsIff` | include/boost/winasio/http/basic_http_queue_handle.hpp:123-126 | the initiator's assertion about the buffer holds against every kernel if and only if receives are never so refused |
| `HttpSysRequest.RetriesBoundedIff` | include/boost/winasio/http/http_asio.hpp:64-68 | the retries are bounded by how far the reported sizes can grow, against every kernel, if and only if receives are never so refused |
| `HttpSysRequest.ExactReportsRetryOnce` | include/boost/winasio/http/http_asio.hpp:50-79 | with exact reports there is one retry exactly when the request exceeds the first buffer, and the request is what is committed |
| `HttpSysBody.BodyReassembles` | include/boost/winasio/http/http_asio.hpp:117-175 | for every hint and every split, also with a last tail at the end of file or an end of file by refusal, the buffer is what it had committed followed by the body; the length reported is the last answer's |
| `HttpSysBody.LastAnswerDecides` | include/boost/winasio/http/http_asio.hpp:130-154 | after any answers: the hint is asked for again after an answer of that size and one byte after a shorter one; the end of file is a success with the length of its tail; any other error is reported with its length |
| `HttpSysBody.ReceivesAreBounded` | include/boost/winasio/http/http_asio.hpp:140-153 | every answer but the last brings at least one byte |
| `HttpSysBody.BoundedIffHintPositive` | include/boost/winasio/http/http_asio.hpp:120-153 | the number of receives is bounded for every body if and only if the hint is not 0 |
| `HttpSysBody.ExactCost` | include/boost/winasio/http/http_asio.hpp:130-154 | with FILL_BUFFER, n/h + 1 receives when h divides n and n/h + 2 otherwise, and a peak of (n/h + 1)*h bytes behind what was committed, the probe included; for h of 2^32 or more, a receive for each byte behind the first answer; at the end the vector is trimmed to the body |
| `HttpSysBody.FillRunIsARun` | include/boost/winasio/http/http_asio.hpp:142-153 | the counted run is one of the runs the reassembly result speaks of |
| `Overlapped.AsyncReceiveRequest` | include/boost/winasio/http/basic_http_queue_handle.hpp:96-131 | releases where http.sys promises a packet, otherwise completes with the error and length 0; its assertion fails exactly on ERROR_INSUFFICIENT_BUFFER |
| `Overlapped.AsyncReceiveBody` | include/boost/winasio/http/basic_http_queue_handle.hpp:147-166 | the same for body receives |
| `Overlapped.AsyncSendResponse` | include/boost/winasio/http/basic_http_queue_handle.hpp:181-207 | the same for responses |
| `Overlapped.AsyncServerConnect` | include/boost/winasio/named_pipe/named_pipe.hpp:87-126 | the same for pipes, where only a pending connect is released and a connected client completes with success |
| `Overlapped.CodeRuleIsPromise` | include/boost/winasio/http/basic_http_queue_handle.hpp:96-207 | the rule the run models play is what the four initiators do, and releases exactly where a packet is promised |
| `Overlapped.ReleaseIffPromised` | include/boost/winasio/http/basic_http_queue_handle.hpp:108-131 | for any rule of releasing: every run keeps each handler in exactly one place and loses none, if and only if the rule releases exactly where a packet is promised |
| `Overlapped.InitiatorsDeliverOnce` | include/boost/winasio/http/basic_http_queue_handle.hpp:96-207 | in every run of the library's initiators no handler runs twice, and when nothing is left to happen each has run once |
| `Serving.Loop.OnReceived` | include/boost/winasio/http/basic_http_controller.hpp:107-127 | what either loop does with a completed receive, the controller re-arming first, the chain starting the next connection after the body read |
| `Serving.Loop.OnBody` | include/boost/winasio/http/temp.hpp:98-126 | a complete body is dispatched and then answered, unless dispatch throws; a failed one is not |
| `Serving.ServingConserves` | include/boost/winasio/http/basic_http_controller.hpp:107-153 | in every run a controller has one receive outstanding; a chain has one until a receive fails and then none; requests received = body reads outstanding + bodies failed + dispatched; one response is sent for each dispatch that does not throw |
| `Serving.ConnectionConserves` | include/boost/winasio/http/temp.hpp:77-126 | each connection has exactly the calls of its phase, across retries, and sends one response after its body is complete, unless dispatch throws, and never another |
| `ServingCodes.BodyRunDoes` | include/boost/winasio/http/temp.hpp:98-126 | the completion of a body read, by code: 38 dispatches and answers, unless dispatch throws, 0 reads on, anything else fails the body; the new calls and phases in full |
| `ServingCodes.ReceiveRunDoes` | include/boost/winasio/http/basic_http_controller.hpp:107-127 | the completion of a receive, by code: 0 and 38 read the body, 234 receives again, anything else fails; with the next receive of either loop, in its order |
| `ServingCodes.PhasesFollowCodes` | include/boost/winasio/http/temp.hpp:77-126 | in every run, a connection was dispatched, or failed to be read or received, exactly if one of its handlers was given the code for that |
| `PipeAcceptor.Acceptor.ServerCreate` | include/boost/winasio/named_pipe/named_pipe.hpp:57-80 | a created pipe fills the slot, a failure leaves it, and an open slot makes the assignment throw |
| `PipeAcceptor.Acceptor.AsyncAccept` | include/boost/winasio/named_pipe/named_pipe_acceptor.hpp:83-101 | a failed creation hands the slot's content to the handler at once; otherwise the connect handler is released or completed |
| `PipeAcceptor.ConnectHandsOverPipe` | include/boost/winasio/named_pipe/named_pipe.hpp:96-126 | an accept from an idle acceptor hands over the new pipe: with success for a client already connected, with the error of a failure, otherwise with what the packet says |
| `PipeAcceptor.FailedCreateHandsOverNothing` | include/boost/winasio/named_pipe/named_pipe_acceptor.hpp:89-93 | when the pipe cannot be created the handler is given that error and no pipe |
| `PipeAcceptor.AcceptOnlyWhenIdle` | include/boost/winasio/named_pipe/named_pipe_acceptor.hpp:48-50 | a move keeps one owner per pipe and an unbroken slot if and only if it does not start an accept while one is under way |
| `PipeAcceptor.EveryAcceptRunIsGood` | include/boost/winasio/named_pipe/named_pipe_acceptor.hpp:83-101 | in every run that starts each accept after the last completed, the slot is closed when a pipe is assigned, each pipe has exactly one owner, and success hands over a pipe |
| `PipeAcceptor.OverlappingAcceptStealsPipe` | include/boost/winasio/named_pipe/named_pipe_acceptor.hpp:89-98 | what goes wrong otherwise when the second pipe cannot be created |
| `OrderedMaps.LessIsLexicographic` | include/boost/winasio/http/convert.hpp:169-175 | the order of the keys is that of the first differing character, prefixes first |
| `OrderedMaps.PutSorted` | include/boost/winasio/http/convert.hpp:169-175 | an assignment keeps the key order and changes one key only |
| `OrderedMaps.PutIsUpdate` | include/boost/winasio/http/convert.hpp:169-175 | an assignment to the ordered entries is a map update |
| `Convert.SimpleResponse.GetResponse` | include/boost/winasio/http/convert.hpp:177-245 | the new response structure, arrays and chunk list as a function of the fields and of what earlier calls left; whether every known header was written inside the array |
| `Convert.FillBuffer` | include/boost/winasio/http/convert.hpp:193-201 | the array of a map, in key order, with 16-bit lengths |
| `Convert.GetUnknownHeadersAll` | include/boost/winasio/http/convert.hpp:59-72 | the map left by reading the counted headers in order |
| `Convert.LatestHeaderDecides` | include/boost/winasio/http/convert.hpp:59-72 | of several headers of a name the latest gives the value |
| `Convert.OtherNamesStay` | include/boost/winasio/http/convert.hpp:59-72 | a name that no header has keeps what the map held |
| `Convert.DecodeKnownHolds` | include/boost/winasio/http/convert.hpp:18-32 | each slot that is not empty gives an entry with its text, and there is no other |
| `Convert.GetKnownHeadersAll` | include/boost/winasio/http/convert.hpp:18-32 | the non-empty slots by id |
| `Convert.UnknownHeadersRoundTrip` | include/boost/winasio/http/convert.hpp:193-207 | decoding the published array with the published count gives the map back if and only if names, values and the count fit in 16 bits |
| `Convert.KnownHeadersRoundTrip` | include/boost/winasio/http/convert.hpp:186-191 | the known headers come back without the empty ones if and only if each other one has an id of the array and fits in 16 bits |
| `Convert.ChunksRoundTrip` | include/boost/winasio/http/convert.hpp:209-242 | body first, trailers last, no other chunk; the trailers come back if and only if they fit in 16 bits |
| `Convert.CallsPileUp` | include/boost/winasio/http/convert.hpp:177-245 | whatever is set between calls: status, reason and headers are the latest, the chunks of all calls are published in order, each with the length or count of its call, and their number is taken modulo 2^16 |
| `Convert.RunPublishes` | include/boost/winasio/http/convert.hpp:151-245 | so in every run of the object's own methods, in any order |
| `Convert.ChunkIsReadableIff` | include/boost/winasio/http/convert.hpp:163-242 | in every run, the chunks of each call stay published; a body chunk stands for the text it was made for if and only if the body has not been set since, a trailers chunk for its list if and only if the trailers have not |
| `Convert.ClearedBodyIsPublished` | include/boost/winasio/http/convert.hpp:163-216 | a body cleared between two calls leaves one chunk, of the old length, whose text is gone |
| `Convert.RepeatedCalls` | include/boost/winasio/http/convert.hpp:177-245 | after k calls the header arrays are the same and there are k copies of the chunk group, with the count modulo 2^16 |
| `Convert.IdempotentIffNoEntity` | include/boost/winasio/http/convert.hpp:209-242 | a further call publishes the same response if and only if body and trailers are empty |
| `ResponseCalls.StatusLineIsLatest` | include/boost/winasio/http/convert.hpp:151-184 | after any calls and a final get_response, the status line is that of the latest set_status_code and set_reason |
| `ResponseCalls.BodyIsLatest` | include/boost/winasio/http/convert.hpp:163-219 | and what the latest set_body has set, if not empty, is the text of the chunk before the trailers |
| `ResponseCalls.EmptyBodyIsAbsent` | include/boost/winasio/http/convert.hpp:209-242 | and a body that is empty by then adds no chunk |
| `ResponseCalls.KnownHeadersAreCalls` | include/boost/winasio/http/convert.hpp:165-191 | and the slot of a known header holds the value of the latest add_known_header for its id, and nothing without such a call |
| `ResponseCalls.UnknownHeadersAreCalls` | include/boost/winasio/http/convert.hpp:169-207 | and the array of unknown headers holds a name with a value if and only if the latest add_unknown_header for the name gave it |
| `ResponseCalls.TrailersAreCalls` | include/boost/winasio/http/convert.hpp:173-236 | so with the trailers and add_trailer, in the array the last chunk points to |
| `ResponseCalls.DecodedHeadersAreCalls` | include/boost/winasio/http/convert.hpp:59-72 | within the sizes of the format, decoding the published headers gives the map of the latest call for each name, and nothing else |
| `ResponseCalls.DecodedKnownAreCalls` | include/boost/winasio/http/convert.hpp:18-32 | decoding the known headers gives the value of the latest call for each id, as far as its 16-bit length goes, and nothing else |
| `HeaderBlock.Headers.Add` | include/boost/winasio/winhttp/winhttp.hpp:490-497 | the text is always the block of the fields added so far |
| `HeaderBlock.Headers.Get` | include/boost/winasio/winhttp/winhttp.hpp:498-503 | no text exactly when nothing was added |
| `HeaderBlock.Headers.Size` | include/boost/winasio/winhttp/winhttp.hpp:505 | the length of the text as a DWORD |
| `HeaderBlock.RoundTripIffClean` | include/boost/winasio/winhttp/winhttp.hpp:490-497 | splitting at CRLF and at the first colon-space gives the fields back if and only if no key or value holds a CRLF and no key a colon-space |
| `HeaderBlock.BlocksAreDistinct` | include/boost/winasio/winhttp/winhttp.hpp:490-497 | different clean lists give different blocks |
| `Controller.BaseAsCommentedIff` | include/boost/winasio/http/basic_http_controller.hpp:79-87 | the formatted base has a scheme and no final slash, as commented, if and only if the argument has a scheme and does not end in two slashes |
| `Controller.HttpController.Register` | include/boost/winasio/http/basic_http_controller.hpp:96-105 | an invalid part is refused; otherwise the table answers every lookup as the extended registration log does |
| `Controller.HttpController.Dispatch` | include/boost/winasio/http/basic_http_controller.hpp:129-148 | the outcome and default status follow the registration log |
| `Controller.LatestRegistrationWins` | include/boost/winasio/http/basic_http_controller.hpp:102-148 | a request for a registered part and verb, with any query string or none, goes to the latest registration for that pair, and to 404 if that was empty, provided the URL holds no question mark |
| `Controller.PartIsServedIff` | include/boost/winasio/http/basic_http_controller.hpp:88-148 | for a valid part: in every log and with every query its requests go to its latest registration, if and only if the URL holds no question mark |
| `Controller.MarkedPartIsNeverServed` | include/boost/winasio/http/basic_http_controller.hpp:131-139 | a registration whose URL holds a question mark changes the outcome of no request |
| `Controller.MarkedPartIsNotFound` | include/boost/winasio/http/basic_http_controller.hpp:88-144 | the failing input: such a part registered alone, and a request for it, which is 404 |
| `Controller.OthersAreNotFound` | include/boost/winasio/http/basic_http_controller.hpp:141-144 | any other pair is 404, except that a verb outside the array raises for a registered URL |

## Left out

- The Win32, WinHTTP and http.sys calls themselves, asio's executors and
  completion tokens: only their answers and "a posted handler runs once" are modelled.
- The race inside asio between releasing an overlapped handler and its packet:
  a released handler is queued when its packet is posted.
- Pointers: headers and request structures are modelled by the values they point
  to. What a chunk's pointer reads once the body or the trailers have been set
  again is left open, and so is the case of a new trailer added without a further
  `get_response`, in which the old array happens to survive.
- `Convert.SimpleResponse.GetResponse`: says that a known-header id lies outside the
  response array, not what the write there does to the structure behind it.
- The layout of the request structure: its size and the place of its id are parameters.
- URL cracking, header queries, error texts, logging, handle wrappers, URL
  registration, `client_connect`, the reference form of `async_accept`, and the
  four verb wrappers of the controller: thin calls.
