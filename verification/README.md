# Verified model of the HTTP framework and chat server

A Dafny 4.11 model of the parts of the server that carry state, loops or concurrency, with proofs of
what they promise. `dafny verify dfyconfig.toml` checks the whole project.

The code that changes things in place is modelled by classes whose methods follow the C++ methods
step by step; each method is proved against a function of the old state, and the properties are
proved about those functions as lemmas over all inputs, all runs or all interleavings. The two
concurrent protocols are step systems.

| file | models |
|---|---|
| `Text.dfy` | byte strings, the library searches, `stoi`, `to_string` |
| `HttpRequest.dfy`, `HttpContext.dfy` | the request object and the resumable parser |
| `HttpRender.dfy` | requests as a client writes them; parsing undoes writing |
| `HttpServer.dfy`, `Backlog.dfy` | a connection: one parse, at most one dispatch, one reset per message event; the queue this makes |
| `Json.dfy`, `Upstream.dfy`, `Sse.dfy` | the streaming pipeline from the model's response to the page |
| `Sql.dfy` | published INSERT statements, the numeric session column, and a reader for both |
| `Conversation.dfy` | the chat helper, every branch of `chat` |
| `Persistence.dfy`, `Reload.dfy` | rows written in any order, sorted reload against memory, lazy against eager loading |
| `ChatServer.dfy` | the session index, and users loaded on first use |
| `WorkerPool.dfy`, `DbConnectionPool.dfy` | the write workers and the connection pool as step systems |
| `Deletion.dfy`, `Delivery.dfy` | runs of the write workers and their table: a DELETE against INSERTs under way; what was published is what reloads |
| `Utf8.dfy` | character truncation, renaming, automatic names |
| `Router.dfy` | route templates, their matching, the order of the tables |
| `HttpSession.dfy` | cookie sessions with sliding expiry |
| `QpsMetrics.dfy` | the sliding hit window |

## Results

- **Parser.** However the bytes are cut into fragments, stage, request, verdict and unread bytes are
  those of one call. Parsing undoes rendering for every well-formed request and any suffix. Over any
  fragments of a stream of well-formed requests the dispatched ones are the first of those sent, in
  order, and every received byte is accounted for. Exactly the legal request lines are accepted, and
  any head decides alone what becomes of its request.
- **Streaming.** The page recovers exactly the nonempty chunks in order, then the end mark, across
  arbitrary fragmentation on both networks and whatever an exception's message contains; told by the
  members of the model's replies, thoughts show as thoughts and the joined content is what is stored.
- **Chats.** A call that returns has kept the question and the last reply of the model, on every
  branch, in memory and in the rows; no request but a deletion takes a message away.
- **Protocols.** Every connection is in one place and no wakeup is lost, with stealing, spurious
  wakeups and failed reconnects; every call ends with a lease of its own or an exception. Every
  statement is in one place, acknowledged implies executed, and executions beyond the one of a
  settled statement are bounded by failures. A shutdown can always complete.

Where the code keeps a promise only under a condition, that condition is proved to be the exact one:

| promise | holds iff | member |
|---|---|---|
| the body shown is the one sent | the request has a body or no earlier one did (`swap` leaves body and length) | `StaleBodyExactly` |
| no complete request waits on a keep-alive connection | for every `m`, the messages after the first `m` completed at most as many requests as there are of them | `BurstWaitsExactly` |
| the answer on the page is the reply stored | what the failure frame says adds nothing, as when its message has neither line end nor quote | `ShownIsStored` |
| the failure frame shows its message | the message is nonempty and needs no escaping | `FailureFrameExactly` |
| whole conversations keep role parity | every turn kept nothing, or neither threw nor asked for more than one tool | `AlternationRun` |
| an inserted row is read back as it was | its session id is spelled as the BIGINT column prints it | `InsertRoundTrip` |
| every reload rebuilds a session as memory holds it, whatever the server makes of ids that are no numbers | every published id is a signed decimal number (unless the column cannot hold the session's own), the session's is the only spelling of its own, its messages are in time order, and those that tie are equal | `PersistenceRoundTrip`, `SurvivesExactly` |
| a reload gives a helper's own messages | besides, each turn published all it kept | `ConversationReloaded` |
| lazy and eager loading agree | a session's tied rows have one text, and no two sessions of the user share their earliest timestamp | `LazyRefinesEager` |
| a deleted session stays deleted, told when the DELETE is published | no worker is left, or each INSERT that stores or may store into the session is over or with the only worker left, and none follows | `Deletion.DeletedForGood` |
| the write workers go on | fewer workers were lost to exceptions and exits than there are | `PoolRunsExactly` |
| a request keeps list and helpers in agreement | it does not name an unknown session | `ListedExactly` |
| an id is read from among whole cookies | the name occurs in none of those before it, or the same id stands there | `CookieRoundTrip` |
| the session served is the earlier one | the id is alive when checked | `SlidingExpiry` |
| a rate query counts its window | no hit lies between the window's start and a later cutoff applied before | `QueryExactly` |

Renaming to a normalised name changes nothing on valid UTF-8 (`NormalNameIdempotent`), which is all
the JSON body can carry; `NormalNameAgain` adds what the loop by itself would do on other bytes.

Where code and documentation differ the model follows the code: comments promise an atomic
check-and-insert of loaded users and one stream per user at a time, the code has neither; dynamic
callbacks receive the request without the captured parameters; header names are compared exactly,
so `content-length` is not `Content-Length`.

## Model

| member | source | states |
|---|---|---|
| Text.StoiDecimal | HttpServer/src/http/HttpContext.cpp:58 | a length printed in decimal is read back by `stoi`, and refused exactly when it exceeds an `int` |
| HttpRequestModel.HttpRequest.SetMethod | HttpServer/src/http/HttpRequest.cpp:12-42 | only the method changes; success iff the name is one of the five known ones |
| HttpRequestModel.HttpRequest.SetQueryParameters | HttpServer/src/http/HttpRequest.cpp:75-106 | the loop over positions adds the `&`-separated pieces of the whole string in order |
| HttpRequestModel.HttpRequest.AddHeader | HttpServer/src/http/HttpRequest.cpp:108-122 | the header map gains the key with the value stripped of outer blanks |
| HttpRequestModel.TrimPadded | HttpServer/src/http/HttpRequest.cpp:112-120 | trimming removes exactly the padding: a value with clean ends survives any blanks around it |
| HttpRequestModel.HttpRequest.Swap | HttpServer/src/http/HttpRequest.cpp:135-144 | every field is exchanged except body and length, which each object keeps |
| HttpContextModel.HttpContext.Reset | HttpServer/include/http/HttpContext.h:31-36 | the parser expects a request line again and its request is blank, receive time included, but for body and length |
| HttpContextModel.HttpContext.ProcessRequestLine | HttpServer/src/http/HttpContext.cpp:119-161 | method, target and version are set as far as the line is well-formed, and success says whether all were |
| HttpContextModel.HttpContext.ParseRequest | HttpServer/src/http/HttpContext.cpp:10-116 | the loop reaches the state, verdict and unread bytes of the specified run; the receive time is set exactly when the request line is completed |
| HttpContextModel.AdvanceShrinks | HttpServer/src/http/HttpContext.cpp:14-114 | a turn that goes round again leaves fewer unread bytes and is not finished: the loop ends |
| HttpContextModel.RunExtends | HttpServer/src/http/HttpContext.cpp:10-116 | appending bytes changes nothing a call has decided: a settled call keeps its result with the bytes unread, a waiting one resumes |
| HttpContextModel.RunIdle | HttpServer/src/http/HttpContext.cpp:10-116 | calling again without new bytes changes nothing |
| HttpContextModel.RunLeavesTail | HttpServer/src/http/HttpContext.cpp:10-116 | what stays unread is a tail of what was given |
| HttpContextModel.FragmentationIndependence | HttpServer/src/http/HttpContext.cpp:10-116 | for any fragments, up to the first completed request or failure, state, request, verdict and unread bytes equal those of one call on all bytes |
| HttpRender.LineRoundTrip | HttpServer/src/http/HttpContext.cpp:119-161 | a rendered request line sets exactly method, path, query map and version |
| HttpRender.LineExactly | HttpServer/src/http/HttpContext.cpp:119-161 | a request line is accepted iff it is a served method, a target without blanks and one of the two versions |
| HttpRender.QueryRoundTrip | HttpServer/src/http/HttpRequest.cpp:75-106 | a rendered query string yields the map of its pairs, later ones winning |
| HttpRender.BarePieceDropped | HttpServer/src/http/HttpRequest.cpp:75-106 | a piece of the query string without an equals sign changes nothing, wherever it stands |
| HttpRender.HeaderRoundTrip | HttpServer/src/http/HttpContext.cpp:38-47 | one turn on a rendered header line adds that header and consumes that line |
| HttpRender.ColonNeeded | HttpServer/src/http/HttpContext.cpp:34-87 | a nonempty header line is refused iff it has no colon |
| HttpRender.HeadDecides | HttpServer/src/http/HttpContext.cpp:47-108 | whatever a head in order declares: exactly POST and PUT take a body, of the bytes declared and no others; without a declared length they are refused, an unreadable one throws, and other methods leave all that follows unread |
| HttpRender.ParseUndoesRender | HttpServer/src/http/HttpContext.cpp:10-161 | one call on a rendered well-formed request and any suffix yields method, path, query, version and headers as sent, the body for POST and PUT, and leaves the suffix |
| HttpRender.DeclaredByDecimal | HttpServer/src/http/HttpContext.cpp:52-67 | a `Content-Length` written in decimal declares its body |
| HttpServerModel.ServerConnection.Receive | HttpServer/src/http/HttpServer.cpp:86-143 | one message event parses once, dispatches and resets iff a request was completed, and answers 400 on failure or exception; a dispatch that throws answers 400 and leaves the parser finished |
| HttpServerModel.CurrentRequest | HttpServer/src/http/HttpServer.cpp:122-134 | a parser inside a rendered request completes exactly when all its bytes are in, with the request as sent and the later bytes unread |
| HttpServerModel.KeepAliveStep | HttpServer/src/http/HttpServer.cpp:122-134 | a message event dispatches the next request of the stream iff all its bytes have arrived, and keeps the connection's place in the stream |
| HttpServerModel.KeepAliveRun | HttpServer/src/http/HttpServer.cpp:122-134 | over any fragments: no rejection, dispatched requests are the first of those sent in order, at most one per message, and received bytes are dispatched ones, consumed ones and buffer |
| HttpServerModel.LeftoversDrain | HttpServer/src/http/HttpServer.cpp:122-134 | with the whole stream received, each further message event dispatches one more request until all have been |
| HttpServerModel.RequestPerMessage | HttpServer/src/http/HttpServer.cpp:122-134 | requests sent one per message event are all dispatched in order with nothing unread |
| HttpServerModel.WaitsAfterStep | HttpServer/src/http/HttpServer.cpp:122-134 | after one message event a complete request waits iff two whole ones were there to be served |
| HttpServerModel.DispatchedIsServed | HttpServer/src/http/HttpServer.cpp:122-134 | over any fragments the number dispatched is that of a queue serving one complete request per message |
| HttpServerModel.BurstWaitsExactly | HttpServer/src/http/HttpServer.cpp:122-134 | nothing complete waits iff for every m the messages after the first m completed no more requests than there are of them; in general the number dispatched is the least over m of what was complete after m plus the messages since |
| HttpServerModel.StaleBodyExactly | HttpServer/src/http/HttpRequest.cpp:135-144 | over any keep-alive run the body shown is the one sent iff that request carries a body or no earlier one did; otherwise it is the last body before |
| HttpServerModel.IllegalLineRun | HttpServer/src/http/HttpServer.cpp:122-127 | from an illegal request line on, every message event is answered with a 400 and nothing is dispatched any more |
| HttpServerModel.RefusedFromThere | HttpServer/src/http/HttpServer.cpp:122-134 | requests sent one by one before an illegal line are all served, and each message from it on is refused |
| HttpServerModel.HeadAnswered | HttpServer/src/http/HttpServer.cpp:122-143 | once a head is in, the request is dispatched with the declared bytes as its body, answered 400 or waited for, as what it declares says |
| HttpServerModel.ThrowingDispatch | HttpServer/src/http/HttpServer.cpp:129-143 | a dispatch that throws shows the same request and is answered with one 400 more |
| Json.EscapeForJson | AIApps/ChatServer/src/handlers/ChatStreamHandler.cpp:94-114 | the loop computes the escaped text whose inverse is the RFC 8259 reader below |
| Json.ScanUndoesEscape | AIApps/ChatServer/src/handlers/ChatStreamHandler.cpp:94-114 | reading escaped text, a quote and any suffix stops at that quote and decodes to the original |
| Json.EscapeNoControl | AIApps/ChatServer/src/handlers/ChatStreamHandler.cpp:91-114 | escaped text has no byte below 0x20, so it stays on one line |
| Json.ParseEscapedMember | AIApps/ChatServer/src/handlers/ChatStreamHandler.cpp:119-142 | the JSON object of a frame parses to its key and text |
| Json.RawMemberExactly | AIApps/ChatServer/src/handlers/ChatStreamHandler.cpp:154 | a text inserted without escaping is read back iff it has no quote, backslash or control byte |
| Json.SecondMember | AIApps/ChatServer/resource/AI.html:1338-1366 | a value that ends in a quote and goes on with a member parses to both members |
| Upstream.WriteData.OnWrite | AIApps/ChatServer/src/AIUtil/AIHelper.cpp:364-380 | a callback parses the nonempty lines it completes and buffers the rest |
| Upstream.Transfer | AIApps/ChatServer/src/AIUtil/AIHelper.cpp:352-391 | the lines parsed over a transfer are the nonempty pieces of the whole response, without the unfinished one on failure |
| Upstream.CallsAreLines | AIApps/ChatServer/src/AIUtil/AIHelper.cpp:352-391 | for any division into callbacks the calls are the nonempty pieces between line ends |
| Upstream.ChunksIgnoreWrites | AIApps/ChatServer/src/AIUtil/AIStrategy.cpp:302-345 | the emitted chunks depend only on the bytes and the transfer's success |
| Upstream.ChunksAreReplies | AIApps/ChatServer/src/AIUtil/AIStrategy.cpp:302-345 | the texts of the chunks of each kind are, in order, the nonempty `content` members, the nonempty `reasoning_content` members, and one notice per reply that ended for length |
| Upstream.LineInOrder | AIApps/ChatServer/src/AIUtil/AIStrategy.cpp:324-341 | within a line the notice comes first, then the thought, then the content, each at most once |
| Upstream.ChunksKnown | AIApps/ChatServer/src/AIUtil/AIStrategy.cpp:302-345 | every emitted chunk is nonempty and of one of the three kinds |
| Sse.StreamHandler.OnChunk | AIApps/ChatServer/src/handlers/ChatStreamHandler.cpp:119-145 | one frame for a nonempty chunk of a known kind, nothing otherwise; only content joins the reply |
| Sse.StreamHandler.Stream | AIApps/ChatServer/src/handlers/ChatStreamHandler.cpp:78-173 | session frame, chunk frames, failure frame, end mark; the reply or the placeholder is stored |
| Sse.Page.OnNetwork | AIApps/ChatServer/resource/AI.html:1372-1386 | the page dispatches each completed line and buffers the rest |
| Sse.ReadResponse | AIApps/ChatServer/resource/AI.html:1372-1391 | the events of a response are those of its whole text, whatever the fragments |
| Sse.FirstMemberShown | AIApps/ChatServer/resource/AI.html:1338-1366 | of several nonempty members the page takes the first in the order session id, error, reasoning, content, wherever they stand |
| Sse.BodyEvents | AIApps/ChatServer/src/handlers/ChatStreamHandler.cpp:78-173 | the page recovers session id, the nonempty content, thought and error chunks in order and the end mark whatever the failure message contains; its own frame gives the events between |
| Sse.ShownIsStored | AIApps/ChatServer/src/handlers/ChatStreamHandler.cpp:153-167 | the answer shown is the content followed by what the failure frame says, so it is the reply stored, or empty for the placeholder, when the failure message has neither line end nor quote |
| Sse.RepliesShown | AIApps/ChatServer/src/handlers/ChatStreamHandler.cpp:119-167 | the page shows what the replies say under its own kind, and the answer kept is their content joined |
| Sse.FrameInsideFailure | AIApps/ChatServer/src/handlers/ChatStreamHandler.cpp:153-158 | a failure message with a whole frame on a line of its own makes the page take that frame as an event |
| Sse.MemberInsideFailure | AIApps/ChatServer/src/handlers/ChatStreamHandler.cpp:153-158 | a failure message that goes on with another member shows up to its quote, or that member where nothing stood before it |
| Sse.FailureFrameExactly | AIApps/ChatServer/src/handlers/ChatStreamHandler.cpp:153-158 | the unescaped failure frame shows its message iff that is nonempty with no quote, backslash or control byte |
| Sse.StreamEndToEnd | AIApps/ChatServer/src/handlers/ChatStreamHandler.cpp:94-173 | across both fragmentations and for any failure message the page shows what the replies in the upstream bytes say under each kind; the stored reply is their joined content or the placeholder, and is what is shown when the failure message has neither line end nor quote |
| Sql.EscapeString | AIApps/ChatServer/src/AIUtil/AIHelper.cpp:408-423 | the loop computes the escaped text whose inverse is the literal reader below |
| Sql.ScanUndoesEscape | AIApps/ChatServer/src/AIUtil/AIHelper.cpp:408-423 | a quoted escaped text is read as a MySQL literal ending at its quote and denoting the original |
| Sql.InsertStores | AIApps/ChatServer/src/AIUtil/AIHelper.cpp:426-448 | whatever name and message contain, a statement with a signed decimal id stores the row under the column's spelling or is refused as out of range; with any other id it does not have the plain form |
| Sql.InsertRoundTrip | AIApps/ChatServer/src/AIUtil/AIHelper.cpp:426-448 | the very row is read back iff its session id is spelled as the column prints it |
| Sql.ColumnTextCanonical | docker/init.sql:19 | what the session column gives back goes in again unchanged |
| Sql.LeadingZerosMerge | docker/init.sql:19 | ids 007 and 7 are one session in the table |
| DbConnectionPool.PoolSafety | HttpServer/src/utils/db/DbConnectionPool.cpp:52-98 | over all interleavings every connection is queued, checked or leased, exactly one of them, and while a thread sleeps the queue is no longer than the woken threads |
| DbConnectionPool.CallsEnd | HttpServer/src/utils/db/DbConnectionPool.cpp:52-98 | over every run each call a thread made was handed a connection or threw, but for the one it is inside of |
| DbConnectionPool.LookExactly | HttpServer/src/utils/db/DbConnectionPool.cpp:58-70 | a look leaves the thread asleep iff the queue is empty and otherwise checking its front; no other thread and no lease changes |
| DbConnectionPool.HandedIsTaken | HttpServer/src/utils/db/DbConnectionPool.cpp:68-97 | over every run a thread is handed the connection it took last, as its own lease |
| DbConnectionPool.LeaseLasts | HttpServer/src/utils/db/DbConnectionPool.cpp:88-97 | a lease stays with its thread until its own return |
| DbConnectionPool.StepKeepsOnePlace | HttpServer/src/utils/db/DbConnectionPool.cpp:68-97 | taking, handing out, failed reconnect and return keep every connection in one place |
| DbConnectionPool.StepKeepsWakeups | HttpServer/src/utils/db/DbConnectionPool.cpp:58-95 | each step keeps the bound on queued connections, stealing and spurious wakeups included |
| DbConnectionPool.SleeperNotStranded | HttpServer/src/utils/db/DbConnectionPool.cpp:58-70 | with all connections back and a thread asleep, some woken thread obtains a connection by its next step |
| DbConnectionPool.QueueOrder | HttpServer/src/utils/db/DbConnectionPool.cpp:68-95 | over every run connections are handed out in the order they were queued |
| WorkerPool.DeliverySafety | AIApps/ChatServer/src/AIUtil/MQManager.cpp:39-67 | over all interleavings each statement is queued, held by one worker or acknowledged; acknowledged implies executed; without exceptions executed once iff settled |
| WorkerPool.StepKeepsOnePlace | AIApps/ChatServer/src/AIUtil/MQManager.cpp:52-66 | every step keeps each statement in exactly one place |
| WorkerPool.StepKeepsCounted | AIApps/ChatServer/src/AIUtil/MQManager.cpp:52-66 | executions stay between one for settled statements and one more than their failures |
| WorkerPool.CleanShutdown | AIApps/ChatServer/src/AIUtil/MQManager.cpp:32-62 | after all workers left, a statement no exception hit was executed once iff acknowledged, else it is queued and unexecuted |
| WorkerPool.ShutdownCompletes | AIApps/ChatServer/src/AIUtil/MQManager.cpp:32-62 | after any run, told to stop, every worker can finish what it holds and leave; then exactly what was not queued is acknowledged |
| WorkerPool.ExitNeedsStop | AIApps/ChatServer/src/AIUtil/MQManager.cpp:52-62 | no worker leaves its loop of itself before the pool was told to stop |
| WorkerPool.PoisonStopsPool | AIApps/ChatServer/src/AIUtil/MQManager.cpp:57-66 | one statement whose handler throws can end every worker; it is never acknowledged and stays queued |
| WorkerPool.AnyWorkerMayFail | AIApps/ChatServer/src/AIUtil/MQManager.cpp:52-66 | wherever a worker stands an exception can end it |
| WorkerPool.DownForever | AIApps/ChatServer/src/AIUtil/MQManager.cpp:64-66 | with every worker ended nothing is executed or acknowledged any more |
| WorkerPool.WorkersGone | AIApps/ChatServer/src/AIUtil/MQManager.cpp:39-67 | over every run the workers gone are those of the throwing and exiting steps, one each |
| WorkerPool.PoolRunsExactly | AIApps/ChatServer/src/AIUtil/MQManager.cpp:39-67 | after any run some worker is up, and any queued statement can still be executed and acknowledged, iff there were fewer such steps than workers |
| Conversation.AIHelper.AddMessage | AIApps/ChatServer/src/AIUtil/AIHelper.cpp:28-35 | a message joins memory and, unless publishing throws, the published rows with the same text and time |
| Conversation.AIHelper.Chat | AIApps/ChatServer/src/AIUtil/AIHelper.cpp:43-226 | on every branch memory and rows change by one turn; a call that returns kept question and answer as first and last entry and as the two rows, the answer being the last reply of the model or the fixed text where none was usable |
| Conversation.AnswerIsLastReply | AIApps/ChatServer/src/AIUtil/AIHelper.cpp:43-226 | what a call stores and returns is the last thing the model said, after tools the second reply; an empty one is stored and replaced for the caller by the branch's own error text |
| Conversation.ReturnsExactly | AIApps/ChatServer/src/AIUtil/AIHelper.cpp:43-226 | a call returns iff it was prepared, no model call threw, the tools asked for could be read and their results written, and both entries were published |
| Conversation.ThrowLeaves | AIApps/ChatServer/src/AIUtil/AIHelper.cpp:43-226 | a call that threw leaves nothing, the prompt of the model call that threw, or the question with what the tools pushed and its row, by branch |
| Conversation.AIHelper.ChatTools | AIApps/ChatServer/src/AIUtil/AIHelper.cpp:108-150 | request and results are pushed, exactly two entries popped, then the answer is added |
| Conversation.AIHelper.BuildRequest | AIApps/ChatServer/src/AIUtil/AIStrategy.cpp:219-241 | the request lists all messages with roles by parity |
| Conversation.ToolTurnLength | AIApps/ChatServer/src/AIUtil/AIHelper.cpp:108-150 | k tool calls change the length by k + 1 |
| Conversation.TurnKeepsAlternation | AIApps/ChatServer/src/AIUtil/AIHelper.cpp:43-226 | a turn keeps whole question-answer pairs with stored roles by parity iff it kept nothing, or did not throw and asked for at most one tool |
| Conversation.AlternationRun | AIApps/ChatServer/src/AIUtil/AIHelper.cpp:43-226 | a sequence of chats and streams keeps parity iff every turn is balanced in that sense, and then each that kept something adds two entries; once lost, parity never returns |
| Persistence.SurvivesExactly | AIApps/ChatServer/src/ChatServer.cpp:54 | a session comes back as published for every evaluation of ids that are no numbers, every execution order and tie-breaking iff every published id is a signed decimal number (not asked of a session the column cannot hold), no other spelling of its own was published by the user, and its timestamps increased, identical rows aside |
| Persistence.SumJoinsSession | AIApps/ChatServer/src/AIUtil/AIHelper.cpp:436-442 | under an evaluation of sums a row published under `1+1` is stored in session 2, which does not survive |
| Persistence.TieIsLost | AIApps/ChatServer/src/ChatServer.cpp:115-117 | two different rows of a session with one timestamp may come back exchanged |
| Persistence.StatementEffect | AIApps/ChatServer/src/handlers/ChatDeleteSessionHandler.cpp:66-69 | an insertion with a number appends to the session it denotes, any other appends what the evaluation stores there, a deletion empties the session its number denotes, and every other session keeps its rows |
| Deletion.DeletedForGood | AIApps/ChatServer/src/handlers/ChatDeleteSessionHandler.cpp:66-69 | told when the DELETE is published: in every interleaving that executes it, under every evaluation, the session ends empty iff no worker is left, or each INSERT that stores or may store into it, published or to come, is over or with the only worker left |
| Deletion.AcknowledgedFirst | AIApps/ChatServer/src/AIUtil/MQManager.cpp:52-66 | with two workers up and exceptions possible that is: every such INSERT was acknowledged when the DELETE was published and none follows |
| Delivery.EffectsArePublished | AIApps/ChatServer/src/AIUtil/MQManager.cpp:39-67 | over every run without exceptions that acknowledges everything, the statements that took effect are the published ones, each once |
| Delivery.RunStoresPublished | AIApps/ChatServer/src/AIUtil/MQManager.cpp:39-67 | such a run leaves the table with the rows published, in some order |
| Delivery.RunReloads | AIApps/ChatServer/src/ChatServer.cpp:108-166 | after such a run, over all interleavings, a reload rebuilds each session as memory holds it under the conditions of the round trip |
| Reload.LoadChats | AIApps/ChatServer/src/ChatServer.cpp:128-158 | loading appends to each session exactly its rows in order and creates the sessions that have rows |
| Reload.PersistenceRoundTrip | AIApps/ChatServer/src/ChatServer.cpp:108-166 | for every evaluation, every permutation of the inserts and every sorted result the reload of a session equals memory iff every published id is a signed decimal number (not asked of a session the column cannot hold), its rows are stored under its own text and no others are, its messages are in time order, and ties are equal |
| Reload.ConversationReloaded | AIApps/ChatServer/src/ChatServer.cpp:108-166 | where a session's rows are those stored under its id, every reload gives the helper's own messages iff each turn published all it kept and the timestamps kept order; with balanced turns parity is the stored role |
| Reload.LazyRefinesEager | AIApps/ChatServer/src/ChatServer.cpp:51-101 | for all result sets lazy loading builds what the full load builds, sessions and their order, iff tied rows of a session have one text and no two of the user's sessions share their earliest timestamp |
| Reload.OtherUsersInvisible | AIApps/ChatServer/src/ChatServer.cpp:65-98 | the full load shows a user exactly what loading that user's rows does |
| ChatServerModel.ChatServer.ReadDataFromMySQL | AIApps/ChatServer/src/ChatServer.cpp:51-101 | after the loop every user's view is the load of the readable rows meant for that user; a failed query changes nothing |
| ChatServerModel.ChatServer.EnsureUserDataLoaded | AIApps/ChatServer/src/ChatServer.cpp:108-166 | loads the readable rows once; a loaded user or a failed query changes nothing; other users are untouched |
| ChatServerModel.UnreadableSkipped | AIApps/ChatServer/src/ChatServer.cpp:128-158 | an unreadable row is left out wherever it stands, and no other |
| ChatServerModel.LoadTwice | AIApps/ChatServer/src/ChatServer.cpp:110-113 | of two loads of a user only the first that succeeds counts, none if the user was loaded before; other users are untouched |
| ChatServerModel.LoadBoth | AIApps/ChatServer/src/ChatServer.cpp:108-166 | loads of two users in either order end in the same views and the same users loaded |
| ChatServerModel.ChatServer.OpenSession | AIApps/ChatServer/src/handlers/ChatSendHandler.cpp:45-67 | an empty id lists the generated one; a helper is made only where there is none; other users are untouched |
| ChatServerModel.ChatServer.DeleteSession | AIApps/ChatServer/src/handlers/ChatDeleteSessionHandler.cpp:34-69 | a numeric id leaves map and list and publishes one DELETE; any other is refused |
| ChatServerModel.IndexAgreementRun | AIApps/ChatServer/src/handlers/ChatSendHandler.cpp:45-67 | after any sequence of load, send, stream, history and delete no id is listed twice and every listed id has a helper |
| ChatServerModel.ListedExactly | AIApps/ChatServer/src/handlers/ChatHistoryHandler.cpp:38-54 | every helper stays listed iff the request does not name an unknown session |
| ChatServerModel.OpenKeepsChats | AIApps/ChatServer/src/handlers/ChatSendHandler.cpp:45-67 | opening a session or showing its history changes the messages of no session; the helpers gain exactly the id used, the list exactly a generated id at its end |
| ChatServerModel.RunKeepsChats | AIApps/ChatServer/src/handlers/ChatSendHandler.cpp:45-67 | over any run without loads and deletions no session's messages change and the helpers gain exactly the ids used |
| ChatServerModel.DeleteExactly | AIApps/ChatServer/src/handlers/ChatDeleteSessionHandler.cpp:34-64 | deletion removes a numeric id from both structures and changes no other session; any other id changes nothing |
| ChatServerModel.DeleteListed | AIApps/ChatServer/src/handlers/ChatDeleteSessionHandler.cpp:51-64 | the list keeps its order around the id taken out |
| Utf8.Utf8TruncateToChars | AIApps/ChatServer/src/handlers/ChatSessionsHandler.cpp:8-24 | on arbitrary bytes the loop ends within bounds at the specified cut |
| Utf8.TruncateValid | AIApps/ChatServer/src/handlers/ChatSessionsHandler.cpp:8-24 | on valid UTF-8 the cut is the byte length of the first min(n, count) characters |
| Utf8.TruncateKeepsAll | AIApps/ChatServer/src/handlers/ChatSessionsHandler.cpp:86 | nothing is cut iff there are at most n characters |
| Utf8.NormalizeName | AIApps/ChatServer/src/handlers/ChatRenameSessionHandler.cpp:71-89 | the rename loop cuts as the shared function does at sixty, then trims both ends |
| Utf8.NormalNameValid | AIApps/ChatServer/src/handlers/ChatRenameSessionHandler.cpp:71-89 | a valid name stays valid with at most sixty characters and no outer blank |
| Utf8.NormalNameIdempotent | AIApps/ChatServer/src/handlers/ChatRenameSessionHandler.cpp:71-89 | renaming to a normalised valid name changes nothing |
| Utf8.NormalNameAgain | AIApps/ChatServer/src/handlers/ChatRenameSessionHandler.cpp:71-89 | on any bytes a second pass changes nothing iff the last non-blank piece the loop took does not end in a blank |
| Utf8.NameFromMessage | AIApps/ChatServer/src/handlers/ChatSessionsHandler.cpp:73-92 | the listed name is the shortened message, or the default when only spaces are left |
| Utf8.AutoNameValid | AIApps/ChatServer/src/handlers/ChatSessionsHandler.cpp:82-89 | the automatic name of a valid message is valid, at most twelve characters and an ellipsis, without line ends or tabs |
| Utf8.ListedNameValid | AIApps/ChatServer/src/handlers/ChatSessionsHandler.cpp:73-92 | the listed name of a valid message is valid, never only spaces, and at most twelve characters and an ellipsis |
| RouterModel.RouteTemplates | HttpServer/include/router/Router.h:80-84 | full matching of the compiled pattern holds iff template and path agree segment by segment, and the groups are the parameter segments in order |
| RouterModel.GroupTakesSegment | HttpServer/include/router/Router.h:80-84 | a group takes its whole segment or the match fails: the decomposition is unique |
| RouterModel.ParametersExactly | HttpServer/include/router/Router.h:87-94 | group i is found under `param` and its number |
| RouterModel.OtherParametersKept | HttpServer/include/router/Router.h:87-94 | no other parameter is added or changed |
| RouterModel.Router.Route | HttpServer/src/router/Router.cpp:21-76 | exact handler, then exact callback, then the first fitting dynamic handler with its parameters, then the first fitting dynamic callback without |
| HttpSession.SessionManager.GetOrCreate | HttpServer/src/session/SessionManager.cpp:18-43 | a cookie is issued exactly for a fresh empty session; otherwise the stored data is returned |
| HttpSession.HandleAgrees | HttpServer/src/session/SessionStorage.cpp:10-38 | every event keeps each stored session under its own id with the data and expiry of its last use; only expired ones are missing |
| HttpSession.SlidingExpiry | HttpServer/src/session/SessionManager.cpp:18-43 | after any run a request gets its earlier session with its data iff the id was issued, not destroyed since its last use and used at most an hour ago; else a fresh empty one, and an expired session leaves the store |
| HttpSession.CookieExactly | HttpServer/src/session/SessionManager.cpp:71-95 | behind whole cookies the id read is that after the name's first occurrence in them, and the session cookie's own only when there is none |
| HttpSession.CookieRoundTrip | HttpServer/src/session/SessionManager.cpp:71-95 | so the id is read back iff the name occurs in none of the cookies before it or the same id stands there |
| HttpSession.IssuedCookieRoundTrip | HttpServer/src/session/SessionManager.cpp:97-102 | the issued cookie parses to its id |
| HttpSession.LongerNameWins | HttpServer/src/session/SessionManager.cpp:78-90 | a cookie before it whose longer name ends in the session name is read instead, whatever the rest of that name |
| QpsMetrics.Metrics.Before | HttpServer/src/middleware/QpsMetricsMiddleware.cpp:24-32 | the total grows by one; the deque gains the hit and loses those over ten seconds old |
| QpsMetrics.Metrics.GetMetrics | HttpServer/src/middleware/QpsMetricsMiddleware.cpp:50-59 | the three figures are taken from the deque as each earlier purge left it |
| QpsMetrics.WindowRefinement | HttpServer/src/middleware/QpsMetricsMiddleware.cpp:17-44 | after any mix of hits and queries the deque is the full history from the largest cutoff applied |
| QpsMetrics.HitKeepsTenSeconds | HttpServer/src/middleware/QpsMetricsMiddleware.cpp:24-32 | after a hit the deque holds the hits of the last ten seconds, less what a later cutoff took |
| QpsMetrics.QueryExactly | HttpServer/src/middleware/QpsMetricsMiddleware.cpp:35-44 | a query counts its window exactly iff no hit lies between its start and a later cutoff applied before |
| QpsMetrics.MetricsCountLastSecond | HttpServer/src/middleware/QpsMetricsMiddleware.cpp:50-59 | the longer figures of one metrics call count only hits the one second purge left |
| QpsMetrics.RateTimesWindow | HttpServer/src/middleware/QpsMetricsMiddleware.cpp:40-43 | the rate times the seconds since the oldest counted hit is the count; zero when that time is zero |

## Left out

- libcurl, sockets, event loops, TLS, the MySQL driver and AMQP: their outcomes are parameters of the modelled calls.
- Bytes are `char` values of a string (bit vectors in `Utf8`); the page's UTF-8 decoding of network bytes is not part of this model, so its reader sees the handler's text cut anywhere.
- General JSON: the model's replies are an arbitrary function from a line to the few fields used; only string escaping and objects of string members are concrete, escapes of surrogate halves are refused, and an object with another kind of member is dropped by the reader.
- `assert(method_ == kInvalid)` in `setMethod` is modelled as compiled out; it could fire only on a connection that already answered 400.
- What handlers do with a request, the close decision, response rendering, middleware order, CORS, file serving, login and registration.
- HttpContextModel.HttpContext.ParseRequest: requires a state other than `GotAll`, because the source loop would not end from there; the connection's invariant provides it.
- Helper and session objects the source shares are values in the server's and the session store's maps, so aliasing between what a handler holds and the map is not captured.
- Well-formed requests, for the results about streams of them, are spelled out in `HttpRender.WellFormed`: no CR inside a line, no separator inside the part it would end, header values without outer blanks, and a declared length that matches the body. Fragmentation independence needs none of this.
- Connections are not closed in the model after a 400 or a `Connection: close`; later bytes are still parsed, as the half-closed socket allows.
- `ensureUserDataLoaded` and streams are sequential per user and session; the races the code allows there are not modelled.
- Pool initialisation is complete before the first step, so the "not initialized" exception does not occur.
- What MySQL makes of a session id that is no signed decimal number: an arbitrary function of the row here. Length limits and character set of the text columns are not modelled.
- A stream whose reply cannot be published: the exception leaves its thread and ends the process.
- Generated ids are assumed fresh, and clocks nondecreasing, where a lemma says so; timestamps, ids and user numbers are unbounded naturals.
- Template literals with regular-expression metacharacters: literals stand for themselves here.
- HEAD requests: the parser does not recognise the method, and neither does the model.
- The tool registry's page scraping, the strategy factory and the round robin over publishing channels.
