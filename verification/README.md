# Verified model of the KATANA server core

This project models the core of KATANA, an HTTP/1.1 server written in C++, in Dafny and proves what its
components are for. Values and steps are functions, state that the server updates in place is classes whose
methods are proved against those functions, and concurrent protocols are state machines over single atomic
accesses. `dafny verify dfyconfig.toml` checks everything.

* `Pipeline`, `Connection`, `Server`: a pipelined connection. `Pipeline` is the simple form, a function from the
  octets received to the replies due. `Connection` is the machine with an active buffer that batches small
  responses, one queued response and partial writes over a socket that behaves as scripted (any prefix taken, none,
  errors after any prefix; any reads). Its invariant splits the replies logged into written, active and queued
  ones. The handler, with route errors and the request callback, is an arbitrary function, and the framer of requests
  is any function with the properties `Http.IsFramer`, which `ParserStability` proves of the parser.
* `ParserModel`, `ParserStability`, `ParserSplit`, `RequestParser`, `RequestLines`, `ChunkedCoding`, `Messages`: the
  request parser. `Parse` is the parser given the whole input at once; the incremental parser remembers search and
  validation positions; the class has the loops. `Messages` writes requests and proves how they are read.
  Field-table membership is a parameter (`known`, a set of keys).
* `RingTickets`, `BoundedFifo`, `RingMpmc`, `RingSpsc`: the bounded ring queue under sequential consistency, with
  unbounded tickets, stale snapshots and spurious compare-exchange failures.
* `ReactorWakeup`: the sleep/wake handshake between `schedule` and the reactor loop.
* `WheelModel`, `WheelInvariant`, `WheelTheorems`, `WheelCallbacks`, `WheelCompaction`, `WheelFiring`, `WheelTimer`: the
  hashed timing wheel with rounds, lazy cancellation, generation-tagged ids and callbacks that add and cancel (given as
  lists of such operations). History in the model (who owns an entry, what was given and what ran) is read by no
  step.
* `Arena`: the monotonic arena with spill blocks, alignment and reset. The system allocator's address is a parameter.
* `CaseFold`, `SlotTable`, `HeadersMap`: header-name comparison, and the headers map of inline slots, chunks and holes.
* `Router`: path splitting, matching, scores, dispatch and the Allow header.
* `JsonStrings`, `JsonCursor`, `JsonEmit`, `JsonWalk`, `JsonReading`, `IntArray`: JSON escaping, the skipping cursor,
  the emitter and a reader for what it writes, and 32-bit integer arrays.
* `Response`, `ResponseReading`: serialized responses, and a reader for them.
* `Text`, `Http`, `Options`, `Counting`: numbers as text, requests, helpers.

Octets are characters. Times and counters are unbounded integers except where wrap-around is the point (timer
generations, the 64-bit accumulator of `parse_int64`, unsigned negation, 64-bit alignment masks).

Where code and documentation or standards differ, the model follows the code, and these results say so:

* A one-slot ring overwrites values (`RingMpmc.OneSlotLosesValues`), so the safety results need capacity 2 or more.
* A timer whose tick count is a multiple of the wheel size waits one extra turn (`WheelFiring.FiresExactlyWhenDue`).
* `time_until_next_expiration` takes a timer in the slot under the cursor for one turn earlier than it fires
  (`WheelTheorems.CandidateOfLive`, an input in `WheelTheorems.EstimateIsATurnEarly`).
* Inside compared blocks '^' and '~' are one character in header names (`CaseFold.TildeIsCaret`).
* The chunked trailer section is read as one line: the end found is that of section 7.1 of RFC 9112 exactly when there
  are no trailer fields (`ChunkedCoding.TrailerIsOneLine`, a message in `ChunkedCoding.TrailerFieldIsLeftOver`).
* Header folding joins only to headers whose names are not in the field table (`RequestLines.FoldingExact`, a header in
  `RequestLines.KnownHeaderIsNotFolded`). Section 5.2 of RFC 9112 lets a server refuse a folded line, so this differs from
  the code's own branch for names in the table, which is never taken, and not from the standard.
* `parse_int64` wraps for 20 or more digits (`IntArrays.LongNumberWraps`, exact condition in `IntArrays.ReadingIsExact`).

## Model

| member | source | states |
|---|---|---|
| Connections.Connection.InOrder | core/src/http_server.cpp:153-510 | in every settled state the wire is a prefix of the replies due for the octets received, in request order; waiting for input with nothing stored, and after a closing reply, it is all of them; something stays stored then only behind input already buffered; when reading ends, the wire is all that is due exactly if nothing was stored, so a batch held back for a request that never completes is lost |
| Connections.Connection.Serve | core/src/http_server.cpp:209-510 | for every run of events, reads and partial writes: the replies are in order on the wire; while the connection is open the wire, the rest of the active response and the queued one are exactly the replies logged; no input octet is lost or read twice; requests noted + active + queued = requests dispatched |
| Connections.Connection.NothingLost | core/src/http_server.cpp:153-321 | while the connection is open the wire, the unwritten rest of the active response and the queued response are together the replies logged, so a blocked connection has lost nothing |
| Connections.Connection.Accounts | core/src/http_server.cpp:222-229 | a request is noted only when every octet of its reply is on the wire; noted, active and queued requests are those dispatched; a batch of two or more replies never exceeds 64 KiB |
| Connections.Connection.HandleConnection | core/src/http_server.cpp:354-508 | one event keeps the invariant of the connection, ends dropped, waiting to write or waiting to read, reads at least once if nothing was pending, waits to read only with the parsed input worked off or nothing more to read, and is dropped for a read only by the last one |
| Connections.Connection.FlushReady | core/src/http_server.cpp:283-321 | writes everything stored, in order, unless the socket refuses or fails; true leaves nothing pending, and a closing reply is the last thing written |
| Connections.Connection.FlushStep | core/src/http_server.cpp:283-321 | one turn of the flush loop: progress, a socket that took nothing, a failed write or a closing reply fully written |
| Connections.Connection.FlushActive | core/src/http_server.cpp:153-203 | puts on the wire exactly as many octets of head and body, from `write_pos` on, as the socket takes in successive attempts, and clears the active buffers when all are taken |
| Connections.Connection.SettleActive | core/src/http_server.cpp:306-318 | once the active octets are written its requests are noted, and the connection closes or the queued response becomes active, with the order of replies kept |
| Connections.Connection.Respond | core/src/http_server.cpp:409-507 | a whole request earns exactly one reply after all earlier ones and is taken off the input; the reply closes exactly if the request asks for it, and its octets are the handler's response, with one header more, saying close or keep-alive, if it has no Connection header; a response that joins the batch is held back while more input is buffered |
| Connections.Connection.StoreSmall | core/src/http_server.cpp:427-472 | a small response joins the batch exactly when batch and response fit the limit; otherwise it is queued behind what is pending or made active |
| Connections.Connection.StoreLarge | core/src/http_server.cpp:473-492 | a large, chunked or closing response is queued behind what is pending or made active |
| Connections.Connection.CloseWithParseError | core/src/http_server.cpp:323-352 | input that is no request is answered by exactly one closing refusal after all earlier replies, and no more input is awaited |
| Connections.Connection.Fill | core/src/http_server.cpp:371-407 | one read: input goes to the parser, an end, an error or a full buffer drops the connection for that reason and nothing else does, no data arms the socket for reading |
| Connections.Socket.Write | core/src/tcp_socket.cpp:49-95 | any prefix of the data may be taken, also before an error |
| Connections.Conserved | core/src/http_server.cpp:222-229 | the three counts add up to the requests dispatched |
| Connections.TurnLedger | core/src/http_server.cpp:243-256 | promoting the queued response keeps counts, order and batch limit |
| Connections.CloseWire | core/src/http_server.cpp:308-313 | when a closing response is fully written nothing is queued behind it and the wire holds all replies |
| Connections.StageLedger | core/src/http_server.cpp:440-449 | one more reply at the end of the active ones keeps order, counts and batch limit |
| Connections.QueueLedger | core/src/http_server.cpp:258-281 | one more reply in the queue keeps order and counts |
| Connections.DrainIsRefused | core/src/http_server.cpp:168-203 | a blocked flush has met an attempt that took nothing |
| Pipeline.AccountOne | core/src/http_server.cpp:364-508 | replies logged for the octets consumed are a prefix of the replies due, whatever input follows, and stay so with one more reply |
| Pipeline.WholeEarnsAnswer | core/src/http_server.cpp:409-425 | a whole request at the front of the input earns its answer whatever follows; after a closing answer nothing follows |
| Pipeline.BadEarnsRefusal | core/src/http_server.cpp:323-352 | input that is no request earns one closing refusal whatever follows |
| Pipeline.FinishedTells | core/src/http_server.cpp:409-425 | a response with a Connection header is sent as it is; any other is sent with exactly one, close if the server closes and keep-alive if not, and without it is the handler's response, headers in order |
| Pipeline.AnswerTells | core/src/http_server.cpp:409-425 | the reply to a request closes exactly if the request asks for it, and says so on the wire |
| Messages.ClosesExactly | core/src/http_server.cpp:417-420 | a request asks to close exactly if the last value given as Connection, in any spelling of the name, is close or Close |
| Servers.Accept | core/src/http_server.cpp:512-545 | a connection over the HTTP parser starts settled, so everything proved of connections holds of it |
| Servers.MessagesAreAnswered | core/src/http_server.cpp:354-508 | for any written messages one after the other, the replies due are their answers in order, one each up to the first that asks to close, and then those due for the rest of the input |
| Responses.PrepareResponseStorage | core/src/http_server.cpp:138-149 | head and body pieces together are the octets of the response; a separate body exactly for unchunked bodies over 256 octets |
| Responses.SerializeChunked | core/src/http.cpp:428-475 | writes head and chunked body with any chunk size |
| Responses.SerializeHeadInto | core/src/http.cpp:284-340 | writes status line, headers and a Content-Length if none is set |
| Responses.SerializeInto | core/src/http.cpp:217-282 | writes the octets of the whole response |
| ResponseReading.PlainReadsBack | core/src/http.cpp:217-340 | an unchunked response reads back: status and reason from the status line, the headers, a Content-Length that is the size of the body exactly when none was set, and the body after the blank line |
| ResponseReading.ChunkedReadsBack | core/src/http.cpp:428-475 | a chunked response reads back: status, the headers without Content-Length and with Transfer-Encoding, and chunks that the request parser decodes to the body, to the last octet |
| ResponseReading.WithoutLengthExact | core/src/http.cpp:428-452 | exactly the headers named Content-Length are left out, and the order stays |
| RingMpmc.Safety | core/include/katana/core/ring_buffer_queue.hpp:322-391 | over all interleavings of any number of threads, one thread alone included, capacity at least 2: each ticket is popped once with the value pushed for it, owners of slots never overlap, storage is built before it is moved out |
| RingMpmc.StepKeepsInv | core/include/katana/core/ring_buffer_queue.hpp:322-391 | one atomic access of any thread, with any stale snapshot, keeps the slot protocol |
| RingMpmc.RunKeepsInv | core/include/katana/core/ring_buffer_queue.hpp:322-391 | every run keeps the slot protocol |
| RingMpmc.RunRefinesFifo | core/include/katana/core/ring_buffer_queue.hpp:322-391 | every run linearizes: its successful claims, in order, are a run of a bounded FIFO with the same contents |
| RingMpmc.EffectOnContents | core/include/katana/core/ring_buffer_queue.hpp:322-391 | an access changes the queue's contents only at the compare-exchange that claims a ticket: one append or one removal |
| RingMpmc.DeliveredIsDequeued | core/include/katana/core/ring_buffer_queue.hpp:356-391 | the value a consumer moves out is the value pushed for its ticket |
| RingMpmc.FullIsJustified | core/include/katana/core/ring_buffer_queue.hpp:329-346 | a full verdict: when the sequence is loaded the queue is full, or its slot is still being emptied by another consumer |
| RingMpmc.EmptyIsJustified | core/include/katana/core/ring_buffer_queue.hpp:363-384 | an empty verdict: when the sequence is loaded the queue is empty, or its slot is still being filled by another producer |
| RingMpmc.RunKeepsClaimsHeld | core/include/katana/core/ring_buffer_queue.hpp:322-391 | every claimed, unreleased ticket is held by some thread inside push or pop |
| RingMpmc.VerdictsAreJustified | core/include/katana/core/ring_buffer_queue.hpp:322-391 | at every state of every run that is about to load the sequence: a sequence behind the ticket means a full or an empty queue, or a slot still being emptied or filled by another thread |
| RingMpmc.VerdictIsTrue | core/include/katana/core/ring_buffer_queue.hpp:329-384 | in every run, a pop that returns empty made its load when the queue was empty or its first value was still being filled in, and a push that returns full when all slots were taken or the next one still being emptied; said of the step that returns, not of its comparison |
| RingMpmc.PopAlone | core/include/katana/core/ring_buffer_queue.hpp:356-391 | from every state of the queue a pop that runs alone delivers the oldest value if its slot is published, and otherwise returns and changes nothing |
| RingMpmc.PushAlone | core/include/katana/core/ring_buffer_queue.hpp:322-354 | from every state a push that runs alone into a free slot appends its value, published; otherwise it returns and changes nothing |
| RingMpmc.SoloIsRun | core/include/katana/core/ring_buffer_queue.hpp:322-391 | the steps of one thread alone are a run in which the other threads stand still |
| RingMpmc.OneSlotLosesValues | core/include/katana/core/ring_buffer_queue.hpp:21-40 | with one slot two pushes succeed and the first value is overwritten: capacity 1 must be excluded |
| RingTickets.SlotIsModulus | core/include/katana/core/ring_buffer_queue.hpp:330 | the slot of a ticket, counted lap by lap, is the ticket modulo the capacity |
| RingSpsc.RunRefinesFifo | core/include/katana/core/ring_buffer_queue.hpp:58-93 | one producer and one consumer, switching at any call from the multi-producer to the single-producer path: every run is a run of a bounded FIFO |
| RingSpsc.RunKeepsInv | core/include/katana/core/ring_buffer_queue.hpp:393-424 | every such run keeps slots, counters and owners consistent |
| RingSpsc.NothingIsLost | core/include/katana/core/ring_buffer_queue.hpp:393-424 | values come out in the order they went in, each once |
| RingSpsc.CountersDrift | core/include/katana/core/ring_buffer_queue.hpp:393-424 | the tail may lead the head, by one at most |
| RingSpsc.VerdictsAreJustified | core/include/katana/core/ring_buffer_queue.hpp:393-424 | at every state, the comparison that leads to full or empty on either path holds exactly when there is no free slot or no value |
| RingSpsc.EmptyIsTrue | core/include/katana/core/ring_buffer_queue.hpp:409-424 | in every run a pop that returns empty loaded the sequence when no value was in the ring |
| RingSpsc.FullIsTrue | core/include/katana/core/ring_buffer_queue.hpp:393-407 | in every run a push that returns full loaded the sequence when all slots were taken, one perhaps by a value being moved out |
| RingSpsc.PopAlone | core/include/katana/core/ring_buffer_queue.hpp:77-93 | from every state, on either path, a pop that runs alone takes out the oldest value, and with none leaves the ring as it was |
| RingSpsc.PushAlone | core/include/katana/core/ring_buffer_queue.hpp:56-72 | from every state, on either path, a push that runs alone appends its value if a slot is free, and otherwise leaves the ring as it was |
| RingSpsc.AloneIsRun | core/include/katana/core/ring_buffer_queue.hpp:393-474 | the steps of one side alone are a run |
| RingSpsc.FastPathIsMarked | core/include/katana/core/ring_buffer_queue.hpp:426-474 | a step of the single-producer path is taken only after the peer has been seen |
| ReactorWakeup.NoLostWakeup | core/src/epoll_reactor.cpp:316-346 | in every run, with the reactor committed to a wait and a task queued, the eventfd is signalled or a producer is still inside schedule |
| ReactorWakeup.CountIsCovered | core/src/epoll_reactor.cpp:452-472 | the pending count plus the pops still to do never exceeds what is queued, hence the capacity |
| ReactorWakeup.RunKeepsInv | core/src/epoll_reactor.cpp:316-346 | every interleaving of schedule, process_tasks, calculate_timeout and the wakeup branch keeps counts and flags consistent |
| ReactorWakeup.CountedArePopped | core/src/epoll_reactor.cpp:452-463 | with the counted tasks published, as many steps of the reactor pop them all, in the order of their tickets |
| ReactorWakeup.RoundPopsAll | core/src/epoll_reactor.cpp:452-463 | a round of process_tasks takes the whole count, clears the wakeup flag and pops as many tasks |
| ReactorWakeup.ScheduleSignals | core/src/epoll_reactor.cpp:316-346 | a task scheduled while the reactor sleeps is queued, counted and signalled, on either path of the ring |
| ReactorWakeup.SleeperRunsTask | core/src/epoll_reactor.cpp:316-463 | that task wakes the reactor and is popped by its next round |
| ReactorWakeup.SleepsExactlyIfEmpty | core/src/epoll_reactor.cpp:452-463 | after a round the reactor waits exactly if the queue is empty and nothing else is due, and polls otherwise |
| ReactorWakeup.AwakeIsNoted | core/src/epoll_reactor.cpp:316-346 | reading the eventfd clears the signal and notes that the reactor is awake |
| ReactorWakeup.AwakeIsNotSignalled | core/src/epoll_reactor.cpp:326-329 | a reactor noted as awake is given a task without another signal |
| ParserSplit.SplitTheorem | core/src/http.cpp:636-711 | fed in pieces cut anywhere the parser fails exactly when it fails on the whole input, and otherwise ends in the same state, with the same request and position |
| ParserSplit.SplitsAgree | core/src/http.cpp:565-577 | any two ways to cut the same input give the same result |
| ParserSplit.ResumeIsParse | core/src/http.cpp:636-711 | searching and validating from the remembered positions equals starting from the beginning |
| ParserSplit.ChecksResume | core/src/http.cpp:641-675 | the resumed validation and size checks pass exactly when those on the whole buffer do |
| ParserSplit.HeaderEndResumes | core/src/http.cpp:642-646 | searching the blank line from three octets before the end finds what a search from the start finds |
| ParserStability.ParserIsFramer | core/src/http.cpp:636-933 | octets after a complete message never change it, more input never mends an error, and every message takes at least one octet |
| ParserStability.CompleteIsStable | core/src/http.cpp:636-933 | a complete message depends on nothing after its last octet |
| ParserStability.ParseExtends | core/src/http.cpp:636-933 | more input continues from the state reached, and an error stays an error |
| ParserStability.LoopExtends | core/src/http.cpp:677-708 | steps taken stay taken and failures stay failures when input is added |
| ParserStability.LoopAgree | core/src/http.cpp:677-708 | the steps to a complete message read only its own octets |
| ParserStability.LoopHeaded | core/src/http.cpp:742-784 | past the header states the blank line that ends the header part lies before the parse position |
| RequestParser.Parser.Parse | core/src/http.cpp:565-577 | up to the compaction threshold the parser stands, after any pieces, where the parser of the whole input stands |
| RequestParser.Parser.ParseAvailable | core/src/http.cpp:636-711 | the loops over the buffer compute the incremental parser and compact exactly when the code does, at every buffer size |
| RequestParser.Parser.RunStates | core/src/http.cpp:677-711 | the state loop takes as many steps of the model as the input allows, and compacts when it rests past the threshold; what the steps read is said by the rows of Messages |
| RequestParser.Parser.FindHeaderTerminator | core/src/http.cpp:84-108 | finds the end of the first CRLF CRLF at or after the start, or 0 |
| RequestParser.Parser.Validate | core/src/http.cpp:648-662 | accepts exactly ranges without NUL, eight-bit octets and LF without CR |
| RequestParser.Parser.CompactBuffer | core/src/http.cpp:1050-1076 | the octets not yet worked off are kept and the position moves with them, for values captured as copies |
| RequestParser.Parser.PrepareForNextRequest | core/src/http.cpp:1174-1183 | the rest of the buffer begins the next request in the initial state |
| Messages.MessageIsFramed | core/src/http.cpp:636-933 | any written message within the limits, with any known method, target, header lines with blanks around values, and a body that is counted, chunked or absent, is framed, whatever follows it, as that request: its verb, target, body, and each header as the last value given for it; each proper part of it is part of a request |
| Messages.MessageIsParsed | core/src/http.cpp:677-933 | the parser of the whole input reads such a message to its last octet as what was written |
| Messages.BodyIsAwaited | core/src/http.cpp:849-857 | until all of a counted body is there, exactly the header part has been worked off |
| Messages.HeadIsAdmitted | core/src/http.cpp:641-675 | the checks made before parsing pass a header part of plain lines if and only if it is at most 8192 octets long |
| Messages.HeadIsRefused | core/src/http.cpp:664-784 | a longer header part, or more than 100 fields, is refused whatever follows |
| Messages.LengthIsRefused | core/src/http.cpp:766-782 | without the chunked coding a Content-Length that is not all digits, or exceeds the limit, is refused whatever follows |
| Messages.FieldLineExact | core/src/http.cpp:977-1004 | a header line is accepted if and only if it is a token, a colon, and a value without control characters between blanks, and there are fewer than 100 so far |
| Messages.TrimExact | core/src/http.cpp:55-63 | the value read is the text without the blanks around it |
| Messages.PlainNamesFold | core/include/katana/core/http_headers.hpp:45-165 | for names without '^' and '~', header look-up is ASCII case folding |
| RequestLines.RequestLineExact | core/src/http.cpp:935-975 | accepted exactly: a known method, one space, a target of at most 2048 visible characters, one space, HTTP/1.1 |
| ChunkedCoding.ChunkedRoundTrip | core/src/http.cpp:859-933 | for every body within the limit and chunk size at least 1, parsing the chunked coding yields that body, completes and consumes exactly its octets |
| ChunkedCoding.OversizedChunkIsRefused | core/src/http.cpp:876-897 | a size that takes the body past 10 MiB is refused at its line |
| ChunkedCoding.OverrunChunkIsRefused | core/src/http.cpp:899-906 | chunk data not followed by CRLF is refused |
| ChunkedCoding.ExtensionIsIgnored | core/src/http.cpp:869-872 | what follows a semicolon on a size line does not matter |
| ChunkedCoding.TrailerIsOneLine | core/src/http.cpp:923-933 | for every trailer section of section 7.1 of RFC 9112 the message completes with the right body, and ends where that section has it if and only if there are no trailer fields |
| ChunkedCoding.TrailerFieldIsLeftOver | core/src/http.cpp:923-933 | with one trailer field two octets of the message are left over for the next request |
| RequestLines.FoldingExact | core/src/http.cpp:787-834 | a continuation line is accepted if and only if the header before it is not in the field table and the text has no control characters; it then extends that value by a space and the text, and nothing else changes |
| RequestLines.KnownHeaderIsNotFolded | core/src/http.cpp:787-834 | a folded Host line is refused with Host in the field table and joined without |
| ChunkedCoding.SizeLine | core/src/http.cpp:859-880 | a size written in hexadecimal is read back |
| Text.NumberRoundTrip | core/src/http.cpp:457-474 | a number written by to_chars is read back by from_chars up to the first non-digit |
| WheelFiring.FiresExactlyWhenDue | core/include/katana/core/wheel_timer.hpp:33-63 | a timer of k ticks, added at any point of any run and also by a callback in the middle of a slot, fires on the k-th following advance, or on the (k+W)-th when W divides k, and not before, unless its own id is cancelled on the way by an action or a callback; the callback given to add then runs, once, with exactly its operations, and never otherwise |
| WheelFiring.FiresUnlessCancelled | core/include/katana/core/wheel_timer.hpp:33-97 | a timer that no later action and no callback cancels is live before that advance and has fired on it afterwards, after every run, and the callback given to add has run exactly once by then and not at all before |
| WheelFiring.CallbackAddIsAPoint | core/include/katana/core/wheel_timer.hpp:212-250 | an add made by the callback of a firing timer is a point of which that holds: the invariant covers the handles not yet visited, and the rest of the run follows it |
| WheelFiring.CancelLeaves | core/include/katana/core/wheel_timer.hpp:65-79 | cancelling another id changes neither the status nor the id of a timer |
| WheelFiring.AddedIsDue | core/include/katana/core/wheel_timer.hpp:33-63 | an added timer is live and due after its delay, whatever part of the slot is still to be visited |
| WheelFiring.CancelledNeverRuns | core/include/katana/core/wheel_timer.hpp:65-79 | a live timer cancelled by its id, before a generation wraps, never runs its callback in any run that follows |
| WheelFiring.DecidedByTime | core/include/katana/core/wheel_timer.hpp:81-97 | after a tick at or after a timer's due time it has fired or was cancelled: none is left waiting |
| WheelCallbacks.ReachableRanAsDue | core/include/katana/core/wheel_timer.hpp:200-252 | in every run from a new wheel the calls made for a timer are its own callback, once, at the advance it was due, if it fired, and none otherwise; every active uncancelled entry holds its owner's callback |
| WheelCallbacks.FiringRunsCallback | core/include/katana/core/wheel_timer.hpp:235-250 | firing an entry runs the operations of the callback that was given with its timer, and nothing else |
| WheelCallbacks.NothingWraps | core/include/katana/core/wheel_timer.hpp:169-185 | in every run with fewer than 2^32 - 1 timers no generation wraps |
| WheelCallbacks.CallbackAddTakesEffect | core/include/katana/core/wheel_timer.hpp:33-63 | an add made by a callback makes one more live timer, due after its delay, with its callback |
| WheelCallbacks.CallbackCancelTakesEffect | core/include/katana/core/wheel_timer.hpp:65-79 | a cancel made by a callback of the id of a live timer cancels it, before a generation wraps |
| WheelCompaction.CompactionForgets | core/include/katana/core/wheel_timer.hpp:200-252 | when the slot of a cancelled timer is swept on a compacting advance the timer gives up its entry, whatever the callbacks of the slot do |
| WheelTheorems.FateIsFinal | core/include/katana/core/wheel_timer.hpp:200-252 | what has fired never fires again and what was cancelled never fires |
| WheelTheorems.CancelNamesItsTimer | core/include/katana/core/wheel_timer.hpp:65-79 | before a generation wraps, an id cancels its own timer or nothing |
| WheelTheorems.PendingCountsActive | core/include/katana/core/wheel_timer.hpp:99 | the pending count is the number of active entries |
| WheelTheorems.RunKeeps | core/include/katana/core/wheel_timer.hpp:200-252 | every run of add, cancel and tick, with callbacks that add and cancel in mid-slot, keeps the wheel's structure |
| WheelTheorems.ReachableKeeps | core/include/katana/core/wheel_timer.hpp:33-252 | every wheel reachable from a new one has that structure |
| WheelTheorems.TickIsDriftFree | core/include/katana/core/wheel_timer.hpp:81-97 | the clock of the wheel is its start plus a whole number of ticks, one for each advance |
| WheelTheorems.TickIsBatchInvariant | core/include/katana/core/wheel_timer.hpp:81-97 | tick(t1) and then tick(t2) equals tick(t2) for t1 at most t2 |
| WheelTheorems.NextExpirationIsNotLate | core/include/katana/core/wheel_timer.hpp:101-138 | within a tick, the time to the next expiration exceeds no live deadline by more than one tick |
| WheelTheorems.CandidateOfLive | core/include/katana/core/wheel_timer.hpp:116-130 | what is estimated for a live timer is the time to its due advance, less one turn exactly if it is in the slot under the cursor |
| WheelTheorems.NextExpirationIsExact | core/include/katana/core/wheel_timer.hpp:101-138 | with all entries live and none in the slot under the cursor the estimate is the time to the advance on which the earliest of them fires |
| WheelTheorems.EstimateIsATurnEarly | core/include/katana/core/wheel_timer.hpp:116-130 | a timer of exactly one turn that fires after 800 ms and is estimated at 500 |
| WheelTheorems.TicksRoundUp | core/include/katana/core/wheel_timer.hpp:39-46 | the ticks of a timeout are the least number whose milliseconds reach it, and at least one |
| WheelTheorems.TimeoutElapses | core/include/katana/core/wheel_timer.hpp:39-50 | the delay of a timer covers its whole timeout |
| WheelModel.IdRoundTrip | core/include/katana/core/wheel_timer.hpp:159-167 | index and generation come back from an id |
| WheelInvariant.AddKeeps | core/include/katana/core/wheel_timer.hpp:33-63 | adding keeps handles, owners, free list and deadlines consistent |
| WheelInvariant.CancelKeeps | core/include/katana/core/wheel_timer.hpp:65-79 | cancelling keeps them |
| WheelInvariant.VisitKeeps | core/include/katana/core/wheel_timer.hpp:212-250 | visiting one handle of a slot keeps them, whatever its callback does |
| WheelInvariant.AdvanceKeeps | core/include/katana/core/wheel_timer.hpp:200-252 | advancing the wheel by a slot keeps them |
| WheelTimers.WheelTimer.AddTimer | core/include/katana/core/wheel_timer.hpp:33-63 | updates the wheel as the model's Add, with the callback stored |
| WheelTimers.WheelTimer.CancelTimer | core/include/katana/core/wheel_timer.hpp:65-79 | updates the wheel as the model's Cancel |
| WheelTimers.WheelTimer.AcquireEntry | core/include/katana/core/wheel_timer.hpp:169-185 | takes the entry freed last, or a new one if none is free, under a new generation that is never 0 |
| WheelTimers.WheelTimer.ReleaseEntry | core/include/katana/core/wheel_timer.hpp:187-198 | makes the entry inactive and puts its index on the free list; its generation stays until it is taken again |
| WheelTimers.WheelTimer.AdvanceSlot | core/include/katana/core/wheel_timer.hpp:200-252 | sweeps the next slot as the model's Advance |
| WheelTimers.WheelTimer.DoTick | core/include/katana/core/wheel_timer.hpp:81-97 | advances once for each whole tick elapsed, as the model's Tick |
| WheelTimers.WheelTimer.TimeUntilNextExpiration | core/include/katana/core/wheel_timer.hpp:101-138 | finds the least remaining time over the active, uncancelled timers |
| Arena.ServeKeeps | core/src/arena.cpp:83-171 | over any trace between two resets the regions granted are inside blocks and pairwise disjoint, and every pointer is a multiple of the alignment asked for it |
| Arena.AllocateKeeps | core/src/arena.cpp:83-171 | one allocation keeps that, and a block made for a request serves it |
| Arena.AccountingHolds | core/src/arena.cpp:83-171 | bytes allocated never exceed the bytes used, nor these the capacity |
| Arena.PlacementRule | core/src/arena.cpp:83-154 | the current block serves a request that fits, else the lowest block that it fits, else a new block of the common size or, for a larger request, of 64 bytes more than it; with 32 blocks and no fit nothing is granted |
| Arena.BytesAreCounted | core/src/arena.cpp:83-154 | over any trace exactly the bytes granted are counted as allocated |
| Arena.ResetKeeps | core/src/arena.cpp:75-81 | resetting empties every block and keeps them all |
| Arena.ResetReplay | core/src/arena.cpp:75-154 | a trace run again after a reset returns the same pointers in the same order and creates no block |
| Arena.AlignUpIsLeast | core/include/katana/core/arena.hpp:70-72 | the least multiple of the alignment that is not below the value |
| Arena.AlignUpBits | core/include/katana/core/arena.hpp:70-72 | on 64-bit words the mask expression clears the low bits and is at or above the value by less than one alignment |
| Arena.AcceptedBits | core/src/arena.cpp:90-92 | the powers of two up to 64 are those that the bit test accepts |
| Arena.MonotonicArena.DoAllocate | core/src/arena.cpp:83-154 | first fit over the blocks from the current one, in place, as the model's Allocate |
| Arena.MonotonicArena.DoReset | core/src/arena.cpp:75-81 | in place, as the model's Reset |
| HeadersMaps.HeadersMap.Perform | core/include/katana/core/http_headers.hpp:258-443 | any run of set, get, remove and clear behaves as on a finite map |
| HeadersMaps.HeadersMap.Set | core/include/katana/core/http_headers.hpp:268-370 | sets one key and no other; an existing unknown name keeps its spelling unless the view is borrowed |
| HeadersMaps.HeadersMap.Erase | core/include/katana/core/http_headers.hpp:407-429 | removes one key and no other |
| HeadersMaps.HeadersMap.Find | core/include/katana/core/http_headers.hpp:372-396 | the value last set for the name, in any spelling |
| HeadersMaps.HeadersMap.Entries | core/include/katana/core/http_headers.hpp:445-552 | iteration yields each live entry exactly once, known names first |
| HeadersMaps.HeadersMap.SizeCounts | core/include/katana/core/http_headers.hpp:554-555 | size() is the number of live entries of both halves |
| HeadersMaps.LookupAfterSet | core/include/katana/core/http_headers.hpp:363-396 | two spellings of a name are one key, and setting it changes no other look-up |
| HeadersMaps.LookupAfterRemove | core/include/katana/core/http_headers.hpp:407-429 | removing a name removes all its spellings and nothing else |
| HeadersMaps.LookupIsLastWord | core/include/katana/core/http_headers.hpp:258-443 | after any run of operations a look-up gives the last value set for the name, unless a remove of it or a clear came later |
| HeadersMaps.SpellingAfterSet | core/include/katana/core/http_headers.hpp:268-361 | an unknown header set again keeps the spelling it was first set with, unless the view is borrowed; a known one is listed under its canonical name |
| SlotTables.SlotTable.FindEntry | core/include/katana/core/http_headers.hpp:568-586 | at most one slot holds a key, and it is found |
| SlotTables.SlotTable.AppendEntry | core/include/katana/core/http_headers.hpp:588-614 | the first hole in iteration order is reused; a chunk is added only when there is none, and then no entry is lost |
| SlotTables.SlotTable.Set | core/include/katana/core/http_headers.hpp:268-361 | one slot per key is kept; the size is the number of live entries; a new key takes the first hole |
| SlotTables.SlotTable.Remove | core/include/katana/core/http_headers.hpp:407-429 | leaves a hole; the size is the number of live entries |
| SlotTables.SlotTable.Clear | core/include/katana/core/http_headers.hpp:431-443 | all slots become holes and the chunks stay |
| SlotTables.SlotTable.Iterate | core/include/katana/core/http_headers.hpp:445-552 | every live entry once, in slot order |
| SlotTables.AddChunk | core/include/katana/core/http_headers.hpp:604-613 | a chunk put before the others loses and duplicates nothing |
| CaseFold.Compare | core/include/katana/core/http_headers.hpp:45-165 | the block-wise comparison is equality of keys |
| CaseFold.ComparisonIsCaseFolding | core/include/katana/core/http_headers.hpp:45-165 | on header names it is ASCII case folding, except exactly that '^' and '~' are taken for each other inside blocks |
| CaseFold.TildeIsCaret | core/include/katana/core/http_headers.hpp:45-81 | two different header names that compare equal |
| Routers.DispatchRequest | core/include/katana/core/router.hpp:335-410 | the earliest route of most literals among those of the method whose pattern, with some non-empty values for its parameters, is the path; else 405 with exactly the methods of routes whose pattern is the path so; else, or with more than 16 segments, 404 |
| Routers.DispatchIsUnique | core/include/katana/core/router.hpp:335-410 | that description leaves one result |
| Routers.FindBest | core/include/katana/core/router.hpp:345-377 | the best route of the method is found with its parameters |
| Routers.AllowedMethods | core/include/katana/core/router.hpp:391-403 | the mask has the bit of a method exactly when a route of that method matches the path |
| Routers.AllowHeader | core/include/katana/core/router.hpp:292-322 | the Allow header lists the methods of the mask in the fixed order, with commas between them |
| Routers.AllowIsOffered | core/include/katana/core/router.hpp:292-322 | with a 405 the Allow header lists exactly the methods that routes of this path offer |
| Routers.MatchSegments | core/include/katana/core/router.hpp:178-205 | matches if and only if the path is the pattern with some non-empty values in place of its parameters, and then binds exactly those values to the names, in order |
| Routers.MatchExact | core/include/katana/core/router.hpp:178-205 | segment by segment a path matches exactly if it is the pattern with some values |
| Routers.BoundIsUnique | core/include/katana/core/router.hpp:178-205 | the values bound are the only ones that make the pattern into the path |
| Routers.SplitPath | core/include/katana/core/router.hpp:154-176 | the non-empty pieces between slashes, or an overflow beyond 16 |
| Routers.SplitInvertsJoin | core/include/katana/core/router.hpp:154-176 | splitting undoes joining of non-empty slash-free pieces |
| Routers.SplitEquations | core/include/katana/core/router.hpp:154-176 | splitting by its equations: nothing has no pieces, text without a slash is one piece, and at any slash the pieces of both sides are joined |
| Routers.ParametersRoundTrip | core/include/katana/core/router.hpp:178-205 | a pattern filled with values matches its own path and gives the values back by name |
| Routers.ScoreIsLiterals | core/include/katana/core/router.hpp:225-227 | between patterns of one length the score orders by literals |
| Routers.StripQuery | core/include/katana/core/router.hpp:430-439 | the path is a prefix of the target without '?' and '#', and is the whole target or followed by one of them |
| JsonStrings.UnescapeInvertsEscape | core/include/katana/core/serde.hpp:622-650 | unescaping as in section 7 of RFC 8259 gives back every escaped string |
| JsonStrings.EscapeBlocks | core/include/katana/core/serde.hpp:653-750 | the block-wise escaper writes what the scalar form writes, for every block width |
| JsonStrings.EscapeInto | core/include/katana/core/serde.hpp:752-759 | with or without the fast path the same octets are written |
| JsonEmit.EmitInto | core/include/katana/core/yaml_parser.hpp:61-94 | the recursive emitter writes the text of the tree |
| JsonReading.ReadsBack | core/include/katana/core/yaml_parser.hpp:61-94 | a plain reader of section 7 of RFC 8259 and its objects and arrays, without white space, reads the text of any tree back as what the tree means, to its last octet |
| JsonReading.ScalarMeans | core/include/katana/core/yaml_parser.hpp:45-59 | what a scalar means: blanks around it do not count, true, false and null are words, one pair of quotes around it is left out, all else is text as it stands |
| JsonEmit.SkipStopsAtEnd | core/include/katana/core/serde.hpp:177-222 | skipping an emitted value stops exactly at its end; a bare literal must be followed by a delimiter or the end, and that is enough |
| JsonEmit.PassTree | core/include/katana/core/serde.hpp:181-211 | inside an object or array an emitted value is passed over, whatever brackets and quotes it holds |
| JsonEmit.StopAtQuote | core/include/katana/core/serde.hpp:149-169 | the scan of an escaped string stops at its closing quote |
| JsonCursor.Cursor.SkipValue | core/include/katana/core/serde.hpp:177-222 | the loops compute the end of the value at the cursor |
| JsonCursor.Cursor.String | core/include/katana/core/serde.hpp:149-169 | yields the raw content of the string at the cursor |
| JsonWalk.WalkVisitsKeys | core/src/openapi_loader.cpp:35-61 | the key, colon, value, comma walk over an emitted object visits its keys in order, every one, and ends after the brace |
| JsonWalk.WalkObject | core/src/openapi_loader.cpp:35-61 | the loop computes that walk on any text |
| IntArrays.SerializeInto | core/include/katana/core/serde.hpp:820-873 | the comma-joined decimals in brackets; no write is outside the 512-octet buffer |
| IntArrays.FormatUintFast | core/include/katana/core/serde.hpp:791-813 | the digit-table branches write the decimal digits of any 32-bit value |
| IntArrays.ParseInteger | core/include/katana/core/serde.hpp:250-304 | the loops read an optional sign and digits, accumulating in 64 bits |
| IntArrays.ReadsBack | core/include/katana/core/serde.hpp:250-304 | a 32-bit integer written in decimal is read back, the least value included |
| IntArrays.ArrayRoundTrip | core/include/katana/core/serde.hpp:820-873 | every array of 32-bit integers is read back as it was |
| IntArrays.ReadingIsExact | core/include/katana/core/serde.hpp:273-304 | reading digits is exact if and only if they denote less than 2^64 or leave a remainder modulo 2^64 that does not fit |
| IntArrays.LongNumberWraps | core/include/katana/core/serde.hpp:273-304 | the number 2^64 + 1 is read as 1 |

## Left out

- RingMpmc.Safety: the ring is modelled on values, as a state machine over atomic accesses, not as a class; C++ weak memory orders, `push_batch`, `pop_batch`, the blocking `push_wait` and `pop_wait`, and the change from one producer to several while the fast path is in use are not modelled.
- ReactorWakeup.NoLostWakeup: likewise on values and under sequential consistency; eventfd and epoll are a flag and an arbitrary choice of reported events.
- Liveness: nothing is proved about progress beyond one thread running alone: threads that interfere for ever, tasks whose count an early stop of `process_tasks` drops, or a batched reply held back while a following request is incomplete.
- RequestParser.Parser.Parse: is not compared with the parser of the whole input once more than `COMPACT_THRESHOLD` octets are buffered; `ParseAvailable` then still says what the loops and the compaction do, but with captured views as copies of their octets, where compaction moves the memory under them. Buffer capacity, growth and shrinking are not modelled.
- RequestParser.Parser.CompactBuffer: says nothing of the views captured before the move, which the model keeps as copies.
- Arena.AlignUpBits: is about words; that it equals `Arena.AlignUp` on the numbers they stand for is not stated.
- JsonWalk.WalkObject: the return at the key "openapi" is not modelled, and on a missing key at the end of the text the model stops at the end where the code steps one past it.
- Connections.Connection.Serve: connects to the parser through `Http.IsFramer`, that is through the parser of the whole buffer, not through compaction (so up to `COMPACT_THRESHOLD` buffered octets, see `RequestParser.Parser.Parse`); a failing change of watched events is not modelled.
- HeadersMaps.HeadersMap.Set: names and values of 65536 octets or more, which 16-bit lengths cut, and operations on `field::unknown` are excluded; the two halves of the map, the same code for two entry types, share one class, and arrays of slots are sequences that the methods reassign.
- Arena.AllocateKeeps: sizes near the end of the address space and a failing system allocator are not modelled; `arena_vector`, moving and strings in the arena neither.
- JsonStrings.UnescapeInvertsEscape: escapes above 7F, which stand for several octets, are not decoded by the model's reader.
- The vector instructions of `skip_ws`, `find_crlf` and `needs_json_escaping` are taken as their scalar meaning; the blocks of the name comparison and of the escaper are modelled.
- Routers.DispatchRequest: running the chosen handler and its middleware and compiling patterns from literals are not modelled.
- The concrete field table, problem responses, content negotiation, metrics, logging, `inplace_function`, listeners, signals, threads and the io_uring reactor.
- Floating-point parsing, 64-bit integer arrays and the YAML parser and OpenAPI loader apart from the emitter and the walk.
