# Proofs about the protocol code of the call-centre server

The server speaks two protocols of its own stack: WebSocket, through its copy of websocketpp, and
the FreeSWITCH event socket, through its copy of the ESL library. This project models the parts of
both that carry state or arithmetic, as Dafny methods on the same fields, arrays and loops, and
proves what those parts promise.

| file | what it models |
|---|---|
| `WritePump.dfy` | the write queue, write flag, batch and wake-ups of a connection, over every interleaving of its locked sections |
| `Session.dfy`, `Connection.dfy` | the session and close logic of a server connection: one step per handler as functions, and the object whose methods take those steps |
| `CloseRace.dfy` | the same with close() split where its lock lets other handlers in |
| `Utf8.dfy`, `Hybi00.dfy`, `ReadLoop.dfy` | the table-driven UTF-8 validator, the hybi00 frames that rest on it, and the reads of a connection, paused and resumed |
| `EndToEnd.dfy` | from a queued message through pump, transport, reads and parser to a delivered one |
| `Json.dfy`, `JsonRoundTrip.dfy`, `JsonPrinter.dfy`, `JsonParser.dfy` | cJSON: what it prints and parses, that both undo each other, and the code that fills its buffers |
| `JsonUnicode.dfy`, `JsonSyntax.dfy`, `JsonGrammar.dfy` | what those functions take the texts of RFC 8259 for: UTF-8, escapes, numbers, and exactly which texts are read as which trees |
| `Md5.dfy`, `Md5Block.dfy`, `Md5Vector.dfy` | streaming MD5 against the padded definition, its 64 operations against section 3.4 of RFC 1321, and one of the messages of its section A.5 worked through |
| `Words.dfy`, `FrameHeader.dfy`, `FrameMask.dfy` | the RFC 6455 frame layer on machines of either byte order |
| `EslBuffer.dfy`, `EslDemux.dfy` | the compacting buffer of the event socket, and the splitter of replies and events |
| `HttpParams.dfy`, `HttpRoundTrip.dfy`, `HttpGrammar.dfy` | the parser of HTTP parameter lists, what it reads back, and exactly which texts it takes and rejects |
| `Base64.dfy` | base64 against section 4 of RFC 4648 |
| `Bytes.dfy`, `Wrappers.dfy` | shared types |

`dafny verify dfyconfig.toml` checks everything.

The environment is an argument or an event: what the transport, the message manager, the other
processors and the socket answer, which handler runs next, when another thread gets a lock. The
theorems hold for all of them.

Where a promise does not hold, the code was kept and the exact condition proved:

- A plain HTTP connection can see the fail handler (websocketpp/connection.hpp:70-79 says it never
  does): when it is terminated before its response has been written, as a deferred one may be
  (`Session.DeferredExchangeFails`), when writing the response fails (`Session.FailedWriteIff`), and when
  a late event, such as a handshake timer that had already expired, overwrites the stored error before
  the shutdown completes (`Session.HttpConnectionCanFail`). `Session.FailsAfterReadIff` is the exact
  condition on the events, `Session.FailHandlerIff` that on the state.
- `send` checks the state under one lock and pushes under another, so a data frame can follow a close
  frame; `Session.LateFramesAreTheSendersCaught` counts how many.
- `close` queues its frame without looking at the state again, and terminate takes no lock: a connection
  terminated in between comes back to life, asks for a second shutdown and calls the close handler twice
  (`CloseRace.CloseHandlerTwice`; `CloseRace.ForwardIffInTime` has the condition).
- A hybi00 parser in its fatal state consumes nothing, and the read loop has no other way out. After an
  error handle_read_frame asks for no more bytes, but resume_reading does so before and after one
  (websocketpp/impl/connection_impl.hpp:390-393), and a read that then completes never returns, whether or
  not the error terminated the connection (`ReadLoop.SpinsIff`, `ReadLoop.SpinsNextIff`,
  `ReadLoop.NoResumeNoSpin`).
- The OR that joins a surrogate pair (esl/esl_json.c:198) is a sum only for half of the pairs
  (`JsonRoundTrip.SurrogatesIff`).
- The packet scan looks behind the bytes in use, and an old line feed there can complete a packet that
  has not arrived (`EslBuffer.CountIff`, `EslBuffer.StaleLineFeed`).
- When several threads share a handle of the event socket, a sender can find another's reply or none,
  and a receiver can be given a reply: in the gap where a sender has given up the mutex behind an event
  (`EslDemux.AnotherSenderTakes`, `EslDemux.ReceiverTakes`), between the return of a call and the look at
  last_sr_event (`EslDemux.ReplyOverwritten`, `EslDemux.ReplyDestroyed`), and after a time limit
  (`EslDemux.LateReply`). `EslDemux.SafeIff` has the guard that rules out exactly these.
- A quoted string reads back only if it does not end in a backslash (`HttpRoundTrip.QuotedIff`).
- The comment on word_mask_circ (websocketpp/frame.hpp:753-760) says that whole words are written; the
  code writes exactly length bytes, and that is what is proved.

## Model

| member | source | states |
|---|---|---|
| `WritePump.PumpSafety` | websocketpp/impl/connection_impl.hpp:1793-1928 | in every state any interleaving of locked sections, dispatches and completions reaches: messages pushed are those handed to the transport, then a batch on its way there, then the queue, none lost, doubled or reordered; what the transport was given, buffer by buffer, is header and payload of exactly the messages handed over; at most one owner of the batch, and the write flag is set exactly while there is one or the pump has stopped; a non-empty queue has the flag set or a wake-up owed or dispatched; only the last message ever handed over can be terminal |
| `WritePump.BackIsSafe` | websocketpp/impl/connection_impl.hpp:1889-1898 | in every reachable state the current batch is non-empty exactly while it waits for or is in an outstanding write, so the back() of the completion handler finds a message; only its last message can be terminal |
| `WritePump.BufferSize` | websocketpp/impl/connection_impl.hpp:2210-2248 | the byte counter is the sum of the queued payloads modulo the width of size_t, equals it exactly while the sum fits, and then no pop underflows |
| `WritePump.NothingAfterStop` | websocketpp/impl/connection_impl.hpp:1903-1915 | once the pump has stopped (`WritePump.StoppedIff` says when), no continuation of the run hands anything more to the transport |
| `WritePump.StoppedIsFinal` | websocketpp/impl/connection_impl.hpp:1903-1915 | the same from any state that satisfies the invariant |
| `WritePump.StoppedIff` | websocketpp/impl/connection_impl.hpp:1889-1910 | the pump has stopped if and only if the run completed a failed write, or a write whose last message is terminal |
| `WritePump.NothingBehind` | websocketpp/impl/connection_impl.hpp:1901-1905 | behind a failed write, or one of a terminal message, nothing is handed over, whatever is pushed |
| `WritePump.NothingBehindEnd` | websocketpp/impl/connection_impl.hpp:1901-1905 | over whole runs: what has been handed over when such a write completes is all that ever is |
| `WritePump.AllHandedOver` | websocketpp/impl/connection_impl.hpp:1793-1928 | a run without a failed write that leaves nothing to do has handed over the messages its Push events name, through the first terminal one |
| `WritePump.HistoryIs` | websocketpp/impl/connection_impl.hpp:117-143 | what the model calls pushed and broken is what the Push and Complete events of the run say |
| `WritePump.DrainBound` | websocketpp/impl/connection_impl.hpp:1903-1928 | without further pushes every run is at most Measure steps long: each internal step brings the end nearer |
| `WritePump.Drained` | websocketpp/impl/connection_impl.hpp:117-149 | no lost wake-up: where the pump comes to rest with no failed write, exactly the messages pushed up to the first terminal one have been handed over, all of them when none is terminal |
| `WritePump.StepAccounted` | websocketpp/impl/connection_impl.hpp:2210-2248 | each step keeps the byte counter in line with the queue |
| `WritePump.StepInv` | websocketpp/impl/connection_impl.hpp:1793-1928 | each step keeps the whole invariant |
| `WritePump.StepBufferInStep` | websocketpp/impl/connection_impl.hpp:1848-1901 | m_send_buffer is empty except during a transport write, when it holds exactly the batch, so each write gives the transport the buffers of its batch and none of an earlier one |
| `WritePump.Connection.WritePush` | websocketpp/impl/connection_impl.hpp:2210-2226 | appends to the queue and adds the payload size |
| `WritePump.Connection.WritePop` | websocketpp/impl/connection_impl.hpp:2228-2248 | takes the front and subtracts its size; nothing from an empty queue |
| `WritePump.Connection.PopBatch` | websocketpp/impl/connection_impl.hpp:1811-1822 | the pop loop moves the queue through its first terminal message to the batch and subtracts those sizes |
| `WritePump.Connection.LockedPush` | websocketpp/impl/connection_impl.hpp:117-143 | the locked section of a sender: the new fields, and needs_writing exactly when the flag was clear |
| `WritePump.Connection.LockedTake` | websocketpp/impl/connection_impl.hpp:1796-1846 | the pop loop under the lock takes the queue through its first terminal message, sets the flag exactly when there is a batch, and does nothing when the flag was set |
| `WritePump.Connection.GatherBuffers` | websocketpp/impl/connection_impl.hpp:1848-1886 | header and payload of every message of the batch, in order, behind what the buffer list held |
| `WritePump.Connection.ClearBatch` | websocketpp/impl/connection_impl.hpp:1889-1901 | reports whether the last message was terminal and empties the batch |
| `WritePump.Connection.LockedRelease` | websocketpp/impl/connection_impl.hpp:1913-1920 | clears the flag; needs_writing exactly when messages are queued |
| `Session.HandlerContract` | websocketpp/connection.hpp:61-79 | over all runs of a server connection: at most one open, one shutdown request and one ending; never both close and fail handler; close only after open, fail only without; once the shutdown has completed the close handler has run exactly if the open handler had; and of every attempt that is no plain HTTP exchange, either the open or the fail handler has, as long as the environment never hands in the error the connection keeps for ended exchanges |
| `Session.AttemptedStep` | websocketpp/impl/connection_impl.hpp:1698-1790 | no step records that error on a connection that is no HTTP exchange, so the fail branch of the ending is taken there whenever the connection never opened |
| `Session.StateForward` | websocketpp/impl/connection_impl.hpp:1698-1748 | neither the session state nor the internal state ever moves back; closed is final, and a closed connection queues, opens and shuts down nothing |
| `Session.CloseDiscipline` | websocketpp/impl/connection_impl.hpp:1977-2049 | section 5.5.1 of RFC 6455 with each handler one step: behind a close frame only close frames are queued; was_clean only after a close frame came in and an own one was queued |
| `Session.CloseFrameAnswered` | websocketpp/impl/connection_impl.hpp:1977-2049 | section 5.5.1 of RFC 6455: a close frame that comes in while open is answered with one, and the connection closes cleanly; one that answers an own close ends the connection with one request for shutdown; a bad code or reason is answered or drops the connection, as configured |
| `Session.ClosesAreAnswered` | websocketpp/impl/connection_impl.hpp:1977-2049 | over all runs in which the answers can be prepared: once a close frame has come in, one has been queued or the connection has ended |
| `Session.PingAnswered` | websocketpp/impl/connection_impl.hpp:1949-1975 | a ping while open is answered with one pong, queued last, if the application lets it; otherwise nothing changes |
| `Session.OthersIgnored` | websocketpp/impl/connection_impl.hpp:1088-1103 | messages and pongs change nothing; after the end no frame does |
| `Session.BadBytesAnswered` | websocketpp/impl/connection_impl.hpp:1056-1083 | bytes that are no frame drop the connection, or send it a close frame, or drop it because that fails |
| `Session.ReadErrorEnds` | websocketpp/impl/connection_impl.hpp:965-1030 | a failed read ends the connection with its error; behind the end only an error that the end does not explain is recorded |
| `Session.SendQueues` | websocketpp/impl/connection_impl.hpp:104-149 | send, ping and pong queue their frame last, exactly if the connection is open and the frame can be prepared; send says why not |
| `Session.CloseAsks` | websocketpp/impl/connection_impl.hpp:304-324 | close queues its frame exactly if the connection is open, and does not make the ending clean |
| `Session.EndsOnce` | websocketpp/impl/connection_impl.hpp:1698-1748 | the events that end a connection leave it closed with one shutdown requested, whose kind says whether it had opened, and the error they bring |
| `Session.EndingCalls` | websocketpp/impl/connection_impl.hpp:1751-1790 | the shutdown that completes calls the close handler if the connection had opened, else the fail handler unless the error is that of an ended exchange |
| `Session.SetupGoesOn` | websocketpp/impl/connection_impl.hpp:716-802 | starting and a ready transport take the setup one step on |
| `Session.OpensIff` | websocketpp/impl/connection_impl.hpp:1351-1431 | the open handler runs exactly when the response that switches protocols has been written in time |
| `Session.RequestAnswered` | websocketpp/impl/connection_impl.hpp:804-946 | what each outcome of reading and processing the request leaves as response, exchange and error |
| `Session.ResponseEnds` | websocketpp/impl/connection_impl.hpp:1395-1417 | any other response ends the connection once written, a plain HTTP exchange with the error kept for it |
| `Session.DeferredResponse` | websocketpp/impl/connection_impl.hpp:661-699 | a response that is deferred is sent when the application sends it, and only then |
| `Session.FailHandlerIff` | websocketpp/impl/connection_impl.hpp:1751-1790 | when a shutdown completes, the fail handler runs exactly if the connection never opened and its last error is not that of an ended HTTP exchange |
| `Session.FailsAfterReadIff` | websocketpp/impl/connection_impl.hpp:1296-1431 | from every reachable state in which a plain HTTP request has been read, deferred or not, over any events: the shutdown can complete exactly if they terminate the exchange, and the fail handler then runs exactly if the error they leave behind is not that of an ended exchange; if they upgrade it, never. What each event does to the exchange is a function of the event and four bits |
| `Session.DeferredExchangeFails` | websocketpp/impl/connection_impl.hpp:661-699 | a deferred exchange that is terminated before its response has been sent sees the fail handler |
| `Session.FailsAfterAnswerIff` | websocketpp/impl/connection_impl.hpp:1351-1431 | the same from the state in which the request has been answered: the fail handler runs exactly if the events until the shutdown completes record another error or send a response deferred anew, and none of them restores the error of an ended exchange |
| `Session.FailedWriteIff` | websocketpp/impl/connection_impl.hpp:1351-1417 | writing the response of a plain HTTP request fails: the fail handler runs exactly if the error is one, and not that of an ended exchange |
| `Session.PlainStep` | websocketpp/impl/connection_impl.hpp:1296-1790 | each event takes the exchange where that function says |
| `Session.HttpConnectionCanFail` | websocketpp/connection.hpp:70-79 | a run, given event by event, in which a plain HTTP connection sees the fail handler, against the promise of the documentation |
| `Session.LateFramesAreTheSendersCaught` | websocketpp/impl/connection_impl.hpp:110-140 | with the state check and the push of send as separate locked sections: the data frames behind the first close frame and the senders still to push are together exactly the senders that were between check and push when the close frame went in |
| `Session.SendRacesClose` | websocketpp/impl/connection_impl.hpp:110-140 | from every open state a run that puts a data frame behind a close frame |
| `Session.StepInv` | websocketpp/impl/connection_impl.hpp:1351-1431 | each handler and each user call keeps the invariant and moves forward only |
| `Session.RaceStep` | websocketpp/impl/connection_impl.hpp:110-140 | each step keeps the count of late frames against senders caught |
| `CloseRace.ForwardIffInTime` | websocketpp/impl/connection_impl.hpp:304-324 | with the check and the frame of close() as two steps, and every handler that takes no lock in between: a run never moves the connection back if and only if every close() queues its frame before anything terminates the connection; then the invariant holds and the end lies forward of the start |
| `CloseRace.GapStepIff` | websocketpp/impl/connection_impl.hpp:2065-2147 | the same of one step: the invariant is kept, and the step moves forward, exactly if it is no close frame queued on a terminated connection |
| `CloseRace.OneShutdown` | websocketpp/impl/connection_impl.hpp:1698-1748 | in time, a connection asks for one shutdown and calls one ending handler at most |
| `CloseRace.CloseHandlerTwice` | websocketpp/impl/connection_impl.hpp:304-324 | out of time, from every open connection: the peer drops it between check and frame, the frame revives it, the close timer fires, and two shutdowns are asked for and the close handler runs twice |
| `Connection.ServerConnection.Handle` | websocketpp/impl/connection_impl.hpp:716-1790 | any event on the object from any state of the invariant: the fields take the step of the model (`Session.CloseFrameAnswered` and the rows behind it say what that answers), keep the invariant and move forward only; so does every handler it calls |
| `Connection.RunConnection` | websocketpp/impl/connection_impl.hpp:716-1790 | any list of events on a new object: its fields end where the run of the model ends, the run is the whole list if all of it can happen, handler contract (open or fail handler for each attempt included) and close discipline hold of the fields, a close frame that came in has been answered or the connection is closed if the answers could be prepared, and from every state along the run to the last it moved forward |
| `Hybi00.RoundTrip` | websocketpp/processors/hybi00.hpp:252-363 | the frames of any list of UTF-8 payloads, cut into reads anywhere, come back as exactly that list without an error if the message manager grants each of them a message, and otherwise as those before the first refusal, with its error |
| `Hybi00.FrameReadsBackIff` | websocketpp/processors/hybi00.hpp:329-363 | one frame reads back if and only if its payload holds no 0xFF and the manager grants a message |
| `Hybi00.WholeIff` | websocketpp/processors/hybi00.hpp:252-307 | with every message granted, any bytes leave the parser between two messages without an error if and only if they are whole frames: a zero byte, bytes other than 0xFF, and 0xFF |
| `Hybi00.ViolationIff` | websocketpp/processors/hybi00.hpp:252-307 | and they are a protocol violation if and only if whole frames are followed by a byte other than zero |
| `Hybi00.FeedWire` | websocketpp/processors/hybi00.hpp:252-307 | the same for one read of the whole stream with any bytes behind it, which are then read from a parser that has asked for as many messages |
| `Hybi00.FeedAppend` | websocketpp/processors/hybi00.hpp:252-307 | reading a and then b is reading a + b, unless a ended in an error |
| `Hybi00.FeedChunksIsFeed` | websocketpp/impl/connection_impl.hpp:1032-1103 | where the reads are cut does not matter |
| `Hybi00.PrepareDataFrame` | websocketpp/processors/hybi00.hpp:329-363 | succeeds exactly on a text message of valid UTF-8 with both pointers set, each error in its turn, and then header and payload are a zero byte, the payload and 0xFF |
| `Hybi00.PrepareAll` | websocketpp/processors/hybi00.hpp:329-363 | over a list of payloads: the accepted ones are the valid ones, and the wire is their frames |
| `Hybi00.Processor.Consume` | websocketpp/processors/hybi00.hpp:252-307 | the parsing loop takes exactly what the stream semantics takes up to a finished message or an error, and all of it otherwise |
| `Hybi00.Processor.GetMessage` | websocketpp/processors/hybi00.hpp:317-324 | hands the message over and starts afresh |
| `Hybi00.HandleRead` | websocketpp/impl/connection_impl.hpp:1032-1103 | over any state of the parser and any bytes: the read loop delivers what the stream semantics says, and goes round for ever exactly if the parser is in its fatal state and there are bytes |
| `Hybi00.ReceiveAll` | websocketpp/impl/connection_impl.hpp:1032-1103 | the read loop over any list of reads from a new connection |
| `Hybi00.SpinsWhenFatal` | websocketpp/impl/connection_impl.hpp:1032-1103 | a fatal parser given bytes consumes none of them and keeps its state, in any number of rounds of the loop |
| `ReadLoop.SpinsIff` | websocketpp/impl/connection_impl.hpp:390-393 | over any sequence of reads, failed reads, pauses and resumes from a new connection, terminated or not: a handler never returns if and only if a read completes behind one that ended in an error |
| `ReadLoop.SpinsNextIff` | websocketpp/impl/connection_impl.hpp:1032-1103 | behind an error such a read can complete exactly while one is outstanding, and any of them never returns |
| `ReadLoop.ResumeSpins` | websocketpp/impl/connection_impl.hpp:378-393 | one resume_reading behind an error, and any bytes, are enough |
| `ReadLoop.ResumeBeforeSpins` | websocketpp/impl/connection_impl.hpp:378-393 | so is one before it, without a pause: two reads are outstanding, the first ends in the error, the second never returns |
| `ReadLoop.NoResumeNoSpin` | websocketpp/impl/connection_impl.hpp:1108-1128 | without resume_reading every handler returns, at most one read is outstanding, and none behind an error |
| `ReadLoop.PausedReads` | websocketpp/impl/connection_impl.hpp:1108-1128 | behind a pause, until a resume, only the reads already asked for complete: each lowers their number and no other is asked for |
| `ReadLoop.PausedIff` | websocketpp/impl/connection_impl.hpp:360-393 | reading is paused exactly if the last of the two calls was pause_reading |
| `ReadLoop.KeepsReading` | websocketpp/impl/connection_impl.hpp:1032-1128 | with no pause, no failed read and no error another read can always complete |
| `ReadLoop.StepInv` | websocketpp/impl/connection_impl.hpp:1032-1128 | the parser is fatal exactly behind an error, and nothing is delivered after it |
| `ReadLoop.RunReads` | websocketpp/impl/connection_impl.hpp:965-1128 | the reads and calls on the object deliver and end as the model says, and hang under that same condition |
| `EndToEnd.DeliversPrefix` | websocketpp/impl/connection_impl.hpp:1793-1928 | any interleaving of the write pump over data frames and a close frame with anything behind it, any beginning of the bytes given to the transport, any cut into reads, any answers of the message manager: the receiver gets the first of the payloads pushed, in order, and an error only where the manager refused one or a close frame follows |
| `EndToEnd.DeliversAll` | websocketpp/impl/connection_impl.hpp:1032-1103 | the pump at rest with no failed write, every message granted and all bytes read: every payload pushed before the first close frame, once, in order, and then exactly if there is a close frame an error |
| `Utf8.Validate` | websocketpp/utf8_validator.hpp:143-149 | true exactly for the strings of the grammar in section 4 of RFC 3629 |
| `Utf8.ValidateChunks` | websocketpp/utf8_validator.hpp:105-127 | splitting the input across decode calls does not change the verdict |
| `Utf8.AcceptedIsUtf8` | websocketpp/utf8_validator.hpp:45-88 | what the table accepts is in the grammar |
| `Utf8.Utf8IsAccepted` | websocketpp/utf8_validator.hpp:45-88 | what is in the grammar the table accepts, from any code point |
| `Utf8.CharAccepted` | websocketpp/utf8_validator.hpp:69-88 | each character of the grammar leads back to the accepting state with its own code point, as the layout of the bits has it |
| `Utf8.EncodeAccepted` | websocketpp/utf8_validator.hpp:69-88 | the encoding of every scalar value is accepted, with that value as the code point |
| `Utf8.RunEncodeAll` | websocketpp/utf8_validator.hpp:69-88 | a whole text of scalar values is accepted and leaves the code point of its last |
| `Utf8.AssembleInvertsEncode` | websocketpp/utf8_validator.hpp:69-80 | the bits put together from an encoding are the scalar value |
| `Utf8.EncodeInvertsAssemble` | websocketpp/utf8_validator.hpp:69-80 | every character of the grammar is the encoding of a scalar value: the grammar leaves out overlong forms and surrogates |
| `Utf8.Utf8IsEncoding` | websocketpp/utf8_validator.hpp:45-88 | every accepted string is the encoding of some scalar values |
| `Utf8.AcceptedHasNoFF` | websocketpp/utf8_validator.hpp:45-66 | an accepted string holds no 0xFF, which hybi00 rests on |
| `Utf8.NeverAppear` | websocketpp/utf8_validator.hpp:45-66 | the octets 0xC0, 0xC1 and 0xF5 to 0xFF never appear in an accepted string |
| `Utf8.Section7` | websocketpp/utf8_validator.hpp:69-80 | the characters of section 7 of RFC 3629 have the bytes given there |
| `Utf8.Section10` | websocketpp/utf8_validator.hpp:45-66 | the sequences of section 10 of RFC 3629 that must not be taken are not |
| `Utf8.RejectAbsorbs` | websocketpp/utf8_validator.hpp:45-66 | the rejecting state is never left |
| `Utf8.NextStateCases` | websocketpp/utf8_validator.hpp:45-66 | the table lookup in closed form: what each state accepts next |
| `Utf8.Validator.Consume` | websocketpp/utf8_validator.hpp:91-98 | one byte moves state and code point as the table says; false exactly on rejection |
| `Utf8.Validator.Decode` | websocketpp/utf8_validator.hpp:105-121 | a run over the bytes that stops at the first rejection |
| `Utf8.Validator.Complete` | websocketpp/utf8_validator.hpp:124-126 | true exactly in the accepting state |
| `Utf8.Validator.Reset` | websocketpp/utf8_validator.hpp:129-132 | back to the accepting state with code point 0, from any state |
| `JsonRoundTrip.RoundTrip` | esl/esl_json.c:284-346 | for every tree of null, booleans, int-valued numbers, C strings, arrays and objects, formatted or not: parsing the printed text gives the tree back |
| `JsonRoundTrip.RoundTripInText` | esl/esl_json.c:288-300 | the same for a tree printed at any depth and in the middle of any text, with the exact end of the value |
| `JsonRoundTrip.EscapeBack` | esl/esl_json.c:162-257 | escapes, control characters as \u00XX included, are undone exactly |
| `JsonRoundTrip.NumberBack` | esl/esl_json.c:108-137 | a printed int reads back as itself |
| `JsonRoundTrip.EscapeIsUtf8` | esl/esl_json.c:184-214 | \u and four digits anywhere in a text is read as the UTF-8 of section 3 of RFC 3629 of the number they write; a zero or a lone low surrogate as nothing |
| `JsonRoundTrip.LiteralIsUtf8` | esl/esl_json.c:162-221 | a whole literal of one such escape |
| `JsonRoundTrip.LiteralExamples` | esl/esl_json.c:201-208 | \u4e2d in either case is E4 B8 AD |
| `JsonRoundTrip.ShortExamples` | esl/esl_json.c:201-208 | \u00e9 is C3 A9 and \u0041 is A |
| `JsonRoundTrip.Scanned` | esl/esl_json.c:153-158 | four characters are scanned as a number exactly if they are the hexadecimal digits, of either case, that write it |
| `JsonUnicode.WrittenIsUtf8` | esl/esl_json.c:201-209 | what is written for a scalar value is, byte for byte, its encoding in section 3 of RFC 3629 |
| `JsonUnicode.StandsForIff` | esl/esl_json.c:201-209 | and nothing else stands for it |
| `JsonSyntax.ShortEscapeRead` | esl/esl_json.c:178-214 | each of the eight short escapes is read as its character |
| `JsonSyntax.EscapePrinted` | esl/esl_json.c:236-253 | a character is printed as itself, as its short escape, or as \u00 and the two digits of its number |
| `JsonSyntax.NumberIs` | esl/esl_json.c:108-128 | a number of section 6 of RFC 8259 anywhere in a text, with any sign, fraction and exponent, is read to its end and as what it is worth: sign times digits times the power of ten |
| `JsonSyntax.Worth` | esl/esl_json.c:108-128 | what a number text is worth, said without powers of ten that are not whole |
| `JsonSyntax.SkipIs` | esl/esl_json.c:269-270 | exactly the characters up to the space, NUL excepted, are passed over |
| `JsonSyntax.ArrayText` | esl/esl_json.c:349-397 | a printed array is a bracket, the printed elements with a comma (and a space when formatted) between them, and a bracket |
| `JsonSyntax.ObjectText` | esl/esl_json.c:436-491 | a printed object is a brace, a line for each member with commas between them, and a brace, each on its line and indented by its depth when formatted |
| `JsonSyntax.TabsAre` | esl/esl_json.c:474-490 | the indentation is that many tabs |
| `JsonSyntax.Words` | esl/esl_json.c:288-318 | null, true and false are printed as these words and read from them |
| `JsonGrammar.ParseIff` | esl/esl_json.c:273-281 | cJSON_Parse gives a tree if and only if the tree stands in the text behind the blanks it begins with; what follows the value is not looked at |
| `JsonGrammar.ReadIff` | esl/esl_json.c:288-433 | a value is read, from one position to another, if and only if it stands there: a word, a literal, a number, or brackets with every blank, comma and colon in its place and a value at each of them |
| `JsonGrammar.LiteralIff` | esl/esl_json.c:162-221 | a literal is read as these characters if and only if they stand there one by one, or as what an escape stands for, up to a quote or the end of the text |
| `JsonGrammar.EscapedIff` | esl/esl_json.c:178-216 | every escape, broken ones included, is read as what it stands for in numbers and UTF-8, and as nothing else |
| `JsonRoundTrip.SurrogatesIff` | esl/esl_json.c:184-199 | a pair of \u escapes anywhere in a text, four hexadecimal digits of either case each, whose numbers are a high and a low surrogate, is read as the UTF-8 of its code point if and only if bit 6 of the high number is clear |
| `JsonRoundTrip.SurrogateExample` | esl/esl_json.c:184-199 | the literal of U+20000 is read as U+10000 |
| `JsonRoundTrip.JoinIff` | esl/esl_json.c:196-198 | the OR is the sum exactly for those pairs |
| `JsonRoundTrip.PairLiteral` | esl/esl_json.c:162-257 | what the string parser reads from a literal that is one escaped pair |
| `JsonPrinter.PrintJson` | esl/esl_json.c:303-318 | the buffer holds the C string of the printed value; every write on the way is inside its allocation, through arrays and objects in each other |
| `JsonPrinter.EscapedLength` | esl/esl_json.c:229-230 | the first loop counts exactly the escaped characters |
| `JsonPrinter.PrintStringPtr` | esl/esl_json.c:224-257 | the escaped string in quotes with its NUL, in the size counted |
| `JsonPrinter.PrintNumber` | esl/esl_json.c:131-140 | %d of every int fits the 21 characters |
| `JsonPrinter.PrintArray` | esl/esl_json.c:349-397 | the two passes: the entries apart, then composed in a buffer of the summed size |
| `JsonPrinter.PrintObject` | esl/esl_json.c:436-491 | the same for objects, with tabs for the depth |
| `JsonPrinter.ComposeArray` | esl/esl_json.c:383-396 | an array of the size summed up holds all entries and separators |
| `JsonPrinter.ComposeObject` | esl/esl_json.c:474-490 | likewise for names, values, separators and tabs |
| `JsonPrinter.ItemsFit` | esl/esl_json.c:364-369 | the printed elements never need more than the sum allots |
| `JsonPrinter.MembersFit` | esl/esl_json.c:455-464 | the printed members never need more than the sum allots |
| `JsonPrinter.ValueNulFree` | esl/esl_json.c:303-318 | no printed text holds a NUL, so strlen finds its end |
| `JsonPrinter.StrCpy` | esl/esl_json.c:385-388 | strcpy copies the C string and its NUL |
| `JsonParser.ReadString` | esl/esl_json.c:162-221 | the two loops of the parser of literals: the text read, and every write inside the buffer sized by the first |
| `JsonParser.EscapeFits` | esl/esl_json.c:167-169 | no escape stands for more bytes than the first loop counts for it |
| `JsonParser.BodyFits` | esl/esl_json.c:167-169 | so no literal is longer than what was counted |
| `JsonParser.PutUtf8` | esl/esl_json.c:201-209 | the bytes written from last to first are those of the code point, which are UTF-8 (`JsonUnicode.WrittenIsUtf8`) |
| `JsonParser.PutUnescaped` | esl/esl_json.c:178-214 | one escape: what is written (`JsonRoundTrip.EscapeIsUtf8`, `JsonSyntax.ShortEscapeRead`) and where reading goes on, a backslash at the end of the text included |
| `JsonParser.ReadNumber` | esl/esl_json.c:108-128 | the value and end of a number, over the reals |
| `JsonParser.ReadValue` | esl/esl_json.c:288-300 | the dispatcher computes ParseValue, the function the round trip is about |
| `JsonParser.ReadArray` | esl/esl_json.c:321-346 | the loop over elements |
| `JsonParser.ReadObject` | esl/esl_json.c:400-433 | the loop over members |
| `JsonParser.Read` | esl/esl_json.c:273-281 | cJSON_Parse: a tree or nothing |
| `JsonParser.PrintAndRead` | esl/esl_json.c:284-285 | printing into buffers and parsing what they hold gives every tree back |
| `Md5.HashChunks` | websocketpp/common/md5.hpp:349-412 | any way of splitting a message into appends gives the MD5 digest of the whole: sections 3.1 to 3.5 of RFC 1321, block function included |
| `Md5Vector.SmallLetters` | websocketpp/common/md5.hpp:170-412 | the digest of the twenty-six small letters is the one that section A.5 of RFC 1321 lists, through all 64 steps, start values, padding and byte order |
| `Md5Block.Process` | websocketpp/common/md5.hpp:170-346 | the four rounds on a block are the 64 steps of section 3.4 with the registers back in place, and the old registers added |
| `Md5Block.Round1` | websocketpp/common/md5.hpp:236-260 | the sixteen operations written out are steps 0 to 15 |
| `Md5Block.Round2` | websocketpp/common/md5.hpp:262-286 | steps 16 to 31 |
| `Md5Block.Round3` | websocketpp/common/md5.hpp:288-312 | steps 32 to 47 |
| `Md5Block.Round4` | websocketpp/common/md5.hpp:314-338 | steps 48 to 63 |
| `Md5Block.Set1` | websocketpp/common/md5.hpp:240-242 | one operation, whose registers have changed places, is the next step |
| `Md5Block.Operations2` | websocketpp/common/md5.hpp:270-285 | word, rotation and masked constant of each operation are those of the formulas and the table; likewise the other rounds |
| `Md5Block.RotateIs` | websocketpp/common/md5.hpp:234 | the two shifts are the rotation, for every amount in use |
| `Md5Block.Load` | websocketpp/common/md5.hpp:226-227 | the bytes put together are the words of the block, low byte first |
| `Md5.State.Append` | websocketpp/common/md5.hpp:357-391 | the state afterwards stands for the longer message: bit count modulo 2^64, last partial block and blocks folded |
| `Md5.State.Finish` | websocketpp/common/md5.hpp:393-412 | the digest is that of the padded message |
| `Md5.State.AppendPadding` | websocketpp/common/md5.hpp:400-409 | length kept before padding, padding and length appended: the padded message of sections 3.1 and 3.2 |
| `Md5.State.Count` | websocketpp/common/md5.hpp:366-370 | the two words with their carry count 8 times the bytes modulo 2^64 |
| `Md5.State.FillPartial` | websocketpp/common/md5.hpp:373-383 | the partial block: filled and processed, or filled a little more |
| `Md5.State.ProcessFull` | websocketpp/common/md5.hpp:386-387 | the loop over full blocks |
| `Md5.CountStep` | websocketpp/common/md5.hpp:366-370 | the arithmetic of the two-word counter |
| `Md5.OffsetIs` | websocketpp/common/md5.hpp:360 | the offset taken from the low word is the number of buffered bytes |
| `Md5.PadBytes` | websocketpp/common/md5.hpp:406 | the pad length computed from the count gives the padding of section 3.1 |
| `Md5.PairBytes` | websocketpp/common/md5.hpp:402-404 | the eight length bytes, low word first |
| `Md5.PutDigest` | websocketpp/common/md5.hpp:410-411 | the sixteen digest bytes |
| `Md5.FoldAppend` | websocketpp/common/md5.hpp:386-387 | folding block after block is folding the concatenation |
| `Md5.PaddedInjective` | websocketpp/common/md5.hpp:400-409 | two messages shorter than 2^61 bytes never share a padded form |
| `FrameHeader.WriteHeader` | websocketpp/frame.hpp:194-275 | basic and extended header made and written with prepare_header: the layout of section 5.2 of RFC 6455, in numbers, for every opcode, flag, key and 64-bit size, in get_header_len bytes |
| `FrameHeader.LayoutIff` | websocketpp/frame.hpp:183-228 | a header encodes these fields if and only if it is section 5.2 of RFC 6455 in numbers: 0x80, 0x40, 0x20, 0x10 and 0x0F of the first byte for FIN, RSV1 to RSV3 and the opcode; 0x80 of the second for the mask; its other bits the size up to 125, 126 and two bytes high byte first up to 65535, 127 and eight bytes above; then the key |
| `FrameHeader.Shortest` | websocketpp/frame.hpp:218-224 | 126 is written only above 125 and 127 only above 65535, and the length of the header in every case |
| `FrameHeader.ReadBack` | websocketpp/frame.hpp:445-585 | a reader of either byte order, with any bytes behind the header, gets every field back |
| `FrameHeader.MinimalSize` | websocketpp/frame.hpp:573-585 | no header that carries a size has fewer size bytes than the one written |
| `FrameHeader.PrepareHeader` | websocketpp/frame.hpp:489-502 | the two bytes and as much of the extended header as get_header_len says |
| `FrameHeader.BasicHeader.constructor` | websocketpp/frame.hpp:194-228 | every accessor gives what was put in |
| `FrameHeader.BasicHeader.SetFin` | websocketpp/frame.hpp:330-332 | one bit set or cleared, the seven others kept |
| `FrameHeader.BasicHeader.SetRsv1` | websocketpp/frame.hpp:348-350 | likewise |
| `FrameHeader.BasicHeader.SetRsv2` | websocketpp/frame.hpp:366-368 | likewise |
| `FrameHeader.BasicHeader.SetRsv3` | websocketpp/frame.hpp:384-386 | likewise |
| `FrameHeader.BasicHeader.SetMasked` | websocketpp/frame.hpp:411-413 | likewise, and the size kept |
| `FrameHeader.ExtendedHeader.CopyPayload` | websocketpp/frame.hpp:260-274 | the low 0, 2 or 8 bytes of the size in network order |
| `FrameHeader.ExtendedHeader.WithKey` | websocketpp/frame.hpp:246-256 | the size and then the key |
| `FrameHeader.JumboBack` | websocketpp/frame.hpp:555-559 | eight bytes in network order read back on either machine |
| `Words.HtonllIsBigEndian` | websocketpp/common/network.hpp:66-90 | _htonll puts the high byte first in memory on either machine |
| `Words.HtonllTwice` | websocketpp/common/network.hpp:97-100 | _ntohll undoes _htonll |
| `Words.XorBytes` | websocketpp/frame.hpp:702-717 | a word xor is a xor of each byte |
| `FrameMask.MaskChunks` | websocketpp/frame.hpp:768-841 | a message masked in place chunk by chunk, by words or by bytes as it comes, each returned key fed into the next call, is section 5.3 of RFC 6455 of the concatenation |
| `FrameMask.WordMaskCirc` | websocketpp/frame.hpp:768-789 | exactly length bytes masked, no other byte written, and the returned key stands for the position behind them; input and output may be one buffer |
| `FrameMask.ByteMaskCirc` | websocketpp/frame.hpp:830-841 | the same result by bytes |
| `FrameMask.WordMaskExact` | websocketpp/frame.hpp:702-717 | words and then single bytes: the same as byte by byte |
| `FrameMask.ByteMask` | websocketpp/frame.hpp:645-655 | the loop with its wrapping key index is section 5.3 of RFC 6455 |
| `FrameMask.MaskedTwice` | websocketpp/frame.hpp:645-655 | masking twice is the identity |
| `FrameMask.MaskedAppend` | websocketpp/frame.hpp:645-655 | masking a concatenation is masking its parts at their offsets |
| `FrameMask.MaskedIs` | websocketpp/frame.hpp:645-655 | octet i is xored with octet (offset + i) modulo 4 of the key |
| `FrameMask.MaskedHello` | websocketpp/frame.hpp:645-655 | the masked "Hello" of section 5.7 of RFC 6455 |
| `FrameMask.PrepareKeyIsPrepared` | websocketpp/frame.hpp:595-604 | the prepared key is the key twice in memory, on either machine |
| `FrameMask.CircshiftRotates` | websocketpp/frame.hpp:612-623 | the shift moves the bytes in memory round by the offset, on either machine |
| `FrameMask.CircshiftIsPrepared` | websocketpp/frame.hpp:612-623 | so the shifted key stands for a later position |
| `EslBuffer.RunBuffer` | esl/esl_buffer.c:132-321 | any run of writes, reads, tosses and zeroings on a new buffer reads and leaves what a queue of bytes would, through compaction and growth |
| `EslBuffer.Buffer.Write` | esl/esl_buffer.c:250-310 | the contents gain the bytes, head offset + used = actually_used <= datalen stays, and the array is reallocated exactly when it is too short |
| `EslBuffer.Buffer.MakeRoom` | esl/esl_buffer.c:262-296 | compaction and growth keep the contents and make room |
| `EslBuffer.Buffer.Compact` | esl/esl_buffer.c:263-267 | memmove onto itself keeps the contents |
| `EslBuffer.Buffer.Read` | esl/esl_buffer.c:173-196 | the front of the contents, as much as there is, and the rest stays |
| `EslBuffer.Buffer.Toss` | esl/esl_buffer.c:132-151 | drops the front and returns what is left in use |
| `EslBuffer.Buffer.Zero` | esl/esl_buffer.c:313-321 | empties the buffer |
| `EslBuffer.Buffer.PacketCount` | esl/esl_buffer.c:199-219 | the count of the scan, over memory behind the bytes in use too |
| `EslBuffer.Buffer.ReadPacket` | esl/esl_buffer.c:222-248 | the bytes through the first packet end, cut to maxlen and to what is in use; none without one |
| `EslBuffer.DrainPackets` | esl/esl_buffer.c:199-248 | read_packet with a large enough maxlen gives exactly packet_count non-empty packets before nothing, whatever lies behind the bytes in use; they are the packets cut from memory, and their concatenation is the front of the contents |
| `EslBuffer.CutBack` | esl/esl_buffer.c:222-248 | packets written one behind the other, each lines and an empty line (10 10 or 10 13 10), with lines of another begun behind them, are cut exactly as they were written |
| `EslBuffer.QueueIs` | esl/esl_buffer.c:132-196 | what a queue gives and keeps: the first bytes asked for, or all there are, and the others |
| `EslBuffer.PacketsBack` | esl/esl_buffer.c:199-219 | and are counted as so many |
| `EslBuffer.PacketEndIff` | esl/esl_buffer.c:207-216 | a packet ends exactly where bytes 10 10 or 10 13 10 do, at the end of the bytes in use or before |
| `EslBuffer.ZeroStops` | esl/esl_buffer.c:207-216 | a zero byte behind lines ends the scan |
| `EslBuffer.CountIff` | esl/esl_buffer.c:207-216 | packet_count tells the packets that end inside the bytes in use if and only if no old line feed behind them completes a dangling one |
| `EslBuffer.CountIs` | esl/esl_buffer.c:207-216 | the exact number in every case |
| `EslBuffer.StaleLineFeed` | esl/esl_buffer.c:207-216 | a run after which a buffer with one line feed counts one packet |
| `EslDemux.WireOrder` | esl/esl.c:1558-1592 | over every interleaving of esl_send_recv and esl_recv_event with check_q: messages read and not returned as replies are those delivered and then race_event, in the order of the wire |
| `EslDemux.UncheckedReceiveIff` | esl/esl.c:1279-1285 | a receive that does not check race_event keeps that order if and only if race_event is empty |
| `EslDemux.OnlyEventsQueued` | esl/esl.c:1564-1598 | race_event never holds a reply, last_sr_event nothing else between two calls, and only replies are returned as such |
| `EslDemux.DownStaysDown` | esl/esl.c:1256-1275 | a handle once disconnected reads, delivers, returns and sends nothing; senders can only still look at replies that had been returned before |
| `EslDemux.QueueDrains` | esl/esl.c:1279-1285 | receives take race_event in order |
| `EslDemux.SafeIff` | esl/esl.c:1531-1605 | a call made while all is in line: a guard on the state before it holds if and only if no continuation, in which all others keep to the guard and the server answers commands only, ends with a sender that finds no reply or one that is not its own, or with a reply delivered to a receiver. The guard: a command only while no other is out and no other sender has yet to look at its reply; a receive from the wire only while no command is out; no time limit; no disconnect before a reply has been looked at |
| `EslDemux.AstrayIff` | esl/esl.c:1582-1605 | some call can do such harm exactly where a sender has given up the mutex behind an event and still waits, or has its reply and has not looked at it; with a time limit, exactly while a command is out or a reply not looked at |
| `EslDemux.GuardedRunsAreRight` | esl/esl.c:1531-1605 | callers that keep to the guard find their own replies in last_sr_event along every run, and no receiver gets a reply |
| `EslDemux.MatchedAlongIff` | esl/esl.c:1541-1605 | the discipline behind the guard, which is more than coming out right: along a run at most one sender is inside a call or has yet to look at its reply, and that reply is the next or still there, if and only if each step is orderly |
| `EslDemux.StepMatchedIff` | esl/esl.c:1541-1605 | the same of one step from any such state |
| `EslDemux.RightAnyway` | esl/esl.c:1582-1605 | a single run outside the discipline can come out right: a second command in the gap of the first, and both replies in turn |
| `EslDemux.GapOpensIff` | esl/esl.c:1569-1605 | where no such window is open, one opens exactly where a sender reads: an event opens a gap, a reply waits to be looked at |
| `EslDemux.GapReached` | esl/esl.c:1569-1592 | a new handle reaches one with a command and an event before its reply |
| `EslDemux.UnreadReached` | esl/esl.c:1594-1605 | a new handle reaches an unread reply with a command and its reply |
| `EslDemux.ReplyOverwritten` | esl/esl.c:1549-1562 | no event and no gap: wherever a sender has yet to look at its reply, another whole call puts its own there, and that is what the first sender finds (esl/esl_oop.cpp:89-92 looks after the call has returned) |
| `EslDemux.ReplyDestroyed` | esl/esl.c:1133-1156 | a command or a disconnect in that place leaves it nothing to find |
| `EslDemux.LateReply` | esl/esl.c:1178-1228 | wherever a command runs into a time limit, the next one is answered with the reply that comes late |
| `EslDemux.AnotherSenderTakes` | esl/esl.c:1582-1592 | wherever a command is out and the mutex free, another command can be given its reply |
| `EslDemux.ReceiverTakes` | esl/esl.c:1256-1285 | and so can a receiver that does not check race_event or finds it empty |
| `EslDemux.ReceiversTake` | esl/esl.c:1256-1285 | receivers that do check it get there once they have emptied it |
| `EslDemux.Handle.RecvEvent` | esl/esl.c:1256-1411 | which message is delivered, the status, and the end on a disconnect notice that does not linger |
| `EslDemux.Handle.Begin` | esl/esl.c:1531-1556 | esl_send_recv up to its first receive: the test of the connection, last_sr_event cleared, the command sent or not |
| `EslDemux.Handle.Round` | esl/esl.c:1558-1605 | one round: queue and go again, return the reply (`EslDemux.ReplyIff` says which messages are), or give up |
| `EslDemux.Handle.Look` | esl/esl_oop.cpp:89-92 | what a sender finds in last_sr_event |
| `EslDemux.Handle.Close` | esl/esl.c:1123-1175 | esl_disconnect: the socket first, then queue and last_sr_event under the mutex |
| `EslDemux.Handle.SendRecv` | esl/esl.c:1541-1605 | alone at the handle: the first reply on the wire is returned, what came before it is appended to race_event, and the loop ends, with success exactly if there is a reply on the wire |
| `EslDemux.Handle.Command` | esl/esl.c:1541-1605 | events of type text/event-plain and then a command/reply: the sender finds that reply, and race_event gains those events in order |
| `EslDemux.ReplyIff` | esl/esl.c:1564-1570 | a message is a reply if and only if it has no content type, or one that is "api/response" or "command/reply" but for the case of its letters |
| `EslDemux.EndsConnectionIff` | esl/esl.c:1403-1410 | a message ends the connection if and only if its content type is "text/disconnect-notice" but for case, it has a body, and its disposition is not "linger" but for case |
| `EslDemux.ContentTypes` | esl/esl.c:1564-1570 | the content types of replies and those of events |
| `EslDemux.Notices` | esl/esl.c:1403-1410 | the notices that end the connection and those that let it linger |
| `HttpRoundTrip.RenderAndExtract` | websocketpp/http/parser.hpp:293-376 | every non-empty list of parameters with token, blank or quoted attribute values, written with any linear blanks in any place, reads back: cursor at the end and exactly that list |
| `HttpRoundTrip.ParametersBack` | websocketpp/http/parser.hpp:293-376 | the same of the function the cursor loops compute |
| `HttpRoundTrip.QuotedIff` | websocketpp/http/parser.hpp:92-127 | reading a quoted string undoes quoting if and only if the value does not end in a backslash |
| `HttpRoundTrip.QuotedBack` | websocketpp/http/parser.hpp:92-127 | and otherwise reading never stops at the closing quote |
| `HttpRoundTrip.SkipGap` | websocketpp/http/parser.hpp:139-179 | blanks as *LWS of section 2.2 of RFC 2616, folded lines included, are skipped exactly |
| `HttpRoundTrip.AttributesBack` | websocketpp/http/parser.hpp:195-276 | any list of attributes, a later one replacing an earlier one of its name |
| `HttpGrammar.AcceptedIff` | websocketpp/http/parser.hpp:293-376 | a text is read to its end, as a given list, if and only if it is of the grammar and says so: parameters with blanks anywhere and commas between them, and at the end a parameter, one with a semicolon and blanks, or blanks alone, but not nothing behind a comma |
| `HttpGrammar.RejectedIff` | websocketpp/http/parser.hpp:293-376 | a text is a syntax error, with a given list kept, if and only if it is such a list that ends in a flaw: nothing behind a comma or a semicolon, something else where a name must be, or no token and no closed quoted string behind an equals sign |
| `HttpGrammar.ListOf` | websocketpp/http/parser.hpp:293-376 | any text at all taken apart: what was read, what is left, or the flaw |
| `HttpGrammar.LastValue` | websocketpp/http/parser.hpp:195-276 | a name has the value of the last attribute that bears it |
| `HttpGrammar.QuotedRestOf` | websocketpp/http/parser.hpp:92-127 | whatever is read as a quoted string is the quoting of the value that comes out |
| `HttpGrammar.QuotingIs` | websocketpp/http/parser.hpp:92-127 | quoting is a backslash before every quote and nothing else |
| `HttpGrammar.BlankIs` | websocketpp/http/parser.hpp:139-151 | blanks are spaces and tabs, and a carriage return and line feed before one of them |
| `HttpParams.TokenTable` | websocketpp/http/constants.hpp:72-100 | header_token is the token of section 2.2 of RFC 2616 |
| `HttpParams.ExtractToken` | websocketpp/http/parser.hpp:73-78 | on every input: the cursor stays in range and stops behind the token; likewise below |
| `HttpParams.ExtractQuotedString` | websocketpp/http/parser.hpp:92-127 | the value and cursor, or begin and nothing |
| `HttpParams.ExtractLws` | websocketpp/http/parser.hpp:139-151 | one unit of blanks |
| `HttpParams.ExtractAllLws` | websocketpp/http/parser.hpp:164-179 | all blanks; every round but the last moves on |
| `HttpParams.ExtractAttributes` | websocketpp/http/parser.hpp:195-276 | the attributes and cursor, or begin on a syntax error; each round moves on |
| `HttpParams.ExtractParameters` | websocketpp/http/parser.hpp:293-376 | the parameters and cursor, or begin on a syntax error with the earlier parameters kept; each round moves on |
| `Base64.EncodeAndDecode` | websocketpp/base64/base64.hpp:66-174 | decoding an encoding gives every byte string back |
| `Base64.Encode` | websocketpp/base64/base64.hpp:66-116 | the encoding of section 4 of RFC 4648, padding included, of length 4 * ceil(n / 3) |
| `Base64.Decode` | websocketpp/base64/base64.hpp:131-174 | the bytes of the letters up to the first other character, an unfinished group included |
| `Base64.RoundTrip` | websocketpp/base64/base64.hpp:131-174 | decoding the encoding of section 4 gives the bytes back |
| `Base64.SplitIsSix` | websocketpp/base64/base64.hpp:77-82 | the masks and shifts are the six-bit pieces of the 24-bit group |
| `Base64.RfcLength` | websocketpp/base64/base64.hpp:66-116 | four letters for every three bytes begun |
| `Base64.Table1` | websocketpp/base64/base64.hpp:42-45 | the alphabet of table 1 of RFC 4648 |
| `Base64.WholeIs` | websocketpp/base64/base64.hpp:74-89 | three bytes are the four letters whose six bits, first one highest, make the same 24-bit number |
| `Base64.OneByteIs` | websocketpp/base64/base64.hpp:92-113 | one byte and four zero bits are two letters, and two characters of padding |
| `Base64.TwoBytesAre` | websocketpp/base64/base64.hpp:92-113 | two bytes and two zero bits are three letters, and one |
| `Base64.Section10` | websocketpp/base64/base64.hpp:66-116 | the texts of section 10 of RFC 4648 |
| `Base64.FindIff` | websocketpp/base64/base64.hpp:53-58 | is_base64 holds exactly for the letters that find knows, and the alphabet gives each back |

## Left out

- Session.HandlerContract: server connections only; the client path goes on to open after it terminated on a failed negotiation (websocketpp/impl/connection_impl.hpp:1619-1635).
- CloseRace.ForwardIffInTime: only the close() of the application is split; handlers of one connection do not run at the same time.
- ReadLoop.SpinsIff: what two outstanding reads do to the one buffer they share is not modelled.
- Session.CloseDiscipline: close codes and reasons are not tracked, and the opening handshake, the hybi13 processor and the HTTP parser are abstract calls that may fail.
- Hybi00.PrepareDataFrame: the handshake, the 0xFF close frame and the key digest of hybi00 are not modelled.
- JsonPrinter.PrintNumber: the branch for numbers that are no int, with its floating-point formats; numbers are reals, so rounding and the tolerance of the int test are not modelled.
- JsonPrinter.PrintJson: int-valued numbers only, as in the line above; allocation always succeeds, and the int that sums the size does not overflow; trees are values, so the next, prev and child links of the nodes, and references to items, are not modelled.
- JsonParser.ReadNumber: reals and an unbounded exponent stand for doubles and the int subscale.
- JsonParser.Read: the error pointer; a text ends at its first NUL and reads as NUL behind it, so the over-read of the first loop behind a backslash that ends the text is not modelled.
- Md5.HashChunks: the hexadecimal form is left out.
- Md5Block.Load: a little-endian machine reads aligned blocks in place instead; the words are the same.
- FrameMask.MaskChunks: a size_t of eight bytes; the four-byte branch of prepare_masking_key is left out.
- EslBuffer.RunBuffer: a max_len of 0, as every caller passes (esl/esl.c:473, 986); seek and read_loop are left out, and allocation always succeeds.
- EslBuffer.Buffer.PacketCount: the scan reads up to two bytes behind the bytes in use, possibly behind the allocation; what they hold is an argument.
- EslDemux.WireOrder: race_event is a sequence, not a linked list; header parsing, content-length bodies and the nested event of a message are not modelled, and a disconnect drops what race_event holds.
- EslDemux.SafeIff: the n-th reply on the wire is taken for the answer to the n-th command; last_sr_reply, a copy of a header of last_sr_event, is not modelled, nor is a look at memory that is being freed.
- Base64.Decode: characters above 255 do not occur in the source; here they are no letters.
- DNManager.cpp, DBOperator.cpp, dbPool.cpp, inirw.cpp, the speech and curl code: database, network and file plumbing.
- Sockets, threads, the asio transport, timers, logging, uri.hpp, esl_event.c and the error tables.
