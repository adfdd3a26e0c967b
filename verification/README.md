# nitro_http native engine: a verified model

This project models the protocols of the nitro_http native engine and proves what they promise, over every
run. Each protocol appears twice: as a pure machine (a state, a `Step` datatype with one constructor per atomic
action, `Apply` and `Run`) about which the theorems are proved, and as a class or a method with the fields, loops
and branches of the C++ code, proved to follow that machine step for step. libcurl, sockets, the content decoder,
files, clocks and the Dart isolate are the environment: they may do anything their interface allows, at any time.

| files | what they model |
|---|---|
| `WsFrame`, `WsMessages` | the WebSocket framing of RFC 6455, both directions, against the grammar of its section 5.2, and reassembly by section 5.4 |
| `WsReceive`, `WsAnswers`, `WsLoop`, `WsSend`, `WsOutbox`, `WsClosing`, `WsSession` | the receive loop with its credit window, what it answers and how it is left, the fragmenting `send` on several threads, the partly written outbox, what may follow a close, and the session object that owns them |
| `CompletionBatch`, `CompletionPaths`, `NitroCompletionBatch` | the shared spin slot, which way each result goes, and the batch queue of one port, for any number of isolates and workers |
| `Engine`, `EngineAnswers`, `EarlyCancel`, `CurlEngine` | the inbox, the task map, who is told what and why, cancel tokens, early cancels and shutdown |
| `ResponseStream`, `StreamEnds`, `RequestTask` | a streamed response: head, DATA chunks under credit, coalescing, one terminal chunk, and when that is a success |
| `BodyPipe`, `UploadPath` | a streamed upload from Dart to curl's read callback |
| `Payloads`, `PayloadLifetime`, `PayloadObjects` | who owns the bytes shown to Dart, and when they are freed |
| `CacheMeta`, `CacheIndex`, `CacheHits`, `CacheThreads`, `CacheCore`, `CivilDate`, `HttpDate`, `HttpDateForms` | the disk cache's metadata record, its index and append log, on one thread and on several, eviction, calendar and HTTP dates |
| `QueryParams`, `CanonicalUrl`, `SameAddress` | the canonical URL that cache keys are made from, and which addresses share it |
| `Bytes`, `Seqs` | fixed-width integers, exclusive-or, and sequences taken element by element |

Where a region of the source holds a mutex it is one step, and so is the load or store of an atomic; two such
actions are two steps unless "Left out" says otherwise. In the classes, `WsSession.Session.OtherSends` and
`NitroCompletionBatch.Batcher.Others` stand for whatever the other threads do between two actions of this one.
Ghost fields hold the machine's state and the steps taken so far; a predicate ties every real field to it.

To check everything: `dafny verify dfyconfig.toml`.

## What the proofs turned up

Places where the code does less, or other, than its comments or a first reading suggest. Each is stated as a
lemma with the exact condition.

- A cancel token that is released or cleared while a request bound to it waits in the inbox no longer stops that
  request (`Engine.ReleasedTokenStarts`), although the comment in `startTask` calls the order of cancel and submit
  irrelevant. It stops it if and only if the token is not released or cleared before the drain, or is flagged
  again (`Engine.FlaggedTokenPreventsStart`).
- A cancel that overtakes its submit is forgotten, and the request started, if and only if every early cancel of its
  id has been used up by an earlier request or dropped from a memory of 1024 (`EarlyCancel.EarlyCancelsDecideStart`);
  another unknown id cancelled 1024 times is enough (`EarlyCancel.ForgottenCancelStarts`).
- Data can follow a close frame on the wire, although the comment on the test in `send` says nothing may follow a close
  already queued: a close overtakes data that waits, and a call that passed the test before the close may queue its
  data after it (`WsClosing.CaughtDataFollowsClose`). It can if and only if, when the close takes the lock, data is
  queued and not begun, or in the hand of another thread (`WsClosing.DataFollowsCloseExactly`).
- Bytes fed to an upload after its finish or failure are appended if the submit has not been drained, and dropped
  if its task is live (`UploadPath.KeptLateExactlyWhileParked`).
- An upload that is finished and then failed can still present a clean end of file to curl with bytes missing,
  because the read callback looks at the pipe three times (`UploadPath.FailureAfterFinishTruncates`). Bytes are
  missing at an end of file if and only if a failure met unread bytes in the pipe, or waited on a submit whose body
  held some (`UploadPath.ReadInOrder` with `UploadPath.DroppedExactly`).
- A result that does not fit the spin slot can make another isolate's result reach the first isolate
  (`CompletionBatch.NonScalarMisleads`, for every such result). With scalar results it cannot.
- An object that cannot be copied is posted at once: two messages of a port are unacknowledged at some moment if and
  only if one has entered it behind a message in flight (`CompletionBatch.NonCopyableIsNotHeld`).
- The leftover loop at the end of `CurlEngine::loop` never finds a request (`Engine.NothingBehindStop`).
- The decoder's tail is emitted without flushing the coalescing buffer first. That keeps the order only because a
  decoded body never coalesces (`ResponseStream.TailKeeps`).
- The ceiling on a response is checked block by block; bytes that a decoder gives only at its end are not counted, so a
  response may be shown whole beyond it (`StreamEnds.TailIsNotCounted`). The blocks alone never exceed it in a success
  (`StreamEnds.TooLongNeverSucceeds`).
- `canonicalizeUrl` is not idempotent on `http://h/a #f` or `http://h/?b=1 &a=2`. It is on an input if and only if
  the part that comes last in the result, found in the input, does not end in white space
  (`CanonicalUrl.IdempotentExactlyWhenTrimmed`).
- `?k` and `?k=` in one query keep their order; the order of parameters does not matter if and only if no key comes
  both ways (`QueryParams.OrderDoesNotMatterExactly`).
- A scan that corrects a size from disk writes nothing to the log, so the next start has the old size again
  (`CacheIndex.CorrectionIsNotLogged`), if and only if some body file differs from what was logged
  (`CacheIndex.ScanThenReplay`).
- The cache changes its index under one lock and appends to its log under another. A tombstone appended after another
  thread has committed the key again loses the entry at the next start (`CacheThreads.OvertakenTombstone`); the log
  agrees with the index if and only if for every key the last to lock and the last to append do the same
  (`CacheThreads.AgreeExactly`), and always if operations on one key do not overlap (`CacheThreads.SerialAgrees`).
- An entry committed while a scan reads the disk is reaped if the scan had found its key without files
  (`CacheIndex.ScanReapsFresh`).
- A terminal grant that reaches a live transfer only acknowledges: it leaves nothing if and only if it acknowledges all
  that is held (`PayloadLifetime.GrantsRelease`).
- A socket grant that falls between the two locked regions of a teardown is lost (`PayloadLifetime.GrantLostInTeardown`),
  and only then (`PayloadLifetime.SocketGrantsRelease`).

## Model

| member | source | states |
|---|---|---|
| WsFrame.EncodeFrame | src/engine/WsSession.cpp:311-347 | writes exactly one masked frame of section 5.2: FIN and opcode, the shortest length form, the key, the masked payload; control payloads cut to 125 bytes |
| WsFrame.AppendLength | src/engine/WsSession.cpp:330-333 | the shift loop appends the 64-bit length in network order |
| WsFrame.ParseFrameHeader | src/engine/WsSession.cpp:349-403 | gives for every byte string the header verdict that the theorems below are about: more bytes needed, a protocol error with its text, or a header |
| WsFrame.ParserAcceptsExactlyLegalFrames | src/engine/WsSession.cpp:349-403 | the parser finds a whole frame at the front of a byte string if and only if the string begins with a legal unmasked frame, its length written in any form that fits |
| WsFrame.ParseOfWire | src/engine/WsSession.cpp:349-403 | every legal server frame, in any length form and whatever follows, is read back whole with its exact size |
| WsFrame.WireOfParse | src/engine/WsSession.cpp:349-403 | whatever is accepted is a legal frame, and the bytes read are its wire form |
| WsFrame.ParseStable | src/engine/WsSession.cpp:349-403 | a verdict never changes when more bytes arrive, so reads may split the stream anywhere |
| WsFrame.FrameReadyStable | src/engine/WsSession.cpp:776-782 | a frame that is whole stays the same frame of the same size when more bytes arrive |
| WsFrame.ClientFramesAreRefused | src/engine/WsSession.cpp:370 | no frame `encodeFrame` writes is ever accepted by `parseFrameHeader` |
| WsFrame.MaskedTwice | src/engine/WsSession.cpp:337-346 | masking with one key twice gives the payload back |
| WsFrame.UnmaskOfClientWire | src/engine/WsSession.cpp:311-347 | a peer that unmasks by section 5.3 turns one client frame into the same frame on a server's wire, and goes on with what follows |
| WsFrame.UnmaskOfClientFrames | src/engine/WsSession.cpp:311-347 | the same for any concatenation of client frames under any keys |
| WsMessages.DecodeOfFrames | src/engine/WsSession.cpp:772-859 | reading bytes in one go is reading the frames they spell, however each length was written |
| WsMessages.OnFramesThenOne | src/engine/WsSession.cpp:820-855 | reading a run of frames and then one more is reading the run and reacting to that frame |
| WsMessages.ConversationDelivered | src/engine/WsSession.cpp:820-855 | every legal conversation within the size limit is delivered message by message, whole and in order, wherever control frames fall between fragments; every ping is noticed in order |
| WsMessages.FramesExplained | src/engine/WsSession.cpp:820-855 | conversely, as long as the receiver has not given up, what it delivered is exactly the complete messages of the frames read, none over the limit, and its buffer is the open one |
| WsReceive.StepKeepsInv | src/engine/WsSession.cpp:717-921 | every step keeps: buffer equals unread input, everything emitted accounted for by frames read and paid for with credit, loop left exactly when the session ended |
| WsReceive.RunKeepsInv | src/engine/WsSession.cpp:717-921 | so does every run |
| WsReceive.EmittedIsPrefixOfOneShot | src/engine/WsSession.cpp:717-979 | however the stream is split into reads and whenever credit arrives, Dart has seen a prefix of the one-shot reading of the whole stream, plus at most one frame of the engine's own; all of it once the stream ended the session |
| WsReceive.DrainLeavesNothing | src/engine/WsSession.cpp:769-862 | when a drain ends with credit in hand, Dart has exactly the one-shot reading of everything received |
| WsReceive.EnoughCreditDrainsAll | src/engine/WsSession.cpp:769-862 | the drain loop emits everything readable if and only if the credit in hand is at least what that takes |
| WsReceive.EmittedFramesAreWellFormed | src/engine/WsSession.cpp:768-979 | over every run messages are whole text or binary payloads within the limit and fewer than 16 plus the credit granted; at most one terminal frame, always last; the loop is never left without one unless Dart shut the session down |
| WsReceive.PingsAreAnswered | src/engine/WsSession.cpp:790-794 | every ping read has been answered by one pong with the same payload, in order |
| WsReceive.ConversationReachesDart | src/engine/WsSession.cpp:717-930 | while a peer is part way through any legal conversation, Dart has been shown its first so many messages, whole and in order |
| WsAnswers.ClosesAreAnswered | src/engine/WsSession.cpp:729-818 | over every run the peer's close is shown to Dart and answered by one close whose payload is the same two code bytes, or empty if there were none, unless a close of ours was begun first; each violation is told by one close that says 1009 for a message that grows too long and 1002 for everything else, with its text; no other close is sent |
| WsAnswers.EndingsAreExplained | src/engine/WsSession.cpp:743-943 | a session that the peer's bytes did not end was ended by one step, a failed write or read, the deadline of a close of ours or a dropped connection, and Dart was shown that step's text, or the code and reason of our own close if one was begun |
| WsLoop.FlagsTellTheCalls | src/engine/WsSession.cpp:743-1100 | over every run the credit left is 16 and what was granted less the frames shown, the input is what the socket gave, and each flag says what was called, shown and sent: stopping, close received, close sent |
| WsLoop.LeftOnlyWhenAsked | src/engine/WsSession.cpp:743-922 | the loop is left only behind an error or a close shown to Dart, or after a shutdown |
| WsLoop.OnePass | src/engine/WsSession.cpp:743-863 | from every reachable state at the top of the loop, a pass drains and goes on to read unless the peer's bytes end the session, and leaves the loop if it was to stop |
| WsLoop.ReadsOnlyWithCredit | src/engine/WsSession.cpp:865-921 | without credit nothing is read and nothing ends the session; with credit a read of up to 16384 bytes joins the unread ones |
| WsLoop.EndingsTakeEffect | src/engine/WsSession.cpp:743-943 | a failed write, the deadline of a close of ours, a failed read and a dropped connection end the session at once with that one frame |
| WsSend.ChunksRejoin | src/engine/WsSession.cpp:1004-1020 | the pieces a payload is cut into are, joined, the payload |
| WsSend.FramesWithinLimit | src/engine/WsSession.cpp:1003-1021 | data within the limit, or without a positive limit, goes out as one frame; longer data as frames of exactly the limit and a last one of what is left |
| WsSend.EncodeFragments | src/engine/WsSession.cpp:1009-1020 | the fragment loop writes exactly the client frames of one fragmented message: opcode first, continuations after, FIN on the last |
| WsSend.SentFramesLegal | src/engine/WsSession.cpp:998-1021 | every frame `send` queues is legal by sections 5.2 and 5.5 |
| WsSend.SendThenReceive | src/engine/WsSession.cpp:983-1021 | any text or binary payload, for every limit and all mask keys, unmasked and read back by the parser and the reassembler, is exactly one message with the same opcode and bytes |
| WsOutbox.TestKeepsInv | src/engine/WsSession.cpp:985-997 | the test of a call of `send`, or its store, keeps: sent plus queued frames are the frames accepted, the head offset lies within the head, the byte count is the unsent bytes |
| WsOutbox.QueueKeepsInv | src/engine/WsSession.cpp:999-1036 | so does its locked region, whatever other threads did since the test |
| WsOutbox.WriteKeepsInv | src/engine/WsSession.cpp:1046-1068 | a socket write of any size keeps the same |
| WsOutbox.RunKeepsInv | src/engine/WsSession.cpp:983-1068 | so does every run of tests, locked regions and writes of any threads |
| WsOutbox.WireIsWholeFrames | src/engine/WsSession.cpp:1023-1068 | the wire followed by the unsent rest is always a concatenation of whole legal client frames, and `outboxBytes_` is exactly the unsent count |
| WsOutbox.AcceptedInOrder | src/engine/WsSession.cpp:983-1036 | over every run the messages accepted are those whose test no close preceded, in the order in which they took the lock |
| WsOutbox.PartOfAFrameIsNothing | src/engine/WsSession.cpp:1046-1068 | a strict prefix of a frame gives the peer nothing |
| WsOutbox.PeerReadsInOrder | src/engine/WsSession.cpp:983-1068 | at every moment, closes queued or not, the peer has read a prefix of the messages accepted, each whole and in order, wherever control frames cut in; without a close, all of them once the outbox is empty |
| WsClosing.CloseOvertakesWaitingData | src/engine/WsSession.cpp:1027-1031 | when it is queued, a close goes ahead of every data frame not yet begun |
| WsClosing.BehindForGood | src/engine/WsSession.cpp:991-1031 | once a close has passed its test, whatever is called and written later, the data frames behind a place in the order of the wire stay there, others join them only from calls that were in hand, and whether any come does not change |
| WsClosing.DataFollowsCloseExactly | src/engine/WsSession.cpp:991-1068 | over every run, some continuation puts data on the wire behind a close if and only if, when it takes the lock, a data frame is queued of which nothing has been written, or another thread has passed its test with data and not yet queued it |
| WsClosing.CaughtDataFollowsClose | src/engine/WsSession.cpp:992-1036 | for all data and an empty outbox: a call passes its test, another thread sends and flushes a close, and the data goes out whole behind it |
| WsSession.Session.Connect | src/engine/WsSession.cpp:468 | after the handshake `send` writes at once; the outbox is untouched |
| WsSession.Session.Advance | src/engine/WsSession.cpp:1058-1063 | bytes curl took come off the head, the offset and the count together; a finished head is popped |
| WsSession.Session.FlushOutbox | src/engine/WsSession.cpp:1046-1068 | for every list of answers curl may give, the loop writes exactly what they take, stops when the socket is full or fails, and reports a failure if and only if there was one |
| WsSession.Session.Enqueue | src/engine/WsSession.cpp:1023-1036 | control frames go to the front but behind a half-written head, data frames to the back; the byte count grows by their sizes |
| WsSession.Session.Test | src/engine/WsSession.cpp:983-997 | the first half of a call is one test of the machine |
| WsSession.Session.Queue | src/engine/WsSession.cpp:999-1036 | the second half encodes the call in hand and queues its frames, one locked region of the machine |
| WsSession.Session.OtherSend | src/engine/WsSession.cpp:983-1044 | one action of another thread inside `send` is a step of the machine and leaves the call of the receive thread in hand |
| WsSession.Session.Send | src/engine/WsSession.cpp:983-1044 | a call on the receive thread, with any actions of other threads between its test and the lock: the frames are queued by the step named and then, once connected, flushed; a call refused changes nothing |
| WsSession.Session.Answer | src/engine/WsSession.cpp:729-818 | a frame the receive thread sends on its own account is queued in its turn, other threads acting before the lock; a close is flushed once more |
| WsSession.Session.EmitFrame | src/engine/WsSession.cpp:945-971 | one frame is posted and one credit spent |
| WsSession.Session.EmitTransportError | src/engine/WsSession.cpp:973-979 | posts the error frame and stops the session |
| WsSession.Session.EmitSyntheticClose | src/engine/WsSession.cpp:932-943 | posts a close only if none has been shown |
| WsSession.Session.FailProtocol | src/engine/WsSession.cpp:729-741 | tells the peer with a close of that code, then gives Dart its one terminal frame |
| WsSession.Session.OnDataFrame | src/engine/WsSession.cpp:820-855 | sequencing errors, the size limit and delivery, exactly as the reassembly specification reacts |
| WsSession.Session.MirrorClose | src/engine/WsSession.cpp:803-815 | one close with the peer's own two code bytes, or with none if it gave none, joins the answers unless a close was already sent, with other threads sending between the test and the call |
| WsSession.Session.OnClose | src/engine/WsSession.cpp:800-818 | Dart is shown the close with its payload, and one close with the peer's two code bytes joins the answers unless a close was already sent |
| WsSession.Session.OnWholeDataFrame | src/engine/WsSession.cpp:820-855 | a data frame that is whole does what the machine does with it |
| WsSession.Session.TakeFrame | src/engine/WsSession.cpp:785-860 | the switch on the opcode does to the session what the machine does |
| WsSession.Session.DrainTurn | src/engine/WsSession.cpp:770-861 | one turn of the inner loop is one drain step of the machine, followed by the close another thread may have begun meanwhile |
| WsSession.Session.Drain | src/engine/WsSession.cpp:768-865 | the inner loop, with any steps of the Dart thread between its turns, is a run of the machine |
| WsSession.Session.PeerGone | src/engine/WsSession.cpp:902-919 | a dropped connection becomes nothing, a synthetic close or an error, by whose close came first |
| WsSession.Session.ReadSocket | src/engine/WsSession.cpp:877-921 | every outcome of the socket read is a step of the machine |
| WsSession.Session.Service | src/engine/WsSession.cpp:744-766 | flush failure, the close deadline and the keepalive ping, as steps of the machine |
| WsSession.Session.Pass | src/engine/WsSession.cpp:743-921 | one pass of the receive loop is a run of the machine |
| WsSession.Session.ReceiveLoop | src/engine/WsSession.cpp:717-922 | so is the loop after any number of passes |
| WsSession.Session.OtherThread | src/engine/WsSession.cpp:1094-1137 | grants, shutdown and any part of a send or close on other threads leave the receive thread's place unchanged and never take credit |
| WsSession.Session.WhatEachSideSees | src/engine/WsSession.cpp:717-1068 | whenever the session is looked at, Dart has a prefix of the one reading of all the peer has sent and will send, at most one terminal frame and only at the end, explained by the steps taken; every ping read has been answered by one pong that was queued, in order; the peer's close has been shown and answered by one close with its own two code bytes unless ours came first, and a violation by one that says 1002 or 1009; the peer, whatever was closed, has read a prefix of the messages accepted |
| CompletionBatch.DecodeOfExtract | src/native/nitro_completion_batch.h:308-317 | a scalar put into the slot's fields is the scalar Dart reads from them, by the tags it knows, and the fields not used are zero |
| CompletionBatch.ViewStepOk | src/native/nitro_completion_batch.h:62-237 | each atomic step for one id keeps that id's promise about flag, owner and payload, and touches the slot only if the slot is its own or free |
| CompletionBatch.EnteredOk | src/native/nitro_completion_batch.h:238-257 | the locked region of `post` keeps a port's order and loses nothing |
| CompletionBatch.AckedOk | src/native/nitro_completion_batch.h:260-289 | `ack` keeps a port's order and loses nothing |
| CompletionBatch.ReleasedOk | src/native/nitro_completion_batch.h:183-198 | a release frees what was pending and loses nothing |
| CompletionBatch.StepKeepsInv | src/native/nitro_completion_batch.h:62-289 | every step of every isolate and worker that posts scalars keeps the invariant of slot, bound ids and ports |
| CompletionBatch.RunKeepsInv | src/native/nitro_completion_batch.h:62-289 | so does every schedule with scalar results |
| CompletionBatch.StepKeepsPorts | src/native/nitro_completion_batch.h:62-289 | every step, whatever is posted, keeps what the ports promise and keeps them apart from the slot |
| CompletionBatch.RunKeepsPorts | src/native/nitro_completion_batch.h:62-289 | so does every schedule |
| CompletionBatch.NothingIsLost | src/native/nitro_completion_batch.h:183-289 | over every schedule and for every kind of object, what was posted to a port is exactly what is delivered, in flight, pending or freed; something is pending only behind a message in flight |
| CompletionBatch.ExactlyOnce | src/native/nitro_completion_batch.h:62-257 | with scalar results, over every schedule of any number of isolates and workers, each id is delivered through the slot with the value posted for it, or exactly once through its own port, never both, and no id is posted as if it were a port |
| CompletionBatch.FirstInFirstOut | src/native/nitro_completion_batch.h:201-289 | over every schedule, per port, until it is released and as long as nothing that cannot be copied enters it behind a message in flight: at most one message unacknowledged, pending only behind one, and delivered, in flight and pending in that order are the posts in lock order |
| CompletionBatch.NonCopyableIsNotHeld | src/native/nitro_completion_batch.h:250-255 | over every schedule, for a port not released: at some moment two of its messages are unacknowledged if and only if an object that cannot be copied has entered it while a message was in flight |
| CompletionBatch.TwoInFlight | src/native/nitro_completion_batch.h:244-258 | from the start, for any first item and any second that cannot be copied, a stream has two messages in flight |
| CompletionBatch.NonScalarMisleads | src/native/nitro_completion_batch.h:227-236 | for every result that does not fit the slot there is a schedule of two isolates in which the first is handed the second one's result |
| CompletionPaths.PollSettles | src/native/nitro_completion_batch.h:88-105 | one poll takes a result that is there, waits for the port if the slot is parked, leaves an empty slot alone, or parks it when the isolate gives up, which it then does |
| CompletionPaths.GivenUpGoesByPort | src/native/nitro_completion_batch.h:83-237 | over every schedule, once an isolate has given up on an empty slot, what its worker posts never ends in the slot, and ends in the port at most once |
| CompletionPaths.ThroughTheSlot | src/native/nitro_completion_batch.h:62-224 | from every reachable state with the slot free, an isolate that polls after its worker has posted has the value posted, no port has carried it, and the slot is free again |
| CompletionPaths.RoundTheSlot | src/native/nitro_completion_batch.h:62-258 | the same, but giving up before the post: the value joins the port the id is bound to, and the slot is free again |
| CompletionPaths.WithoutTheSlot | src/native/nitro_completion_batch.h:62-258 | an isolate that finds the slot taken, or does not spin, waits, and the value joins its port |
| CompletionPaths.OtherResultsPark | src/native/nitro_completion_batch.h:227-258 | a result that does not fit the slot ends the spinning, frees the slot and joins the port |
| CompletionPaths.DisarmAborts | src/native/nitro_completion_batch.h:75-81 | a call that throws before its worker exists gives its claim back and nothing is posted for the id |
| CompletionPaths.StreamsGoTheirWay | src/native/nitro_completion_batch.h:179-258 | over every schedule the stream items a port has carried are those posted since it began to batch and until it was released, in order; every other item was posted directly |
| CompletionPaths.ReleasedStartsAfresh | src/native/nitro_completion_batch.h:183-258 | what waited at a released port is freed, and the next item, once the port batches again, goes out at once |
| NitroCompletionBatch.Batcher.Bind | src/native/nitro_completion_batch.h:167-172 | a fresh id is bound to the port |
| NitroCompletionBatch.Batcher.Claim | src/native/nitro_completion_batch.h:62-66 | claims the slot if it is free, after anything other threads did; on refusal the isolate waits for its port |
| NitroCompletionBatch.Batcher.OpenSlot | src/native/nitro_completion_batch.h:67-73 | opens the slot it has claimed and wiped, after anything other threads did |
| NitroCompletionBatch.Batcher.Arm | src/native/nitro_completion_batch.h:62-73 | claims, wipes and opens the slot, with anything from other threads between these actions; on refusal the isolate waits for its port |
| NitroCompletionBatch.Batcher.Disarm | src/native/nitro_completion_batch.h:78-81 | releases only one's own claim |
| NitroCompletionBatch.Batcher.Poll | src/native/nitro_completion_batch.h:88-105 | pending goes on spinning, parked waits for the port, done returns the payload copied before the slot is freed; giving up never leaves it pending |
| NitroCompletionBatch.Batcher.TrySlot | src/native/nitro_completion_batch.h:206-237 | the fast path ends with the result in the slot, or with the slot released and the result on its way to a port |
| NitroCompletionBatch.Batcher.Enter | src/native/nitro_completion_batch.h:249-255 | waits if a message is in flight and the object can be copied, else marks the port in flight and posts |
| NitroCompletionBatch.Batcher.PostLocked | src/native/nitro_completion_batch.h:238-258 | the locked region consumes the binding and enters its port, in one step of the machine |
| NitroCompletionBatch.Batcher.Post | src/native/nitro_completion_batch.h:201-258 | a worker's post leaves through the slot, or through the port its id was bound to, whatever other threads do meanwhile |
| NitroCompletionBatch.Batcher.PostItem | src/native/nitro_completion_batch.h:244-258 | a stream item enters its own port |
| NitroCompletionBatch.Batcher.Coalesce | src/native/nitro_completion_batch.h:179-182 | the port becomes its own batch target |
| NitroCompletionBatch.Batcher.Uncoalesce | src/native/nitro_completion_batch.h:183-198 | the port is forgotten and its pending items are freed |
| NitroCompletionBatch.Batcher.Ack | src/native/nitro_completion_batch.h:260-289 | flushes all that waited as one message, or goes idle |
| Engine.StepKeepsInv | src/engine/CurlEngine.cpp:208-289 | every step of any thread keeps: each submission in one place, the stop op last, the list of early cancels bounded |
| Engine.RunKeepsInv | src/engine/CurlEngine.cpp:208-289 | so does every run |
| Engine.InExactlyOnePlace | src/engine/CurlEngine.cpp:383-654 | in every reachable state each request is in the inbox, live, or answered; in exactly one of these, and there once |
| Engine.AllAnsweredAfterShutdown | src/engine/CurlEngine.cpp:175-289 | once the loop has gone, every request ever submitted, before or after, has been answered |
| Engine.NothingBehindStop | src/engine/CurlEngine.cpp:269-283 | the stop op is always the last in the inbox, and no request stands behind it when the loop leaves |
| Engine.FlagsFollowCalls | src/engine/CancelRegistry.cpp:31-66 | over every run a token is flagged if and only if some call flagged it and none has released or cleared it since |
| Engine.StartedExactly | src/engine/CurlEngine.cpp:587-630 | over every run, the requests started are exactly those drained with their token not standing flagged, no early cancel of their id remembered and no live transfer with it |
| Engine.TokenDecidesStart | src/engine/CurlEngine.cpp:594-630 | whether a request is ever started is settled when it is drained, by exactly these three; nothing before or after changes it |
| Engine.FlaggedTokenPreventsStart | src/engine/RequestTask.cpp:299 | a request bound to a token flagged at some time is never started if and only if, until it is drained, the token is not released or cleared, or is flagged again |
| Engine.ReleasedTokenStarts | src/HybridNitroHttp.cpp:111-123 | for every request and token: cancelled, drained, submitted, released, drained, and the request is started |
| Engine.NotStartedMeansRefused | src/engine/CurlEngine.cpp:587-654 | a request that was not started has no transfer, and if it was answered it was refused |
| Engine.CancelTakesEffect | src/engine/CurlEngine.cpp:447-462 | a cancel that finds its task answers and removes it; one that does not is remembered for that id |
| EngineAnswers.FlagReachesTransfer | src/engine/CurlEngine.cpp:853-870 | a transfer's cancel flag is raised by the calls that cancel it or everything and by nothing else, and never lowered |
| EngineAnswers.EndsTakeEffect | src/engine/CurlEngine.cpp:241-381 | while the loop runs, a transfer that is done, fails in a callback or is silent too long is ended at once, answered if it had not been answered |
| EngineAnswers.LoopGoes | src/engine/CurlEngine.cpp:247-289 | once the stop op was taken the loop ends every transfer and is gone, and every submission has its answer |
| EngineAnswers.TokenCancelEndsItsHolders | src/engine/CurlEngine.cpp:464-485 | in every reachable state with a cancel by token at the head of the inbox: exactly the transfers with that token end, each told that it was cancelled if it had not answered; the others are as they were and nobody else is told anything |
| EngineAnswers.CancelAllEndsEverything | src/engine/CurlEngine.cpp:487-503 | a cancel of everything leaves no transfer, each told so if it had not answered, and nobody else |
| EngineAnswers.TransfersAreAsSubmitted | src/engine/CurlEngine.cpp:587-654 | over every run what waits and every transfer carries the number, the id and the cancel token of the call that submitted it |
| EngineAnswers.AnswersSayWhy | src/engine/CurlEngine.cpp:247-654 | over every run each answer says why it was given: refused for the shutdown, a second transfer with the id, a flagged token or remembered cancel or a cancel meant for it, a cache hit, a failure where there was one, a set-up that threw |
| EngineAnswers.RefusedExactly | src/engine/CurlEngine.cpp:781-817 | over every run a submission is refused at once if and only if a shutdown has begun or there is no multi handle, and joins the end of the inbox otherwise |
| EngineAnswers.PushedExactly | src/engine/CurlEngine.cpp:781-817 | likewise any other op is dropped, or joins the end of the inbox |
| EarlyCancel.EarlyCancelDecidesStart | src/engine/CurlEngine.cpp:446-456 | over every run, a request whose cancel was drained before it, no other cancel or submit of its id coming between them, is started if and only if its id was pushed out of the full memory by another early cancel, and its token is not flagged |
| EarlyCancel.Accounted | src/engine/CurlEngine.cpp:446-456 | over every run and for every id, the cancels remembered are the early ones less those a request used up and those dropped from the full memory |
| EarlyCancel.EarlyCancelsDecideStart | src/engine/CurlEngine.cpp:594-630 | for every run and request, whatever cancels and submits of its id there were: started if and only if its token is not flagged, no transfer with its id is live, and every early cancel of its id has been used by an earlier request or dropped |
| EarlyCancel.FewEarlyCancels | src/engine/CurlEngine.cpp:452-455 | fewer than 1024 other early cancels drained in between never push it out |
| EarlyCancel.ForgottenCancelStarts | src/engine/CurlEngine.cpp:452-455 | 1024 of them do, even all of one id that nobody knows: the request is started |
| CurlEngine.Loop.PushOp | src/engine/CurlEngine.cpp:781-817 | one locked push, refused once shutdown has begun |
| CurlEngine.Loop.SubmitRequest | src/engine/CurlEngine.cpp:847-851 | a submit is queued, or answered inline once shutdown has begun |
| CurlEngine.Loop.CancelRequest | src/engine/CurlEngine.cpp:853-862 | flags the live task, then queues the cancel |
| CurlEngine.Loop.CancelAllRequests | src/engine/CurlEngine.cpp:864-870 | flags every live task, then queues the cancel |
| CurlEngine.Loop.CancelByToken | src/HybridNitroHttp.cpp:111-119 | flags the token first, then queues the cancel for its transfers; token zero is none |
| CurlEngine.Loop.ReleaseCancelToken | src/engine/CancelRegistry.cpp:56-60 | the token is forgotten, flag and all |
| CurlEngine.Loop.ClearCancelTokens | src/engine/EngineRegistry.cpp:357 | all tokens are forgotten |
| CurlEngine.Loop.Shutdown | src/engine/CurlEngine.cpp:175-185 | the stop op is appended once, after pushes have begun to be refused |
| CurlEngine.Loop.CompleteTask | src/engine/RequestTask.cpp:1536-1538 | a task answers at most once |
| CurlEngine.Loop.RetireTask | src/engine/CurlEngine.cpp:729-751 | the map entry goes and the destructor answers if nothing has |
| CurlEngine.Loop.EndTasks | src/engine/CurlEngine.cpp:464-501 | the tasks collected are ended one by one, all of them, in any order of the hash map |
| CurlEngine.Loop.FindPreCancelled | src/engine/CurlEngine.cpp:607-609 | finds the first remembered cancel of the id |
| CurlEngine.Loop.StartTask | src/engine/CurlEngine.cpp:587-654 | flagged token, early cancel, duplicate id, each failure of the setup and the attach, in the code's order |
| CurlEngine.Loop.HandleOp | src/engine/CurlEngine.cpp:443-571 | the switch on the op does to the engine what the machine does; a cancel by token ends the transfers with that token and no others, a cancel of everything ends all, and each is told so unless it had answered |
| CurlEngine.Loop.DrainInbox | src/engine/CurlEngine.cpp:383-581 | drains exactly the ops that were in the inbox, one step of the machine each, and reports whether there were any |
| CurlEngine.Loop.TransferDone | src/engine/CurlEngine.cpp:241-261 | a transfer curl reports done is finished and retired |
| CurlEngine.Loop.EnforceIdleDeadlines | src/engine/CurlEngine.cpp:356-381 | exactly the transfers found silent too long that have not answered are ended; the others stay as they were |
| CurlEngine.Loop.ExitTheLoop | src/engine/CurlEngine.cpp:267-289 | after the exit path no task is left and every request taken has been answered |
| CurlEngine.Loop.AnswerOps | src/engine/CurlEngine.cpp:276-283 | whatever was left in the inbox is answered in order |
| ResponseStream.StepKeepsInv | src/engine/RequestTask.cpp:1017-1189 | every callback, grant, aged flush, cancel, failure and finish keeps the shape of the stream, its content and its credit |
| ResponseStream.RunKeepsInv | src/engine/RequestTask.cpp:1017-1189 | so does every run |
| ResponseStream.StreamedInOrder | src/engine/RequestTask.cpp:921-1189 | the head is first, then DATA, then exactly one terminal chunk if complete; the payloads with what coalescing still holds are exactly the blocks accepted, in order, a paused and redelivered block once |
| ResponseStream.SuccessIsWhole | src/engine/RequestTask.cpp:1374-1495 | a stream that ends in success carried the whole body and nothing else |
| ResponseStream.CoalescingIsInvisible | src/engine/RequestTask.cpp:967-990 | two successful runs under any chunk settings and any schedules carry the same body |
| ResponseStream.CreditIsKept | src/engine/RequestTask.cpp:1037-1107 | before completion DATA chunks never outnumber the credits granted and a live transfer is paused only for want of credit; at completion a decoder's tail may be one more |
| ResponseStream.TailKeeps | src/engine/RequestTask.cpp:1441-1461 | a decoder's last bytes come after everything else |
| ResponseStream.PiecesAreBody | src/engine/RequestTask.cpp:738-759 | the pieces a stored body is replayed in are, joined, that body |
| StreamEnds.PiecesAreFull | src/engine/RequestTask.cpp:734-760 | a stored body goes out in pieces of 64 KiB, the last of what is left |
| StreamEnds.StoredBodyIsCounted | src/engine/RequestTask.cpp:734-760 | a stored body is not held back by credit, but over every run each of its pieces is counted against it |
| StreamEnds.BlocksAreDelivered | src/engine/RequestTask.cpp:1017-1140 | over every run, until it completes or is cancelled, each block is passed over if empty or of a 304, refused and delivered again if there is no credit, ends the stream in an error if it does not decode or makes the body too long, and else joins the body, decoded if it is to be |
| StreamEnds.CancelEndsDelivery | src/engine/RequestTask.cpp:1024-1027 | after a cancel curl is told to stop at the next block that is not empty |
| StreamEnds.GrantResumes | src/engine/RequestTask.cpp:1273-1282 | a grant resumes a paused transfer exactly if it leaves credit; only a positive count adds any |
| StreamEnds.FailureIsShown | src/engine/RequestTask.cpp:1536-1572 | a failure from outside shows what is held and then the error, behind an error head if none was sent |
| StreamEnds.EndsInSuccessExactly | src/engine/RequestTask.cpp:1374-1495 | over every run, when curl has delivered everything or reports a failure, the stream completes, in success if and only if curl succeeded, it was never cancelled, and the decoder ended well or a stored body takes its place |
| StreamEnds.SucceedsExactly | src/engine/RequestTask.cpp:1374-1495 | over every run a stream has ended in success if and only if some finish came under exactly that condition |
| StreamEnds.CancelledNeverSucceeds | src/engine/RequestTask.cpp:1381-1386 | a stream cancelled before it ended in success never does, whatever curl reports |
| StreamEnds.CancelStopsBytes | src/engine/RequestTask.cpp:1020-1045 | and takes no further byte of the body |
| StreamEnds.TooLongNeverSucceeds | src/engine/RequestTask.cpp:1071-1078 | a body longer than a positive ceiling never succeeds |
| StreamEnds.TailIsNotCounted | src/engine/RequestTask.cpp:1431-1447 | the ceiling counts the blocks alone: a decoder's last bytes are shown in success beyond it, for any number of them |
| StreamEnds.SoundNeverFails | src/engine/RequestTask.cpp:1020-1495 | a response that decodes, ends well and keeps within the ceiling never ends in an error unless it is cancelled or fails from outside |
| StreamEnds.HeadTellsTheTruth | src/engine/RequestTask.cpp:1536-1572 | the head is the response's own, or an error's followed by the error and nothing else |
| StreamEnds.CreditComesFromGrants | src/engine/RequestTask.cpp:1270-1282 | until it completes, the credit left is what it began with and the positive grants made, less the DATA chunks shown |
| StreamEnds.AgedFlushEmpties | src/engine/RequestTask.cpp:1147-1165 | a flush of what is old enough leaves nothing held |
| StreamEnds.ChunksAreFull | src/engine/RequestTask.cpp:1083-1110 | as long as nothing is flushed for its age, each DATA chunk of an open stream is as large as asked for, 128 KiB by default for a known length of 1 MiB or more, and less than that is held; nothing is held without coalescing |
| RequestTask.Task.EmitHeadIfNeeded | src/engine/RequestTask.cpp:921-1013 | the head is emitted once, and the chunk size is decided then |
| RequestTask.Task.FlushCoalesced | src/engine/RequestTask.cpp:1161-1167 | what is held goes out as one chunk for one credit |
| RequestTask.Task.EmitTerminalChunk | src/engine/RequestTask.cpp:1169-1189 | what is held goes first, then the terminal chunk |
| RequestTask.Task.CompleteWithError | src/engine/RequestTask.cpp:1536-1572 | once only: an error head if none was sent, then the error chunk |
| RequestTask.Task.ShowBytes | src/engine/RequestTask.cpp:1091-1107 | bytes join the held ones until size or age sends them, or go out at once |
| RequestTask.Task.AcceptBlock | src/engine/RequestTask.cpp:1050-1107 | decoder failure, then the ceiling on the decoded size, then the chunks |
| RequestTask.Task.HandleWrite | src/engine/RequestTask.cpp:1017-1129 | cancel, revalidation, head, pause for want of credit and acceptance, in the code's order |
| RequestTask.Task.HandleHeadersEnd | src/engine/RequestTask.cpp:836-883 | the end of the headers is one step of the machine |
| RequestTask.Task.FlushAgedCoalesce | src/engine/RequestTask.cpp:1157-1159 | the aged flush is one step of the machine, also after the end |
| RequestTask.Task.RequestCancel | src/engine/RequestTask.cpp:1284-1286 | a cancel is one step of the machine |
| RequestTask.Task.FailTask | src/engine/RequestTask.cpp:907-919 | a failure is one step of the machine |
| RequestTask.Task.GrantCredit | src/engine/RequestTask.cpp:1273-1282 | only a positive count adds credit; asks to resume exactly when paused and in credit |
| RequestTask.Task.ReplayBody | src/engine/RequestTask.cpp:738-759 | the stored body goes out in pieces of 64 KiB, one credit each |
| RequestTask.Task.ServeStored | src/engine/RequestTask.cpp:697-761 | head, stored body and success, on a task already complete |
| RequestTask.Task.FinishTransfer | src/engine/RequestTask.cpp:1439-1495 | head, decoder's tail or its failure, success |
| RequestTask.Task.FinishRequest | src/engine/RequestTask.cpp:1374-1495 | ends in success if and only if curl succeeded, nobody cancelled and the body ends well, and else in an error; nothing if it had completed |
| RequestTask.Task.WhatDartSees | src/engine/RequestTask.cpp:921-1189 | after any calls in any order, what the task has posted has the shape of a stream, carries with what it still holds exactly the blocks accepted, and keeps within the credit granted |
| BodyPipe.PulledKeepsOrder | src/engine/BodyPipe.cpp:41-69 | what a pull takes followed by what it leaves is what was there |
| BodyPipe.Pipe.Push | src/engine/BodyPipe.cpp:22-39 | bytes join the end of the queue unless it is finished or failed; returns the depth |
| BodyPipe.Pipe.Pull | src/engine/BodyPipe.cpp:41-69 | bytes leave in order; a drain is raised exactly when the depth falls through the watermark |
| BodyPipe.Pipe.Compact | src/engine/BodyPipe.cpp:55-60 | keeps every byte still to be read, and moves no more than has been consumed |
| BodyPipe.Pipe.Finish | src/engine/BodyPipe.cpp:71-74 | the queue is closed to further bytes, its contents stay |
| BodyPipe.Pipe.Fail | src/engine/BodyPipe.cpp:76-85 | the queue is emptied and marked failed |
| BodyPipe.Pipe.ConsumeDrainSignal | src/engine/BodyPipe.cpp:112-117 | a drain signal is given once |
| BodyPipe.Pipe.AtEof | src/engine/BodyPipe.cpp:102-105 | end of file exactly when finished and empty |
| BodyPipe.Pipe.BoundedAndPaidFor | src/engine/BodyPipe.cpp:22-69 | the buffer is at most twice what is still to be read, and all copying ever done by compactions is no more than the bytes delivered |
| UploadPath.RunKeepsInv | src/engine/CurlEngine.cpp:383-441 | over every run bytes stay in order across the queued submit and the pipe, and every wake-up owed is on its way |
| UploadPath.ReadInOrder | src/engine/CurlEngine.cpp:891-953 | over every run what curl has read is in order a prefix of what was taken in; read, queued and thrown away are all of it; and at end of file curl has read everything if and only if nothing was thrown away |
| UploadPath.DroppedExactly | src/engine/BodyPipe.cpp:76-85 | bytes are thrown away if and only if some failure met a pipe with unread bytes, or was waiting on a submit whose body held some |
| UploadPath.ParkedByFail | src/engine/CurlEngine.cpp:935-953 | a failure waits on the submit exactly if it came before the submit was drained |
| UploadPath.FedIsOffered | src/engine/CurlEngine.cpp:891-933 | what is taken in before the end is exactly what Dart offered before it |
| UploadPath.NothingLate | src/engine/CurlEngine.cpp:891-953 | if Dart stops at the end, nothing is ever taken in after it |
| UploadPath.EndOfFileIsWholeBody | src/engine/RequestTask.cpp:1232-1250 | if Dart stops at the end, curl reads a prefix of what Dart offered, and at end of file it has read the whole body if and only if no failure threw bytes away |
| UploadPath.KeptLateExactlyWhileParked | src/engine/CurlEngine.cpp:901-917 | bytes offered after the end are kept if and only if the ending signal has not reached a pipe |
| UploadPath.FailureAfterFinishTruncates | src/engine/RequestTask.cpp:1234-1249 | for any bytes: a failure after the finish that looks to curl like the end of file with none of them read |
| UploadPath.NoWakeUpIsLost | src/engine/RequestTask.cpp:1240-1248 | until shutdown begins, a read-paused transfer whose pipe has bytes, its end or a failure always has an upload op queued or about to be |
| Payloads.EvictedOk | src/engine/DeferredPayloads.cpp:33-48 | evictions end within both caps, take the oldest buckets and no more than they must, and keep the accounts exact |
| Payloads.AdoptedOk | src/engine/DeferredPayloads.cpp:64-82 | adoption ends within both caps with exact accounts |
| Payloads.AckedOk | src/engine/DeferredPayloads.cpp:84-102 | an acknowledgement keeps caps and accounts |
| Payloads.ReleasedOk | src/engine/DeferredPayloads.cpp:104-116 | so does a release |
| Payloads.DroppedOk | src/engine/DeferredPayloads.cpp:118-130 | so does a reset |
| Payloads.DueExactly | src/engine/ChunkArena.cpp:28-38 | in sequence order the front entries below the acknowledgement are exactly those that are due |
| PayloadLifetime.RunKeepsInv | src/engine/DeferredPayloads.cpp:33-130 | over every run of emissions, grants, teardowns in two locked regions and resets of any number of streams |
| PayloadLifetime.EachPayloadHasOneOwner | src/engine/ChunkArena.cpp:16-63 | each payload ever emitted is in the arena or the hand of a teardown, in the registry, or freed: in one of them, exactly once |
| PayloadLifetime.NotFreedBeforeRead | src/engine/CurlEngine.cpp:503-520 | what Dart has still to read is not freed, unless evicted by the caps, dropped by a reset, or empty |
| PayloadLifetime.WithinCaps | src/engine/DeferredPayloads.cpp:33-82 | over every run the registry is within 32 MiB and 256 buckets after every step, and its accounts are exact |
| PayloadLifetime.GrantsRelease | src/engine/CurlEngine.cpp:503-520 | a grant frees exactly what it acknowledges, terminal or not, while the transfer lives, so that nothing is left if and only if it acknowledges all that is held; once the transfer is gone a terminal one leaves nothing |
| PayloadLifetime.RefusedGrantReleases | src/engine/CurlEngine.cpp:802-814 | a grant refused by `push` frees what it acknowledges in the registry and leaves the arena; a terminal one leaves nothing if and only if the arena is empty and no teardown has payloads in hand |
| PayloadLifetime.StoppedExactly | src/engine/CurlEngine.cpp:506-522 | over every run a stream's grants are terminal from the moment Dart has stopped reading it, and not before |
| PayloadLifetime.SocketGrantsRelease | src/engine/WsSession.cpp:1122-1135 | a socket grant, taken in two locked regions with anything in between: something it acknowledges is left if and only if one teardown was between its own two regions, with it in hand, at both; a terminal one leaves nothing if and only if nothing is then in the arena or in hand |
| PayloadLifetime.GrantLostInTeardown | src/engine/DeferredPayloads.cpp:64-82 | for any payload within the cap: read, granted, and both halves of the grant fall between the regions of the teardown, so the payload stays in the registry |
| PayloadObjects.ChunkArena.Track | src/engine/ChunkArena.cpp:16-26 | an empty payload is released at once, any other joins the end |
| PayloadObjects.ChunkArena.Ack | src/engine/ChunkArena.cpp:28-38 | exactly the front entries below the acknowledgement are freed |
| PayloadObjects.ChunkArena.Drain | src/engine/ChunkArena.cpp:52-63 | everything is handed over and nothing kept |
| PayloadObjects.DeferredPayloads.CollectEvictions | src/engine/DeferredPayloads.cpp:33-48 | the eviction loop leaves what the specification of evictions leaves; what it hands over to be freed is everything the buckets that went had held, bucket by bucket in order of adoption |
| PayloadObjects.DeferredPayloads.Oldest | src/engine/DeferredPayloads.cpp:35-42 | the scan finds the bucket adopted first |
| PayloadObjects.DeferredPayloads.Join | src/engine/DeferredPayloads.cpp:74-78 | payloads join the end of a bucket, and bucket and total grow by their sizes |
| PayloadObjects.DeferredPayloads.Adopt | src/engine/DeferredPayloads.cpp:64-82 | the registry becomes what adoption specifies, within both caps; freed is exactly what the evicted buckets held |
| PayloadObjects.DeferredPayloads.TakeDue | src/engine/DeferredPayloads.cpp:92-98 | the due front of a bucket is freed, and bucket and total shrink by its size |
| PayloadObjects.DeferredPayloads.Ack | src/engine/DeferredPayloads.cpp:84-102 | only the named stream's due entries go, and exactly these are freed; an emptied bucket is erased |
| PayloadObjects.DeferredPayloads.ReleaseAll | src/engine/DeferredPayloads.cpp:104-116 | the named stream's bucket goes, whole, and exactly its entries are freed |
| PayloadObjects.DeferredPayloads.DropEverything | src/engine/DeferredPayloads.cpp:118-130 | nothing is held and the total is zero; everything that was held is freed, once |
| CivilDate.CivilOfDays | src/engine/HttpCache.cpp:400-423 | every valid date of the proleptic Gregorian calendar, in any year, is found again from its day number |
| CivilDate.DaysOfCivil | src/engine/HttpCache.cpp:400-423 | every day number gives a valid date, and is found again from it |
| CivilDate.NextDayCountsOne | src/engine/HttpCache.cpp:400-407 | the calendar's next day has the next number, and 1970-01-01 is day zero |
| HttpDate.FloorsTime | src/engine/HttpCache.cpp:937-944 | days and seconds of the day are the floor of the time, also before 1970 |
| HttpDate.WeekdaysGoRound | src/engine/HttpCache.cpp:951-952 | the weekday printed is the right one of the seven for every day number, the first of 1970 a Thursday |
| HttpDate.PrintedReadsBack | src/engine/HttpCache.cpp:382-392 | a padded number is read back |
| HttpDate.MonthReadsBack | src/engine/HttpCache.cpp:427-437 | every month name is read back as that month |
| HttpDate.ReadsBack | src/engine/HttpCache.cpp:867-960 | what `formatHttpDate` prints, `parseHttpDate` reads as the same time floored to the second, for every year from 1601 to 9999 |
| HttpDateForms.MonthNamedExactly | src/engine/HttpCache.cpp:430-440 | a word names a month if and only if it begins with its three letters, in any case |
| HttpDateForms.RefusalIsNoDate | src/engine/HttpCache.cpp:867-934 | what is refused gives -1, which no date gives |
| HttpDateForms.NumbersReadExactly | src/engine/HttpCache.cpp:382-392 | a number is read unless a digit follows one already above 2^40 |
| HttpDateForms.Rfc850ReadsBack | src/engine/HttpCache.cpp:867-934 | every RFC 850 date of 1970 to 2069, its year in two digits, is read as that date |
| HttpDateForms.AsctimeReadsBack | src/engine/HttpCache.cpp:867-934 | every asctime date, its day padded with a blank, is read as that date |
| HttpDateForms.TimeParsesExactly | src/engine/HttpCache.cpp:915-930 | a time of day is accepted if and only if it is in range, a leap second as the second before it |
| HttpDateForms.DateParsesExactly | src/engine/HttpCache.cpp:903-934 | day 1 to 31 and a year of three digits or more from 1601 to 9999 are accepted and nothing else |
| HttpDateForms.ShortYearParsesExactly | src/engine/HttpCache.cpp:909-912 | a year of two digits below 70 is of the 2000s, any other of the 1900s |
| HttpDate.ParseUnsigned | src/engine/HttpCache.cpp:382-392 | the digit loop, with its rejection of absurd numbers |
| HttpDate.Tokenise | src/engine/HttpCache.cpp:877-884 | the scanning loop finds exactly the words |
| CacheMeta.ReadsBack | src/engine/HttpCache.cpp:235-303 | a record that fits is read back as it was, whatever bytes follow |
| CacheMeta.PrefixesAreRejected | src/engine/HttpCache.cpp:262-303 | no strict prefix of a record is taken for a record |
| CacheMeta.DecodeStable | src/engine/HttpCache.cpp:262-303 | a record that is decoded is decoded to the same value with more bytes behind it |
| CacheMeta.DecodedFits | src/engine/HttpCache.cpp:262-303 | whatever bytes are decoded, the record has at most 4096 headers and 256 varied ones, and keeps the field widths |
| CacheMeta.ReadsBackExactlyWhatFits | src/engine/HttpCache.cpp:235-303 | the round trip holds if and only if the record is within the header limits and the field widths |
| CacheMeta.BufWriter.U32 | src/engine/HttpCache.cpp:146-151 | appends the low 32 bits, least significant byte first |
| CacheMeta.BufWriter.I64 | src/engine/HttpCache.cpp:152-157 | the shift loop appends the two's complement, least significant byte first |
| CacheMeta.BufWriter.Str | src/engine/HttpCache.cpp:158-161 | appends the length and the bytes |
| CacheMeta.BufWriter.Headers | src/engine/HttpCache.cpp:242-251 | appends the count and every pair in order |
| CacheMeta.Encode | src/engine/HttpCache.cpp:235-260 | the fields are written in the order the reader expects |
| CacheMeta.BufReader.Need | src/engine/HttpCache.cpp:172-178 | a failure is for good, and the cursor never passes the end |
| CacheMeta.BufReader.U32 | src/engine/HttpCache.cpp:179-187 | takes four bytes or fails |
| CacheMeta.BufReader.I64 | src/engine/HttpCache.cpp:188-196 | takes eight bytes as two's complement or fails |
| CacheMeta.BufReader.Str | src/engine/HttpCache.cpp:197-203 | takes a counted string or fails |
| CacheMeta.ReadHeaders | src/engine/HttpCache.cpp:272-290 | the loop over a counted list, and its limit |
| CacheMeta.Decode | src/engine/HttpCache.cpp:262-303 | accepts exactly what the specification of the format decodes, with the same value, and never reads outside its buffer |
| CacheIndex.LogReadsBack | src/engine/HttpCache.cpp:555-581 | replaying a log, torn anywhere within a last record, gives the fold of its whole records |
| CacheIndex.CompactionKeepsReplay | src/engine/HttpCache.cpp:531-553 | a log rewritten from a map in any order replays to that map |
| CacheIndex.ReopenKeeps | src/engine/HttpCache.cpp:557-581 | opening again keeps the invariant |
| CacheIndex.StepKeepsInv | src/engine/HttpCache.cpp:511-769 | every operation of the cache keeps: the log replays to the keys of the index and to the sizes last logged, the size accounted is the sum of the sizes in the index |
| CacheIndex.RunKeepsInv | src/engine/HttpCache.cpp:511-769 | so does every run from an empty directory |
| CacheIndex.ReplayIsIndex | src/engine/HttpCache.cpp:511-769 | after any operations, one after another, and with any torn tail, replaying the log gives the keys of the index, and `sizeBytes` is the sum of the sizes in the index; the replay gives their sizes too as long as no scan corrected a size to another than was logged |
| CacheIndex.ScanKeeps | src/engine/HttpCache.cpp:708-769 | correcting sizes to whatever was found, and reaping whatever was found dead, keeps the invariant, also if the index has changed since the disk was read |
| CacheIndex.ScanThenReplay | src/engine/HttpCache.cpp:744-767 | after a scan with nothing in between the index is what is on disk, and the log replays to its sizes if and only if every body file had the size that the log gave before it |
| CacheIndex.ScanReapsFresh | src/engine/HttpCache.cpp:708-768 | an entry committed while a scan was reading the disk is thrown away again if and only if the scan had found its key without files |
| CacheIndex.CorrectionIsNotLogged | src/engine/HttpCache.cpp:746-751 | for any key and sizes: a committed entry whose body file changes is corrected in the index and in the total, and the log still has the size before |
| CacheIndex.RefreshKeeps | src/engine/HttpCache.cpp:1443-1450 | so does a refresh of metadata |
| CacheIndex.ClearKeeps | src/engine/HttpCache.cpp:1454-1476 | so does clearing |
| CacheIndex.EvictsOldestAndNoMore | src/engine/HttpCache.cpp:638-680 | over the cap, eviction ends with ten times the size at most nine times the cap, nobody evicted was used later than anybody kept, and one victim fewer would have stayed above; within the cap nothing goes |
| CacheHits.LastUseStands | src/engine/HttpCache.cpp:601-634 | over every run, until the next use of its key: what was committed is held with its size and time and a hit with its time, unless evicted; what was dropped or cleared is not held |
| CacheHits.HitProtects | src/engine/HttpCache.cpp:1318-1325 | over every run an entry hit later than every other use on record is still there after the next eviction, or nothing at all is |
| CacheHits.HitSurvivesExactlyIfFlushed | src/engine/HttpCache.cpp:685-769 | after a restart and a scan an entry has the time of its last hit if and only if that was flushed to its metadata file, or was there already |
| CacheHits.UsesAreLogged | src/engine/HttpCache.cpp:511-620 | a commit and a refresh are in the log at once with size and time, whatever is torn off behind them |
| CacheHits.RefreshGivesTime | src/engine/HttpCache.cpp:1435-1450 | a refresh gives entry and metadata file its time and leaves their sizes |
| CacheHits.FilesAreMarked | src/engine/HttpCache.cpp:208-211 | a metadata file begins with NHCM and an index file with NHCI, each followed by version 1 |
| CacheCore.OldestOf | src/engine/HttpCache.cpp:654-658 | finds an entry no younger than any other |
| CacheCore.ByAge | src/engine/HttpCache.cpp:649-658 | lists every key once, oldest first |
| CacheCore.Core.AppendIndexRecord | src/engine/HttpCache.cpp:511-522 | one record is appended to the log |
| CacheCore.Core.OnCommitted | src/engine/HttpCache.cpp:601-620 | map, size and log move together, a replaced entry's size taken back |
| CacheCore.Core.DropEntry | src/engine/HttpCache.cpp:622-634 | an entry goes with its size, and a tombstone follows |
| CacheCore.Core.TakeVictims | src/engine/HttpCache.cpp:660-667 | the loop takes the shortest run of oldest entries that reaches the target |
| CacheCore.Core.AppendTombstones | src/engine/HttpCache.cpp:673-677 | one tombstone for every victim, in order |
| CacheCore.Core.EvictNow | src/engine/HttpCache.cpp:638-680 | evicts in some order of age as specified, one step of the machine; if it was over the cap it ends with ten times the size at most nine times the cap, the oldest gone |
| CacheCore.Core.LookAtFiles | src/engine/HttpCache.cpp:720-742 | the first loop of a scan finds what is on disk for every key, and the keys without files |
| CacheCore.Core.Correct | src/engine/HttpCache.cpp:746-751 | the entries found replace those of the index, keys that have left it are skipped, and the total moves with each |
| CacheCore.Core.Reap | src/engine/HttpCache.cpp:753-758 | the dead leave the index, those that have left it already are skipped, and the total moves with each |
| CacheCore.Core.FinishScan | src/engine/HttpCache.cpp:744-767 | the second half of a scan is one step of the machine, whatever the index has become |
| CacheCore.Core.ScanEntries | src/engine/HttpCache.cpp:708-769 | a scan finds exactly what is on disk and what is dead when it starts, other threads commit and drop, and it ends with the one step that applies what it found |
| CacheCore.Core.RewriteIndex | src/engine/HttpCache.cpp:531-553 | the log becomes a header and one record for every entry, in any order |
| CacheCore.Core.ReplayLog | src/engine/HttpCache.cpp:557-577 | the replay loop gives the map the specification of the format gives, for any bytes |
| CacheCore.Core.LoadIndex | src/engine/HttpCache.cpp:557-581 | after any torn tail the log is replayed, summed and compacted, one step of the machine: the same keys, the sizes logged |
| CacheCore.Core.LogIsIndex | src/engine/HttpCache.cpp:511-769 | after any calls in any order, and with any torn tail, the log of the object replays to the keys of its index, and its size is the sum of the sizes in it |
| CacheCore.Core.AddUp | src/engine/HttpCache.cpp:578-579 | the sum over the map |
| CacheThreads.StepKeepsInv | src/engine/HttpCache.cpp:601-680 | every locked region of an operation and every append of a record, on any threads, keeps: the index has the keys last set by the regions, the log is the records in the order of the appends |
| CacheThreads.AgreeExactly | src/engine/HttpCache.cpp:511-680 | over every run of any threads, the log replays to the keys of the index if and only if, for every key, the last change to take the index's lock and the last to reach the log both set it or both drop it |
| CacheThreads.SerialAgrees | src/engine/HttpCache.cpp:511-680 | as long as no two operations on one key overlap, on whatever threads, the log replays to the keys of the index whenever none is under way |
| CacheThreads.OvertakenTombstone | src/engine/HttpCache.cpp:622-634 | for every key and size: a drop whose tombstone is appended after another thread has committed the key again leaves it in the index and not in the log |
| QueryParams.SortSorts | src/engine/Common.cpp:503-508 | the sorted parameters are a permutation in order |
| QueryParams.SortIsStable | src/engine/Common.cpp:503-508 | parameters the order cannot tell apart keep their order |
| QueryParams.StrLessMeans | src/engine/Common.cpp:503-508 | the order is by the first character that differs, a prefix first |
| QueryParams.SplitOfJoin | src/engine/Common.cpp:485-518 | parameters joined into a query are found again |
| QueryParams.CanonicalQueryIsStable | src/engine/Common.cpp:485-519 | a canonical query is its own canonical form |
| QueryParams.OrderDoesNotMatter | src/engine/Common.cpp:482-508 | permuted parameters give one canonical query if no key comes both as `k` and as `k=` |
| QueryParams.OrderMattersForAmbiguous | src/engine/Common.cpp:503-518 | for every such key the two orders stay different |
| QueryParams.OrderDoesNotMatterExactly | src/engine/Common.cpp:482-518 | every order of the parameters of a query has the same canonical form if and only if no key comes both as `k` and as `k=` |
| QueryParams.CanonicalQueryLength | src/engine/Common.cpp:485-519 | a canonical query is never longer |
| QueryParams.SplitQuery | src/engine/Common.cpp:486-502 | the scanning loop finds exactly the parameters, empty tokens dropped |
| QueryParams.StableSort | src/engine/Common.cpp:503-508 | the parameters stably sorted |
| QueryParams.JoinParams | src/engine/Common.cpp:509-518 | the parameters joined, `?a` and `?a=` kept apart |
| CanonicalUrl.SplitHostIsSeparable | src/engine/Common.cpp:444-459 | a host that was split off, in lower case, alone or with its port, splits the same way again |
| CanonicalUrl.DecomposeOfPrint | src/engine/Common.cpp:417-539 | the parts of a well-formed address, printed, are found again |
| CanonicalUrl.CanonicalisedIsWellFormed | src/engine/Common.cpp:425-519 | the parts in canonical form are ones that printing keeps apart |
| CanonicalUrl.CanonicalisedTwice | src/engine/Common.cpp:425-519 | canonical parts are their own canonical form |
| CanonicalUrl.CanonicalOfCanonical | src/engine/Common.cpp:414-540 | a canonical form that does not end in white space is its own canonical form |
| CanonicalUrl.IdempotentExactlyWhenTrimmed | src/engine/Common.cpp:414-540 | for every input, taking the canonical form twice is taking it once if and only if the part of the input that comes last in it, the greatest parameter, else the path, else what stands before the fragment, does not end in white space |
| CanonicalUrl.BlankBeforeFragment | src/engine/Common.cpp:414-540 | `http://h/a #f` is an input on which it is not idempotent |
| CanonicalUrl.BlankAfterParameter | src/engine/Common.cpp:414-540 | so is `http://h/?b=1 &a=2` |
| CanonicalUrl.IdempotentWithoutSpace | src/engine/Common.cpp:414-540 | so it is idempotent on every input without white space |
| CanonicalUrl.CanonicalLacks | src/engine/Common.cpp:414-540 | apart from letters and the marks of the syntax every character of the result comes from the input |
| CanonicalUrl.ParameterOrderDoesNotMatter | src/engine/Common.cpp:482-540 | any two addresses, trimmed, that have the same parts but for the order of unambiguous parameters have one canonical form, whatever their ports, paths, fragments and surrounding white space |
| SameAddress.SameKeyExactly | src/engine/Common.cpp:414-540 | on all inputs two addresses have one canonical form if and only if, trimmed, they come apart into the same scheme and host but for case, the same credentials, the same port where 80 or 443 of the scheme is no port, the same path where none is the root, and the same parameters; or neither comes apart and they agree up to the first number sign |
| SameAddress.SameQueryExactly | src/engine/Common.cpp:485-519 | two queries have one canonical form if and only if they have the same parameters, those with equal key and value in the same order |
| SameAddress.KeyParts | src/engine/Common.cpp:425-540 | what stands in the canonical form: scheme and host in lower case, the credentials unchanged, no port where it is the scheme's own and the port otherwise, a slash for no path, the parameters sorted |
| SameAddress.OwnPortIsDropped | src/engine/Common.cpp:461-464 | for every host, credentials, path and query, `:80` on http and ws and `:443` on https and wss change nothing |
| SameAddress.OtherPortStands | src/engine/Common.cpp:461-464 | crossed over, `:443` and `:80` stand in the canonical form |
| SameAddress.CaseDoesNotMatter | src/engine/Common.cpp:425-459 | addresses that differ only in the case of scheme or host have one canonical form |
| SameAddress.FragmentDoesNotMatter | src/engine/Common.cpp:417-478 | a fragment changes nothing, unless a scheme is only found in it |
| SameAddress.TrimTakesBlanks | src/engine/Common.cpp:414 | trimming takes the six blanks off both ends and nothing else |
| CanonicalUrl.SplitPort | src/engine/Common.cpp:444-459 | only a colon after the closing bracket of an IPv6 literal introduces a port |
| CanonicalUrl.CanonicalizeUrl | src/engine/Common.cpp:414-540 | the whole procedure computes the canonical form of which `SameAddress.SameKeyExactly` says which addresses share it and `SameAddress.KeyParts` what stands in it |

## Left out

- Memory ordering: atomics are sequentially consistent, and a region under one mutex is one step.
- Machine limits: payloads are shorter than 2^63 bytes, `size_t` has 64 bits, credits, sequence numbers and day numbers do not overflow.
- TLS, DNS, proxies, connection pools, cookies, client options and error-kind mapping: they decide outcomes, which are arbitrary here.
- The WebSocket upgrade handshake and its SHA-1: a session begins with whatever bytes came with the handshake.
- Ports of isolates that have gone: a post is taken to succeed, so the flush and head posts that fail, and the reclaiming of their items, are not modelled.
- The bytes a session still holds when it is shut down: `shutdown` clears them after the thread has been joined.
- WsAnswers.EndingsAreExplained: the code of a close shown for want of the peer's is the one the step brings; that `close` last stored it, or 1000, is not modelled.
- WsSession.Session.ReceiveLoop: the loop is cut off after an arbitrary number of passes, because it may run for ever.
- WsSession.Session.FlushOutbox: curl answers a finite number of times; after that the socket counts as full.
- CompletionBatch.ExactlyOnce: takes the give-up of `poll` and its reload as one step, and bound ids as different from the port numbers of streams and of direct posts.
- Posts to ports that were never bound go straight to the VM; the deep copy `Owned` is the identity on values.
- Engine.InExactlyOnePlace: a task's constructor is taken not to throw, and cookie and cache ops are ops without effect on requests.
- Engine.TokenDecidesStart: a request's token is looked up and its flag tested in the step that drains the request; a live transfer that notices its flag in a callback is an arbitrary failure.
- CompletionBatch.StepKeepsInv: the part about the slot is for scalar results, with which alone it holds; the part about the ports holds for all and is `CompletionBatch.StepKeepsPorts`.
- CurlEngine.Loop: its methods are one thread's; interleavings with other threads are in the runs of `Engine`.
- ResponseStream.StreamedInOrder: only the streamed mode; a buffered, prefetched or file response has a single completion, which `Engine` covers.
- A fresh cache hit served before any transfer replays its body as `RequestTask.Task.ServeStored` does after a 304; it is not a step of `ResponseStream`.
- Redirects: curl's header blocks before the last one are discarded, and a response here begins with the last.
- Progress events, timings, idle clocks and ages: whether a deadline has passed is arbitrary.
- UploadPath.ReadInOrder: one upload; two submits with the same id waiting at the same time are not modelled, and neither are file and in-memory request bodies.
- PayloadLifetime.GrantsRelease: a grant is taken by the loop thread, which also tears its transfers down, so it never finds a teardown half done.
- PayloadLifetime.NotFreedBeforeRead: Dart's copying is a counter that only grows, and grants arrive in the order sent.
- Cache freshness, `Vary` and keys: `varyByBase`, `keyFor`, `lookup` and `freshnessLifetimeMs` are not modelled; neither are hit counts.
- File input and output of the cache: a file is a byte sequence, a rename is atomic, and only the end of the log can be torn; the cache starts from an empty directory.
- CacheIndex.ReplayIsIndex: there each operation is one step; what happens when the regions of two operations interleave is `CacheThreads`, which leaves out sizes, files, scans' corrections and `clear`.
- CacheCore.Core.EvictNow: entries of one age may be in any order, as `std::sort` leaves them; but for a scan, the core's methods are run one at a time.
- HttpDate.ReadsBack: years outside 1601 to 9999 are printed but refused by the parser, so they have no round trip.
- The two SHA functions, Base64, zlib, brotli and zstd: foreign or opaque; the content decoder is an arbitrary function of its input.
- `CookieBridge`, `Wire`, the worker pool, the generated bridges and the platform runners: no protocol of their own.
