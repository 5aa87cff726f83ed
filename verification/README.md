# A verified model of rocketsmbd

This project models the state machines of rocketsmbd, an SMB2/3 server built on io_uring, and proves what they keep
over every run and every byte string. Each module follows one part of the server:

- `Ring`, `Ledger`, `Driving`, `Reactions`, `Reactor`, `Slots`: one connection driven by io_uring completions (receive buffer, batched
  sends, zero-copy sends with their second completion, the zero-copy READ through a pipe, linked or step by step, teardown)
  and the slab of connection slots with generations. The kernel is a nondeterministic environment with a record of what it owes: every submission
  yields one completion, a zero-copy send announced with F_MORE yields one more, sends and splices move any part of what
  was asked, and a failed or short link cancels the rest of its chain. `Env` keeps the histories that the theorems speak
  of: operations submitted, completions delivered, bytes received, requests taken, frames committed, bytes the socket
  accepted, descriptors duplicated and closed. `Reactions` says what every completion leads to.
- `Lease`, `BreakDelivery`, `Generation`: the shared lease table and the delivery of breaks to other workers, as a state
  machine over its atomic steps (lock, push, signal, read completion, drain, deliver, re-arm, and connections coming and
  going between them).
- `Sessions`: setup by NTLM, Kerberos or anonymously, binding further channels, LOGOFF and teardown.
- `MsgWindow`: the MessageId window. `ChangeNotify`: CHANGE_NOTIFY requests and their final responses.
- `Frames`, `Compound`, `Processing`, `Transform`, `Async`, `Response`, `Service`: compound frames, the layout and signing of
  chained replies, sealing and opening, the READ handler's plan, frames that answer no request at once, and the composition
  of all of it with what the reactor relies on. The MAC and the cipher are function parameters; of the cipher only "opening what was sealed gives the text back" is used.
- `FileServer`: trees, opens, the read-only discipline and the lease breaks of every change to a file. `DirRecords` and
  `DirPaging`: directory records and paging. `HandleTable`: the slab of open files.
- `Spnego`: the DER printer and parser and the classification of security blobs.
- `Wire`: bytes, little-endian fields, NBT frames.

Invariants are kept by every method (`Valid`, `Inv`) or by every step of a state machine; where the property is about
whole runs, a lemma states it by induction over the run. Each dispatch and each teardown is one atomic step. Session ids
and encryption keys that the server draws or derives at random are taken to be new. `fstat` on a held descriptor is taken
to succeed, and so is reading back, from the connection's own pipe, the bytes that were just spliced into it: the source
stops reading at an error and would leave the rest in the pipe.

Some properties one would expect are false of the code. In each case a lemma, or a run, shows a failing input; another
member gives the exact condition, or in the case of the receive buffer one that suffices:

- On a read-only tree a CREATE can still make a directory, when the disposition is none of the six of MS-SMB2 section
  2.2.13, a directory is asked for and the name does not exist (`FileServer.ReadOnlyCreate`, `GapExample`).
- Delete-on-close and rename act on the name an open was made under. When that name has come to name another file, the
  other file's leases stay unbroken (`FileServer.DeleteExact`, `RenameExact`, `StalePathExample`).
- A compound whose last dispatched member writes nothing (CANCEL) leaves the NextCommand of the last reply pointing past
  the end (`Compound.PlainAnswers`, `DanglingExample`).
- The receive buffer can hold the whole frame at its front as long as no frame has been taken since the recv was posted.
  After that it depends on the length the next frame declares: while a response is being sent, a small frame and the
  header of a large one may arrive (`Reactor.Conn.ArmedRoom`, `Ring.RoomLostExample`).
- A READ header sent as part of a linked chain has to go out whole for the stream to be right (`Ring.HeaderWhole`). The
  source sends it without MSG_WAITALL and does not look at a short count. The kernel modelled here cancels the chain after
  a short send; one that does not would let the payload follow part of a header.
- Closing a handle ends the CHANGE_NOTIFY requests of every session on the connection whose handle has the same number,
  because file ids are numbered by each session on its own (`ChangeNotify.CleanupExact`, `SharedFidExample`).
- After 2^32 tree connects in one session an open may end up on a tree it was not made on (`FileServer.Session.TreeConnect`,
  `TreeWrapExample`).
- DER lengths of 65536 and more, sealed messages of 2^32 bytes and more, and slot indices of 2^24 and more do not survive
  their fields (`Spnego.TlvDer`, `RespRoundTrip`, `Transform.OpenSealed`, `Slots.UdRoundTrip`); generations come round
  after 65535 and 2^32 - 1 recycles (`Generation.SameIff16`, `HandleTable.HandleTable.Resolves`), and nonces after 2^64 seals
  (`Transform.NoncesSame`).

Where the code and its comments differ the model follows the code: the comment on `HandleTable` says ids are never
reused, the code reuses one after 2^32 - 1 closes of its slot.

## Model

| member | source | states |
|---|---|---|
| Reactor.Conn.HandleCqe | src/uring.rs:504-561 | handling any completion the kernel may give retires exactly that completion, keeps the connection invariant (in-flight equals what is owed, freed only when nothing is owed) and does what Reacted says for it: goes on with the rest, the waiting READ or the next requests, and closes at the end of the stream, a failed receive, send or splice, a broken chain, after the last response, when a request asks for it or the stream is out of step, and for no other reason; final responses that an inotify completion brings are queued or committed; no buffer an outstanding operation references is changed |
| Reactor.Conn.Guarantees | src/uring.rs:504-561 | between any two completions: in-flight equals what the kernel owes, which is the operations submitted plus the notifications promised less the completions delivered; the socket has carried a prefix of whole frames in request order, bytes received are the requests taken plus the unread tail, each READ descriptor duplicated was closed exactly once or is still held, and after the connection is freed all were closed, the pipe is empty in Idle, Send and Drain |
| Reactions.DroveHolds | src/uring.rs:773-848 | frames that were queued when a connection is driven are afterwards queued or committed |
| Reactor.Conn.ArmedRoom | src/uring.rs:712-744 | a posted recv has a non-empty tail, and if no frame was taken since it was posted the buffer can hold the whole head frame |
| Ring.RoomLostExample | src/uring.rs:712-744 | bytes received while a transmission is under way that lead, through posting and receiving, to a posted recv with a head frame larger than the buffer |
| Reactor.Conn.OwedIsLive | src/uring.rs:504-561 | a connection that was freed is owed nothing |
| Reactor.Conn.constructor | src/uring.rs:568-626 | a new connection has nothing in flight and empty histories |
| Reactor.Conn.Account | src/uring.rs:504-561 | exactly the completion is retired: it moves its bytes between pipe, wire and buffers, is appended to the completions delivered, and counts the promised notification of a zero-copy send |
| Reactor.Conn.DrainOne | src/uring.rs:504-561 | while closing, a completion is retired and nothing else happens, and the last one, and only it, frees the connection |
| Reactor.Conn.CompleteRecv | src/uring.rs:746-769 | a recv completion is retired and the invariant kept; end of stream or an error closes; on an idle connection the queued frames and the leading whole frames are served as Flush and Gathers say, behind a busy one the bytes wait unread; it closes otherwise only for the reasons there are; outstanding buffers are kept and the delivered bytes join the history |
| Reactor.Conn.CompleteSend | src/uring.rs:1045-1100 | a send completion outside a chain is retired and the invariant kept: repeated, failed, followed by the rest, or the connection goes on as WentOn says; tx is kept while a notification is owed |
| Reactor.Conn.AccountSend | src/uring.rs:504-561 | the completion is retired; what a send left is what will be resubmitted, and the receive side is not concerned |
| Reactor.Conn.AccountTx | src/uring.rs:504-561 | a completion on the transmit side is retired and the receive side is left as it was |
| Reactor.Conn.CompleteNotif | src/uring.rs:1127-1133 | a zero-copy notification is retired and the invariant kept; the last one of a drained tx lets the connection go on, any other is only counted; tx is kept while anything else references it |
| Reactor.Conn.AccountNotif | src/uring.rs:504-561 | the notification is retired, with one more counted than is owed |
| Reactor.Conn.CompleteSplice | src/uring.rs:1279-1395 | a splice completion of a step-by-step READ is retired and the invariant kept: repeated, refused, filled on, promised, spliced on, closed on failure, or the next requests are served |
| Reactor.Conn.AccountSplice | src/uring.rs:504-561 | the splice is retired: the pipe holds what was counted and what just arrived, or what is left less what just went out |
| Reactor.Conn.CompleteLinked | src/uring.rs:1238-1277 | a completion of a linked chain is retired and the invariant kept: it waits for the rest, a broken chain closes, what is left is spliced on, or the next requests are served; tx is kept while the header send is owed |
| Reactor.Conn.AccountLinked | src/uring.rs:504-561 | the chain completion is retired and the bookkeeping still to be done agrees with the kernel |
| Reactor.Conn.CompleteInotify | src/uring.rs:924-1009 | an inotify completion is retired and the invariant kept; the final responses it brings are queued or committed; it closes only for the reasons there are; every other referenced buffer is kept |
| Reactor.Conn.CloseConn | src/uring.rs:632-655 | teardown starts without touching any buffer; the connection is freed at once only if nothing is owed |
| Reactor.Conn.FinalizeClose | src/uring.rs:189-212 | freeing closes every READ descriptor still held, so each one duplicated was closed exactly once |
| Reactor.Conn.MaybeArmRecv | src/uring.rs:712-744 | afterwards a recv is posted, a whole frame waits, or the connection is finishing; unread bytes are preserved; it closes only on a desynchronised head |
| Reactor.Conn.KeepReceiving | src/uring.rs:712-744 | the invariant holds again with tx untouched; it closes only on a desynchronised head |
| Reactor.Conn.ArmRecv | src/uring.rs:712-744 | a recv is posted into a non-empty tail behind the preserved unread bytes, or a whole frame waits |
| Ring.Prepared | src/uring.rs:679-744 | refused exactly on a desynchronised head; else the unread bytes are at the front, a declared frame fits whole, and the buffer is full only if a whole frame waits |
| Ring.FrameTotal | src/uring.rs:679-708 | a frame is accepted only with a zero first byte, the declared length, and within the limit for its stage |
| Ring.Compacted | src/uring.rs:712-744 | moving the unread bytes to the front keeps them |
| Ring.Grown | src/uring.rs:712-744 | growing keeps the unread bytes and reaches the needed size up to the cap |
| Reactor.Conn.OnRecv | src/uring.rs:746-769 | end of stream or an error closes; on an idle connection the delivered bytes are served with what was unread as Flush and Gathers say, otherwise they wait unread; it closes otherwise only for the reasons there are; the bytes join the history and outstanding buffers are kept |
| Reactor.Conn.Land | src/uring.rs:746-769 | exactly the delivered bytes are appended to the receive history and buffer |
| Reactor.Conn.Drive | src/uring.rs:773-848 | queued frames and then the leading whole frames are served as Flush and Gathers say; it closes when a request asked for it or a last reply was empty, and otherwise only if the stream is desynchronised; the invariant holds again and posted reads keep their buffers |
| Reactor.Conn.Transmit | src/uring.rs:806-848 | the transmission the last request calls for is started; it closes when it must and only for the reasons there are |
| Reactor.Conn.Gather | src/uring.rs:786-842 | requests taken, replies, completions and the action to take are those Gathers says |
| Driving.GathersExact | src/uring.rs:786-842 | the requests taken are handed to the protocol layer one after the other, all but perhaps the last answered into the buffer; it stops only for a full batch, an incomplete head, a request that asks for something else, or a desynchronised stream |
| Driving.GathersTakes | src/uring.rs:786-804 | the requests taken are whole frames that led the unread bytes, and the rest stays unread |
| Driving.GathersLeaves | src/uring.rs:786-798 | when nothing else was asked for and the batch is not full, no whole frame is left unread |
| Reactor.Conn.GatherOne | src/uring.rs:787-842 | one look at the head of the unread bytes keeps what gathering comes to |
| Reactor.Conn.TakeFrame | src/uring.rs:791-808 | the head frame is taken and exactly what the protocol layer answers is buffered, committed, queued and counted |
| Reactor.Conn.ProcessHead | src/uring.rs:799-803 | the protocol layer is given the payload of the head frame and nothing else |
| Reactor.Conn.Take | src/uring.rs:791-798 | the head frame moves from the unread bytes to the requests taken |
| Reactor.Conn.Answer | src/uring.rs:799-841 | the reply is appended to tx, a plan is held exactly for a zero-copy READ, and the final responses are queued |
| Reactor.Conn.Accept | src/uring.rs:799-841 | the reply is committed as the answer to the last request, descriptors duplicated and closed are counted, and a plan takes ownership of its descriptor |
| Reactor.Conn.FlushDeferred | src/uring.rs:776-785 | queued frames leave the queue for tx and the committed frames as Flush says |
| Driving.FlushExact | src/uring.rs:776-785 | what is flushed is a prefix of the queue, whole and in order; it stops at the end of the queue or with the first frame that fills the batch |
| Reactor.Conn.EmitDeferred | src/uring.rs:779-784 | the first queued frame is committed, appended to tx and removed from the queue |
| Reactor.Conn.SendBatch | src/uring.rs:843-848 | a non-empty batch is sent unchanged, an empty one leaves tx alone; it closes only on a desynchronised head |
| Reactor.Conn.SendLast | src/uring.rs:817-828 | a non-empty final batch is sent and the connection marked to close after it; an empty one closes |
| Reactor.Conn.SendThenRead | src/uring.rs:829-840 | a zero-copy READ starts at once, or waits behind the buffered replies |
| Reactor.Conn.SubmitSend | src/uring.rs:1023-1043 | the unsent part of tx is submitted; the zero-copy form is used exactly when it is supported, large enough and not ruled out |
| Reactor.Conn.StartSend | src/uring.rs:1011-1014 | a batch goes to Send unchanged with exactly its bytes outstanding |
| Reactor.Conn.FinishSend | src/uring.rs:1104-1121 | once tx has gone out and is unreferenced, a marked connection closes, a queued READ starts, and otherwise the queued frames and next requests are served as Flush and Gathers say |
| Reactor.Conn.OnSend | src/uring.rs:1045-1100 | after a partial send exactly the rest is submitted; an interrupted one, and a zero-copy one short of memory, is repeated; any other failure closes; after the whole, a READ header starts its splice, pending notifications are awaited, or the connection goes on; tx is kept while a notification is owed |
| Reactor.Conn.ResendByCopy | src/uring.rs:1045-1100 | the same bytes are resubmitted, not by zero-copy |
| Reactor.Conn.Advance | src/uring.rs:1045-1100 | progress by n bytes resubmits exactly the rest, or goes on as after a whole send |
| Reactor.Conn.Resend | src/uring.rs:1045-1100 | the rest of tx is resubmitted and tx is unchanged |
| Reactor.Conn.SentAll | src/uring.rs:1075-1099 | a finished READ header starts the splice; tx is kept in Drain while notifications are owed; otherwise the connection goes on as WentOn says |
| Reactor.Conn.StartSplice | src/uring.rs:1076-1083 | behind a sent READ header the pipe is spliced out |
| Reactor.Conn.OnSendNotif | src/uring.rs:1127-1133 | the last notification of a drained tx lets the connection go on as WentOn says, any other is only counted; tx is kept while anything still references it |
| Reactor.Conn.StartZc | src/uring.rs:1137-1184 | the waiting READ is being served, or was refused and its descriptor closed because there was no pipe |
| Reactor.Conn.BeginZc | src/uring.rs:1137-1234 | the READ is linked exactly when its plan allows it and it fits the pipe |
| Reactor.Conn.BeginLinked | src/uring.rs:1186-1217 | splice-in, header send and splice-out are submitted as one chain for the whole length |
| Reactor.Conn.BeginFill | src/uring.rs:1219-1234 | one splice is submitted, for what the pipe holds of the length |
| Reactor.Conn.RefuseRead | src/uring.rs:1137-1157 | a refused READ goes out as one whole error frame and its descriptor is closed |
| Reactor.Conn.OnLinked | src/uring.rs:1238-1277 | a chain completion that is not the last is only recorded; after the last one a broken chain closes, bytes left are spliced on, and one with nothing left has closed its descriptor and the next requests are served; tx is kept while the header send is owed |
| Reactor.Conn.NoteChain | src/uring.rs:1238-1251 | a chain completion is recorded and nothing else changes |
| Reactor.Conn.ChainDone | src/uring.rs:1252-1277 | what the socket did not take is spliced on; with nothing left the descriptor is closed and the next requests are served |
| Reactor.Conn.SpliceRest | src/uring.rs:1252-1277 | the rest continues step by step with one splice outstanding |
| Reactor.Conn.OnSpliceIn | src/uring.rs:1279-1317 | an interrupted splice is repeated, an error refuses the READ, and after n bytes the READ fills on, is refused for want of bytes, or sends a header promising exactly what arrived |
| Reactor.Conn.Arrived | src/uring.rs:1279-1317 | after n bytes the READ fills on, is refused at end of file or below its minimum, or sends a header promising exactly what arrived |
| Reactor.Conn.CountIn | src/uring.rs:1296-1302 | the bytes that arrived are counted and nothing else changes |
| Reactor.Conn.Decide | src/uring.rs:1303-1317 | the same three outcomes once the bytes are counted |
| Reactor.Conn.Refill | src/uring.rs:1219-1234 | the next splice asks for exactly what is missing |
| Reactor.Conn.SendHeader | src/uring.rs:1303-1317 | the header promises exactly the bytes in the pipe, and they become what is left to splice out |
| Reactor.Conn.ZcFail | src/uring.rs:1321-1351 | a failed READ closes its descriptor and is answered by a frame going out |
| Reactor.Conn.EmptyPipe | src/uring.rs:1321-1340 | the pipe is emptied and nothing else changes |
| Reactor.Conn.SubmitSpliceOut | src/uring.rs:1353-1362 | the splice covers exactly the bytes in the pipe |
| Reactor.Conn.OnSpliceOut | src/uring.rs:1364-1395 | an interrupted splice is repeated, an error closes, what is left is spliced on, and with nothing left the descriptor is closed and the next requests are served |
| Reactor.Conn.SpliceAgain | src/uring.rs:1364-1377 | the same splice is submitted again |
| Reactor.Conn.Left | src/uring.rs:1378-1395 | after n bytes left the pipe the rest is spliced on, or the descriptor is closed and the next requests are served |
| Reactor.Conn.FinishRead | src/uring.rs:1386-1395 | a finished READ closes its descriptor, and the queued frames and next requests are served as Flush and Gathers say |
| Reactor.Conn.ServiceNotify | src/uring.rs:852-902 | final responses join the queue in order; a parked inotify read keeps its buffer |
| Reactor.Conn.StartInotify | src/uring.rs:858-869 | the first watch posts and counts one inotify read |
| Reactor.Conn.OnInotify | src/uring.rs:924-1009 | the final responses of a read are queued or committed; an idle connection then serves its queue as Flush and Gathers say, behind a busy one they wait in order; the read is posted again, or a dead instance forgotten; it closes only for the reasons there are; referenced buffers are kept |
| Reactor.Conn.QueueFinals | src/uring.rs:981-1009 | the final responses are queued behind a busy transmit side, and else the queue is served and each is queued or committed |
| Reactor.Conn.ArmInotify | src/uring.rs:912-922 | the inotify read is posted and counted, the completions join the queue |
| Reactor.Conn.DeliverBreak | src/uring.rs:477-502 | a break is dropped for a closing connection, queued behind a busy one, and on an idle one the queue with it is served as Flush and Gathers say; posted reads keep their buffers and the connection is not freed |
| Ring.AppendOut | src/uring.rs:773-848 | appending an answer to the last request, or an asynchronous frame, keeps frames whole and answers in request order |
| Ring.InOrderMeans | src/uring.rs:773-848 | frames in order, said of any two of them |
| Ring.RetireCounts | src/uring.rs:504-561 | a completion is appended to those delivered and lowers what is owed by one, or by none when it promises another; nothing is submitted |
| Ring.HeaderWhole | src/uring.rs:1186-1277 | a payload spliced out behind part of a READ header is the promised stream, whatever the payload, exactly when the header went out whole |
| Ledger.RetireKeeps | src/uring.rs:504-561 | whatever part of its bytes a completion moved, streams, regions and descriptors stay consistent |
| Ledger.AcceptKeeps | src/uring.rs:799-841 | accepting a reply keeps the streams, and every descriptor duplicated is closed once or held |
| Slots.UdRoundTrip | src/uring.rs:57-68 | a completion tag names its operation, slot, generation and buffer exactly when the slot index fits 24 bits |
| Slots.Worker.constructor | src/uring.rs:231-305 | a worker starts with no slots |
| Slots.Worker.OnAccept | src/uring.rs:568-626 | an accepted connection gets an empty slot with that slot's generation, or is refused at the limit |
| Slots.Worker.PickSlot | src/uring.rs:587-594 | a slot taken from the free list or appended is empty and no longer free |
| Slots.Worker.Fill | src/uring.rs:595-623 | the new connection occupies its slot |
| Slots.Worker.Recycle | src/uring.rs:659-671 | a freed connection leaves its slot, which becomes free under the next generation |
| Slots.Worker.HandleCqe | src/uring.rs:504-561 | a completion owed to any connection ever accepted reaches that connection, which retires exactly it and does what Reacted says: the stale guards never fire for it; the slot is recycled when it was the last |
| Slots.Worker.DeliverBreak | src/uring.rs:477-502 | a break reaches the connection of its slot and generation unless that is closing, as one whole frame queued or committed; otherwise nothing changes; posted reads keep their buffers and no connection is freed |
| Response.ReadReplyFramed | src/smb2/mod.rs:469-482 | a READ header and the payload spliced behind it are one whole frame exactly when the payload has the promised length |
| Response.ReadErr | src/smb2/mod.rs:484-492 | the error reply to a zero-copy READ is one whole frame |
| Response.BeginRespFields | src/smb2/mod.rs:373-396 | a client reads every field out of a response header as it was written, as long as it fits |
| Generation.Next | src/vfs.rs:447-456 | the next generation is never zero |
| Generation.SameIff16 | src/uring.rs:659-671 | two occupants of a connection slot share a generation exactly when a multiple of 65535 recycles lies between them |
| Generation.SameIff32 | src/vfs.rs:447-456 | two occupants of a handle slot share a generation exactly when a multiple of 2^32 - 1 closes lies between them |
| Lease.LeaseTable.constructor | src/lease.rs:55-60 | the table starts empty |
| Lease.LeaseTable.GrantLease | src/lease.rs:65-73 | granting sets the lease of one key on one file and no other |
| Lease.LeaseTable.BreakConflicts | src/lease.rs:79-106 | a conflicting access removes every grant of another key, with exactly one message per removed grant, in order; only the actor's own key is left |
| Lease.LeaseTable.Split | src/lease.rs:84-101 | the grants kept and the messages for the others, in order |
| Lease.LeaseTable.Release | src/lease.rs:109-117 | releasing removes one key on one file and no other |
| Lease.LeaseTable.ReleaseConn | src/lease.rs:121-127 | a connection's grants, and only those, go from every file; no empty list is left |
| Lease.MessagesMatch | src/lease.rs:79-106 | each message stands for one removed grant, and each removed grant has one |
| BreakDelivery.TableKept | src/lease.rs:65-127 | every step keeps at most one grant per file and key, no empty lists, and only grants whose holder occupies its slot |
| BreakDelivery.LeavingClears | src/uring.rs:659-671 | releasing a connection by its generation removes every grant that names its slot |
| BreakDelivery.ConservedKept | src/lease.rs:163-179 | every step moves messages without losing or copying any |
| BreakDelivery.WakeKept | src/lease.rs:163-179 | no step leaves a non-empty mailbox without a pending signal, a poster about to signal or an unhandled wake |
| BreakDelivery.MsgKept | src/uring.rs:466-502 | every step keeps messages addressed to the connection whose grant was broken, and a discarded one has lost it |
| BreakDelivery.Safety | src/uring.rs:466-502 | the invariant holds in every state of every run |
| BreakDelivery.DeliveredToHolder | src/uring.rs:477-502 | in every run a delivered break reached its holder's slot after a multiple of 65535 recycles, hence the holder itself short of that many |
| BreakDelivery.GuardExact | src/uring.rs:477-502 | the delivery guard passes exactly when the slot's occupant is live and shares the holder's generation |
| BreakDelivery.AllSettled | src/uring.rs:466-502 | with nothing in flight, every message made was delivered once or discarded once, and discarded ones had lost their holder |
| BreakDelivery.NeverStuck | src/uring.rs:454-472 | in every run a non-empty mailbox has an enabled step toward draining it |
| MsgWindow.MsgIds.constructor | src/smb2/mod.rs:294-318 | the window starts at zero with nothing remembered |
| MsgWindow.MsgIds.Consume | src/smb2/handlers.rs:252-274 | the code's loops compute the specified window; they end without overflow and at most 4096 ids stay remembered |
| MsgWindow.MsgIds.SlideLow | src/smb2/handlers.rs:264-267 | the low edge steps over the used ids that start at it |
| MsgWindow.SlideExact | src/smb2/handlers.rs:264-267 | exactly the ids up to the first unused one are dropped |
| MsgWindow.SettleExact | src/smb2/handlers.rs:264-272 | the new low edge is the least unused id with at most 4096 used ids above it, and exactly those are remembered |
| MsgWindow.Safety | src/smb2/handlers.rs:252-274 | in every run the edge stays within 64 bits, at most 4096 ids are remembered and they are the used ids above the edge |
| MsgWindow.Monotone | src/smb2/handlers.rs:252-274 | as a run goes on the edge never falls and used ids stay used |
| MsgWindow.NoReplay | src/smb2/handlers.rs:252-274 | two accepted requests of a run share no id |
| MsgWindow.AcceptsExactly | src/smb2/handlers.rs:242-263 | until a gap is given up, a request is accepted exactly when its ids fit 64 bits, are unused and stay within 65536 of the lowest unused id |
| MsgWindow.AcceptsAlways | src/smb2/handlers.rs:242-263 | in every state, acceptance is exactly: not below the edge, unused, within the window |
| HandleTable.HandleTable.constructor | src/vfs.rs:405-412 | the table starts empty |
| HandleTable.HandleTable.Len | src/vfs.rs:459-461 | the length is the number of live handles |
| HandleTable.HandleTable.Insert | src/vfs.rs:415-428 | the new id was not live, and the map gains exactly it; under the guard of CREATE the slab stays within its limit |
| HandleTable.HandleTable.Place | src/vfs.rs:415-421 | the top of the free list is filled |
| HandleTable.HandleTable.Extend | src/vfs.rs:421-426 | with no free slot the slab grows by one |
| HandleTable.HandleTable.Slot | src/vfs.rs:430-438 | a slot is found exactly for a live id |
| HandleTable.HandleTable.Get | src/vfs.rs:441-444 | a lookup finds exactly the live handle of that id on that tree |
| HandleTable.HandleTable.Set | src/vfs.rs:441-444 | writing through a lookup replaces exactly that handle |
| HandleTable.HandleTable.Remove | src/vfs.rs:447-456 | removal takes exactly the live handle of that id on that tree and advances its slot |
| HandleTable.HandleTable.Take | src/vfs.rs:452-455 | the slot is emptied, freed and moved to its next generation |
| HandleTable.HandleTable.IdsInTree | src/vfs.rs:468-473 | the ids of the live handles of a tree, each once |
| HandleTable.HandleTable.TakeAll | src/vfs.rs:476-486 | every open is handed back in order and none is left; each slot that was occupied has seen one more close |
| HandleTable.HandleTable.Resolves | src/vfs.rs:430-456 | an id resolves exactly while its slot is occupied and a multiple of 2^32 - 1 closes lies between |
| HandleTable.PackUnpack | src/vfs.rs:427-432 | an id and its slot and generation determine each other |
| HandleTable.VacateOk | src/vfs.rs:447-456 | vacating keeps the refinement, the exact free list without repeats and the count |
| Spnego.TlvDer | src/spnego.rs:51-112 | parsing inverts printing in all three length forms, with any trailing bytes, exactly when the length is below 65536 |
| Spnego.ChildrenDer | src/spnego.rs:115-121 | walking children yields a printed element first and then the rest |
| Spnego.OidRoundTrip | src/spnego.rs:37-45 | a mechanism's identifier names that mechanism |
| Spnego.RespRoundTrip | src/spnego.rs:241-301 | classifying a reply for a known mechanism returns that mechanism and token exactly when its outermost content is below 65536 bytes |
| Spnego.OversizeResp | src/spnego.rs:241-301 | from a longer reply a shorter token comes back |
| Spnego.HintRoundTrip | src/spnego.rs:128-236 | classifying the advertised hint returns the first known mechanism and no token |
| Spnego.InitRoundTrip | src/spnego.rs:171-236 | an initial token yields the first known mechanism and what the fields after the list say |
| Spnego.ClientInitRoundTrip | src/spnego.rs:171-236 | an initial token with a mechanism token yields the first known mechanism and that token |
| Spnego.RawKerberos | src/spnego.rs:171-191 | a bare Kerberos token, under either identifier, is recognised and passed through whole |
| Spnego.RawNtlm | src/spnego.rs:192-200 | a bare NTLM message is recognised and passed on whole |
| Spnego.NegInitHint | src/spnego.rs:128-151 | the builder's loop prints the specified hint |
| Spnego.ListOids | src/spnego.rs:132-140 | the identifiers of the known mechanisms, in order |
| Spnego.PickMech | src/spnego.rs:214-224 | the scan stops at the first known mechanism |
| Spnego.ParseNegInit | src/spnego.rs:204-236 | the parser's loop computes the specified reading of an initial token |
| Spnego.ParseNegResp | src/spnego.rs:241-276 | the parser's loop computes the specified reading of a reply |
| DirRecords.ReadBack | src/smb2/handlers.rs:2103-2149 | a record of any of the six classes reads back as the entry it was written from |
| DirRecords.RecordsFaithful | src/smb2/handlers.rs:2066-2069 | every record is read back and is padded to a multiple of eight bytes |
| DirPaging.WalkReply | src/smb2/handlers.rs:2058-2086 | walking NextEntryOffset over a reply finds exactly its records, in order |
| DirPaging.ReplyReadsBack | src/smb2/handlers.rs:2058-2086 | a reply reads back as exactly its entries, in order |
| DirPaging.FittingExact | src/smb2/handlers.rs:2070-2072 | the records taken fit the buffer together, and one more would not |
| DirPaging.PageFits | src/smb2/handlers.rs:2054-2092 | a reply fits the client's buffer, is a multiple of eight bytes, holds at least one entry and, unless a single one was asked for, could not hold another |
| DirPaging.PageReadsBack | src/smb2/handlers.rs:2054-2092 | a reply reads back as exactly the entries the scan moved over |
| DirPaging.TooSmallExact | src/smb2/handlers.rs:2081-2085 | with entries left, the buffer is reported too small exactly when the next entry alone does not fit |
| DirPaging.ScanExact | src/smb2/handlers.rs:2033-2092 | over any sequence of buffer sizes and classes the entries read are the snapshot's, in order, without gaps or repeats |
| DirPaging.EndExact | src/smb2/handlers.rs:2048-2052 | the end is reported exactly when every entry has been read |
| DirPaging.DirectoryScan | src/smb2/handlers.rs:2033-2149 | the same for the server's own records |
| DirPaging.OpenDir.Query | src/smb2/handlers.rs:2033-2092 | a request restarts on demand, on a new pattern or at first, continues otherwise, and a failed listing changes nothing |
| DirPaging.PageOut | src/smb2/handlers.rs:2048-2092 | the code computes the specified page and position |
| DirPaging.Gather | src/smb2/handlers.rs:2054-2080 | the loop takes exactly the specified number of records, linked, and knows where the last one starts |
| DirPaging.Fill | src/smb2/handlers.rs:2054-2086 | the patched reply, or nothing for an unknown class |
| Frames.Align | src/smb2/mod.rs:852-857 | the latest reply is padded to eight bytes and linked; the next one starts there |
| Frames.Emit | src/smb2/mod.rs:858-878 | a reply is appended with a record of where it starts, its command, session and saved key; a silent member leaves none |
| Frames.WalkExact | src/smb2/mod.rs:852-878 | NextCommand walks exactly the replies and ends at zero if and only if the last dispatched member wrote one |
| Compound.MembersExact | src/smb2/mod.rs:830-887 | a frame dispatches exactly the requests its links reach, in order, each handled once, until no link leads on or to a request that is refused; it counts as too large exactly when a further request meets a full frame |
| Compound.ChainBounds | src/smb2/mod.rs:830-838 | at most 128 members, and replies of bounded total size |
| Processing.DispatchAll | src/smb2/mod.rs:830-887 | the loop ends for every frame with exactly those members: their replies laid out in order, their sessions and saved keys recorded, their plan, closes and descriptors gathered |
| Processing.Inspect | src/smb2/mod.rs:830-851 | the decision at each header follows the chain |
| Processing.Step | src/smb2/mod.rs:852-878 | one member joins the layout and the tally |
| Processing.Place | src/smb2/mod.rs:852-878 | one reply joins the layout with its record, or the member was silent |
| Processing.ProcessPlain | src/smb2/mod.rs:763-963 | what is appended and done is what the frame comes to; bytes already buffered are untouched |
| Processing.Finish | src/smb2/mod.rs:906-961 | the replies are signed by the keys of their sessions and the length stamped |
| Compound.PlainFramed | src/smb2/mod.rs:763-963 | a frame adds nothing or one whole frame, of bounded size, and nothing beside a close or a zero-copy READ; only a single request is answered by a zero-copy READ |
| Compound.PlainAnswers | src/smb2/mod.rs:830-961 | the answer holds one message for each member that wrote a reply, in order, carrying that reply on an 8-byte boundary and verifying over its own range under the key its session has (or a LOGOFF had); NextCommand walks exactly these messages if and only if the last member dispatched wrote one |
| Compound.DanglingExample | src/smb2/mod.rs:852-878 | the frame of an ECHO and a CANCEL: the reply points past the end |
| Compound.PlainFds | src/smb2/mod.rs:884-904 | whatever becomes of a frame, every READ descriptor duplicated for it is closed exactly once or leaves with the plan |
| Compound.SizeExact | src/smb2/mod.rs:830-838 | the bytes held against the cap are the bytes laid out |
| Frames.AnswerWalks | src/smb2/mod.rs:830-927 | signed replies can be walked if and only if the last member wrote one |
| Frames.StartsAligned | src/smb2/mod.rs:852-857 | replies start on 8-byte boundaries |
| Frames.SignVerifies | src/smb2/mod.rs:418-436 | for any MAC, a message signed in place verifies, and its length and NextCommand are unchanged |
| Frames.AnswerVerifies | src/smb2/mod.rs:906-927 | a laid-out reply with a key verifies over its own range after all have been signed |
| Frames.SignInPlace | src/smb2/mod.rs:418-424 | exactly the given range is replaced by its signed form |
| Frames.SignAll | src/smb2/mod.rs:906-927 | the post-pass signs every reply whose session has a key and no other, also the reply to LOGOFF |
| Frames.SignOne | src/smb2/mod.rs:912-927 | one reply is signed without touching its neighbours |
| Frames.FinishExact | src/smb2/mod.rs:956-961 | the NBT length is exact for every frame the size cap lets through |
| Frames.BeginRespFresh | src/smb2/mod.rs:373-396 | a reply that starts with a response header leaves NextCommand and signature zero |
| Processing.Read | src/smb2/handlers.rs:1817-1926 | a plan is handed back exactly for a single, large, unsigned READ of an open file; otherwise the reply is buffered; the duplicated descriptor is closed or leaves with the plan, exactly once |
| Transform.OpenSealed | src/smb2/mod.rs:648-700 | opening a sealed message under its key gives the plaintext back exactly when its length fits 32 bits |
| Transform.WrapTransform | src/smb2/mod.rs:673-700 | wrapping appends one sealed message and a prefix to tx, whole for every message under 16 MiB less the header, and moves the counter on by one |
| Transform.NoncesSame | src/smb2/mod.rs:680-684 | two seals have the same nonce exactly when a multiple of 2^64 seals lies between them |
| Transform.NoncesIncrease | src/smb2/mod.rs:554-564 | in every run the counters sealed under one key strictly increase, over replies, the reply to LOGOFF and notify completions |
| Transform.StepKept | src/smb2/mod.rs:706-757 | every frame and completion keeps used counters below each channel's counter |
| Transform.ProcessFrame | src/smb2/mod.rs:706-759 | what is appended and done is what the frame comes to, sealed or not, and a sealed reply moves its channel's counter on by one |
| Transform.ProcessSealed | src/smb2/mod.rs:730-757 | a sealed request is answered sealed or not at all, a plan's descriptor is closed, and a close stays one |
| Transform.SealReply | src/smb2/mod.rs:746-750 | the sealed reply is appended as one frame under the next counter |
| Transform.FrameFramed | src/smb2/mod.rs:706-759 | a frame, sealed or not, adds nothing or one whole frame, and nothing beside a close or a zero-copy READ, which a sealed frame never yields |
| Transform.SealedAnswers | src/smb2/mod.rs:730-757 | there is a sealed reply exactly when the messages have one, and it opens, under the channel's key or the key a LOGOFF arrived under, to exactly that reply |
| Transform.FrameFds | src/smb2/mod.rs:733-741 | every READ descriptor duplicated for a frame, sealed or not, is closed exactly once or leaves with the plan |
| Service.Serve | src/uring.rs:799-803 | the outcome is what the frame comes to, and one the reactor relies on |
| Service.OutcomeLegal | src/uring.rs:799-841 | at most one whole frame, nothing beside a close or a zero-copy READ, whole final responses, and every descriptor duplicated closed once or handed over |
| Service.ServerIsProtocol | src/uring.rs:799-803 | handlers that keep to their contract make a protocol layer that every connection may be built on |
| Async.EventsRead | src/smb2/mod.rs:523-539 | a client reads exactly the events of a final response, in order |
| Async.NotifyFinalReads | src/smb2/mod.rs:512-577 | a final response is one whole frame; opened, it verifies when the request was signed and tells exactly the events when they fit the client's buffer |
| Async.LeaseBreakReads | src/smb2/mod.rs:593-635 | a lease break is one whole frame that names the lease and verifies under the session's key |
| Sessions.Server.constructor | src/session.rs:61-65 | the registry starts empty |
| Sessions.Server.Connect | src/uring.rs:568-626 | a new connection has no channels |
| Sessions.Server.Start | src/smb2/handlers.rs:792-815 | a setup is refused at four unfinished channels, otherwise creates one half-open session owned by this connection |
| Sessions.Server.NtlmNegotiate | src/smb2/handlers.rs:767-822 | a binding goes on exactly for an established, non-guest session not bound here, a new setup exactly within the bound; refusals change nothing |
| Sessions.Server.NtlmAuthenticate | src/smb2/handlers.rs:823-1018 | a binding counts one more channel exactly when the identity was proved; a setup ends established with one channel or leaves neither session nor channel; a channel with nothing pending is acknowledged and changes nothing, and one to a session that is gone ends with nothing pending |
| Sessions.Server.FinishBinding | src/smb2/handlers.rs:851-917 | a proved binding adds one channel, a refused one drops only this channel |
| Sessions.Server.FinishSetup | src/smb2/handlers.rs:919-1017 | a verified user or admitted guest establishes the session, anything else removes it with the status it deserves |
| Sessions.Server.Abandon | src/smb2/handlers.rs:1010-1016 | a failed setup removes its session and channel together |
| Sessions.Server.Enter | src/smb2/handlers.rs:1029-1046 | a session created established has one channel |
| Sessions.Server.Anonymous | src/smb2/handlers.rs:1019-1050 | a session without a token is admitted exactly when guests are and encryption is not required |
| Sessions.Server.KerberosLeg | src/smb2/handlers.rs:1064-1245 | each leg continues, establishes or removes the setup it belongs to, or starts one exactly within the bound, each with its status |
| Sessions.Server.ContinueLeg | src/smb2/handlers.rs:1109-1217 | a later leg continues, establishes or removes the setup, each with its status |
| Sessions.Server.Logoff | src/smb2/handlers.rs:278-298 | only an established channel logs off; the session goes with its last channel |
| Sessions.Server.Depart | src/smb2/handlers.rs:278-313 | dropping an established channel lowers the count and ends the session at zero |
| Sessions.Server.DropChannel | src/smb2/handlers.rs:321-341 | dropping one channel of a lost connection ends its own setup or the session with its last channel, and nothing else |
| Sessions.Server.TeardownConn | src/smb2/handlers.rs:321-341 | after teardown the connection has no channels and no other connection changed |
| Sessions.Server.TeardownAll | src/smb2/handlers.rs:315-341 | tearing down every connection empties the registry |
| Sessions.Counted | src/session.rs:21-39 | in every reachable state a session's channel count is the number of established channels to it, and their session is in the registry |
| Sessions.LiveExactly | src/session.rs:61-102 | the registry holds exactly the sessions some connection has established or is setting up |
| Sessions.NoChannelsNoSessions | src/smb2/handlers.rs:315-341 | without channels there are no sessions |
| Sessions.SetupsBounded | src/smb2/handlers.rs:793-800 | a connection's own setups are among the channels the limit counts |
| Sessions.SetupStarted | src/smb2/handlers.rs:792-815 | a started setup keeps the bookkeeping and the bound of four |
| Sessions.Bound | src/smb2/handlers.rs:892-897 | a finished binding keeps the count exact |
| Sessions.ChannelLeft | src/smb2/handlers.rs:286-296 | a dropped channel keeps the count exact and ends the session at zero |
| ChangeNotify.OneFinal | src/uring.rs:850-910 | every async id has at most one final response; once the reactor took over, an id waits for an event exactly while it is active and has its one final response exactly when it is not |
| ChangeNotify.Notifies.constructor | src/smb2/mod.rs:294-318 | no request is pended |
| ChangeNotify.Notifies.Request | src/smb2/handlers.rs:2693-2730 | a request gets the next async id, never used before, or is refused at the limit or for a handle that is no directory |
| ChangeNotify.Notifies.Cancel | src/smb2/handlers.rs:345-353 | CANCEL ends exactly the active request it names |
| ChangeNotify.Notifies.Cleanup | src/smb2/handlers.rs:1752-1763 | closing a handle ends exactly the requests pended on a handle of its number, which are those of its session if and only if no other session's active request carries the number |
| ChangeNotify.CleanupExact | src/smb2/handlers.rs:1752-1763 | the requests of that number are those of the session exactly when every one of them is |
| ChangeNotify.CleanedEnds | src/smb2/handlers.rs:1752-1763 | whoever made it, a request on a handle of that number ends |
| ChangeNotify.SharedFidExample | src/smb2/handlers.rs:1752-1763 | two sessions on one connection with the same file id: closing it in one ends the other's request |
| ChangeNotify.Notifies.StartWatches | src/uring.rs:857-883 | each request that can be watched gets its watch and each other one is answered with INSUFFICIENT_RESOURCES, both in order; those that can be watched stay active |
| ChangeNotify.Notifies.AnswerEnded | src/uring.rs:885-901 | ended requests are answered with the status that ended them |
| ChangeNotify.Notifies.Service | src/uring.rs:852-902 | after servicing, exactly the active requests wait and every other one has one final response; each request that could not be watched is answered with INSUFFICIENT_RESOURCES |
| ChangeNotify.Notifies.FireAll | src/uring.rs:983-1002 | every request on a descriptor that saw activity is completed with SUCCESS, in order, and no other |
| ChangeNotify.Notifies.OnInotify | src/uring.rs:981-1002 | exactly the requests waiting on the descriptors leave the watches, each completed with SUCCESS; with nothing left to service, an id has left the active list exactly when it has its one final response |
| ChangeNotify.FindId | src/uring.rs:886-887 | the first entry of an async id |
| ChangeNotify.FindKey | src/uring.rs:984-985 | the first entry of a watch descriptor, or there is none |
| ChangeNotify.StampFirst | src/uring.rs:983-1002 | completing the first request on a descriptor and then the rest answers all of them in order |
| ChangeNotify.EndedKept | src/smb2/handlers.rs:345-353 | ending a request keeps every id in exactly one stage |
| ChangeNotify.SettledKept | src/uring.rs:885-901 | answering an ended request keeps every id in exactly one stage |
| FileServer.ReadOnlyCreate | src/smb2/handlers.rs:1460-1567 | on a read-only tree CREATE changes files exactly for a disposition outside the six with a missing directory asked for, and its open can change nothing |
| FileServer.SixDispositions | src/smb2/handlers.rs:1460-1567 | with the six dispositions CREATE on a read-only tree changes nothing |
| FileServer.GapExample | src/smb2/handlers.rs:1460-1524 | a request that makes a directory on a read-only tree |
| FileServer.OverwriteSeen | src/smb2/handlers.rs:1532-1567 | an open that changes an existing file reports it as overwritten |
| FileServer.BrokenOnly | src/smb2/handlers.rs:1694-1701 | after a break every grant left on the file carries the actor's key and other files are untouched |
| FileServer.RenameExact | src/smb2/handlers.rs:2436-2479 | after a rename the grants left on the replaced and on the open's own file carry the actor's key; on the file that moved they do exactly when that is one of these or had no others |
| FileServer.DeleteExact | src/smb2/handlers.rs:1770-1790 | after a delete the same holds for the open's own file, and for the file deleted exactly when that is the open's own or had no others |
| FileServer.StalePathExample | src/smb2/handlers.rs:1770-1790 | a delete through a stale name that leaves another file's lease in place |
| FileServer.Session.constructor | src/session.rs:41-57 | a session starts without trees and opens |
| FileServer.Session.Others | src/session.rs:1-11 | whatever other sessions do to files and leases keeps this session's discipline |
| FileServer.Session.TreeConnect | src/smb2/handlers.rs:1305-1312 | a tree gets the next 32-bit id within the limit; opens keep their discipline exactly when every open under that id suits the new tree, so always when no live tree has it |
| FileServer.TreeWrapExample | src/smb2/handlers.rs:1305-1312 | a run of one session: a file is opened for writing on the first tree, trees come and go until the counter has come round, and the open ends up on a read-only tree |
| FileServer.Session.Create | src/smb2/handlers.rs:1430-1639 | it succeeds exactly when nothing refuses it, there is room and the kernel lets it; success adds one open, on the file the name then names and as writable as it was opened, and the leases are those AdmitLeases says; a read-only tree changes only through the gap; an overwritten file keeps only leases of the actor's key |
| FileServer.Session.Admit | src/smb2/handlers.rs:1583-1639 | the new open is disciplined; leases an overwrite made stale are broken before its own is granted |
| FileServer.Session.Write | src/smb2/handlers.rs:1931-1991 | exactly a write through a writable open on a writable tree that the kernel lets happen succeeds; files change only through such an open; after success only leases of the actor's key are left |
| FileServer.Session.SetInfo | src/smb2/handlers.rs:2393-2486 | the status is the one SetInfoStatus gives, on a writable tree and an open made on it; files change only on a writable tree; marking for deletion marks the open and leaves only leases of the actor's key, and so does truncating; a rename moves the name, breaks the specified leases and is followed by the open |
| FileServer.Session.SetDisposition | src/smb2/handlers.rs:2521-2541 | marking for deletion is refused for the root and non-empty directories, else the open is marked and other keys' leases are broken |
| FileServer.Session.Truncate | src/smb2/handlers.rs:2460-2473 | the file changes and only leases of the actor's key are left |
| FileServer.Session.SetRename | src/smb2/handlers.rs:2545-2588 | the refusals, or the name moves and replaced and own leases are broken |
| FileServer.Session.FinishClose | src/smb2/handlers.rs:1770-1790 | leases and files after an open is gone; files change only if it was marked for deletion |
| FileServer.Session.Close | src/smb2/handlers.rs:1705-1749 | only the named open goes; files change only on a writable tree; it succeeds unless a deletion asked for fails |
| FileServer.Session.TreeDisconnect | src/smb2/handlers.rs:174-186 | the tree and exactly its opens go; files and leases are what closing those opens in some order makes of them; only names of opens marked for deletion go, and on a read-only tree none |
| FileServer.Session.EndSession | src/smb2/handlers.rs:302-313 | no tree and no open is left; files and leases are what closing every open in some order makes of them; only names of opens marked for deletion go, and those were made on trees that are not read-only |
| FileServer.Session.LeaveAll | src/smb2/handlers.rs:309-311 | each open leaves once, with its effects on files and leases |
| FileServer.AfterDeletes | src/smb2/handlers.rs:1770-1790 | however many opens leave, only names of opens marked for deletion go and nothing else of the files changes |
| Wire.LeRoundTrip | src/wire.rs:56-64 | a little-endian field holds a value exactly when it fits |
| Wire.FramedIff | src/smb2/mod.rs:579-584 | a prefix and its payload are a whole frame exactly when the length fits 24 bits |

## Left out

- Crypto primitives, key derivation and the preauthentication hash chain: parameters here, or not part of this model.
- The parsers of individual request bodies (CREATE contexts, SESSION_SETUP bodies, NTLM and PAC messages): requests arrive
  parsed, except compound headers, directory records and SPNEGO tokens.
- QUERY_INFO, security descriptors, IOCTL, NEGOTIATE, FLUSH and LOCK: fixed layouts, or kernel lock semantics that are not
  visible here.
- Credits granted to clients: independent of the MessageId window.
- Configuration, share authorization, health checks, logging, listeners, core pinning and SQPOLL: plumbing.
- The wake of a worker whose eventfd could not be created: such a worker never receives breaks.
- Races inside one dispatch between looking a session up and locking it: each dispatch is one step.
- When a queued final response is sent: `Reactor` proves that queued frames go out whole and in order and that driving an
  idle connection serves its queue first, not that frames queued while it is driven go out before its next event.
- Timestamps: `FileServer` does not model them, so setting them is no change to a file there.
- Sessions.Server.Start: session ids are taken to be new rather than drawn by the retry loop of the registry.
- Transform.NoncesIncrease: counts seals without bound; the 64-bit counter in a message comes round after 2^64 of them, as
  `Transform.NoncesSame` states.
- ChangeNotify.Notifies.Request: does not model the wrap of the 64-bit async id.
- ChangeNotify.Notifies.OnInotify: takes the descriptors that fired; the parsing of the kernel's event buffer is not
  modelled.
- Reactor.Conn.CompleteLinked: the kernel is taken to cancel the splice behind a header send that goes out short.
- Reactor.Conn.EmptyPipe: leaves out the source's early exit when reading the pipe fails.
- Reactor.Conn.OnInotify: takes the final responses of a batch of events as whole frames, which `Async.NotifyFinalReads`
  proves of each one.
- Async.EventsRead: the two loops that write and then link the events in a buffer are one function on values; update in
  place is not captured.
- DirPaging.Gather: encodes an entry when it is taken; an entry that is encoded and then does not fit is not kept.
- Spnego.HintRoundTrip: states nothing about mechanism lists whose encoding reaches 65536 bytes, which the source's
  printer does not support.
