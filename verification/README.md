# batchudp: a verified model

`batchudp` moves UDP datagrams in batches. On Linux it joins datagrams into one message that the
kernel cuts up again (UDP GSO), and splits messages the kernel has joined (UDP GRO). This project
models that machinery and the lifecycles around it, and proves what they guarantee for all inputs,
all batches, all pool histories and all interleavings.

`dafny verify dfyconfig.toml` checks the whole project.

## How the model is built

| file | part of the system |
|---|---|
| `Bytes.dfy`, `Memory.dfy` | little-endian numbers; slices over one flat memory, with Go's `copy` and `append` |
| `Control.dfy` | the control-message codec, segment sizes and sticky sources |
| `Grouping.dfy`, `Segmentation.dfy` | which datagrams may share a message; what the kernel makes of it |
| `Coalesce.dfy`, `Split.dfy` | the two coalescing loops and the in-place splitter |
| `Window.dfy` | when the splitter overflows, and the read windows against it |
| `Wire.dfy`, `Writes.dfy`, `RoundTrip.dfy` | messages as packets; the write calls of a pass and the kernel's answers; from the buffers of a send to the slots of a receive |
| `Address.dfy`, `Send.dfy`, `BatchingConn.dfy` | pooled addresses and messages, `StdNetBind.Send`, `WriteBatchTo` |
| `Receive.dfy`, `Delivery.dfy` | `receiveIP`, and the batching connection's `ReadBatch` |
| `Session.dfy` | sequences of calls on one bind or connection, over the pools they share |
| `Lifecycle.dfy` | `StdNetBind.Open` and `Close` |
| `Offload.dfy` | the transmit-offload flag under concurrent senders |
| `Ring.dfy` | the rings of the Windows bind |
| `WinBind.dfy`, `Closing.dfy`, `Teardown.dfy`, `WinRuns.dfy` | its open/close protocol as interleaved steps: safety, whether a bind that is being closed is torn down, which bind a Close tears down, and runs that show what goes wrong |

Loops and objects of the source are methods and classes over arrays and fields. Each is proved
against a specification: a functional splitter, the greedy grouping, a wire trace. The lemmas then
say what that specification means.

The kernel is the environment. A write may stop after any number of messages or fail; each socket keeps
a record of the messages handed to it and of its answers, and results are stated over it. A read is
given what has arrived. Pools may return a new object or any that was put back. In the Windows
protocol the kernel's choices are part of each action.

## Where the code does less than its documentation says

Each of these is proved, and where the promise holds for some inputs, so is exactly for which.

* A retry of `WriteBatchTo` does not send the buffers one by one, although the error it returns
  reports a send that was retried without segmentation. Chunks of the first pass stay in the
  messages, so buffers are glued together. It sends the buffers exactly when nothing was joined
  (`BatchingConn.RetryExact`, `BatchingConn.RetryGluesBuffers`).
* An IPv6 send that reuses an address object last used for IPv4 copies only four bytes. Over any
  sequence of calls a send is sure of its address if it is IPv4 or no IPv4 send came before
  (`Address.ReuseExact`, `Address.WrongAddressAfterIPv4`, `Session.AddressRight`).
* An empty buffer at the end of a joined message is lost (`Segmentation.WireExact`).
* The GRO read window of `StdNetBind` rules out an overflow exactly for batch sizes that are 1, where
  nothing is split, or multiples of 64, that of the batching connection exactly from 128 slots on
  (`Window.StdNetBindWindow`, `Window.BatchingConnWindow`).
* A receive with GRO stops at an empty datagram and loses what was read after it
  (`Delivery.GroDelivers`, `Delivery.EmptyHidesNext`).
* The batching connection's `ReadBatch` splits the last slot even when nothing was read into it, so
  that a read which filled all slots is followed by one that returns its last datagram again
  (`Delivery.StaleTail`, `Delivery.FullReadGoesStale`, `Delivery.ReadTwice`).
* A segment size above the number of bytes read makes the splitter deliver stale bytes
  (`Window.SplitExact`).
* A sender of the batching connection gets the rejection of segmentation back without a retry exactly
  when another sender lowered the flag since its call began (`Offload.RejectionSurfaces`).
* `Close` of the Windows bind posts one completion to each send port. The calls under way can then
  always go on to the teardown exactly when no more senders have to wait there than wake-ups are there
  or will be posted; else a sender may come to wait for ever, `Close` with it, and every later receive
  behind `Close` (`Closing.CloseEndsExactly`, `WinRuns.ReceiveLeftWaiting`).
* A second `Open` that waits for the lock keeps every later `Close` out while a receive waits for a
  datagram (`Closing.OpenBlocksClose`, `WinRuns.CloseLeftWaiting`).
* A second `Open` of the Windows bind that is refused always tears it down
  (`Teardown.RefusedAlwaysCloses`, `WinRuns.RefusedOpenCloses`).
* A `Close` of the Windows bind may tear down a bind that was opened after it stored 2: exactly when
  another Close or a refused Open has ended its own meanwhile and an Open has succeeded since, so never
  if no other Open or Close overlaps it (`Teardown.LaterBindExactly`, `Teardown.AloneTearsOwn`,
  `WinRuns.SecondCloseTearsDown`, `WinRuns.PendingCloseTearsDown`).
* A receive of the Windows bind copies its datagram out of a slot that has been handed to the kernel
  again, whenever the ring is full and nothing has failed (`Ring.AfWinRingBind.Receive`).
* A failed submission keeps its ring slot for good; after 256 of them the ring is full with nothing
  in flight (`Ring.StuckWhen`, `Ring.AfWinRingBind.ExhaustSends`).

## Model

| member | source | states |
|---|---|---|
| Control.ParseEncoded | gso_linux.go:30-40 | any list of well-formed control messages parses back to itself; the loop guard hides only a last message without data |
| Control.GetGSOSize | gso_linux.go:22-42 | the loop returns the size of the control data, which the next three rows give byte by byte |
| Control.SizeOfFirstGro | gso_linux.go:35-38 | for all control data in which a UDP_GRO message with two data bytes comes after well-formed messages without one: the size is its first byte and 256 times its second, whatever follows |
| Control.NoGroNoSize | gso_linux.go:30-41 | without such a message the size is 0 |
| Control.MalformedBeforeGro | gso_linux.go:31-34 | a header whose length is below 16 or beyond the buffer, before such a message, is an error |
| Control.ToldSize | gso_linux.go:22-42 | the size with which the kernel tells what it has joined is the one read |
| Control.FirstIsEarliest | gso_linux.go:35-39 | the message that decides is the one before which none matches |
| Control.ControlSlice.SetSrcControl | sticky_linux.go:100-106 | in place: the control data becomes the sticky source, unless it does not fit |
| Control.ControlSlice.SetGSOSize | gso_linux.go:46-61 | in place: existing data is kept and one UDP_SEGMENT message is appended, unless it does not fit |
| Control.SetsUnlessFull | gso_linux.go:46-61 | neither setter touches a slice without room; else the source is all there is, and a segment size appends 24 bytes and keeps the rest |
| Control.ControlRoundTrip | gso_linux.go:46-61 | source then size, into a reused buffer with any old bytes, parses to exactly the PKTINFO and one UDP_SEGMENT |
| Control.KernelReadsBack | sticky_linux.go:97-106 | the kernel reads the size and source that were asked for, and no size where none was set |
| Control.StdNetEndpoint.GetSrcFromControl | sticky_linux.go:50-95 | the first PKTINFO before a malformed message is stored, without one the source is cleared |
| Control.StdNetEndpoint.Store | sticky_linux.go:69-76 | header and data land in the reused or newly made storage of the family's size |
| Control.StoredExactly | sticky_linux.go:69-89 | what is stored of a PKTINFO of any length: header, data as far as it fits, then what the storage held or zeros |
| Control.StickyRoundTrip4 | sticky_linux.go:17-42 | among any control messages the first IPv4 PKTINFO gives back its address and its interface as a signed 32-bit number, and can be sent again |
| Control.StickyRoundTrip6 | sticky_linux.go:17-42 | the same for an IPv6 PKTINFO |
| Control.SourceCleared | sticky_linux.go:50-95 | without a PKTINFO, up to the end or a header that does not parse, the endpoint's source is empty |
| Memory.Copy | bind_std.go:681-681 | `copy` between overlapping parts of one memory moves the old bytes and nothing else |
| Memory.Append | bind_std.go:626-626 | `append` within the capacity extends the view and leaves all other memory alone |
| Grouping.JoinTest | bind_std.go:621-625 | the five conditions the loop tests hold exactly when the longer group is legal for the kernel |
| Grouping.GreedyCuts | bind_std.go:616-651 | a batch has a division into consecutive legal groups none of which could take one datagram more |
| Grouping.GreedyUnique | bind_std.go:616-651 | there is only one such division |
| Grouping.GreedyIsOptimal | batching_conn_linux.go:174-206 | no division into legal groups uses fewer messages than scatter-gather coalescing |
| Grouping.CopyingIsOptimal | bind_std.go:616-651 | nor than copying, when every base buffer has room for its group |
| Grouping.CopyingNotOptimal | bind_std.go:619-623 | without that room copying makes three messages of four buffers where two would do |
| Grouping.GroupingsAgree | batching_conn_linux.go:181-184 | copying and scatter-gather coalescing group alike if and only if every base buffer has room for its group |
| Coalesce.CoalesceMessages | bind_std.go:605-653 | one message per greedy group: its bytes joined in the first buffer, address, source, and a segment size exactly for two or more; callers' buffers, all other messages and all memory beyond the buffers' capacities unchanged |
| Coalesce.GatherMessages | batching_conn_linux.go:163-208 | the same with the group's chunks listed instead of copied and no bytes moved |
| Coalesce.JoinStep | bind_std.go:626-636 | joining a buffer keeps every finished group's bytes and all callers' buffers |
| Coalesce.OpenStep | bind_std.go:639-650 | closing a group and starting the next keeps the loop's progress |
| Coalesce.SizeFits | bind_std.go:627-641 | the conversion of the segment size to 16 bits loses nothing |
| Segmentation.ChunkCount | bind_std.go:674-674 | a payload has as many pieces as the rounded-up quotient says |
| Segmentation.GroupSurvives | bind_std.go:605-653 | the kernel cuts a joined group back into its datagrams when the last is not empty |
| Segmentation.GroupLosesEmpty | bind_std.go:621-625 | an empty last datagram of a joined group never reaches the wire |
| Segmentation.WireExact | bind_std.go:605-653 | a grouped batch reaches the wire unchanged if and only if no joined message ends with an empty buffer |
| Wire.GroupOnWire | bind_std.go:605-653 | each coalesced message asks for its first datagram's size exactly when it joins several, and becomes its group's packets, with address and source |
| Wire.CoalescedOnWire | bind_std.go:605-653 | any prefix of the messages puts the first groups on the wire, in order |
| Wire.SegmentSizeOnce | bind_std.go:627-641 | the control data holds the sticky source and exactly one UDP_SEGMENT for a joined message, none otherwise |
| Wire.MessageLimits | bind_std.go:592-601 | a joined message has at most 64 datagrams and 65507 or 65527 bytes |
| Wire.CoalescedOuts | bind_std.go:605-653 | each coalesced message is handed over with its group's bytes, and the first one's length as segment size exactly if it joins two or more |
| Wire.CoalescersAgree | batching_conn_linux.go:163-208 | with room for the groups both coalescers make the same messages: number, payloads, sizes |
| Split.SplitCoalescedMessages | bind_std.go:657-699 | the in-place splitter refines the functional one: same datagrams, senders, count and error, read slots emptied, all others and all memory beyond the slots as they were |
| Split.RunNonEmpty | bind_std.go:660-691 | however a split ends, no datagram it delivers is empty |
| Split.SplitMessage | bind_std.go:677-691 | one message's pieces go to the next slots; overflow exactly when they pass the message's own slot |
| Split.CopyStep | bind_std.go:681-683 | filling a slot destroys no byte that is still to be read |
| Split.RawSegmentsExact | bind_std.go:673-676 | the pieces are the datagrams that were sent if and only if the segment size is at most the bytes read |
| Window.OverflowExactly | bind_std.go:678-680 | the splitter overflows if and only if for some message the datagrams up to it outnumber the slots up to its own |
| Window.SplitDelivers | bind_std.go:657-699 | a successful split delivers every datagram of every message read, in order, and no other |
| Window.SplitExact | bind_std.go:673-688 | a successful split delivers the datagrams that were sent if and only if no segment size exceeds the bytes read with it; otherwise as many, with bytes from before |
| Window.GroReadBatchSize | bind_std.go:405-414 | the window w of every positive batch has 64 (w - 1) < batch <= 64 w, at least one slot and no more than the batch |
| Window.WindowExact | bind_std.go:366-372 | a window never overflows, over all reads, if and only if 64 times its size fits the batch |
| Window.StdNetBindWindow | bind_std.go:366-414 | no read of the bind overflows if and only if the batch size is 1, where nothing is split, or a multiple of 64 |
| Window.BatchingConnWindow | batching_conn_linux.go:75-83 | two slots never overflow if and only if there are at least 128 |
| RoundTrip.GroupReturns | bind_std.go:657-699 | a message that arrives with control data telling its segment size splits into the buffers it was made of |
| RoundTrip.EndToEnd | bind_std.go:605-699 | coalescing by either coalescer, arrival and splitting give back all buffers in order if and only if no message outgrows the slots up to its own |
| RoundTrip.EndToEndInPlace | bind_std.go:605-699 | then the first slots hold the buffers' bytes after the in-place split |
| Address.LoadExact | bind_std.go:519-527 | a pooled address object holds the destination after loading, if and only if it was long enough or the old tail agrees |
| Address.ReuseExact | bind_std.go:519-527 | over every history of one pooled object, exactly which sends carry the right address |
| Address.WrongAddressAfterIPv4 | bind_std.go:519-527 | an IPv4 send and then an IPv6 one: the second carries four right bytes and zeros |
| Address.UDPAddr.SetDestination | bind_std.go:519-528 | the code loads the address and port as specified, and the object stays what its history of sends makes of it |
| Send.MessagePool.Get | bind_std.go:325-327 | messages from the pool, new or reused, are clean: no address, no counts, empty control data of full capacity |
| Send.MessagePool.Put | bind_std.go:317-323 | messages put back are clean again whatever a call left in them |
| Send.AddrPool.Get | bind_std.go:517-517 | an address object from the pool, new or reused, is what a history of earlier sends made of it |
| Send.AddrPool.Put | bind_std.go:518-518 | the object comes back with its history, to which the last send was added |
| Send.Socket.WriteAll | bind_std.go:569-576 | partial writes are repeated until all is sent or one fails: each hands over exactly what the earlier ones left, the error is that of the write that failed and there is one only then; what is on the wire is a prefix of the messages, each once |
| Send.Socket.WriteEach | bind_std.go:577-588 | the same without batch I/O, one message at a time |
| Writes.PassFails | bind_std.go:569-588 | a pass ends with an error exactly if one of its writes failed, and that is its last |
| Send.Socket.SendMessages | bind_std.go:563-590 | either way: success means all messages once and in order |
| Send.PlainMessages | bind_std.go:550-554 | one message per buffer, over whatever a coalesced pass left |
| Send.PlainOnWire | bind_std.go:549-556 | these messages put each buffer on the wire alone and unsegmented, with address and source |
| Send.Transmit | bind_std.go:533-560 | the packets and the write calls of a call for each result: a segmented pass, at most one plain retry after EIO and only then, and the reported error |
| Send.ResultExactly | bind_std.go:537-559 | over the kernel's answers: success exactly if no write failed; the flag lowered and a retry exactly if the first failure was EIO with segmentation on, reporting the error of the retry's own last write; else the first failure |
| Send.BindJoins | bind_std.go:592-625 | what shares a message, with all bounds: at most 65507 bytes for a 4-byte destination and 65527 for a 16-byte one, 64 buffers, the first buffer's capacity; and the next buffer would have broken one |
| Send.BindHandsWithin | bind_std.go:592-601 | no message handed to the socket with a segment size exceeds the bound of its destination |
| Send.StdNetBind.SendVia | bind_std.go:515-560 | the same with pooled objects, which are returned clean; the address is what the object's history of earlier sends makes of the destination |
| Send.StdNetBind.Send | bind_std.go:492-561 | family choice, blackhole, missing socket, the flag lowered for that family exactly on a rejection, the other family's socket untouched; callers' buffers and the memory beyond them unchanged |
| Send.WholeRun | bind_std.go:492-561 | over whole runs: success puts exactly the buffers on the wire; a retry puts a prefix that ends at a message boundary and then all of them, or a prefix if it fails; any other failure puts a prefix |
| BatchingConn.ReplaceFirstChunks | batching_conn_linux.go:124-128 | the plain pass replaces first chunks and keeps the others |
| BatchingConn.GatheredInUse | batching_conn_linux.go:252-252 | chunk lists never outgrow the pooled capacity of 64 |
| BatchingConn.RetryExact | batching_conn_linux.go:114-130 | the retry sends the buffers if and only if the first pass joined none |
| BatchingConn.RetryGluesBuffers | batching_conn_linux.go:114-130 | two one-byte buffers: the retry sends them glued together, then the second again |
| BatchingConn.RetryDelivers | batching_conn_linux.go:114-136 | wherever the second pass of a successful retry starts, its packets are the buffers glued to the left-over chunks, and so the buffers if and only if nothing was joined |
| BatchingConn.LinuxBatchingConn.Attempts | batching_conn_linux.go:114-136 | the packets and write calls of the retry loop while other senders may lower the flag, by what its two loads of the flag gave; at most one retry, and the flag is then down |
| BatchingConn.BatchResultExactly | batching_conn_linux.go:114-136 | success exactly if no write failed; a retry exactly if the first failure was EIO and both loads found the flag up; else the first failure |
| BatchingConn.GatherJoins | batching_conn_linux.go:170-196 | what shares a message, by the bytes of the destination: at most 65507 for four bytes or ten zeros, two 255 and four bytes, 65527 for any other; 64 buffers; and the next buffer would have broken a bound |
| BatchingConn.GatherHandsWithin | batching_conn_linux.go:170-196 | no message handed to the socket with a segment size exceeds that bound |
| BatchingConn.LinuxBatchingConn.Get | batching_conn_linux.go:149-151 | a batch from the pool is ready: one chunk per message, empty control data, and shared with no other batch |
| BatchingConn.LinuxBatchingConn.Put | batching_conn_linux.go:153-161 | a batch put back is ready again |
| BatchingConn.LinuxBatchingConn.WriteBatchTo | batching_conn_linux.go:86-136 | too large exactly beyond the batch size; otherwise the packets and write calls of the call, to the address the pooled object's history of earlier calls makes of the destination |
| Receive.ReadAndSplit | bind_std.go:366-375 | reading into the window and splitting refines the functional splitter on what arrived |
| Receive.HandOut | bind_std.go:390-401 | sizes and endpoints describe the messages: the sender's port and bytes, or the last four of an IPv4 address in IPv6 form, and the source of its own control data; entries of empty ones and beyond the count keep their endpoint |
| Receive.ReceiveGro | bind_std.go:365-402 | with GRO: all datagrams handed out, none of them empty, or an error with none; entries beyond the count and memory beyond the buffers unchanged |
| Receive.NothingEmptyReturned | bind_std.go:390-396 | an entry returned with GRO is empty if and only if the caller's buffer for it has length 0 |
| Receive.ReceivePlain | bind_std.go:376-402 | without: each message is handed out with its bytes, sender and sticky source |
| Receive.ReceiveIP | bind_std.go:347-403 | the whole call, decided by its own arrivals alone whatever the pool held; too short lists (conn.go:136-141) and read errors change nothing of the caller's |
| Delivery.GroDelivers | bind_std.go:365-375 | a receive with GRO returns all datagrams that arrived if and only if no message bursts and no empty datagram comes before another; it overflows exactly when one bursts, and else returns those before the first empty one |
| Delivery.DatagramsTold | gso_linux.go:22-42 | a message whose size the kernel tells is cut into datagrams of that size |
| Delivery.DefaultBatchDelivers | bind_std.go:365-375 | for multiples of 64 it never overflows, and returns all of them if and only if no empty datagram comes before another |
| Delivery.EmptyHidesNext | bind_std.go:660-662 | an empty datagram and another message in one read: nothing is returned |
| Delivery.ReadBatch | batching_conn_linux.go:64-84 | every path: nothing to fill, read error, plain fill, and the split of the last two slots |
| Delivery.StaleTail | batching_conn_linux.go:75-83 | a read of a single message returns its datagrams and no others if and only if the caller's last slot was marked empty |
| Delivery.FullReadGoesStale | batching_conn_linux.go:75-83 | after a read whose datagrams fill all slots no read of a single message returns that message alone |
| Delivery.ReadTwice | batching_conn_linux.go:64-84 | two calls with the same two messages: the second returns the second datagram of the first again |
| Session.Perform | bind_std.go:347-561 | any sequence of sends and receives on a new bind: each call finds the memory, sizes and endpoints the one before left, the first those at the start, and the last leaves those at the end; each does with them what its contract says, sends the bytes it was given, offload flags only go down, address objects carry destinations of earlier sends only, and each socket gets its family's packets and write calls in order |
| Session.BytesStay | bind_std.go:347-561 | in any session what a call left to the callers stays until a call is given a buffer whose storage holds it |
| Session.AddressRight | bind_std.go:517-528 | in any session a send goes to its destination exactly as the history of its pooled object says, and surely if it is IPv4 or no IPv4 send came before |
| Session.SessionOnWire | bind_std.go:492-561 | over a session whose sends of a family succeed, its wire carries the datagrams of the callers, each once and in order, with address and source |
| Session.WriteAll | batching_conn_linux.go:86-161 | any sequence of WriteBatchTo calls on a new connection: each does what its contract says with the callers' bytes, segments only while the flag was up from the start on, and carries addresses of earlier calls only; the socket gets their packets and write calls in order |
| Lifecycle.Listeners.ListenNet | bind_std.go:191-221 | a socket that cannot be used is closed before the error is returned |
| Lifecycle.Listeners.TryOpen | bind_std.go:242-314 | one attempt starts over, succeeds or fails exactly as its outcomes say, with exactly which error and port, the flags of each installed family as probed and else unchanged, and leaks no socket |
| Lifecycle.Listeners.Install | bind_std.go:289-309 | the sockets and the offload flags probed for them are installed by family |
| Lifecycle.Listeners.Open | bind_std.go:223-315 | over all listen outcomes: at most 101 attempts, success exactly when the deciding one succeeds, all sockets on the returned port, which is the one asked for or the one the system chose for the first family that listens; flags as probed; on failure the deciding error and nothing left open; the tolerated error reported |
| Lifecycle.Deciding | bind_std.go:263-266 | the attempt that decides is the first that does not start over, or the last |
| Lifecycle.Listeners.Close | bind_std.go:452-477 | every socket ever opened is closed and all offload flags are down; closing again changes nothing |
| Offload.OnlyGoesDown | bind_std.go:537-547 | in every interleaving the flag never returns to true |
| Offload.RetriesAtMostOnce | bind_std.go:533-559 | every call of either sender retries at most once, and then without segmentation and with the flag down |
| Offload.RejectionSurfaces | batching_conn_linux.go:114-122 | what becomes of a rejected pass, in any interleaving: the batching connection returns the rejection without a retry if and only if another sender lowered the flag since this call began; the bind never does |
| Offload.SurfacedBecause | batching_conn_linux.go:118-135 | every rejection that has surfaced did so in this way |
| Offload.SingleSenderRetries | batching_conn_linux.go:114-122 | where only one sender is at work every rejected pass is retried |
| Offload.SecondSenderNotRetried | batching_conn_linux.go:118-122 | a reachable state in which one sender retries and the other has got the rejection back |
| Ring.RingBuffer.Push | bind_windows.go:47-57 | the slot handed out is used by no request in flight, across counter wrap-around |
| Ring.RingBuffer.Return | bind_windows.go:59-65 | as many slots come back as requests completed, oldest first |
| Ring.RingBuffer.CloseAndZero | bind_windows.go:202-222 | the ring is empty again |
| Ring.BoundedAcrossWrap | bind_windows.go:47-65 | the wrapped distance of the counters is the number of outstanding slots, at most 256, and the flag is up exactly at 256 |
| Ring.StuckWhen | bind_windows.go:366-381 | a ring with nothing in flight is full if and only if 256 submissions failed |
| Ring.AfWinRingBind.ExhaustSends | bind_windows.go:515-530 | a run that gets there: 256 sends whose submission fails |
| Ring.AfWinRingBind.InsertReceiveRequest | bind_windows.go:366-381 | the pushed slot is in flight or has failed to start |
| Ring.AfWinRingBind.Prepost | bind_windows.go:316-325 | the loop of Open fills the ring, never pushes onto a full one, and stops at the first failure |
| Ring.AfWinRingBind.Cycle | bind_windows.go:427-428 | one slot is taken back and one handed out: the same one if and only if the ring was full and the oldest slot completed |
| Ring.AfWinRingBind.Receive | bind_windows.go:386-449 | exactly when it succeeds, finds the bind closed, fails or makes no progress, over any number of rounds, with the slots cycled and lost; the slot the datagram is copied from is in flight again if and only if the ring is full and it was the oldest slot, and so always in a full ring without failures |
| Ring.AfWinRingBind.Send | bind_windows.go:480-530 | exactly when it succeeds, finds the bind closed, the buffer too long or no progress, and the ring state for every answer of the kernel; it never pushes onto a full ring |
| WinBind.InvStep | bind_windows.go:295-353 | every step of every thread keeps the protocol invariant |
| WinBind.InvAlways | bind_windows.go:295-353 | so it holds after every run |
| WinBind.NoUseAfterTeardown | bind_windows.go:386-464 | in every run a thread that touches a ring, queue or port holds the read lock, finds them live, and nobody holds the write lock |
| WinBind.ReceiversWakeUp | bind_windows.go:398-421 | in every run, once Close has posted, a receive that waits or will wait without looking again has a completion |
| WinBind.ClosersAlways | bind_windows.go:343-352 | in every run, while isOpen is 2 a Close is on its way to the teardown, and each port has its completion or a Close on its way to post it |
| Closing.DeficitStep | bind_windows.go:488-530 | while the bind is closing no step raises the number by which the senders that must wait exceed the wake-ups, and only the kernel lowers it |
| Closing.TotalStep | bind_windows.go:337-559 | while the bind is closing every step of a call brings the calls as a whole closer to their end |
| Closing.ReceiveReleased | bind_windows.go:386-464 | a receive of a closing bind that has the read lock is released without the kernel whatever the senders do; one that still wants the lock can step exactly while no writer has announced itself |
| Closing.CloseNeverStuck | bind_windows.go:337-353 | if the send ports are covered once 2 is stored, then in every run some call can step by itself until the teardown |
| Closing.InternalRunsEnd | bind_windows.go:337-353 | such steps run out, so every longest run of them ends with the teardown |
| Closing.StrandsExactly | bind_windows.go:492-511 | the calls can by themselves come to strand a sender at a port if and only if more senders must wait there than wake-ups are there or will be posted |
| Closing.CloseEndsExactly | bind_windows.go:337-353 | after every run that leaves isOpen at 2: however the calls have gone on by themselves, they can go on to the teardown, if and only if no send port lacks a wake-up; then also whatever else is called and the kernel does |
| Closing.OneSenderEach | bind_windows.go:343-347 | no send port lacks one if at most one sender of each family has got past its check |
| Closing.StrandedForever | bind_windows.go:349-352 | without the kernel a stranded sender waits for ever, the bind is never torn down, and receives, sends and closes behind an announced writer wait too |
| Closing.OpenBlocksClose | bind_windows.go:296-338 | with a second Open waiting for a receive or send that waits for the kernel, isOpen gets to 2 if and only if a Close already has the read lock |
| Teardown.LaterBindExactly | bind_windows.go:343-351 | in every run a Close that has stored 2 finds a bind opened after its store if and only if another Close or a refused Open has ended its own since and an Open has succeeded whose bind nobody has ended |
| Teardown.TeardownExactly | bind_windows.go:349-351 | so what a Close tears down in any run: its own bind if nobody has replaced the rings since its store, a later one exactly then, and else nothing |
| Teardown.AloneTearsOwn | bind_windows.go:337-353 | its own, with isOpen at 2, if no other thread is in an Open or a Close between its store and its teardown |
| Teardown.NoOpenNoLater | bind_windows.go:295-353 | never a later one if no thread is in an Open meanwhile |
| Teardown.RefusedAlwaysCloses | bind_windows.go:295-305 | in every run an Open that has got the lock of a bind which is open or being closed can do nothing but tear it down, whatever the others do |
| WinRuns.ReceiveLeftWaiting | bind_windows.go:337-353 | a reachable state after 256 sends: one sender left, the second waits with nothing pending, Close waits for it and a receive behind Close, in every run without the kernel |
| WinRuns.CloseLeftWaiting | bind_windows.go:295-339 | a reachable state in which a receive, a second Open and a Close wait for each other, in every run without the kernel |
| WinRuns.RefusedOpenCloses | bind_windows.go:295-305 | a reachable open bind that a second Open, refused, leaves closed |
| WinRuns.SecondCloseTearsDown | bind_windows.go:337-353 | a run with two Closes that both passed the check: the second tears down a bind opened again in between |
| WinRuns.PendingCloseTearsDown | bind_windows.go:303-351 | a run with a single Close: an Open is refused and tears down, the next succeeds, and the Close tears its bind down |

## Left out

- Socket calls, marks, offload probing and the winrio and windows calls: only their effect on this state, as parameters or loose contracts.
- Endpoint parsing and printing, `PrettyName`, the choice of the default bind, unwrapping of gonnect connections and closer subscriptions: they would only add easy members.
- The `*_default.go` stubs and Android, where setting a sticky source does nothing: the send results are those of Linux.
- BindSocketToInterface, and the resetting of blackhole flags in Close; a blackholed send of the Windows bind, which touches no ring.
- Big-endian and 32-bit control-message layouts: the model uses the 64-bit little-endian one.
- The bytes of ring packets: the rings are modelled by slot, not by content.
- The network-down check in front of a receive.
- Receive.ReceiveIP: with GRO it says nothing about sticky sources, because the splitter moves data and sender but not control data; a single read with nothing arrived returns 0 where the code blocks; a segment size beyond the buffer, at which the code panics, is excluded.
- Send.StdNetBind.Send: one call at a time; the flag under concurrent calls is in `Offload`.
- Send.MessagePool.Get: which object comes back is not determined, and eviction by the runtime is a new object.
- Send.AddrPool.Get: likewise, so a session is sure of an address only where every object the pool may hold is right.
- Delivery.ReadBatch: which of the two split errors is returned is given by the functional splitter, not named.
- Ring.RingBuffer.Return: returning nothing to a full ring, which would mark it as not full, is excluded, because no caller does it.
- Ring.AfWinRingBind.Receive: completions come in the order of submission.
- Closing.CloseEndsExactly: speaks of the teardown of the bind, not of the return of each Close call, which may have to wait behind a bind that is opened afterwards; the runs that end without a teardown are those in which the kernel completes nothing. The kernel may complete any outstanding slot, also one whose submission failed.
- Session.Perform: the calls follow each other; a send and a receive of one bind at the same time are not modelled.
- WinBind.InvAlways: a writer that releases the lock lets in the readers that wait, but does not have to do so before the next writer announces itself, which allows more interleavings than the runtime does.
