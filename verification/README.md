# A verified model of the UIPEthernet stack

UIPEthernet is a TCP/IP stack for microcontrollers with a few hundred bytes to
spare: packets live in the RAM of the network chip, TCP keeps one segment
outstanding per connection, and the application resends from its own queue.
This project models the parts where that design is delicate, and proves what
holds them together.

`dafny verify dfyconfig.toml` checks the whole project.

## What is modelled

**The packet pool** (`PoolTable`, `ChipMemory`, `PacketPool`). A best-fit,
compacting allocator in a table of handles, threaded by an address-ordered list.
The table is an array relinked in place, the chip's RAM one array of bytes, a DMA
move a copy from low to high addresses that may overlap its source. The number of
slots and the pool's range are parameters. The abstract state of a pool is a map from
handles to byte strings, and every operation is proved to have exactly its intended
effect on that map.

**The sockets** (`SocketModel`, `Ownership`, `SocketSteps`, `ClientSockets`). Two
five-slot handle queues per connection, the callback the engine makes, reading,
writing, stopping, and the transient send block. A send block whose handle is
overwritten, as after a failed transmission, stays allocated and is kept in account. Each connection is seen as a `View`:
its flags and the byte strings in its queues. The class invariant says that each
block of the pool is held by exactly one handle field or counted as lost, and that the occupied
handles of every queue come first.

**The TCP engine** (`Sequence`, `TcpEngine`, `TcpConnection`, `TcpTimers`,
`TcpNetwork`, `TcpRun`, `TcpAnswers`, `TcpExchanges`). `TcpEngine` gives each entry into the engine as a function from
connection, segment and callback's answer to the next connection and the segment
sent. `TcpConnection` is the connection as an object whose fields are updated
step by step, proved equal to those functions. `TcpNetwork` puts two of them at the
ends of a network that may lose, repeat and reorder segments, with unbounded stream
positions beside the 32-bit sequence numbers; `TcpRun` is one run of it that delivers.
`TcpAnswers` says what is sent in answer to what, so that nothing lost stays lost, and
`TcpExchanges` follows the segments that open and close a connection.

**Both together** (`Delivery`, `DeliveryRun`, `Reading`, `Flows`, `Lifetimes`, `Resets`,
`ResetRun`, `SocketCalls`). The sockets
answer the callbacks of the two-ended system. What `TcpNetwork` assumes of a callback is
proved of the sockets' one, so the final theorems speak of bytes written and bytes handed
up, and assume nothing of the application. `Reading` goes on to the bytes its user reads, and
`Flows` to when the flow of data stops and starts. `DeliveryRun` is one run of two hosts,
`Lifetimes` and `Resets` follow a connection to its end, `ResetRun` is a run to an end that
goes wrong, and `SocketCalls` ties the methods of
`ClientSockets` to the steps of a host.

**Smaller pieces**: the Internet checksum and the ping reply (`Checksum`), the
connection table (`ConnTable`), the table of hardware addresses (`Arp`), and the
resolver's message format (`Dns`).

## Main results

- Bytes handed up on one host are a prefix of the bytes written on the other, in every
  state of every run and in both directions (`Delivery.WrittenIsDelivered`).
- Bytes read on one host are a prefix of the bytes written on the other, in every run in which
  no data are dropped for lack of memory (`Reading.ReadIsWritten`); for lack of slots none ever
  are (`Reading.RoomWhileOpen`).
- A lost segment or acknowledgement is made good: what is outstanding goes out again with the
  timer (`Flows.OutstandingIsSentAgain`), and if it then arrives, its answer is the acknowledgement
  of all of it, whether it was accepted before or not (`TcpAnswers.DataRoundTrip`,
  `TcpAnswers.LostAckMadeGood`).
- Three segments open any two slots, and close any two connections with nothing outstanding
  (`TcpExchanges.OpensBothEnds`, `TcpExchanges.ClosesBothEnds`).
- A local close sends its FIN only after every byte written has been acknowledged
  (`Delivery.CloseAfterAll`), and with data outstanding the first block of the queue
  is the segment in flight (`Delivery.FirstBlockInFlight`).
- Over every run of two hosts any two data segments for the same position carry the same
  bytes, so a retransmission repeats the first one (`Delivery.HostsSameBytes`).
- Over every run of two hosts, a waiting connection that no segment reaches keeps its state
  for exactly the number of timer ticks its timer and count determine, and is closed from then
  on, flags included (`Lifetimes.SilenceCloses`). With any other callback it is given up at the
  same tick, and closed unless the callback's last answer stops the flow (`TcpTimers.ClosesExactly`).
- A reset closes the connection exactly if no close waits for unsent output
  (`Resets.ResetClosesExactly`); with nothing outstanding the connection is otherwise
  stuck for good (`Resets.StuckForever`).
- An allocation succeeds exactly if a slot is free and the bytes in use leave room, and it
  moves nothing if some gap fits (`PacketPool.MemoryPool.AllocBlock`).
- What is transmitted behind the header is exactly the queue's first block. Without memory for
  the send block nothing goes out, except that a request for an unknown hardware address may
  take the packet's place (`ClientSockets.ClientSockets.CallAndSend`).
- A turn of the stack keeps back for good exactly the send blocks whose transmission fails
  (`ClientSockets.ClientSockets.Tick`); while there are none, every block of the pool is in some
  connection's queue (`ClientSockets.ClientSockets.NoneHeldBack`).
- The resolver finds the first address record of every well-formed response
  (`Dns.ResponseDecoded`). The skip of a question's name ends exactly if the packet holds
  the name's end, or has nothing left to read while the counter, not yet set, happens to be
  zero (`Dns.EndsExactly`); the skip of an answer's name always ends
  (`Dns.AnswerNameEnds`). Each refusal has its exact condition on the bytes
  (`Dns.RefusedExactly`).
- The table of hardware addresses is right for an address over all runs exactly if both
  its halves are non-zero, or it has one entry and the address is not zero
  (`Arp.ReliableExactly`).

## Where the code falls short of its purpose

The model follows the code; these are results about it.

- `utility/uip_arp.c:168-169` takes an entry to be in use only if both halves of its
  address are non-zero, while an entry is free if both are zero. `Arp.LearnedTwice` and
  `Arp.UnlearnedHit` give runs after which a lookup answers wrongly; `Arp.ReliableExactly` gives
  the exact condition.
- `utility/uip_arp.c:146-149` takes the age of an entry as a difference of 8-bit clock values
  without the wrap-around: an entry learned at clock 136 or later is never forgotten, any other
  after 120 ticks exactly (`Arp.ForgottenExactly`, over runs `Arp.LearnedStays`). Nothing in the
  repository calls this timer.
- The same differences choose the mapping to throw away (`utility/uip_arp.c:197-211`), which is the
  one longest known exactly if the clock has not wrapped around (`Arp.LeastRecentExactly`).
- A SYN without an mss option leaves the mss of the slot's last occupant (`utility/uip.c:1326-1359`,
  `TcpAnswers.OfferTaken`). In a slot never used that is zero, and the connection never sends a byte
  (`TcpAnswers.UnsizedSendsNothing`).
- `UIPClient.cpp:381` stops the flow of data when there is no memory for them, and
  `UIPClient.cpp:272-273` asks for its restart only when a block has been read. A connection so
  stopped with nothing left to read never takes data again, as long as it is established
  (`Flows.DeafForever`); `Flows.DeafensExactly` gives the exact condition, `Flows.DeafHappens` a run.
  The packet is kept for another try (`UIPClient.cpp:380`), but the engine has counted its bytes and
  takes it for a duplicate (`TcpAnswers.OldSegmentAnswered`).
- `Dns.cpp:323-326` counts an unsigned byte down past zero, so the counter is 255 after each
  label and only a zero byte in the packet ends the loop over a question's name.
  `Dns.EndsExactly`: on a packet cut short inside such a name the loop never ends;
  `Dns.CutShort` gives such responses. The loop over an answer's name has the same counter, but
  takes 255 for a pointer and so ends on every packet (`Dns.AnswerNameEnds`).
- A callback told of a reset (`utility/uip.c:1389-1394`) may still stop the flow of
  data if a close waits for unsent output (`UIPClient.cpp:466-472`); the stopped flag then keeps
  the state byte from being that of a closed connection. `Resets.ResetClosesExactly` gives
  the exact condition, and `ResetRun.StuckHappens` a run in which a byte written, a stop and a
  late reset are all it takes. If nothing was outstanding, no segment, tick, poll or call of the
  application ever makes the slot a closed one again (`Resets.StuckForever`). With data
  outstanding the timer still closes it (`Lifetimes.SilenceCloses`), unless a late
  acknowledgement arrives before (`Resets.LateAckSticks`).
- `utility/Enc28J60Network.cpp:571` keeps a byte count less one in 16 bits, so for an empty
  stretch it wraps to 0xffff, which no even index reaches or passes: the loop ends exactly
  if there is a byte to sum (`Checksum.LoopEndsExactly`). `utility/uip.c:853` checks that a
  received packet is as long as its IP header announces, but not that this covers the header
  itself; below 20 bytes `UIPEthernet.cpp:405` wraps around, and the checksum of the segment
  does not end exactly if the packet stops where the TCP or UDP header does
  (`Checksum.ReceivedSumEndsExactly`). `Checksum.RuntNeverSummed` gives a frame with a correct IP
  header for which it does not. Below 20 bytes the first addition may also lose a carry
  (`Checksum.LostCarry`), against the comment at `UIPEthernet.cpp:410`.
- A failed transmission leaves the send block in `uip_packet`
  (`ClientSockets.ClientSockets.NetworkSend`), and the next packet received or sent overwrites
  that handle (`UIPEthernet.cpp:186`, `303`, `UIPClient.cpp:439`): the block is then lost, allocated
  for ever and held by no one who could free it. `ClientSockets.ClientSockets.SendAndReceive`
  says exactly when, and `ClientSockets.ClientSockets.Tick` counts them.

## Conditions

- Blocks have at least one byte; size 0 marks a free slot (`utility/mempool.cpp:100`).
- Neither stream of a connection reaches 2^32 bytes, and both ends open the connection
  once: the engine tells positions apart only modulo 2^32
  (`TcpNetwork.AcceptedModulo`), and nothing in it bounds the life of a segment.
- "Handed up" means passed to the callback with new data. The engine advances `rcv_nxt`
  before the callback stores the bytes (`utility/uip.c:1604-1607`), so bytes the socket finds
  no memory for are acknowledged and lost, and bytes after a local close are accepted
  and dropped.
- `Write` is one pass of the writing loop; the configured retries go on without end
  while nothing frees memory (`utility/uipethernet-conf.h:16`). It is taken on user data in
  use, which the guard at `UIPClient.cpp:178` does not test.
- A segment's mss option and the new estimate of the retransmission timeout are given as
  values.

## Model

| member | source | states |
|---|---|---|
| PoolTable.Ordered | utility/mempool.cpp:44-68 | the list from slot 0 never returns to a block, and blocks later in it lie at higher addresses |
| PoolTable.Disjoint | utility/mempool.cpp:44-68 | distinct blocks occupy disjoint ranges inside the pool |
| PoolTable.UsedAgrees | utility/mempool.cpp:75-90 | the space in use along the list is the sum of the live blocks' sizes, whatever the order of the handles |
| PoolTable.GapWithinFree | utility/mempool.cpp:47-57 | no gap is negative in 16 bits or larger than all the free space |
| PoolTable.PackedEnd | utility/mempool.cpp:75-90 | without gaps before it the last gap is all the free space |
| PoolTable.InsertKeeps | utility/mempool.cpp:105-113 | linking a free slot into a gap that fits keeps the list ordered, disjoint and complete |
| PoolTable.RemoveKeeps | utility/mempool.cpp:130-140 | unlinking a block keeps the list ordered, disjoint and complete |
| PoolTable.RebindKeeps | utility/mempool.cpp:148-162 | so does re-bounding a block that stays clear of its neighbours |
| ChipMemory.BlockMove | utility/Enc28J60Network.cpp:356-406 | the ascending copy moves exactly the source bytes, even onto an overlapping lower range, and changes nothing else |
| PacketPool.SlideKeeps | utility/mempool.cpp:77-87 | moving one block down against its predecessor keeps every block's bytes and the list |
| PacketPool.LiveUpdate | utility/Enc28J60Network.cpp:301-313 | bytes stored inside one block change that block only |
| PacketPool.MemoryPool.constructor | utility/mempool.cpp:27-34 | an initialised pool is well-formed and holds no block |
| PacketPool.MemoryPool.FindGap | utility/mempool.cpp:39-68 | finds a smallest gap that fits exactly if there is one that fits |
| PacketPool.MemoryPool.Compact | utility/mempool.cpp:70-93 | afterwards all free space is one gap at the end; handles, sizes, order and bytes of all blocks are as before |
| PacketPool.MemoryPool.TakeSlot | utility/mempool.cpp:95-117 | the block goes to the first free slot, behind the chosen one; without a free slot nothing changes |
| PacketPool.MemoryPool.AllocBlock | utility/mempool.cpp:36-118 | succeeds exactly if a slot is free and the bytes in use plus the request fit the pool; the new block is the only change to the map of blocks; moves nothing if some gap fits, and takes a smallest one |
| PacketPool.MemoryPool.FreeBlock | utility/mempool.cpp:120-146 | removes exactly this block, and does nothing for a handle that holds none |
| PacketPool.MemoryPool.ResizeFrom | utility/mempool.cpp:148-154 | drops exactly the first bytes of the block |
| PacketPool.MemoryPool.Resize | utility/mempool.cpp:156-162 | the block keeps exactly the bytes of the given range |
| PacketPool.MemoryPool.BlockSize | utility/Enc28J60Network.cpp:210-214 | the number of bytes the handle holds, 0 for none |
| PacketPool.MemoryPool.ReadPacket | utility/Enc28J60Network.cpp:280-299 | returns the bytes at the position, clamped to the packet's end |
| PacketPool.MemoryPool.WritePacket | utility/Enc28J60Network.cpp:301-313 | stores as many bytes as the block has room for and changes no other block |
| PacketPool.MemoryPool.CopyPacket | utility/Enc28J60Network.cpp:344-354 | the destination holds the source's bytes at the position, and no other block changes |
| SocketModel.EatenBytes | UIPClient.cpp:412-418 | giving up the first block takes exactly its bytes off the front of the stream |
| SocketModel.SealedBytes | UIPClient.cpp:426-433 | cutting the only block off at its fill position loses no byte, and the block is then the chunk transmitted |
| SocketModel.WroteKeepsChunk | UIPClient.cpp:168-235 | no later write changes a block handed to transmission |
| SocketModel.FillLast | UIPClient.cpp:210-212 | storing behind the fill position appends to the stream exactly the bytes stored |
| SocketModel.AddBlock | UIPClient.cpp:183-197 | a fresh block behind a full one appends nothing yet |
| SocketModel.WroteTwice | UIPClient.cpp:210-227 | two writes append the concatenation of what each appends |
| Ownership.OneOwner | UIPClient.h:47-61 | every block of the pool is held by exactly one handle field, or is counted apart as lost |
| Ownership.Acquire | UIPClient.cpp:368-371 | a new block stored in an empty field has that owner and no other |
| Ownership.Release | UIPClient.cpp:507-536 | freeing the block of a cleared field leaves all others their owners |
| Ownership.MoveDown | UIPClient.cpp:523-527 | moving a queue down by one keeps every block owned once |
| Ownership.OthersKeep | UIPClient.cpp:329-478 | a change at one connection's block leaves every other connection's view as it was |
| SocketSteps.TakeIn | UIPClient.cpp:364-377 | a received block extends the incoming stream of its connection by its bytes, and only that |
| SocketSteps.EatFirst | UIPClient.cpp:507-536 | freeing the first block and moving up removes it from this queue only, and ownership stays exact |
| SocketSteps.FlushEnd | UIPClient.cpp:538-546 | after five steps the queue is empty, its blocks are freed and all else is as before |
| SocketSteps.LoseBlock | UIPEthernet.cpp:303 | when the handle of the send block is overwritten every block still has one owner, the lost one among them |
| ClientSockets.ClientSockets.constructor | UIPClient.cpp:37-48 | nothing is owned and every user data is unused |
| ClientSockets.ClientSockets.CurrentBlock | UIPClient.cpp:496-505 | the last occupied slot of a queue whose occupied slots come first, or slot 0 |
| ClientSockets.ClientSockets.Write | UIPClient.cpp:168-235 | appends exactly the bytes it reports, stops short only for lack of slots or memory and with the last block full, and returns -1 exactly once either side has closed |
| ClientSockets.ClientSockets.WriteBlock | UIPClient.cpp:184-227 | one turn of the loop appends exactly what it reports, goes on only with a fresh block, and leaves the last one full if bytes remain |
| ClientSockets.ClientSockets.Read | UIPClient.cpp:256-294 | returns as many bytes as asked for or as there are, equal to the front of the incoming stream, and leaves exactly the rest; asks for a restart exactly if it uses up a block of a stopped connection that is still open |
| ClientSockets.ClientSockets.ReadBlock | UIPClient.cpp:265-292 | takes the front of the first block, which goes exactly when it is used up |
| ClientSockets.ClientSockets.Stop | UIPClient.cpp:105-136 | frees the unread blocks; the user data are freed if the remote side has closed, else marked for closing |
| ClientSockets.FirstFree | UIPClient.cpp:480-494 | the first unused user data, and none exactly if all are in use |
| ClientSockets.ClientSockets.AllocateData | UIPClient.cpp:480-494 | hands out the first unused user data, which owned no block, set up afresh; fails exactly if all are in use |
| ClientSockets.ClientSockets.EatBlock | UIPClient.cpp:507-536 | removes exactly the first block of one queue |
| ClientSockets.ClientSockets.FlushBlocks | UIPClient.cpp:538-546 | frees every block of one queue and no other |
| ClientSockets.ClientSockets.StoreData | UIPClient.cpp:362-382 | stores the bytes exactly if a slot and memory are left; trying later slots never helps; stops the flow on the last slot or without memory |
| ClientSockets.ClientSockets.AllocSend | UIPClient.cpp:439 | there is no send block exactly if slots or memory are short; a send block held before is lost |
| ClientSockets.ClientSockets.TakePacket | UIPEthernet.cpp:186 | a received packet takes over the handle of the send block; a block it held is lost |
| ClientSockets.ClientSockets.Transmit | UIPClient.cpp:422-446 | seals the only block, copies the first one behind room for the headers, or leaves no send block for lack of memory; a send block held before is lost |
| ClientSockets.ClientSockets.Disconnect | UIPClient.cpp:388-411 | unsent blocks are freed, unread ones kept, the port overlay holds no handle, and the connection is cut loose |
| ClientSockets.ClientSockets.AppCall | UIPClient.cpp:329-478 | the whole callback: the view, the answer to the engine, and the send block after every combination of flags; a new connection is served exactly if some user data are unused |
| ClientSockets.ClientSockets.NetworkSend | UIPEthernet.cpp:283-319 | the frame is the header and the chunk, or the buffer; the send block is given back unless its transmission fails; one held before without being due is lost |
| ClientSockets.ClientSockets.CallAndSend | UIPEthernet.cpp:283-319 | what goes out after a callback that sends is the header and exactly the chunk; without memory for the chunk nothing does, but for a request for an unknown hardware address; a block is kept back exactly if the transmission of a send block fails |
| ClientSockets.ClientSockets.Tick | UIPEthernet.cpp:163-281 | after a turn as many more blocks are kept back as transmissions of a send block have failed |
| ClientSockets.ClientSockets.SendAndReceive | UIPEthernet.cpp:283-303 | by the time the next packet has been received a block is lost exactly if it was due and its transmission failed |
| ClientSockets.ClientSockets.NoneHeldBack | UIPClient.h:47-61 | every block of the pool is in some connection's queue exactly if none is kept back |
| Sequence.UipAdd32 | utility/uip.c:248-273 | the byte-wise sum with hand-made carries is addition modulo 2^32 |
| Sequence.WrapInjective | utility/uip.c:1409-1413 | within one cycle equal sequence numbers mean equal positions |
| TcpConnection.TcpConnection.AcceptAck | utility/uip.c:1422-1460 | accepts exactly the acknowledgement of all that is outstanding |
| TcpConnection.TcpConnection.AppSendPath | utility/uip.c:1648-1719 | the state, the segment and the bytes taken on after a callback |
| TcpConnection.TcpConnection.ProcessInput | utility/uip.c:1382-1786 | a segment has on the connection's fields the effect of the engine's function, which the network theorems speak of |
| TcpConnection.TcpConnection.ProcessEstablished | utility/uip.c:1548-1720 | data, FIN and window on an established connection |
| TcpConnection.TcpConnection.ProcessTimer | utility/uip.c:705-810 | the same for a tick: waiting, retransmission with backoff, giving up, poll |
| TcpConnection.TcpConnection.ProcessPoll | utility/uip.c:694-703 | the same for a poll |
| TcpTimers.ConnectSane | utility/uip.c:445-463 | a connection opened from here has one number outstanding and has retransmitted nothing |
| TcpTimers.AcceptSane | utility/uip.c:1268-1324 | so has one opened by the peer |
| TcpTimers.InputSane | utility/uip.c:1463-1786 | every segment keeps `len` at 1 in the SYN and FIN states and 0 after them, and `nrtx` within its limit |
| TcpTimers.TickSane | utility/uip.c:729-808 | so does every tick and every poll |
| TcpTimers.ClosesExactly | utility/uip.c:729-763 | without incoming segments a waiting connection gives up at exactly the tick its timer and count determine, and is then closed exactly if the last answer does not stop the flow |
| TcpTimers.LifetimeBound | utility/uip.c:729-763 | that is within 99 ticks after the timer when opening, 246 otherwise, and one turn of the 8-bit timer in the last states |
| TcpTimers.LifetimeExactly | utility/uip.c:729-763 | the lifetime in ticks: what is left of the wait, then 3, 6, 12, 24 and 48 ticks and one more each, at most five for a SYN and eight for all else; 120 in the final states |
| TcpTimers.RetransmitWaits | utility/uip.c:759-762 | the n-th retransmission starts a wait of 3 ticks doubled with each before it, at most four times |
| Lifetimes.TimedOutFlows | UIPClient.cpp:388-411 | the sockets' callback does not stop the flow when told of a timeout |
| Lifetimes.SilenceCloses | utility/uip.c:729-763 | over every run of two hosts a waiting connection that no segment reaches is closed, flags included, from the last tick of its lifetime on, and waiting before |
| TcpNetwork.AckSound | utility/uip.c:1422-1431 | an accepted acknowledgement means that the peer has accepted everything sent |
| TcpNetwork.SeqSound | utility/uip.c:1404-1416 | a segment not out of order is exactly the next stretch of the peer's stream |
| TcpNetwork.ReceiveEvolves | utility/uip.c:1382-1786 | a segment of the peer, old or new, moves an endpoint on without taking back anything said before |
| TcpNetwork.TickEvolves | utility/uip.c:705-810 | so does a tick |
| TcpNetwork.PollEvolves | utility/uip.c:694-703 | so does a poll |
| TcpNetwork.NextKeeps | utility/uip.c:1404-1786 | every event keeps the invariant: the receiver is at the sender's `snd_nxt` or past its outstanding segment, and every segment on the network is borne out by its sender's stream |
| TcpNetwork.InOrderDelivery | utility/uip.c:1404-1719 | over every run the bytes handed up are a prefix of those submitted, in both directions |
| TcpNetwork.OnlyOutstandingMissing | utility/uip.c:1422-1719 | while both ends are established only the outstanding segment may still be missing |
| TcpNetwork.SameBytesAgain | utility/uip.c:784-791 | over every run any two data segments for the same position carry the same bytes |
| TcpRun.Delivers | utility/uip.c:694-1786 | the system's conditions can be met: a run from the first SYN, with wrapping numbers, to data handed up and acknowledged |
| TcpNetwork.AcceptedModulo | utility/uip.c:1409-1413 | a data segment is taken as the next one exactly if its position is right modulo 2^32 |
| TcpAnswers.OldSegmentAnswered | utility/uip.c:1404-1416 | a segment from before what is accepted changes nothing, and is answered with the number expected next |
| TcpAnswers.LostAckMadeGood | utility/uip.c:1404-1416 | if only the acknowledgement was lost, the segment sent again is answered with one that the sender accepts |
| TcpAnswers.NewDataAnswered | utility/uip.c:1604-1719 | the next data of the stream are taken as a whole and acknowledged at once |
| TcpAnswers.DataRoundTrip | utility/uip.c:1404-1719 | if the outstanding segment arrives and its answer does, the sender has nothing outstanding, and the receiver has all |
| TcpAnswers.TimerSends | utility/uip.c:769-799 | at the end of a wait the SYN, the FIN or the data go out again, with the right numbers |
| TcpAnswers.GivenUpResets | utility/uip.c:736-756 | a connection given up resets its peer |
| TcpAnswers.AckRestartsTimer | utility/uip.c:1432-1460 | an acknowledgement starts the timer anew, and is measured only if nothing was sent twice |
| TcpAnswers.NewlySentWaits | utility/uip.c:1648-1698 | data or a FIN newly sent have the full lifetime before them |
| TcpAnswers.FinAnswerWaits | utility/uip.c:1560-1590 | a FIN is answered with one that has the full lifetime before it, and the data it came with are handed up |
| TcpAnswers.RefusedWith | utility/uip.c:1216-1263 | the reset that refuses a segment has the numbers its sender expects |
| TcpAnswers.ResetEnds | utility/uip.c:1389-1394 | a reset ends any connection, hands nothing up and is never answered |
| TcpAnswers.LingeringAnswers | utility/uip.c:1777-1778 | a connection in TIME_WAIT answers every segment in order or not, and does nothing else |
| TcpAnswers.OpeningRefused | utility/uip.c:1540-1546 | an opening connection that hears anything but its acknowledgement aborts and resets the sender |
| TcpAnswers.AbortResets | utility/uip.c:1654-1659 | a callback that aborts resets the peer |
| TcpAnswers.SizeAgreed | utility/uip.c:1611-1646 | no more is taken on at a time than the least of 512, the offer and the window |
| TcpAnswers.OfferTaken | utility/uip.c:1326-1359 | a passive open takes the mss of the SYN, at most 512, and without one keeps what the slot held |
| TcpAnswers.UnsizedSendsNothing | utility/uip.c:1611-1719 | with an mss of zero no step ever takes on a byte to send, nor changes that |
| TcpAnswers.WindowAnnounced | utility/uip.c:1819-1827 | a stopped connection announces a closed window and takes no data, any other an open one |
| TcpAnswers.ReopeningSent | utility/uip.h:610-612 | a restart goes out at once as an acknowledgement with the window open |
| TcpExchanges.OpensBothEnds | utility/uip.c:1268-1538 | SYN, SYN with acknowledgement, acknowledgement: from any two slots both ends are established and agree on all numbers |
| TcpExchanges.ClosesBothEnds | utility/uip.c:1560-1786 | FIN, FIN with acknowledgement, acknowledgement: the one end is closed and the other lingers |
| TcpExchanges.ClosesCrossing | utility/uip.c:1731-1786 | if both close at once both linger |
| TcpExchanges.HalfClosed | utility/uip.c:1731-1776 | an end whose FIN alone is acknowledged waits for the other's, acknowledging data in between |
| Delivery.AckedQueue | UIPClient.cpp:412-418 | an acknowledgement takes off the queue exactly the segment the engine has acknowledged |
| Delivery.SentQueue | UIPClient.cpp:419-446 | a first transmission turns the sealed first block into the outstanding segment |
| Delivery.ResentQueue | UIPClient.cpp:419-446 | a retransmission hands out the outstanding bytes again |
| Delivery.WrittenQueue | UIPClient.cpp:168-235 | writes go behind the outstanding segment and do not touch it |
| Delivery.AnswerFaithful | UIPClient.cpp:419-473 | with data outstanding the callback repeats them or sends nothing, and it closes only when all is acknowledged |
| Delivery.AnswerKind | UIPClient.cpp:388-473 | a callback told outside the established state that the peer has closed does not stop the flow |
| Delivery.ReceiveHost | UIPClient.cpp:329-478 | for every segment the sockets' callback meets the engine's conditions, and queue and engine agree afterwards |
| Delivery.TickHost | UIPClient.cpp:329-478 | the same for every tick |
| Delivery.ServedStep | UIPEthernet.cpp:163-281 | so each step of the engine with its sockets is a step of the two-ended system |
| Delivery.HostRunKeeps | UIPEthernet.cpp:163-281 | over every run of two hosts with writes, reads and stops in between the joint invariant holds |
| Delivery.HostsSameBytes | UIPClient.cpp:412-446 | over every run of two hosts any two data segments for the same position carry the same bytes |
| Delivery.HostRunSane | utility/uip.c:729-808 | over every run of two hosts every connection keeps `len` and `nrtx` as the lifetime theorem asks |
| Delivery.WrittenIsDelivered | UIPClient.cpp:168-235 | the bytes handed up on one host are the first ones written on the other |
| Delivery.FirstBlockInFlight | UIPClient.cpp:412-446 | with data outstanding the first block of the queue is the segment in flight and has its length |
| Delivery.ChunkGoesOut | UIPClient.cpp:419-446 | whatever chunk the callback hands out is sent at once and whole |
| Flows.ReadyIsSent | UIPClient.cpp:419-446 | with nothing outstanding whatever is written goes out with the next poll |
| Flows.OutstandingIsSentAgain | UIPClient.cpp:419-446 | at the end of each wait exactly the outstanding bytes go out again |
| Delivery.CloseAfterAll | UIPClient.cpp:449-473 | a local close sends its FIN only after every byte written has been acknowledged, and accepted by the peer |
| DeliveryRun.WrittenArrives | UIPEthernet.cpp:163-281 | the conditions on runs of hosts can be met: a byte written on one host is handed up on the other and waits to be read |
| Reading.InputKept | UIPClient.cpp:362-411 | a callback adds to the incoming stream exactly what it stores, even the last one |
| Reading.OutputKept | UIPClient.cpp:388-446 | it takes off the outgoing stream exactly what is acknowledged, unless the connection has ended |
| Reading.CutLoose | UIPClient.cpp:388-473 | user data cut loose are free exactly if nothing is left to read, else closed for writing; a close is complete exactly if nothing is left to send |
| Reading.RoomyCall | UIPClient.cpp:362-387 | it stops the flow exactly if it fills the last slot or finds no memory, and passes on a restart |
| Reading.RoomWhileOpen | UIPClient.cpp:371-381 | over every run a connection that takes data has a slot for them |
| Reading.ReadIsWritten | UIPClient.cpp:256-294 | over every run without data dropped for lack of memory the bytes read are the first ones written on the other host |
| Flows.RestartReopens | UIPClient.cpp:383-387 | a restart asked for goes out with the next poll and opens the window |
| Flows.DeafensExactly | UIPClient.cpp:362-381 | data that arrive leave the connection deaf exactly if there is no memory and nothing else to read |
| Flows.DeafForever | UIPClient.cpp:272-273 | over every run a deaf connection hands up nothing more as long as it is established |
| Flows.DeafHappens | UIPClient.cpp:380-381 | a run in which one byte arrives when there is no memory ends in the deaf state |
| Resets.ResetClosesExactly | UIPClient.cpp:449-473 | a reset leaves the connection closed exactly if no close waits for output |
| Resets.ResetHalts | utility/uip.c:1389-1394 | a reset that meets a close waiting for output leaves the connection closed and stopped, with what was outstanding |
| Resets.LateAckSticks | utility/uip.c:1422-1460 | a halted connection stays so whatever arrives, and a late acknowledgement of what is outstanding, or nothing else, leaves only the stuck state |
| ResetRun.StuckHappens | UIPClient.cpp:449-473 | a run of two hosts in which a byte is written, the connection stopped and a late reset arrives ends in the stuck state |
| Resets.StuckForever | UIPClient.cpp:449-473 | over every run of hosts such a connection with nothing outstanding stays as it is |
| SocketCalls.Call | UIPClient.cpp:329-478 | the callback on pool and handles gives one of the answers the two-ended system allows, and its send block holds the answer's data |
| SocketCalls.Write | UIPClient.cpp:168-235 | a write is the step of a host that writes the bytes reported, or changes nothing |
| SocketCalls.Read | UIPClient.cpp:256-294 | a read is the step of a host that reads |
| SocketCalls.Stop | UIPClient.cpp:105-136 | a stop is the step of a host that stops |
| ConnTable.AtMostOne | utility/uip.c:1187-1197 | no two connections in use match the same segment |
| ConnTable.CandidatesDiffer | utility/uip.c:411-418 | the port search does not repeat itself within a turn, also across the wrap |
| ConnTable.FewRefusals | utility/uip.c:420-427 | each connection turns down at most one candidate |
| ConnTable.ConnTable.FindPort | utility/uip.c:410-428 | ends at the first port no connection in use has, after at most one candidate more than there are connections |
| ConnTable.ConnTable.ChooseSlot | utility/uip.c:430-443 | the first closed slot, else the one longest in TIME_WAIT, else none |
| ConnTable.ChosenSpares | utility/uip.c:430-443 | only a connection in TIME_WAIT loses its slot, and of these the one that would have closed soonest |
| ConnTable.NoneChosen | utility/uip.c:430-443 | no slot is found exactly if all are in use and not in TIME_WAIT |
| ConnTable.ConnTable.Connect | utility/uip.c:406-468 | opens the chosen slot on an unused port, keeps all others, and keeps connections in use distinct |
| ConnTable.ConnTable.Demultiplex | utility/uip.c:1187-1197 | finds the one connection the segment belongs to exactly if there is one |
| ConnTable.ConnTable.NoConnection | utility/uip.c:1199-1324 | a SYN to a listening port opens the chosen slot and keeps connections in use distinct; anything else is refused |
| Checksum.FoldAddsCarries | UIPEthernet.cpp:349-378 | the sum mod 65535, with 0 only for 0, is what adding back carries until none is left comes to |
| Checksum.WordSumZero | UIPEthernet.cpp:349-378 | the sum is zero only for bytes that are all zero |
| Checksum.WordSumSplit | UIPEthernet.cpp:391-467 | at an even split the sums of the parts add up |
| Checksum.Chksum | UIPEthernet.cpp:349-378 | the loop over RAM adds the words of the stretch in one's complement to the sum it is given |
| Checksum.LoopEndsExactly | utility/Enc28J60Network.cpp:567-596 | with its counters of 16 bits the loop ends exactly if there is a byte to sum |
| Checksum.DeviceChksum | utility/Enc28J60Network.cpp:567-604 | so does the loop over chip memory, clamped to the packet; asked for is a byte to sum, without which it does not end |
| Checksum.IpChksum | UIPEthernet.cpp:382-388 | the header's sum in network order, with zero turned into 0xffff |
| Checksum.UpperLayerChksum | UIPEthernet.cpp:391-467 | pseudo header, header in RAM and payload on the chip come to the checksum of all those bytes in one pass, less the carry that is lost if the length wraps around |
| Checksum.ReceivedSumEndsExactly | UIPEthernet.cpp:405-460 | for every packet the engine has let through, the checksum ends exactly if not both the announced length is below 20 and the packet stops behind the header in RAM |
| Checksum.RuntNeverSummed | utility/uip.c:853-880 | a frame of 62 bytes with a correct IP header on which it does not end |
| Checksum.ReturnedAccepts | utility/uip.c:940-945 | the receive test passes exactly if the sum is 0 mod 65535 |
| Checksum.SealedPasses | utility/uip.c:1843-1862 | storing the complement over a zeroed aligned field makes the data pass the receive test, wherever the field sits |
| Checksum.FinishIp | utility/uip.c:1861-1862 | the IP header passes the receive test and no other byte changes |
| Checksum.FinishSegment | utility/uip.c:1161-1167 | the TCP or UDP segment passes the receive test, a UDP checksum is never zero, and no other byte changes |
| Checksum.EchoExact | utility/uip.c:996-1002 | the update of the checksum on the byte-swapped word makes up for the change of type exactly |
| Checksum.ReplyKeepsSums | utility/uip.c:994-1006 | for every message the reply's sum is that of the request mod 65535, and the swapped addresses leave the IP sum alone |
| Checksum.EchoReply | utility/uip.c:979-1006 | turns an echo request into its reply in place and drops anything else |
| Arp.ArpTable.Update | utility/uip_arp.c:157-218 | the mapping goes to its entry if that is found, else to the first free one, else to the first of the oldest; no other entry changes |
| Arp.ArpTable.FindOldest | utility/uip_arp.c:197-211 | the first entry of the greatest age above zero, ages being negative after the clock wraps, or else entry 0 |
| Arp.LeastRecentExactly | utility/uip_arp.c:187-211 | a mapping is thrown away only if no entry is free, and is the one longest known exactly if the clock has not wrapped around since any was learned |
| Arp.ArpTable.Timer | utility/uip_arp.c:141-155 | the clock goes on by one and exactly the entries past their age are cleared |
| Arp.ArpTable.Lookup | utility/uip_arp.c:380-385 | the first entry with the address, if any |
| Arp.SoundAlways | utility/uip_arp.c:157-218 | over every run a safe address has at most one entry, holding the hardware address most recently learned |
| Arp.SoundLookup | utility/uip_arp.c:380-385 | so a lookup that hits returns the hardware address most recently learned |
| Arp.ReliableExactly | utility/uip_arp.c:168-169 | that holds over all runs exactly for the safe addresses, and so does that every lookup that hits gives what was learned last |
| Arp.LearnedTwice | utility/uip_arp.c:168-192 | an address with one zero half can be learned into two entries, and a lookup then gives the older |
| Arp.UnlearnedHit | utility/uip_arp.c:380-385 | a lookup of the zero address hits a free entry |
| Arp.ForgottenExactly | utility/uip_arp.c:141-155 | an entry is cleared after 120 ticks exactly if the clock does not wrap around before, else never |
| Arp.LearnedStays | utility/uip_arp.c:141-155 | over every run a lookup finds a mapping just learned for 119 ticks, or for ever |
| Dns.BuildRequest | Dns.cpp:174-252 | writes the header and each non-empty part between dots with its length, then the zero length, type and class |
| Dns.RequestFields | Dns.cpp:174-252 | the fixed fields of the request: identity, recursion desired, one question, type A, class IN |
| Dns.RequestReadBack | Dns.cpp:214-252 | behind the header the labels of the host name are read back as far as type and class |
| Dns.LabelsOfJoined | Dns.cpp:214-237 | the parts between dots of a host name are the labels it is made of |
| Dns.QuestionNameSkipped | Dns.cpp:312-331 | the skip of the question consumes exactly the name as it is written |
| Dns.RequestedNameSkipped | Dns.cpp:215-331 | for every host name with labels of 1 to 255 bytes, as the request writes it |
| Dns.AnswerNameSkipped | Dns.cpp:345-381 | an answer's name is skipped exactly, whether it ends in a zero byte or a pointer |
| Dns.EndsExactly | Dns.cpp:316-331 | the skip of a question's name ends exactly if the packet holds the name's end, or nothing is left and the variable held zero before |
| Dns.CutShort | Dns.cpp:316-331 | on a response cut short within its question's first label nothing is ever returned |
| Dns.AnswerNameEnds | Dns.cpp:345-381 | the skip of an answer's name ends on every packet, after at most two passes more than there are bytes |
| Dns.FirstAddressFound | Dns.cpp:342-414 | among well-formed answers the first of type A and class IN decides |
| Dns.ResponseDecoded | Dns.cpp:279-415 | for every well-formed response the outcome is that record's address |
| Dns.RefusedExactly | Dns.cpp:258-310 | the exact condition on the bytes of each refusal, in the order of the tests |
| Dns.AddressOnlyIf | Dns.cpp:254-421 | an address comes only out of an unfailed response of the server with the request's identity |
| Dns.IdentityKept | Dns.cpp:197-291 | a response that begins with the request's first two bytes is not refused for its identity |
| Dns.Packet.ScanAnswers | Dns.cpp:342-414 | the loop over the answers ends on every packet with the outcome the scan function gives, for any uninitialised variables |
| Dns.Packet.ProcessResponse | Dns.cpp:254-421 | so has the whole of the response, with its checks of server, length, identity, flags and counts |

## Left out

- SPI transfers, register banks, the PHY, chip setup, clocks, delays and serial output: hardware; transmission is success or failure given from outside.
- The receive ring's wrap-around (`utility/Enc28J60Network.cpp:159`, `284`, `349`, `389`): a received packet is one stretch of memory below the pool.
- Option parsing: the 8-bit index can wrap, so it does not end for arbitrary options; the mss option is a field of the segment.
- Round-trip estimation: the new timeout is any byte.
- Urgent data, IP reassembly and IPv6.
- UDP sockets, DHCP, `UIPServer` and `uip_timer.c`: they add no property beyond the ones here.
- The reuse of one connection slot by later connections with the same peer and ports, in `TcpNetwork` and `Delivery`: each run is one connection.
- User data left attached to a connection that a reset has closed: the slot's next use would find it; `Delivery` follows it only to the closed state.
- ClientSockets.ClientSockets.Write: one pass without the loop that ticks and tries again.
- ClientSockets.ClientSockets.CallAndSend: begins with no send block marked as due. `Delivery.ChunkGoesOut` proves that each one is sent at once between two of these stacks; another stack's mss option of 0 could leave one behind.
- Delivery.ChunkGoesOut: both ends announce an mss of 512, as this stack does. With less, the engine would send less than the block it was handed.
- TcpNetwork.InOrderDelivery: asks of a callback that it repeats outstanding data or sends nothing, and does not stop the flow on being told that the opening of the connection has failed; `Delivery` proves both of the sockets' callback.
- Dns.Packet.ProcessResponse: requires that the skip of the questions ends, which `Dns.EndsExactly` says of each name; what variables hold before they are first read into is an input.
- Checksum.DeviceChksum: requires that the stretch begins before the packet's end. At the end it would not terminate, behind it the code sums memory that is not the packet's.
- Checksum.UpperLayerChksum: requires the same of the part on the chip, if any. For a received packet it holds if the IP header announces 20 bytes or more (`Checksum.ReceivedReadsOn`).
- The bytes of a segment beyond what the callback left in the send buffer are zeros in `TcpEngine.Payload`; the sockets never let that happen.
