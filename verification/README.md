# Verified core of a small ARM kernel and its network stack

This project models the parts of the kernel whose correctness rests on invariants over whole runs: the
socket layer's select and accept hand-offs, the connection layer's API messages, the Internet checksum, the
DNS resolver, the heap, the scheduler, the kernel log, the kernel timers and the Base64 coder. Each module
is one component.

| module | component | main results |
|---|---|---|
| `SelectWait` | select against event callbacks | no wake-up is lost in any interleaving within two guards |
| `AcceptHandoff` | early data events against accept | no receive event is lost or counted twice |
| `RecvStream` | reads on a TCP socket | reads and peeks deliver exactly the byte stream |
| `NetconnApi` | API messages against TCP callbacks | every message is acknowledged exactly once; writes have no gap or repeat |
| `Checksum` | Internet checksum | three versions and all chain forms equal the sum of RFC 1071 |
| `DnsName` | names and responses on the wire | questions are recognised; responses are read as laid out |
| `DnsTable` | query table and request table | every request is called back exactly once, in bounded time |
| `Allocator` | heap blocks and pages | nothing overlaps, nothing is lost |
| `Scheduler` | task table | the best task is chosen, fairly and in bounded time |
| `PrintkLog` | log ring and console flush | the console gets the log without its tags, across every wrap |
| `KernelTimer` | timer slots | a timer fires once, at the first poll at its time |
| `Base64` | encoder and decoder | when a text comes back, exactly |

Objects that the C code updates in place are classes (`TcpSocket`, `Connection`, `Resolver`, `Heap`, `Table`,
`Log`, `Timers`), whose methods keep the source's loops and branches and are proved against functions and
invariants. Interleavings of several threads (`SelectWait`, `AcceptHandoff`) are state machines, one step for
each stretch of code that runs without interruption, and the theorems hold for every sequence of steps. What
the environment answers (the state of TCP, memory shortage, the clock, random seeds, memory contents that the
code does not set) is a parameter.

`Basics` holds the few definitions that several modules share.

Several properties that one would expect do not hold of the code as it stands. For each there is a concrete
case and an exact condition:

- Two guards keep select free of lost wake-ups. No caller waits for a socket that `socket` or `accept` has not
  returned yet and asks for an event that its setup can still make appear: data, up to the hand-over of early
  events by `accept`, or room to write, up to the store in `alloc_socket`. And no socket has a 256th waiter, whose
  increment wraps the 8-bit counter. Exactly the steps within them keep the invariant
  (`SelectWait.StepKeepsIffGood`). A sleeper can sleep through what the rest of the setup makes appear
  exactly if that can be an event it asked for (`SelectWait.MissesSetupIff`); there are runs for each case (`SelectWait.EarlyEventLosesWakeup`,
  `SelectWait.PrematureCallerLosesWakeup`, `SelectWait.TooManyCallersLoseWakeups`).
- Data left over from a read makes a socket readable without any event, and no callback announces it. Within the
  guards, and once no callback is walking, such data is the only thing that a scan would count and a sleeper
  misses (`SelectWait.OnlyLeftDataHidden`, `SelectWait.LeftDataUnseen`).
- A close asked for while another is under way makes it possible to lose an acknowledgement for good. So would
  a delete whose close fails for memory while a non-blocking connect is under way. Exactly these two steps do
  (`NetconnApi.LosesIffBad`). The second close loses the first at once (`NetconnApi.SecondCloseDooms`); after the
  failed delete it takes an error of TCP (`NetconnApi.FailedDeleteDooms`). This TCP has a connecting pcb in
  SYN_SENT, where closing needs no memory, so that only the second close remains
  (`NetconnApi.LosesIffSecondClose`).
- The name comparison of the resolver accepts other names (`DnsName.WrongNameAccepted`): exactly those that agree
  with the query outside the separators, and so also every name that the query begins with
  (`DnsName.MatchIff`). The skipper of names gets behind every name but the bare root (`DnsName.SkipWireIff`).
- A heap request that is refused still moves the bump pointer. Repeated refusals take it past the end of the
  address space, and then a block outside the heap is handed out (`Allocator.AskUntilOutside`); a block lies
  within the heap exactly if that has not happened (`Allocator.Heap.Malloc`).
- A block larger than 2 MiB can cover the frame buffer (`Allocator.LargeBlockOverFrameBuffer`), exactly if it
  begins at or before it and ends behind it (`Allocator.CarveFacts`). Pages are not kept clear of it at all: they
  are exactly if the limits make them so (`Allocator.PagesClearIff`), and otherwise one in it is handed out
  (`Allocator.AskUntilFrameBuffer`).
- Freeing a block or a page twice makes its list a cycle; the heap stays in order exactly if it was in use
  (`Allocator.Heap.Free`, `Allocator.Heap.Pfree`). So it is with the start of the heap
  (`Allocator.Heap.constructor`).
- A task added to a full level is written behind its row; the table stays in order exactly if there was room
  (`Scheduler.Table.AddTask`).
- A level prefix of more than five characters stays on the console (`PrintkLog.LongTagExample`,
  `PrintkLog.ShownIff`), and flushing a full ring in one piece is right exactly if it starts at slot 0
  (`PrintkLog.WholeRingIff`).
- The Base64 encoder's buffer is too small for longer texts, the decoder asks for an impossible buffer for an
  empty one, and its block of four values is not set before its first use. A text comes back exactly if none of
  this hits it (`Base64.RoundTripIff`, `Base64.EmptyTextFails`, `Base64.LongTextOverruns`,
  `Base64.OneByteExample`). The block behind the buffer is larger, and is overrun exactly when the text exceeds
  three quarters of it (`Base64.BlockOverrunIff`).
- A timer or a sleeper looked at more than 2^31 units late is taken for one in the future
  (`KernelTimer.LatePolls`, `Scheduler.LateLook`), and the count of seconds is exact only until the tick counter
  wraps, and in part of its second turn (`KernelTimer.SecondsExactIff`).

## Model

| member | source | states |
|---|---|---|
| SelectWait.StepKeeps | net/api/sockets.c:1370-1685 | every step within the two guards, of a select caller, a callback, `alloc_socket` or the hand-over of a socket, keeps the invariant: counters, list membership and the cover of every sleeper by a walking callback |
| SelectWait.StepKeepsIffGood | net/api/sockets.c:1440-1461 | a step keeps the invariant if and only if it is within the guards, which shows before the step |
| SelectWait.BadRaiseBreaks | net/api/sockets.c:1446-1459 | a counter raised against a guard is wrong at once, or its caller waits for an event that comes unannounced |
| SelectWait.RunKeeps | net/api/sockets.c:1370-1685 | the invariant holds after every interleaving within the guards, of any number of callers and callbacks |
| SelectWait.ScanKeeps | net/api/sockets.c:1305-1368 | a scan that finds nothing leaves its caller covered for what happens afterwards |
| SelectWait.JoinKeeps | net/api/sockets.c:1425-1438 | entering the list restarts every walk, so a new waiter is seen |
| SelectWait.LeaveKeeps | net/api/sockets.c:1508-1522 | leaving the list restarts every walk, so nobody is skipped |
| SelectWait.RaiseKeeps | net/api/sockets.c:1440-1461 | raising the waiting counter of a socket with fewer than 255 waiters, from whose setup the caller has nothing to hope for, keeps the invariant |
| SelectWait.LowerKeeps | net/api/sockets.c:1487-1507 | lowering them again keeps the invariant |
| SelectWait.ApplyKeeps | net/api/sockets.c:1610-1637 | a callback that changes a socket's events starts a walk whenever somebody waits for the socket |
| SelectWait.VisitKeeps | net/api/sockets.c:1639-1684 | one turn of the walk, with the restart on the change counter, keeps the invariant |
| SelectWait.OpenKeeps | net/api/sockets.c:400-521 | neither the protected section of `alloc_socket`, nor any of its later stores, nor the hand-over of early events disturbs a waiter within the guards |
| SelectWait.NoLostWakeup | net/api/sockets.c:1425-1480 | in every interleaving within the guards, a sleeper that is not signalled although an event it asked for is pending has a callback for that socket walking the list with the sleeper still before it |
| SelectWait.QuietMeansServed | net/api/sockets.c:1610-1684 | when no callback is walking, no caller sleeps through a pending event it asked for, within the guards |
| SelectWait.CoverSignals | net/api/sockets.c:1645-1683 | such a walk signals the sleeper within one pass of the list |
| SelectWait.UncountedSleeperMisses | net/api/sockets.c:1633-1637 | whoever sleeps on a socket whose counter shows zero misses the next data event |
| SelectWait.PrematureSleeperMisses | net/api/sockets.c:415-422 | whoever sleeps on a socket within `alloc_socket` misses that it becomes writable |
| SelectWait.HandOverMisses | net/api/sockets.c:512-521 | whoever sleeps on a socket before its hand-over by `lwip_accept` misses the events that came early |
| SelectWait.MissesSetupIff | net/api/sockets.c:411-521 | a sleeper on a socket that is being set up can sleep through an event that appears in the course of it, if and only if a step is left that can make an event appear that it asked for |
| SelectWait.TooManyCallersLoseWakeups | net/api/sockets.c:1446-1459 | a run in which 256 callers sleep on one socket through data that arrives |
| SelectWait.PrematureCallerLosesWakeup | net/api/sockets.c:411-422 | a run in which a caller sleeps on a socket that has become writable while it was set up |
| SelectWait.EarlyEventLosesWakeup | net/api/sockets.c:503-521 | a run in which a caller sleeps on an accepted socket whose data came before the hand-over |
| SelectWait.OnlyLeftDataHidden | net/api/sockets.c:1331-1343 | after every interleaving within the guards, when no callback is walking, a socket that a scan would count for a sleeper is open, asked for reading and has data left over from a read, and the other way round |
| SelectWait.LeftDataUnseen | net/api/sockets.c:761-808 | a run in which a caller scans between the receive event of a read and the store of what is left, and sleeps |
| AcceptHandoff.ToS16Add | net/api/sockets.c:1581-1618 | 16-bit counter updates may be taken in any order |
| AcceptHandoff.StepKeeps | net/api/sockets.c:503-521 | every step of accept and of the callbacks keeps the event account |
| AcceptHandoff.RunKeeps | net/api/sockets.c:1581-1618 | the account holds after every interleaving |
| AcceptHandoff.CountIsExact | net/api/sockets.c:503-521 | the socket's count and the count kept in the negative number together are events received minus events consumed; in the 16-bit field exactly while the difference fits |
| AcceptHandoff.QuietCount | net/api/sockets.c:1581-1618 | with no callback under way, every event begun is counted exactly once |
| RecvStream.TcpSocket.Refill | net/api/sockets.c:760-809 | a saved remainder is used before a new buffer is fetched, and the reasons to stop are told apart |
| RecvStream.TcpSocket.TakePiece | net/api/sockets.c:816-909 | one turn hands out the next bytes and keeps exactly the rest, or everything when peeking |
| RecvStream.TcpSocket.Consume | net/api/sockets.c:889-909 | what was handed out is taken off the saved buffer, and the rest kept if there is any |
| RecvStream.TcpSocket.Turn | net/api/sockets.c:758-910 | one turn hands out at least what is saved or asked for, or says why there is nothing |
| RecvStream.TcpSocket.RecvLoop | net/api/sockets.c:758-910 | the loop delivers the next bytes of the stream in order |
| RecvStream.TcpSocket.Recv | net/api/sockets.c:741-914 | delivered bytes followed by the remainder are the concatenation of the buffers fetched, after any reads and peeks |
| RecvStream.TcpSocket.PeekThenRead | net/api/sockets.c:889-909 | a peek, waiting or not, consumes nothing and returns what the next read starts with |
| NetconnApi.Connection.constructor | net/api/api_msg.c:690-716 | a new connection has nothing parked and nothing unacknowledged |
| NetconnApi.Connection.TryWrite | net/api/api_msg.c:1508-1612 | the bytes offered, the new offset, the error and the length reported, for every answer of TCP |
| NetconnApi.Connection.DoWriteMore | net/api/api_msg.c:1491-1635 | the whole connection after an attempt: finished and signalled, or further on with the same message parked |
| NetconnApi.Connection.DoCloseInternal | net/api/api_msg.c:819-1003 | one attempt to close: success, abort when no poll is left, another error, or waiting, with the callback pointers set back and restored |
| NetconnApi.Connection.SetBack | net/api/api_msg.c:854-873 | before closing, the pointers for the directions shut down are set back |
| NetconnApi.Connection.Restore | net/api/api_msg.c:986-998 | while waiting they are set again |
| NetconnApi.Connection.FinishClose | net/api/api_msg.c:955-985 | an ended close releases the connection and tells its caller |
| NetconnApi.Connection.DoWrite | net/api/api_msg.c:1645-1692 | a write is refused or parked and attempted, by state and last error |
| NetconnApi.Connection.DoClose | net/api/api_msg.c:1768-1837 | a close is refused, or parked and attempted |
| NetconnApi.Connection.DoDelete | net/api/api_msg.c:1013-1105 | a delete is refused, answered at once, or parked and attempted |
| NetconnApi.Connection.DoConnect | net/api/api_msg.c:1206-1267 | a connect is refused, answered as in progress, or parked |
| NetconnApi.Connection.DoListen | net/api/api_msg.c:1301-1375 | listening is entered, repeated or refused; without a mailbox the pcb is gone |
| NetconnApi.Connection.SentTcp | net/api/api_msg.c:342-366 | a parked write or close is taken up again |
| NetconnApi.Connection.PollTcp | net/api/api_msg.c:301-332 | the same, with one poll used up for a close |
| NetconnApi.Connection.TcpError | net/api/api_msg.c:376-441 | the pcb is gone, the error kept, and the waiting caller told |
| NetconnApi.Connection.DoConnected | net/api/api_msg.c:1156-1195 | the connect ends and a blocking caller is told |
| NetconnApi.Connection.Dispatch | net/api/api_msg.c:301-1837 | each handler and callback is the step of the state machine, and keeps every message accounted for exactly if the step is good |
| NetconnApi.AttemptOk | net/api/api_msg.c:1528-1611 | after each attempt the bytes handed to TCP are exactly those before the offset |
| NetconnApi.WriteMoreKeeps | net/api/api_msg.c:1491-1635 | a write attempt keeps the invariant, finished or not |
| NetconnApi.CloseKeeps | net/api/api_msg.c:819-1003 | so does an attempt to close; whatever has a pcb afterwards is called back by it |
| NetconnApi.ErrKeeps | net/api/api_msg.c:376-441 | an error of TCP answers the parked message, and only that one |
| NetconnApi.ConnectedKeeps | net/api/api_msg.c:1156-1195 | so does an established connection |
| NetconnApi.GoodStepKeeps | net/api/api_msg.c:301-1837 | every good step keeps the invariant |
| NetconnApi.BadStepBreaks | net/api/api_msg.c:1813-1816 | a second close, or a delete whose close fails for memory during a non-blocking connect, breaks the invariant |
| NetconnApi.SecondCloseLoses | net/api/api_msg.c:1813-1816 | right after a second close the first is neither acknowledged nor worked on |
| NetconnApi.StepKeepsIffGood | net/api/api_msg.c:1038-1074 | a step keeps the invariant if and only if it is good, which shows before the step |
| NetconnApi.LosesIffBad | net/api/api_msg.c:301-1837 | from a state in which every message is accounted for, a step makes it possible that good steps leave some message unacknowledged in every further run, if and only if it is one of the two bad ones |
| NetconnApi.LosesIffSecondClose | net/core/tcp.c:264-457 | with a TCP that has a connecting pcb in SYN_SENT, if and only if it is a second close |
| NetconnApi.SecondCloseDooms | net/api/api_msg.c:1813-1816 | the close parked first is acknowledged in no further run |
| NetconnApi.FailedDeleteDooms | net/api/api_msg.c:376-441 | after a delete whose close fails for memory during a non-blocking connect, an error of TCP leaves it unacknowledged in every further run |
| NetconnApi.ForgottenForever | net/api/api_msg.c:301-1837 | a message that is neither acknowledged nor worked on stays so in every run |
| NetconnApi.NothingLost | net/api/api_msg.c:301-1837 | while the invariant holds every message has been acknowledged or can still be, by a callback that is set in the pcb |
| NetconnApi.StepTouches | net/api/api_msg.c:301-1837 | a step acknowledges at most one message, the one worked on or a new one |
| NetconnApi.AcknowledgedOnce | net/api/api_msg.c:301-1837 | after every good run each message was acknowledged exactly once, except the parked one; one is parked exactly during a write, a close or a blocking connect |
| NetconnApi.WritesReportTheirBytes | net/api/api_msg.c:1567-1628 | for all send-buffer sizes and results, a write's pieces are a prefix of its data without gap or repeat; without error their length is reported, and a blocking write reports all |
| NetconnApi.ClosingStep | net/api/api_msg.c:308-317 | while a close is parked each step acknowledges it, or leaves it parked with one poll less for each poll |
| NetconnApi.CloseFinishes | net/api/api_msg.c:920-949 | a close that keeps failing for memory is acknowledged after at most as many polls as it was given, whatever happens in between |
| Checksum.InetSumIsOc | net/core/inet_chksum.c:79-114 | the reference sum is the end-around-carry value of the plain word sum |
| Checksum.WordSumConcat | net/core/inet_chksum.c:567-589 | bytes after an odd prefix count with swapped bytes, as in section 2 of RFC 1071 |
| Checksum.BigEndianIsSwapped | net/core/inet_chksum.c:79-114 | summing in the other byte order swaps the result |
| Checksum.WordSumBound | net/core/inet_chksum.c:132-173 | no 32-bit accumulator loses a carry up to 0x20000 bytes |
| Checksum.OddStart | net/core/inet_chksum.c:188-255 | an odd start address with the final swap gives the plain sum |
| Checksum.FoldTwice | net/include/lwip/inet_chksum.h:46-53 | two folds give the 16-bit end-around-carry value of any 32-bit sum |
| Checksum.SwapOc | net/include/lwip/inet_chksum.h:46-53 | swapping the bytes multiplies the value by 256 |
| Checksum.Chksum1 | net/core/inet_chksum.c:79-114 | the octet-pair version returns the reference sum |
| Checksum.Chksum2 | net/core/inet_chksum.c:132-173 | the aligned version returns it for every start address |
| Checksum.AddWithCarry | net/core/inet_chksum.c:213-222 | a 32-bit addition with the carry put back keeps the value |
| Checksum.Chksum3 | net/core/inet_chksum.c:188-255 | the unrolled version returns it for every start address and length |
| Checksum.VersionsAgree | net/core/inet_chksum.c:79-255 | the three versions agree, and the sum is 0 for all-zero data only |
| Checksum.ChainTurn | net/core/inet_chksum.c:266-279 | one piece added to a running sum, swapped after odd pieces |
| Checksum.SumChain | net/core/inet_chksum.c:259-294 | the loop over the pieces gives the sum over the flattened bytes |
| Checksum.ChksumPbuf | net/core/inet_chksum.c:567-589 | the chain checksum is that of the flattened bytes, for every split |
| Checksum.PseudoHeaderSum | net/core/inet_chksum.c:309-327 | adding addresses, protocol and length as words is summing the 12 pseudo-header bytes of section 3.1 of RFC 793 |
| Checksum.ChksumPseudo | net/core/inet_chksum.c:309-327 | the pseudo-header form is the sum over header and payload |
| Checksum.SumPrefix | net/core/inet_chksum.c:398-440 | exactly the first bytes asked for count, although the parity test looks at the whole last piece |
| Checksum.ChksumPseudoPartial | net/core/inet_chksum.c:455-473 | the partial form is the sum over header and that prefix |
| DnsName.EncodeLength | net/core/dns.c:764-765 | an encoded name is two bytes longer than the host name |
| DnsName.WriteQuestion | net/core/dns.c:764-801 | for every name, the question fills its packet exactly: header, encoded name, type and class, in an array written in place |
| DnsName.PutName | net/core/dns.c:775-792 | the label loop writes the encoding of the whole name |
| DnsName.CompareName | net/core/dns.c:651-688 | the loop computes the matcher for every packet and name |
| DnsName.SkipName | net/core/dns.c:698-726 | the loop computes where a name on the wire ends, in 16-bit arithmetic, or that it does not |
| DnsName.MatchIff | net/core/dns.c:651-688 | an encoded name is accepted exactly if it agrees with the query outside the separators, and the matcher then stops just behind it |
| DnsName.SkipEncoded | net/core/dns.c:698-726 | the skipper stops just behind every encoded name |
| DnsName.SkipWireIff | net/core/dns.c:698-726 | it stops just behind a name of labels that ends with the root or a pointer, if and only if the name is not the bare root |
| DnsName.QuestionAccepted | net/core/dns.c:764-801 | in a packet with the question for a name, matcher and skipper both stop just behind it |
| DnsName.WrongNameAccepted | net/core/dns.c:656-686 | the name a.b is accepted for axb |
| DnsName.ReadAnswers | net/core/dns.c:1214-1273 | the answer loop finds the first usable address record |
| DnsName.ReadResponse | net/core/dns.c:1133-1305 | a packet is classified as ignored, failed or answered, branch by branch |
| DnsName.AnswersRead | net/core/dns.c:1214-1273 | for every list of resource records, with plain or compressed names and whatever follows them, the first address record of the Internet class counts, and there is no address if there is none |
| DnsName.ReplyUnderstood | net/core/dns.c:1133-1305 | every reply to a well-formed name gives its first address and the time to live, or none if it carries an error code |
| DnsTable.DeliverOne | net/core/dns.c:923-977 | calling a request back and freeing it keeps the account of requests |
| DnsTable.AcceptOne | net/core/dns.c:1402-1417 | accepting a request keeps the account |
| DnsTable.TicksBound | net/core/dns.c:113-116 | with four retries a server is asked for at most seven ticks |
| DnsTable.MaxLeftBound | net/core/dns.c:113-116 | the time left of a query is bounded by seven ticks for each server, whatever the servers are set to |
| DnsTable.TickStep | net/core/dns.c:1034-1066 | each tick takes one off the time left, over countdown, retries and servers |
| DnsTable.AskedAgain | net/core/dns.c:1034-1066 | a query whose packet is due goes on with one tick less, or ends because its server is not configured any more |
| DnsTable.FewIds | net/core/dns.c:986-998 | the table has fewer ids in use than there are ids |
| DnsTable.Resolver.constructor | net/core/dns.c:318-360 | an empty resolver keeps the law |
| DnsTable.Resolver.SetServer | net/core/dns.c:363-373 | a server may be changed at any time |
| DnsTable.Resolver.CallFound | net/core/dns.c:923-977 | every request of the entry is called back once and freed, no other is touched |
| DnsTable.Resolver.End | net/core/dns.c:1101-1128 | a query that ends has called back everybody who shares it |
| DnsTable.Resolver.Send | net/core/dns.c:735-840 | a packet goes to a configured server, at most four for each |
| DnsTable.Resolver.CreateTxid | net/core/dns.c:981-999 | the search for an id ends and finds one that no other query uses |
| DnsTable.Resolver.Countdown | net/core/dns.c:1034-1066 | the countdown never passes zero, and a query goes to the next server or ends |
| DnsTable.Resolver.CheckEntry | net/core/dns.c:1011-1082 | one entry's tick, in each state |
| DnsTable.Resolver.Tick | net/core/dns.c:1087-1095 | one tick of the whole table keeps the law |
| DnsTable.Resolver.TickAll | net/core/dns.c:1011-1095 | under ticks alone a query is still asked after n ticks if and only if its lifetime is longer: all its retries, or up to the next one if its server is not configured any more |
| DnsTable.Resolver.RunOps | net/core/dns.c:1011-1445 | in any run of ticks, requests, packets and changes of servers with at least seven ticks for each server, every request accepted before it has been called back exactly once |
| DnsTable.Resolver.Do | net/core/dns.c:1011-1445 | every operation leaves older requests where they are and never gives an older query more time; a tick takes one off |
| DnsTable.AllCalled | net/core/dns.c:1034-1066 | past the bound no older request waits any more |
| DnsTable.Resolver.FindEntry | net/core/dns.c:1356-1386 | a free entry or the oldest answer is chosen, never one being asked |
| DnsTable.Resolver.Enqueue | net/core/dns.c:1317-1445 | a request is accepted as a whole, sharing a query for the same name or with its own, or not at all |
| DnsTable.Resolver.AskAnew | net/core/dns.c:1388-1441 | a new query takes a free entry and request slot, gets an id of its own and is sent at once |
| DnsTable.Resolver.Recv | net/core/dns.c:1133-1305 | a packet changes at most the one query with its id, and ends it as the packet says: everybody who waits for it is called with the address, or with none |
| Allocator.BucketFacts | env/lib/alloc.c:200-216 | the bucket chosen is the smallest that is large enough; there is one up to 64 MiB |
| Allocator.FindBucket | env/lib/alloc.c:200-208 | the search of malloc finds that bucket |
| Allocator.BucketOfSize | env/lib/alloc.c:274-290 | the search of free finds the bucket of exactly the block's size |
| Allocator.CarveFacts | env/lib/alloc.c:233-242 | a carved block lies behind all earlier ones, aligned, and clear of the frame buffer exactly if it does not straddle it |
| Allocator.SmallNeverStraddles | env/lib/alloc.c:237-242 | blocks of up to 2 MiB never do |
| Allocator.LargeBlockOverFrameBuffer | env/lib/alloc.c:237-242 | on a fresh heap a 64 MiB and an 8 MiB request give a block within the heap that covers the frame buffer |
| Allocator.CarveWraps | env/lib/alloc.c:235-248 | past the end of the address space the pointer comes back below every limit |
| Allocator.TakeBlock | env/lib/alloc.c:223-229 | reusing a free block keeps all lists acyclic, of one size and complete |
| Allocator.PushBlock | env/lib/alloc.c:274-290 | so does freeing a block |
| Allocator.DoubleFree | env/lib/alloc.c:274-290 | freeing a free block makes links that are those of no list |
| Allocator.DoublePfree | env/lib/alloc.c:431-436 | so does freeing a free page |
| Allocator.AddBlock | env/lib/alloc.c:233-253 | so does carving one, and it overlaps no other |
| Allocator.SkipBlock | env/lib/alloc.c:244-248 | and a refused request, which moves the pointer all the same |
| Allocator.SplitFacts | env/lib/alloc.c:154-169 | the share of the blocks stays within the heap although its product may overflow, and pages begin behind it |
| Allocator.LimitsFacts | env/lib/alloc.c:139-170 | the clamped end of the heap, the end of the blocks and the first page, for every start and size within the address space |
| Allocator.WrappedLimits | env/lib/alloc.c:139-170 | the same for sizes beyond it |
| Allocator.PagesClearIff | env/lib/alloc.c:403-419 | the pages that can be handed out are clear of the frame buffer if and only if they begin behind it or the limit comes before the first that reaches into it |
| Allocator.PageInUseClear | env/lib/alloc.c:389-420 | so it is with the pages in use |
| Allocator.AskUntilFrameBuffer | env/lib/alloc.c:403-419 | otherwise asking for pages leads to one in the frame buffer |
| Allocator.Heap.constructor | env/lib/alloc.c:139-186 | the heap starts empty within its clamped limits, for every 32-bit start and size; in order exactly if its start is aligned, outside the frame buffer and below the end of memory, and a size that wraps does not take the blocks beyond it |
| Allocator.Heap.Reuse | env/lib/alloc.c:223-229 | the most recently freed block of the bucket is taken |
| Allocator.Heap.CarveBlock | env/lib/alloc.c:230-253 | a new block, refused exactly if it exceeds the limit, or one beyond the heap exactly if the pointer wraps |
| Allocator.Heap.Malloc | env/lib/alloc.c:188-262 | a block newly in use, aligned, large enough, clear of the frame buffer up to 2 MiB, and within the heap exactly unless the pointer wrapped |
| Allocator.Heap.Free | env/lib/alloc.c:264-291 | the block is out of use and first in the list of its size; the heap stays in order exactly if the block was in use, for otherwise the list is a cycle |
| Allocator.Heap.Palloc | env/lib/alloc.c:389-420 | a page newly in use, aligned, behind all blocks, and within the limit exactly unless the pointer wrapped |
| Allocator.Heap.Pfree | env/lib/alloc.c:422-439 | the page is out of use and first in the list, which stays a list exactly if the page was in use |
| Allocator.BlocksNeverOverlap | env/lib/alloc.c:188-291 | two blocks never overlap, headers included, in use or free |
| Allocator.BlocksBeforePages | env/lib/alloc.c:139-186 | a block in use lies within the limits and before every page |
| Allocator.PagesNeverOverlap | env/lib/alloc.c:389-439 | two pages never overlap, in use or free |
| Allocator.FreeThenMalloc | env/lib/alloc.c:188-291 | freeing a block and asking for as much again gives the same block and the same heap |
| Allocator.AskUntilOutside | env/lib/alloc.c:235-248 | refused requests lead to a block outside the heap |
| Scheduler.SleepIsExact | env/lib/scheduler.c:386-393 | a sleeper may run exactly from its time on, across wraps of the clock |
| Scheduler.LateLook | env/lib/scheduler.c:388-391 | and is seen so exactly up to 2^31 microseconds later |
| Scheduler.SleepPieces | env/lib/scheduler.c:198-210 | a long sleep is cut into pieces that do not overflow and add up |
| Scheduler.Nearer | env/lib/scheduler.c:359-371 | passing over a ready slot brings it nearer |
| Scheduler.Fair | env/lib/scheduler.c:359-371 | in any sequence of picks in turn, a slot that is never skipped is picked within as many picks as there are slots |
| Scheduler.FairPicks | env/lib/scheduler.c:79-96 | repeated runs of the selection loop, with arbitrary changes of the other tasks between them: a task that stays ready at a level whose slots stay, with nothing to run above, is chosen within as many picks as its level has slots |
| Scheduler.QuietLevel | env/lib/scheduler.c:364-406 | a level searched in vain holds no task that could run |
| Scheduler.Table.constructor | env/lib/scheduler.c:36-43 | the table starts empty and in order |
| Scheduler.Table.AddTask | env/lib/scheduler.c:243-270 | a task gets the first empty slot of its level; without one it is written behind the row, and the table stays in order exactly if there was room |
| Scheduler.Table.RemoveTask | env/lib/scheduler.c:273-296 | its slot is empty again and the table stays in order |
| Scheduler.Table.UsSleep | env/lib/scheduler.c:221-241 | the running task sleeps and could run again exactly from the time asked for |
| Scheduler.Table.SearchLevel | env/lib/scheduler.c:356-406 | the first slot in turn that can run is chosen, or a terminated task deleted, or there is neither |
| Scheduler.Table.GetNextTask | env/lib/scheduler.c:345-410 | the task chosen can run, is next in turn, and no higher level has one that can |
| Scheduler.Table.Select | env/lib/scheduler.c:79-96 | once some task can run the loop ends, after at most one search more than there are terminated tasks, with a runnable task of the highest level that has one, the next in turn there; only terminated tasks are gone |
| PrintkLog.LogPrefix | env/lib/printk.c:194-240 | a prefix found is a bracketed piece at the start of the text, with a level below 8 or a special character if asked for |
| PrintkLog.TagIsStripped | env/lib/printk.c:403-418 | a prefix of up to five characters that vprintk accepted is recognised again by the flush |
| PrintkLog.LongTagStays | env/lib/printk.c:403-418 | a longer one is not |
| PrintkLog.ShowLines | env/lib/printk.c:395-441 | the flush takes exactly the tags out of a message's lines, whatever follows them |
| PrintkLog.ShowLongLines | env/lib/printk.c:395-441 | with a longer prefix it takes nothing out |
| PrintkLog.ShowMessage | env/lib/printk.c:311-361 | what the flush makes of a logged message is what is to be shown, and it ends where the log ends |
| PrintkLog.ShowsTogether | env/lib/printk.c:443-460 | stretches of the log may be flushed together or one after the other |
| PrintkLog.ShownIff | env/lib/printk.c:403-418 | this holds exactly for prefixes of up to five characters, or without text |
| PrintkLog.LongTagExample | env/lib/printk.c:403-418 | a prefix of seven characters stays on the console |
| PrintkLog.MessageFits | env/lib/printk.c:286-361 | one message adds less than the ring holds |
| PrintkLog.Distance | env/lib/printk.c:186-189 | wrapped index differences are the true ones |
| PrintkLog.EmitHolds | env/lib/printk.c:182-192 | one more character keeps the last characters in the ring |
| PrintkLog.WholeRingIff | env/lib/printk.c:381-393 | a full ring sent in one piece is right exactly from slot 0 |
| PrintkLog.Log.constructor | env/lib/printk.c:44-56 | log and console start empty and in step |
| PrintkLog.Log.EmitLogChar | env/lib/printk.c:182-192 | the ring holds the last min(written, size) characters, and the indices are the true ones modulo 2^32 |
| PrintkLog.Log.SendPieces | env/lib/printk.c:381-393 | the stretch asked for is sent, in two pieces round the end; a full unaligned ring is sent wrongly |
| PrintkLog.Log.SendLine | env/lib/printk.c:419-438 | a line is sent as soon as its end is found |
| PrintkLog.Log.TakeTag | env/lib/printk.c:403-418 | a recognisable tag at a line start is skipped |
| PrintkLog.Log.CallConsoleDrivers | env/lib/printk.c:395-441 | a stretch shorter than the ring is sent without the tags at its line starts, wherever it wraps |
| PrintkLog.Log.ConsoleUnlock | env/lib/printk.c:443-480 | everything logged since the last flush is sent |
| PrintkLog.Log.CopyBody | env/lib/printk.c:311-361 | every line of the text is logged behind its tag and time stamp |
| PrintkLog.Log.LogMessage | env/lib/printk.c:286-361 | the log grows by the message, with a line break before it if it has to begin a line |
| PrintkLog.Log.Vprintk | env/lib/printk.c:242-373 | the log grows by the tagged message; the console, if it can be had, by everything that waited and the message, without the tags |
| PrintkLog.PrintRun | env/lib/printk.c:242-480 | over any run of messages, whenever the console can be had, it receives the log in order, once each, without the tags, as long as the text that waits does not fill the ring |
| PrintkLog.LockedKeepsUp | env/lib/printk.c:363-366 | with the console always to be had the text that waits never fills the ring |
| KernelTimer.ElapsedIsExact | env/lib/timer.c:255-256 | the signed comparison is exact within 2^31 ticks, across wraps |
| KernelTimer.LatePolls | env/lib/timer.c:255-256 | past its time a timer is seen as elapsed exactly up to 2^31 ticks later |
| KernelTimer.SecondsExactIff | env/lib/timer.c:274-277 | the seconds are never behind, and exact exactly until the tick counter wraps and in part of its second turn |
| KernelTimer.Timers.constructor | env/lib/timer.c:61-64 | all slots start free |
| KernelTimer.Timers.StartTimer | env/lib/timer.c:157-189 | a free slot is armed for the true deadline, or all slots are taken |
| KernelTimer.Timers.CancelTimer | env/lib/timer.c:191-197 | the timer in the slot, and no other, is cancelled |
| KernelTimer.Timers.MoveTimer | env/lib/timer.c:199-205 | the timer in the slot, and no other, gets a new deadline |
| KernelTimer.Timers.Perform | env/lib/timer.c:157-205 | whatever a handler does, timers it does not touch keep their fate |
| KernelTimer.Timers.Poll | env/lib/timer.c:240-264 | every untouched timer fires in the poll exactly if its time has come, while handlers start, cancel and move timers, at each call as they like |
| KernelTimer.Timers.Tick | env/lib/timer.c:274-277 | a tick keeps the counter, the seconds and the timers in step with the true time |
| KernelTimer.Timers.Interrupt | env/lib/timer.c:266-281 | one tick, the count of seconds, and one poll |
| KernelTimer.RunSteps | env/lib/timer.c:240-264 | in any run an untouched timer fires at the first poll at its time, not before and not again |
| KernelTimer.StartAndRun | env/lib/timer.c:157-264 | the same for a timer started with a delay below 2^31 |
| KernelTimer.NoTimerLost | env/lib/timer.c:157-264 | every timer started is pending in its own slot, was called exactly once, or was cancelled |
| Base64.Encode | net/apps/http_string.c:263-300 | the loops give the group-wise encoding in a buffer of the size asked for, write past its end exactly if the encoding and its NUL do not fit, and through null if the heap gives none |
| Base64.Append | net/apps/http_string.c:257-257 | a block goes behind the text in the buffer, within it exactly if there is room for the block and a NUL |
| Base64.TakeGroup | net/apps/http_string.c:274-283 | up to three bytes are taken, and zeros for missing ones |
| Base64.FitsIff | net/apps/http_string.c:265-265 | the buffer is large enough exactly up to 141 bytes and for 143, 144 and 147 |
| Base64.LongTextOverruns | net/apps/http_string.c:265-286 | a text of 142 bytes is the shortest that is written past the end |
| Base64.BlockOverrunIff | net/apps/http_string.c:265-286 | for every length the block that really serves the request is large enough exactly up to three quarters of its size, and always up to 765 bytes |
| Base64.EveryBlockOverruns | net/apps/http_string.c:265-286 | every block of 1 KiB and more is given for texts that do not fit it |
| Base64.EncodedLength | net/apps/http_string.c:272-288 | four characters for every started group of three bytes |
| Base64.EncodedAlphabet | net/apps/http_string.c:247-258 | only the alphabet of section 4 of RFC 4648, and padding in the last two places only |
| Base64.Decode | net/apps/http_string.c:202-243 | the loop gives the decoding for every content of the unset block, in a buffer that is always large enough, and writes through null for an empty source |
| Base64.DecodeRequestFacts | net/apps/http_string.c:204-209 | an empty source asks for more than the heap ever gives, any other for enough |
| Base64.EmptyTextFails | net/apps/http_string.c:204-209 | the empty text does not survive the round trip |
| Base64.FullGroup | net/apps/http_string.c:189-197 | a full group decodes to its three bytes whatever the block held |
| Base64.OneByte | net/apps/http_string.c:214-218 | a single byte comes back exactly if the block's third value is below 4 |
| Base64.TwoBytes | net/apps/http_string.c:214-218 | two bytes come back exactly if its fourth value is 0 |
| Base64.RoundTripIff | net/apps/http_string.c:189-300 | a text comes back exactly if it is not empty, fits the encoder's buffer, the unset block is harmless for it and the heap has room |
| Base64.TextBackIff | net/apps/http_string.c:189-288 | as far as the characters go, exactly unless it has one or two bytes and the block holds other values |
| Base64.RoundTrip | net/apps/http_string.c:202-300 | the same for the two methods |
| Base64.OneByteExample | net/apps/http_string.c:207-218 | a byte that does not come back |
| Base64.OthersIgnored | net/apps/http_string.c:219-230 | characters outside the alphabet make no difference |

## Left out

- SelectWait.RunKeeps: the change counter of the waiter list is unbounded in the model, the list is a sequence and the descriptor sets are sets; a socket is closed only by somebody it was given to.
- SelectWait.BadRaiseBreaks: not every step against a guard ends in a lost wake-up, for the caller may find another event first; the lost wake-ups are stated for sleepers and shown in three runs.
- AcceptHandoff.StepKeeps: the two threads are a state machine over uninterrupted stretches; update in place is not visible in it.
- RecvStream.TcpSocket.Recv: the datagram branch, the sender's address and errno are not modelled.
- NetconnApi.Connection.Dispatch: select events, mailbox draining, UDP and RAW connections, full duplex mode, core locking, send timeout and linger are not modelled; TCP's state and the answers of its functions other than `tcp_close` and `tcp_shutdown` are parameters; TCP reports errors only for a pcb it still has, and an established connection only while connecting.
- Checksum.ChksumPbuf: the IPv6 forms and negative lengths are not modelled.
- Checksum.ChksumPseudoPartial: the debugging assertion on the length at line 416 is not modelled.
- DnsTable.Resolver.CallFound: a callback that itself starts a query is not modelled.
- DnsTable.Resolver.Send: source ports, the multicast and IPv6 branches and local host lists are not modelled; whether memory for a packet can be had is a parameter.
- Allocator.Heap.Malloc: an uninitialised heap, interrupts and the DMA allocator, which repeats the algorithm, are not modelled; programs are taken to write only within their own blocks.
- Allocator.Heap.Free: an address that was never handed out is excluded, for what lies before it is unknown; the same holds for Allocator.Heap.Pfree.
- Scheduler.Table.Select: the task switch, and the debugging assertion at line 90, which fails when the only task of a level has just been deleted, are not modelled; if no task can ever run again the loop does not end, which is excluded.
- PrintkLog.Log.Vprintk: formatting, the text of the time stamp (any text that begins with a bracket, has no line break and at most 50 characters), locking and recursion are not modelled.
- PrintkLog.Log.ConsoleUnlock: what is sent is stated for less than a whole ring; the ring has then lost text, and a single line that fills it is covered by PrintkLog.WholeRingIff.
- PrintkLog.PrintRun: messages with a prefix of more than five characters are left to PrintkLog.ShownIff and PrintkLog.Log.Vprintk, for what the console makes of them depends on where a flush ends.
- KernelTimer.Timers.Poll: a handler is the sequence of timer operations it performs at a call; ticks do not pass during a poll.
- Base64.Encode: the heap's further failures are a parameter; texts are no longer than the memory of the board.
- Device drivers, cache maintenance, context switching and boot code: they depend on the hardware.
- TCP, UDP, packet buffers, mailboxes and semaphores: they appear only through their results.
- Socket options, address conversion, DHCP, ping and multicast DNS: tables of cases and message formats without state that one operation hands to the next.
- HTTP request building, string replacement and display code: each formats its arguments into a buffer and keeps nothing between calls.
