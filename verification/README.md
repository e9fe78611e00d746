# NetPIPE, modelled and proved in Dafny

NetPIPE measures a network by sending messages of growing size back and forth. This project models the
code that is NetPIPE's own: the ping-pong session over TCP, the shift-register test pattern and its
checker, the schedule of message sizes, and the one-sided protocols of the shared-memory, ARMCI and
InfiniBand modules.

| files | what they hold |
|---|---|
| `Session`, `SessionProof`, `SessionTheorems`, `Capacity`, `EndToEnd` | transmitter and receiver as two processes over two bounded byte streams that split writes and reads anywhere |
| `Tcp`, `TcpStreams`, `Traffic`, `ReadOrder`, `WithArguments` | the same calls as imperative code over buffers and a socket, the lemmas joining the two views, the order of reads and writes, and what happens to a receiver given arguments |
| `Lfsr`, `Galois`, `LfsrPeriod`, `Lfsr32Period`, `Factors`, `Pattern` | the registers, their algebra and periods, and the loops that fill and check buffers |
| `Schedule`, `MainLoop` | the sizes, the loop they replace, repetition counts and termination |
| `LastByte`, `LastByteTheorems`, `LastByteStarts` | the receiver that spins on the last byte of a remotely written buffer |
| `Registry`, `Ring` | ARMCI's list of allocations, buffer alignment and advancing, and the address of a one-sided send |
| `Handoff`, `Mailbox` | the InfiniBand completion flag; the one-slot mailbox for times and counts |
| `Bytes`, `Numbers`, `Options`, `Roles` | shared vocabulary |

Concurrent protocols are state machines: a move is one transfer, one landed byte or one poll that
succeeds, and the theorems quantify over every sequence of moves. Code that runs alone is a method with
loops over real buffers, proved against a function whose properties are lemmas.

Where the code and its comments disagree the model follows the code:

- Zero bytes are common in the pattern: the comment at `src/netpipe.c:568` holds for whole words
  (`Lfsr.IterZero`) and fails for the last byte of each of them (`Pattern.WordEndsInZero`). That line
  leaves the polling of `src/shmem.c` stuck in cache mode, and line 576 leaves it stuck for every whole
  number of words otherwise (`LastByteStarts.ShmemCacheNow`, `ShmemNoCacheNow`). `src/gpshmem.c` polls a
  buffer of its own that those lines do not touch.
- In cache mode the data check expects a pattern that was never written (`EndToEnd.CacheAlwaysReported`).
- A size of zero ends the receiver but not the transmitter (`SessionTheorems.StuckIsFinal`).
- A receiver given arguments skips the header that is sent all the same. Whatever the arguments and the
  header, it dies in Sync or loses framing in one direction (`WithArguments.ArgumentsLoseFraming`).
- `pertFunc` carries the accumulated perturbation through a list that has two names; the model keeps
  that order of assignment.
- The quoted NetPIPE 3 loop is an inner loop. The model supplies the outer `len += inc; nq++` around it
  and starts from `len = 1`, `inc = 1`, `nq = 0` with a perturbation of 3.
- Outside preburst mode the InfiniBand flag stays set between the ping-pongs of a call, because
  `PrepareToReceive` runs once a call (`Handoff.NoneTwiceExact`), and its reset at the next call does not
  repair that (`Handoff.StaleReleased`).

## Model

| member | source | states |
|---|---|---|
| `SessionTheorems.Framing` | src/netpipe.c:31-117 | In every reachable state of transmitter and argument-less receiver, over any number of calls and any fragmentation, bytes written are bytes read followed by bytes in flight, both histories are prefixes of the streams the calls lay down, and Sync never meets a wrong string |
| `SessionTheorems.StuckIsFinal` | src/netpipe.c:31-117 | With at least 6 bytes of capacity each way a state that cannot move is final: every call is done if and only if no size is zero; otherwise the receiver has left and the transmitter waits in Sync for ever |
| `SessionTheorems.RunsEnd` | src/tcp.c:201-246 | Every run can be continued to a stopped state, within the number of bytes still to be moved |
| `Capacity.TooSmall` | src/tcp.c:176-191 | With less than 6 bytes of room no run of a session with anything to do gets to its first data message |
| `Capacity.SixBytes` | src/tcp.c:176-246 | So 6 bytes each way are necessary and sufficient for a run to end properly, and for every stopped run to have |
| `SessionTheorems.EmptyBetweenCalls` | src/netpipe.c:84-124 | When both sides have the same calls behind them nothing is in flight in either direction |
| `SessionTheorems.CheckedBuffers` | src/netpipe.c:84-124 | The buffer each finished call hands to its check is the peer's data of that very call, or with a count of zero the initial contents |
| `SessionTheorems.SyncRefuses` | src/tcp.c:186-190 | An answer makes a process give up if and only if it is not "SyncMe" |
| `SessionTheorems.CacheEcho` | src/netpipe.c:60-117 | Cache mode: whatever the buffers held, after one repetition or more both nodes hold the transmitter's initial buffer, which itself is the same at every boundary |
| `WithArguments.ArgumentsFailSync` | src/netpipe.c:31-46 | A receiver given arguments, whatever they are, dies in Sync on the transmitter's stream, if and only if that call's header is not the one size and upper half of a count that spell "SyncMe" |
| `WithArguments.ArgumentsFraming` | src/netpipe.c:31-117 | For any arguments that get past Sync: reading stays framed if and only if they count eight bytes more than the transmitter's call, or at least that many in the last call; writing if and only if they count exactly the transmitter's |
| `WithArguments.ArgumentsLoseFraming` | src/netpipe.c:31-117 | So no arguments and no header keep both directions: the call dies in Sync or leaves one of them in the wrong place |
| `WithArguments.OwnArguments` | src/netpipe.c:31-117 | Past Sync with the transmitter's own arguments, the last eight bytes of the data are still ahead of the next call's header |
| `WithArguments.HeaderReadAsSync` | src/netpipe.c:31-46 | Which headers begin with the string: one size and one upper half of the count |
| `SessionProof.StepKeeps` | src/netpipe.c:31-124 | Every partial write or read of any length keeps the session invariant and lowers the bytes to come by exactly its length |
| `SessionProof.ReachableInv` | src/netpipe.c:31-124 | What a side has still to read is what is in flight to it followed by what its peer has still to write, in every reachable state |
| `SessionProof.WriteKeeps` | src/tcp.c:201-220 | A write of any k bytes takes them from the front of the bytes to be written and leaves the incoming stream alone |
| `SessionProof.ReadKeeps` | src/tcp.c:222-246 | A read of any length takes its bytes from the front of the bytes to be read and leaves the outgoing stream alone |
| `EndToEnd.NoCacheClean` | src/netpipe.c:48-124 | Default mode, all sizes, counts and fragmentations: on both nodes the check after a call is silent if and only if the count was at least one |
| `EndToEnd.CacheAlwaysReported` | src/netpipe.c:556-585 | Cache mode: the buffer only ever held seed 'a' data, so the seed 'b' check reports after every call, on both nodes |
| `EndToEnd.EverySessionClean` | src/netpipe.c:22-136 | With positive sizes and counts every run reaches the end of all calls on both sides with no check having reported anything |
| `Session.BufflenRounds` | src/netpipe.c:48-49 | The length in bytes is the size in bits rounded up |
| `EndToEnd.InitFillBytes` | src/netpipe.c:556-577 | Every byte of both buffers: seed 'a' to receive into, seed 'b' to send, and in cache mode one seed 'a' buffer with a zero last |
| `Tcp.Socket.ReadFully` | src/tcp.c:159-174 | The loop over short reads yields exactly the next len bytes, or all there were before end of file |
| `Tcp.Socket.Sync` | src/tcp.c:176-191 | Sends its own string, then reads, and succeeds exactly when the next six bytes are that string; each byte read is recorded with what was written by then |
| `Tcp.Socket.SendRepeat` | src/tcp.c:294-306 | Appends the count's four bytes in network order |
| `Tcp.Socket.RecvRepeat` | src/tcp.c:308-328 | Takes the next four bytes and converts them back; fails only on a short stream |
| `Tcp.Endpoint.SendData` | src/tcp.c:201-220 | Whatever each write accepts, the whole send buffer is appended to the stream, once |
| `Tcp.Endpoint.RecvData` | src/tcp.c:222-246 | Whatever each read returns, the receive buffer gets the next bytes in order; end of file leaves the rest of it as it was |
| `Tcp.ReceivedBytes` | src/tcp.c:222-246 | Byte by byte: what arrived, and beyond the end of the stream what was there |
| `Tcp.Endpoint.Prepare` | src/netpipe.c:48-71 | Allocation, the aliasing of cache mode and the initial patterns |
| `Tcp.Endpoint.Repeat` | src/netpipe.c:84-117 | The timed loop performs exactly the ping-pong of the specification, with both buffers, both streams and the order of its reads and writes |
| `Tcp.Endpoint.Run` | src/netpipe.c:22-136 | The whole call: arguments or header, exit on size zero, Sync and loop, as one function of the two streams and of how much was written at each byte read |
| `TcpStreams.TransmitterCall` | src/netpipe.c:43-124 | Run against the receiver's bytes of a call, any size included, the transmitter's code takes exactly those, writes exactly its own bytes of that call, and ends with the check's reports on the peer's data; after a size of zero it dies in Sync once the receiver is gone |
| `TcpStreams.ReceiverCall` | src/netpipe.c:31-124 | Run against the transmitter's bytes, the receiver learns size and count from them, produces exactly its own side and the check's reports; a size of zero makes it leave with the transmitter's "SyncMe" unread |
| `Traffic.CallBytes` | src/netpipe.c:43-117 | A call of positive size puts header and string on the forward stream, the string on the backward one, and on each as many messages as its count, of its size rounded up to bytes |
| `ReadOrder.TransmitterOrder` | src/netpipe.c:81-97 | No byte of the peer's string is asked for before the own header and string are written, and none of reply j before the own messages 0 to j |
| `ReadOrder.ReceiverOrder` | src/netpipe.c:31-103 | The header is asked for at once, the string after the own one, and no byte of message j before the replies to the j earlier ones |
| `ReadOrder.NeverBothWait` | src/netpipe.c:22-136 | The two sequential programs, each reading what the other writes, never both wait for a byte the other has not written |
| `TcpStreams.WholeSession` | src/netpipe.c:22-136 | For any calls, the two sequential programs fit together: the transmitter fed the receiver's output writes the stream that makes the receiver produce that output, and every call on both sides ends as expected |
| `TcpStreams.ExpectedReports` | src/netpipe.c:556-585 | A finished call reports nothing, on either side, if and only if the mode is the default one and the count is positive |
| `Bytes.NtohlHtonl` | src/tcp.c:298-327 | A count survives the trip through network order |
| `Bytes.HtonlNtohl` | src/tcp.c:313-325 | Every four bytes are the encoding of the count they decode to |
| `Lfsr.StepBijective` | src/netpipe.c:484-506 | lfsr23 on 23-bit states and lfsr32 on all 32-bit ones are bijections with explicit inverses, and only zero leads to zero |
| `Lfsr.StepLinear` | src/netpipe.c:484-506 | Either register is linear over GF(2) |
| `Lfsr.IterInjective` | src/netpipe.c:484-506 | Two runs of a register that agree after k calls started alike |
| `Lfsr.IterZero` | src/netpipe.c:484-506 | A seed leads to zero after any number of calls if and only if it is zero, which is what the comment at line 568 says of whole words |
| `Galois.Annihilate` | src/netpipe.c:484-506 | For either register the feedback cancels the top bit shifted out, on every state: its characteristic polynomial annihilates all states |
| `LfsrPeriod.CommentPolynomial23` | src/netpipe.c:500-506 | That polynomial is the comment's x^23 + x^5 + 1, in the register's inverse map |
| `Lfsr32Period.CommentPolynomial32` | src/netpipe.c:484-489 | For lfsr32 it is the comment's x^32 + x^31 + x^29 + x + 1 |
| `Galois.MulAssoc` | src/netpipe.c:484-506 | Polynomials in the inverse map compose by multiplication modulo the characteristic polynomial, for either register |
| `LfsrPeriod.FixedByPeriod` | src/netpipe.c:500-506 | Every 23-bit seed returns after 2^23 - 1 calls |
| `LfsrPeriod.LeastPeriod23` | src/netpipe.c:500-506 | A nonzero 23-bit seed returns after k calls if and only if k is a multiple of 2^23 - 1 |
| `Lfsr32Period.LeastPeriod32` | src/netpipe.c:484-489 | A nonzero seed of lfsr32 returns after k calls if and only if k is a multiple of 2^32 - 1 |
| `Factors.FactorPrime` | src/netpipe.c:500-506 | 178481, the large factor of the shorter period, has no proper factor |
| `Factors.OnlyOne` | src/netpipe.c:484-489 | A cofactor of 2^32 - 1 that none of 3, 5, 17, 257 and 65537 divides is one |
| `Pattern.Register.Set` | src/netpipe.c:508-524 | Fills the first n bytes, whole words and tail, with the pattern of the seed and touches nothing else |
| `Pattern.Register.Check` | src/netpipe.c:526-552 | Reports exactly the offsets at which words, then tail bytes, differ from what the seed would have been used to write, in order |
| `Pattern.ReportsExact` | src/netpipe.c:526-552 | An offset is reported if and only if it starts a differing whole word or is a differing tail byte; each once, ascending |
| `Pattern.SilentIffEqual` | src/netpipe.c:508-552 | The check is silent exactly on what lfsrset would write |
| `Pattern.ChangeReported` | src/netpipe.c:526-552 | Any changed byte is reported, at its word or at itself |
| `Pattern.StaleWordReported` | src/netpipe.c:500-585 | A whole word left over from another seed's pattern is reported, at any position and length |
| `Pattern.WordEndsInZero` | src/netpipe.c:500-568 | The last byte of every whole word is zero, against the comment that zero is never produced |
| `Pattern.FirstWords` | src/netpipe.c:508-524 | The first eight bytes of the seed 'b' pattern, literally |
| `Schedule.SameSizes` | NPtcp-local:39-85 | The m-th size of the rewritten loop is eight times the m-th of the nested NetPIPE 3 loop it quotes, for every m, and neither sequence ends |
| `Schedule.ClosedForm` | NPtcp-local:122-142 | All state of the loop in closed form after 5 + 2t and 6 + 2t trips |
| `Schedule.ClosedTriples` | NPtcp-local:39-85 | The three sizes of trips 5 + 2t and 6 + 2t as powers of two, for every t |
| `Schedule.ReferenceClosed` | NPtcp-local:62-76 | The quoted loop doubles its block every two trips by way of three halves |
| `Schedule.Alignment` | NPtcp-local:122-169 | Seven trips of the quoted loop are two sizes short of three of the other's, and so they stay two apart for ever |
| `Schedule.SizesRise` | NPmpi_atoa:179-235 | The sizes are positive, whole bytes and strictly increasing over the whole sequence |
| `Schedule.ListedSizes` | dox/README:358-367 | The sequence begins with the ten sizes of the documented listing |
| `MainLoop.IterFuncExact` | NPtcp-local:87-94 | The count is at least TRIALS and either TRIALS or the largest within RUNTM at the last time per byte |
| `MainLoop.DivisionByZero` | NPtcp-local:87-94 | The function fails exactly for a last time of zero |
| `MainLoop.SampleCounts` | NPtcp-local:87-130 | The count for the first estimate, and the floor of TRIALS, literally |
| `MainLoop.Trials` | NPtcp-local:144-157 | The time kept is one of the three measured and the least of them |
| `MainLoop.Transmit` | NPtcp-local:119-169 | For any positive STOPTM, if every measured time is at least size divided by some rate the main loop ends; its sizes are the schedule's; its counts are iterFunc's, the first from an old size of 8; each line was measured three times with its own size and count and has the least time; it begins if the estimate is positive and below STOPTM and stops after the first trip that ends at STOPTM or later |
| `MainLoop.StopsBy` | NPtcp-local:131-169 | No trip follows the one whose size, 2^(t+9) bits, takes STOPTM at that rate |
| `MainLoop.NestedLoop` | NPtcp-local:62-76 | The quoted nested loop, with its perturbation loop, produces the reference sizes |
| `LastByte.InitialInv` | src/gpshmem.c:122-129 | Armed buffers establish the protocol's invariant |
| `LastByte.SendKeeps` | src/gpshmem.c:46-52 | A send keeps it |
| `LastByte.DeliverKeeps` | src/gpshmem.c:46-65 | Each single byte of a put that lands keeps it, partial messages included |
| `LastByte.ExitKeeps` | src/gpshmem.c:54-65 | Ending the spin and rewriting the last byte keeps it |
| `LastByte.FlipFlop` | src/shmem.c:129-155 | The two blocks are crossed so that one side's send block is at the address of the other's receive block |
| `LastByteTheorems.InvSafe` | src/gpshmem.c:46-65 | A spin can end only on the whole next message with nothing in flight, and a put begins only when all earlier ones were consumed |
| `LastByteTheorems.InvProgress` | src/shmem.c:54-71 | Nothing can move if and only if every repetition is complete on both sides |
| `LastByteTheorems.ArmedIsExact` | src/shmem.c:54-71 | Every run is safe and every stopped run complete if and only if the last bytes start out armed, for any protocol whose awaited and reset bytes fit together |
| `LastByteTheorems.RunsEnd` | src/shmem.c:54-71 | Whatever the initial bytes, a run has at most 2 * reps * (n + 2) moves |
| `LastByteTheorems.RoundRestores` | src/shmem.c:62-71 | After each full round trip every last byte holds what its side resets to or its peer awaits, and the buffers are armed again |
| `LastByteTheorems.MessagesFixed` | src/shmem.c:54-71 | Every message taken is its peer's one message, and a shared transmitter buffer returns to its first contents each round |
| `LastByteStarts.GpshmemCorrect` | src/gpshmem.c:46-129 | With the byte MyMalloc stores, gpshmem is safe and completes, for every size and count |
| `LastByteStarts.ShmemCacheDocumented` | src/netpipe.c:561-567 | With the documented 'a' + tr, shmem's cache mode is safe and completes |
| `LastByteStarts.ShmemNoCacheDocumented` | src/netpipe.c:570-576 | With the documented 'a' to receive and 'b' to send, its other mode is safe and completes |
| `LastByteStarts.GpshmemReturns` | src/gpshmem.c:54-129 | From the bytes MyMalloc stores, after each full round both last bytes are as they were |
| `LastByteStarts.ShmemCacheReturns` | src/shmem.c:62-71 | The same from the documented start in cache mode |
| `LastByteStarts.ShmemNoCacheReturns` | src/shmem.c:62-71 | The same, for all four buffers, from the documented start of the other mode |
| `LastByteStarts.ShmemCacheNow` | src/netpipe.c:556-568 | With the buffer InitBufferData leaves now, a zero last, no run of any length has the first message consumed |
| `LastByteStarts.ShmemNoCacheNow` | src/netpipe.c:556-576 | With the buffers it leaves now, a size works if and only if the last byte of the seed 'b' pattern is the awaited one and that of seed 'a' is not: never for whole words or for one byte |
| `Registry.First` | src/armci.c:36-60 | The position of the first entry with a pointer, or none |
| `Registry.Registry.LinkFront` | src/armci.c:29-33 | The node becomes the head of the chain of the same nodes |
| `Registry.Registry.Find` | src/armci.c:36-60 | Gives the first matching node and its true predecessor; only a list that is not empty makes an unknown pointer fatal |
| `Registry.Registry.Unlink` | src/armci.c:63-71 | Removes that node alone and keeps the order of the rest, the chain staying acyclic |
| `Registry.Registry.Malloc` | src/armci.c:75-88 | Puts the new entry in front and returns this side's pointer |
| `Registry.Registry.Free` | src/armci.c:91-100 | Removes the first match; nothing on an empty list; fatal, and unchanged, otherwise |
| `Registry.Registry.RemotePtr` | src/armci.c:103-113 | The other side's pointer of the first match, null on an empty list, fatal otherwise |
| `Registry.FirstIsTable` | src/armci.c:36-60 | The list search finds exactly what a most-recent-first map holds, even if a pointer occurs twice |
| `Registry.LookupsExact` | src/armci.c:91-113 | remote_ptr and armci_free in terms of that map: null and no effect on an empty list, the end of the program exactly for a pointer another list lacks, otherwise the other side's pointer |
| `Registry.FreeTable` | src/armci.c:91-100 | With distinct live pointers freeing removes one key and no other and keeps them distinct |
| `Registry.SameLists` | src/armci.c:75-100 | Two processing elements making the same calls hold the same list, whichever address each searches by: the live allocations, most recent first |
| `Registry.MapRefinement` | src/armci.c:75-100 | Over any sequence of calls none fails and the list represents the most-recent-first map that went through the same calls |
| `Registry.RemoteInverse` | src/armci.c:103-113 | remote_ptr on one side undoes remote_ptr on the other for every live allocation |
| `Ring.AlignBufferMultiple` | src/netpipe.c:431-438 | Without a boundary the address itself, otherwise the first multiple of it strictly above |
| `Ring.Pointers.AdvanceSendPtr` | src/netpipe.c:440-451 | One step of the ring for the send pointer, nothing else changed |
| `Ring.Pointers.AdvanceRecvPtr` | src/netpipe.c:453-464 | The same for the receive pointer |
| `Ring.Pointers.AdvanceBoth` | src/netpipe.c:112-115 | The pair of advances keeps both pointers at the same slot |
| `Ring.Pointers.Target` | src/armci.c:259-269 | The address SendData computes, from the registry lookup, or the fatal error |
| `Ring.BlocksFit` | src/netpipe.c:440-464 | A round has as many blocks as fit below the end of the ten million bytes |
| `Ring.Slot` | src/netpipe.c:440-464 | After k advances of a block b the offset is b * (k mod P), P = (MEMSIZE - 1) / b, with the block inside the buffer |
| `Ring.SlotsReused` | src/netpipe.c:440-464 | Two offsets agree if and only if the numbers of advances differ by a multiple of P: every slot is used before one is reused |
| `Ring.TargetIsPeerPointer` | src/armci.c:259-370 | After the same allocations, any alignment on each side, the offset exchange and k advances each, the address written to is exactly the peer's receive pointer |
| `Handoff.Conservation` | src/ib.c:495-533 | Preburst mode, any number of run_iters calls, every interleaving: completions polled are those consumed plus the flag plus the one the handler holds |
| `Handoff.PrepareDropsNothing` | src/ib.c:608-616 | Preburst mode: when PrepareToReceive resets the flag everything sent so far has been consumed, so the reset loses nothing |
| `Handoff.StuckIsDone` | src/ib.c:715-737 | Preburst mode: a run stops only when every call is over and every completion has been consumed |
| `Handoff.NoneTwiceExact` | src/ib.c:715-737 | No completion is consumed twice in any run, over any number of calls, if and only if preburst is on or no call repeats more than once |
| `Handoff.StaleReleased` | src/ib.c:523-616 | Otherwise the reset of the next PrepareToReceive releases a waiting handler, and that call's first RecvData can return with the completion of the call before |
| `Mailbox.Faithful` | src/shmem.c:73-112 | Sends and receives of times and counts alternating, either direction, any interleaving: each receive takes the value sent last, from the cell it was put to |
| `Mailbox.QuietOrMoving` | src/gpshmem.c:67-109 | Once every send is answered both flags are back at the neighbour's number, and until then a step other than a new send is possible |
| `Mailbox.AlternationIsExact` | src/shmem.c:73-112 | After any alternating run, a side with nothing open or inbound can send any one value more without a continuation losing one if and only if all earlier sends were answered |
| `Mailbox.BackToBackLoses` | src/netpipe.c:43-46 | Of any two values sent in a row, as size and count are, one can go unreceived; through the same cell the receiver takes the second for the first and waits with nothing left to arrive |

## Left out

- Connection setup, MPI, PVM, GM, LAPI, TCGMSG and collective modules, command line and Python glue: foreign calls or no property of their own.
- `lfsr58`: its mask lies above the 32-bit register and its comment says it needs rework.
- `src/ibv.c` and the variants in `src/mpi2.c`: the protocols of `src/ib.c` and `src/shmem.c` again.
- I/O errors and end of file in the state machine: transfers succeed there. `Tcp` does model end of file on reads.
- A closed connection in the state machine: when a size of zero has made the receiver exit, `Session` leaves the transmitter waiting. `TcpStreams` has it meet the end of the stream and die.
- Wall-clock time and floating-point rounding: times are arbitrary reals, so counts and stopping follow the exact quotient.
- Running out of memory: allocation succeeds.
- Message sizes of zero bytes in the one-sided modules, which would index before the buffer.
- EndToEnd.InitFill: over TCP in cache mode a size of zero makes `src/netpipe.c:568` store one byte before the buffer; the model stores nothing, and the abandoned end of a cache-mode session rests on that.
- Tcp.Endpoint.Prepare: leaves out the same store before an empty buffer.
- Byte order of the host: words lie in memory least significant byte first.
- Timing columns, output files and the UDP reporting of `NPmpi_atoa`. Its main loop is the one modelled, with STOPTM equal to RUNTM and with its own first estimate, which is zero for one process and then makes the count undefined.
- The advances of `s_ptr` and `r_ptr` are compiled out of the loop at this commit; `Ring` proves what they would do, and the session keeps both pointers at their buffers.
- The polling methods of `src/gpshmem.c`, `src/shmem.c`, `src/armci.c` and `src/ib.c` are moves of a state machine rather than methods: their point is interleaving with the peer, and a spin that finds nothing is no move.
- `src/gpshmem.c` names a buffer field that `ArgStruct` no longer has; the model takes the file as written.
- Tcp.Socket.SendRepeat: assumes that a 4-byte control message is written whole, as the source does.
- Tcp.Socket.Sync: assumes that the 6-byte string is written whole, as the source does.
- SessionProof.StepKeeps: control messages of 4 and 6 bytes enter a stream whole; their reading may be split.
- Registry.SameLists: takes from ARMCI that a new allocation has no address in common with a live one.
- Registry.Registry.Malloc: the list node itself is always obtained, and the addresses are given.
- Ring.Pointers.Target: addresses are whole numbers without wrap-around.
- LastByteTheorems.ArmedIsExact: puts land byte by byte in address order and one after another; a network that reorders the bytes of one put is outside the model.
- Handoff.Conservation: both sides repeat equally often in each call, as the header makes them, and the flag reset in `Reset`, which run_iters does not call, is left out.
- Mailbox.Faithful: values and flags land whole, since only their order matters to the protocol, and the receives are called in the order of the kinds sent, as both programs' texts have it.
- Mailbox.BackToBackLoses: shows that a loss is possible for every pair of values; how often the second send really overtakes the first receive is a matter of timing.
