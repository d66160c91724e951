# Verified model of the WNR networking libraries

This project models the stateful core of the `wnr-nsock`, `wnr-pcap` and `wnr-dnet` crates in Dafny
and proves what they promise: an event pool that accounts for every event and every byte moved, a packet-filter virtual
machine and compiler, a savefile codec with a filtered capture on top of it, and longest-prefix
routing over byte masks. `dafny verify dfyconfig.toml` checks all of it.

## How the model is laid out

| files | what they hold |
|---|---|
| `Bits.dfy`, `Bytes.dfy` | powers of two, bit operations by binary digits; fixed-width integers, byte encodings |
| `Bpf.dfy` | instruction set, one-step semantics, the `BpfVm` object and its interpreter loop |
| `BpfInstructions.dfy` | what every instruction does, in opcodes, octets and numbers |
| `BpfProperties.dfy` | termination, recursive meaning, longer packets, longer programs, arithmetic laws |
| `FilterCompiler.dfy` | primitives, their bytecode, the packet predicates they decide |
| `Addr.dfy` | octet masks, `network`, `broadcast`, prefix lengths, as 128-bit arithmetic |
| `Route.dfy` | the routing table, its refinement of a finite map, longest-prefix lookup |
| `Savefile.dfy`, `SavefileProperties.dfy`, `SavefileOctets.dfy` | reader, writer; round trip, truncation, byte order; the format octet by octet |
| `Capture.dfy` | offline capture through a filter, `loop_`, `capture_to_file` |
| `PoolModel.dfy` | the event pool as a transition system with an observer's record |
| `PoolInvariant.dfy`, `PoolSteps.dfy` | the pool invariant and its preservation by each step and each loop pass |
| `PoolRuns.dfy`, `PoolHistory.dfy`, `PoolTiming.dfy` | what holds over every run: conservation, permanence, termination, timing |
| `PoolPolling.dfy` | what one pass does with each live event, whatever the iteration order |
| `PoolConnects.dfy`, `PoolAttribution.dfy`, `PoolReconnects.dfy` | which connect a result completes, whether the result is its own, and exactly when not |
| `PoolWire.dfy` | in which order the bytes of the writes reach their sockets |
| `PoolOutcomes.dfy`, `PoolFeed.dfy` | what requests ask for, what each pass tells and calls in which order, why the loop ends; every octet a socket hands over |
| `Pool.dfy` | the `Pool` object, each method proved to take exactly one model step |

The laws of `BpfInstructions`, `SavefileOctets` and `PoolOutcomes`, and the predicates of
`FilterCompiler`, are stated in literal numbers and octets, apart from the constants and helpers of
the definitions they constrain.

Code that the crates write as objects or loops is written here as classes, arrays and loops, proved
against functions; the laws are lemmas about those functions.

**The event pool.** Handlers only receive an id and a status, so a handler call is an entry appended
to a log. Sockets, clock readings, helper threads and hash-map iteration orders are inputs of every
step and are not constrained beyond their contracts: a read delivers at most one buffer, a write
accepts at most what it is given, an iteration visits each key once, the clock never goes back, a
sleep lasts at least as long as asked. Connect results and quit requests may arrive at any time, in
any number and order, which covers every behaviour of the helper threads. A connect result carries
the stream of the attempt it comes from; the model names that attempt, and no step looks at it. A
`History` records what an
observer sees: the log, the chunks read and bytes accepted per event, which events were cancelled
silently.

**Widths.** Lengths, offsets, accumulators and counters that the code keeps in 8, 16 or 32 bits wrap
or truncate in the model as they do in a release build (a debug build would panic on the overflowing
additions instead): packet lengths and jump targets in the interpreter, `addr_mtob`'s 16-bit count,
the original length of a frame, the packet count of `capture_to_file`.

## Where the code and its comments part

The model follows the code in each case.

- `host` is documented to match the source or destination address; the emitted program rejects before
  its source test, so it matches the destination only (`FilterCompiler.HostIgnoresSource`). The two
  meanings agree exactly on frames to the host and frames not from it
  (`FilterCompiler.HostAsDocumentedExactly`); `FilterCompiler.HostDropsOwnFrame` is a frame where they
  part.
- `port` and `portrange` accept every frame (`FilterCompiler.CompileCorrect`).
- `BPF_JA` jumps to the absolute address `k`, so programs may loop (`BpfProperties.AbsoluteJumpLoops`).
- Packet-extension monotonicity fails when the 32-bit length of the longer packet is smaller; the
  exact condition is `BpfProperties.AcceptanceExtendsExactly`, a failing packet is in
  `BpfProperties.AcceptanceMayShrink`.
- Appending instructions leaves a program alone on exactly the packets whose path does not run off its
  end (`BpfProperties.SuffixIrrelevantExactly`).
- `broadcast` of an IPv4 address also sets the twelve padding octets
  (`Addresses.BroadcastFillsPadding`); a prefix longer than 128 bits acts as the empty prefix
  (`Addresses.OverlongPrefix`).
- `mask_to_bits` accepts some masks with gaps that `addr_mtob` rejects
  (`Addresses.MaskToBitsAcceptsGaps`); it answers one with 0 exactly when the first partial octet is
  no mask octet or the first octet is zero (`Addresses.MaskBitsRejectsExactly`).
- Lookup prefers the larger `addr_bits` even beyond 128, where the prefix is in effect empty: such a
  route hides every other (`Routes.OverlongRouteHidesAll`). The answer is the smallest matching network
  exactly when no matching key has more than 128 bits or all are in effect empty
  (`Routes.DeviceRoutesLongestPrefix`).
- Plain `add` keeps host bits, so lookup can depend on insertion order; it does so exactly when two
  longest matches tie (`Routes.DeterminedExactly`, `Routes.PlainAddTies`).
- `capture_to_file` loses the original length of a clipped frame; copying the copy is byte-identical
  exactly when nothing delivered was clipped (`Captures.CopyTwiceExactly`,
  `Captures.OversizedCopiesDiffer`).
- `drain_commands` speaks of the oldest pending Connect; it completes whichever live Connect the
  map iteration meets first (`PoolConnects.ResultCompletesOne`). That is the oldest under every
  iteration order exactly when only one is live (`PoolConnects.OldestCompletedExactly`);
  `PoolConnects.YoungerConnectWins` is a history where a younger one wins.
- A connect result names its descriptor, not its request, so a late one can complete a later request
  (`PoolReconnects.LateResultMisleads`). In any one state a result can go astray exactly when a Connect
  other than its own is live on the descriptor (`PoolConnects.HeardByOwnExactly`); over runs one more
  connect is safe exactly when no earlier attempt on its descriptor is outstanding
  (`PoolReconnects.ConnectSafeExactly`), which a caller ensures by waiting for every earlier Connect on
  it to be told `Success` or `Error` (`PoolAttribution.PatientCallersHearTheirOwn`).
- An empty write over TCP ends in `Eof`, never in `Success` (`PoolRuns.EmptyStreamWriteEof`,
  `PoolPolling.EmptyWriteSucceedsExactly`).
- Writes live on one descriptor at the same time can reach its socket in either order and interleaved;
  `PoolWire.WriteOrderExactly` says when not.

## Model

| member | source | states |
|---|---|---|
| PoolRuns.EveryEventAccountedFor | wnr-nsock/src/pool.rs:353-395 | after any operations, passes and arrivals, each issued id is live and never fired, or fired exactly once, or silently cancelled and never fired; never two of these |
| PoolRuns.NoEventsMeansAllSettled | wnr-nsock/src/pool.rs:575-577 | when `run` returns `NoEvents`, every issued event has fired exactly once or was silently cancelled |
| PoolRuns.OnlyIssuedEventsFire | wnr-nsock/src/pool.rs:106-109 | no handler call ever carries an id that was not issued |
| PoolHistory.RunsOnlyAdd | wnr-nsock/src/pool.rs:558-573 | over any continuation of a run, handler calls, silent cancellations and bytes moved stay, and no event that stopped being live becomes live again |
| PoolHistory.StepGrows | wnr-nsock/src/pool.rs:455-468 | no operation other than a cancel without notification of a live event silences anything |
| PoolHistory.SilentCancelEffect | wnr-nsock/src/pool.rs:455-468 | that cancel silences exactly its own event and changes no other event's liveness |
| PoolRuns.WritesConserved | wnr-nsock/src/pool.rs:699-743 | bytes accepted for a write are a prefix of its data; while live they and the unsent rest make up the data; `Success` means all were accepted, any other status that, of a nonempty write, not all were |
| PoolRuns.ReadsConserved | wnr-nsock/src/pool.rs:649-697 | a live read holds all its chunks in order and is short of its completion condition; a successful stream read holds all of them too, met the condition with the last chunk only, and overshoots by less than 4096; a datagram is delivered alone; any other status means the condition was not met |
| PoolWire.WireCarriesSent | wnr-nsock/src/pool.rs:699-743 | over any run the bytes handed to the sockets for an event are, in order, exactly those accepted for it |
| PoolWire.WritesInOrder | wnr-nsock/src/pool.rs:541-556 | when each write is requested with no other live on its descriptor, the writes of a descriptor reach its socket whole and in request order |
| PoolWire.WriteOrderExactly | wnr-nsock/src/pool.rs:541-556 | after such a run one more write on a ready socket can be put out of order by no next pass if and only if no other write on the descriptor still has bytes to send and time left |
| PoolPolling.EmptyWriteSucceedsExactly | wnr-nsock/src/pool.rs:704-742 | a pass tells `Success` to a live, not yet due write of nothing if and only if its descriptor is a datagram socket that accepts it |
| PoolRuns.EmptyStreamWriteEof | wnr-nsock/src/pool.rs:704-708 | a write event with nothing to send never gets `Success` from a stream socket |
| PoolFeed.ReadsGetTheirFeed | wnr-nsock/src/pool.rs:649-697 | over any run the chunks of a read are, in order, exactly what the sockets handed to it: up to 4096 octets of a stream or 65535 of a datagram an attempt |
| PoolOutcomes.PassTellsReads | wnr-nsock/src/pool.rs:649-697 | a live read not yet due is told `Success` if and only if what its socket hands over completes it or is a datagram, `Eof` if and only if a stream has no more, `Error` if and only if the socket fails, else nothing; it then holds what it held with what it was handed |
| PoolOutcomes.PassTellsWrites | wnr-nsock/src/pool.rs:699-743 | a live write not yet due with octets left is told `Success` if and only if its socket accepts them all, `Eof` if and only if a stream accepts none, `Error` if and only if the socket fails, else nothing, and keeps the rest |
| PoolOutcomes.PassTellsDue | wnr-nsock/src/pool.rs:529-540 | a live event whose deadline is reached is told `Success` if it is a timer and `Timeout` otherwise, once, and moves no octet |
| PoolOutcomes.PassLeavesWaiting | wnr-nsock/src/pool.rs:529-556 | timers and connects not yet due are left as they are |
| PoolOutcomes.PassCallsInOrder | wnr-nsock/src/pool.rs:516-573 | a pass calls the overdue events first, then those their sockets decide, both in visiting order |
| PoolOutcomes.MessagesInOrder | wnr-nsock/src/pool.rs:606-647 | messages are handled one after the other in the order they came |
| PoolOutcomes.RequestRegisters | wnr-nsock/src/pool.rs:143-181 | a request registers, under the next id, what it asks for and nothing else: minimum, line flag, data, `now` plus the timeout, 3600 s for a connect without one |
| PoolOutcomes.RequestsRemembered | wnr-nsock/src/pool.rs:198-291 | over the rest of any run the event keeps these parameters |
| PoolOutcomes.CancelTells | wnr-nsock/src/pool.rs:455-468 | cancelling a live event with notice tells it `Cancelled`, once, and touches nothing else |
| PoolOutcomes.CancelOfSettled | wnr-nsock/src/pool.rs:455-468 | cancelling an event that is not live changes nothing |
| PoolOutcomes.DescriptorsStart | wnr-nsock/src/pool.rs:112-139 | a new descriptor's fields |
| PoolOutcomes.PeerSet | wnr-nsock/src/pool.rs:184-194 | `connect_udp` makes an existing descriptor a connected datagram one and ignores any other |
| PoolOutcomes.BufferPeeked | wnr-nsock/src/pool.rs:486-494 | the buffer of a pending event can be looked at without being taken; an unknown id yields nothing |
| PoolRuns.BufferTakenOnce | wnr-nsock/src/pool.rs:484-494 | the buffer of every read the loop delivered is returned whole by the first `take_read_buf` and empty ever after |
| PoolRuns.CountersConserved | wnr-nsock/src/pool.rs:662-717 | `write_count` and `read_count` of a descriptor are the sums over its events; on a descriptor whose kind never changed `read_count` is the total of its read buffers |
| PoolRuns.ConnectedExactly | wnr-nsock/src/pool.rs:606-647 | a descriptor never passed to `connect_udp` is connected exactly when a Connect on it has fired `Success` since its creation |
| PoolRuns.PendingNeedsIod | wnr-nsock/src/pool.rs:353-372 | an event requested on an existing descriptor is pending only while that descriptor exists |
| PoolAttribution.ConnectsHearTheirOwn | wnr-nsock/src/pool.rs:143-181 | when no descriptor is connected again before every earlier attempt on it was handled, a Connect gets `Success` only if its own attempt succeeded and `Error` only if its own attempt failed |
| PoolAttribution.PatientCallersHearTheirOwn | wnr-nsock/src/pool.rs:143-181 | the same when a descriptor is connected again only after every earlier Connect on it was told `Success` or `Error` |
| PoolReconnects.ConnectSafeExactly | wnr-nsock/src/pool.rs:143-181 | after such a run one more connect is safe from every next pass if and only if no earlier attempt on its descriptor is outstanding |
| PoolReconnects.EarlyConnectMisled | wnr-nsock/src/pool.rs:606-647 | after any run, a connect requested while an earlier attempt on its descriptor is outstanding has a possible next pass that tells it another's result |
| PoolReconnects.LateResultMisleads | wnr-nsock/src/pool.rs:606-647 | a cancelled and repeated connect that is told of the first attempt's success |
| PoolConnects.HeardByOwnExactly | wnr-nsock/src/pool.rs:611-641 | under every iteration order the result of an attempt is told to no event but its own if and only if no other Connect is live on the descriptor |
| PoolConnects.OldestCompletedExactly | wnr-nsock/src/pool.rs:610-617 | with a live Connect on the descriptor, every iteration order completes the oldest if and only if no second one is live |
| PoolConnects.CompletedExactly | wnr-nsock/src/pool.rs:611-617 | a given live Connect is completed under every iteration order if and only if it is the only one on its descriptor |
| PoolConnects.YoungerConnectWins | wnr-nsock/src/pool.rs:611-641 | two connects on one descriptor and an iteration order under which the younger succeeds and the older keeps waiting |
| PoolConnects.StaleResultIgnored | wnr-nsock/src/pool.rs:611-617 | a connect result with no live Connect on its descriptor changes nothing |
| PoolConnects.ResultCompletesOne | wnr-nsock/src/pool.rs:611-641 | with a live Connect on the descriptor, a result completes exactly the first the iteration meets and marks exactly that descriptor |
| PoolPolling.PassDecidesEach | wnr-nsock/src/pool.rs:516-573 | a pass decides every live event by itself, in any order: an overdue one is told so, any other is attempted exactly once on its own socket and leaves with the attempt's status in a single call, or stays live with what the attempt moved |
| PoolPolling.EachPolledOnce | wnr-nsock/src/pool.rs:542-556 | every event not yet scheduled is attempted once, with the effect and status it would have if it were the only one |
| PoolRuns.DeleteIodKills | wnr-nsock/src/pool.rs:353-372 | `delete_iod` gives each live event of the descriptor `Kill` as its only call and leaves every other event alone |
| PoolRuns.DeleteSettlesAll | wnr-nsock/src/pool.rs:377-395 | after `delete` nothing is pending, no descriptor is left and every issued event is settled |
| PoolTiming.RunTerminates | wnr-nsock/src/pool.rs:507-596 | given an instant by which the limit or all live deadlines expire, the loop returns within an explicit number of passes, whatever sockets, threads and clock do |
| PoolTiming.RunAlwaysTerminates | wnr-nsock/src/pool.rs:507-596 | `run` terminates whenever a limit is given or every live event has a deadline |
| PoolTiming.PassProgress | wnr-nsock/src/pool.rs:582-594 | every pass that does not return lowers the measure of time left and live events |
| PoolTiming.NothingFiresEarly | wnr-nsock/src/pool.rs:529-540 | no timer and no timeout fires before its deadline, in any run |
| PoolTiming.DeadlinesFireOnTime | wnr-nsock/src/pool.rs:588-594 | with exact sleeps and instant passes, every deadline at or after the start of a run fires at exactly that instant and none is missed while the loop goes on |
| PoolTiming.FreshRunOnTime | wnr-nsock/src/pool.rs:507-594 | so in any run with exact sleeps and instant passes every deadline not past at its start is met at its instant |
| PoolOutcomes.RunEndsExactly | wnr-nsock/src/pool.rs:575-586 | after any number of passes the next one returns `NoEvents` if and only if no event is live, `Quit` if and only if one is and a quit was handled, `Timeout` if and only if one is, none was, a limit was given and the pass's clock reading is at or past `start` plus that many milliseconds, and else the loop goes on |
| PoolOutcomes.LoopSleeps | wnr-nsock/src/pool.rs:588-594 | between passes the loop sleeps until the nearest deadline of a live event, but at most 5 ms |
| PoolTiming.QuitStopsRun | wnr-nsock/src/pool.rs:471-474 | a quit requested before `run`, or arriving in a pass, ends the run in that pass although `run` clears the flag |
| PoolTiming.NearestIs | wnr-nsock/src/pool.rs:598-604 | the nearest deadline is the least one of a live event, and absent only when no live event has one |
| PoolRuns.ExecOk | wnr-nsock/src/pool.rs:76-744 | the pool invariant holds after every possible history of operations |
| PoolRuns.StepOk | wnr-nsock/src/pool.rs:76-744 | every operation and every loop pass keeps the pool invariant |
| PoolSteps.PassBodyOk | wnr-nsock/src/pool.rs:516-573 | a pass keeps the invariant, adds no live event and leaves none whose deadline its clock reading has reached |
| PoolSteps.DrainOneOk | wnr-nsock/src/pool.rs:606-647 | handling one command keeps the invariant |
| PoolSteps.TryReadOk | wnr-nsock/src/pool.rs:649-697 | a read attempt either leaves its event unfinished or schedules a status the event is entitled to |
| PoolSteps.TryWriteOk | wnr-nsock/src/pool.rs:699-743 | a write attempt either leaves its event unfinished or schedules a status the event is entitled to |
| PoolSteps.DueAre | wnr-nsock/src/pool.rs:529-540 | the deadline scan schedules exactly the live events whose deadline is reached, once each |
| PoolInvariant.DeliverAllOk | wnr-nsock/src/pool.rs:558-573 | delivering the schedule restores the invariant and settles exactly the scheduled events |
| PoolObject.Pool.constructor | wnr-nsock/src/pool.rs:78-92 | a new pool is the empty state |
| PoolObject.Pool.CreateIodTcp | wnr-nsock/src/pool.rs:112-119 | takes the model step, keeps the invariant, returns the new id |
| PoolObject.Pool.CreateIodUdp | wnr-nsock/src/pool.rs:122-139 | the same, with or without a bound socket |
| PoolObject.Pool.ConnectTcp | wnr-nsock/src/pool.rs:143-181 | registers a Connect with its deadline, 3600 s when the timeout is negative |
| PoolObject.Pool.ConnectUdp | wnr-nsock/src/pool.rs:184-194 | marks an existing descriptor connected and UDP, otherwise does nothing |
| PoolObject.Pool.Read | wnr-nsock/src/pool.rs:198-223 | registers a read of at least one byte |
| PoolObject.Pool.ReadBytes | wnr-nsock/src/pool.rs:226-251 | registers a read of at least the given number of bytes, at least one |
| PoolObject.Pool.ReadLines | wnr-nsock/src/pool.rs:260-291 | registers a line read bounded by `maxline`, at least one |
| PoolObject.Pool.Write | wnr-nsock/src/pool.rs:398-429 | registers a write of the data |
| PoolObject.Pool.SendUdp | wnr-nsock/src/pool.rs:319-329 | `connect_udp` followed by a write |
| PoolObject.Pool.TimerCreate | wnr-nsock/src/pool.rs:432-452 | registers a timer with its deadline |
| PoolObject.Pool.Cancel | wnr-nsock/src/pool.rs:455-468 | takes the cancel step and tells whether the id was known |
| PoolObject.Pool.DeleteIod | wnr-nsock/src/pool.rs:353-372 | takes the deletion step and tells whether the descriptor existed |
| PoolObject.Pool.Delete | wnr-nsock/src/pool.rs:377-395 | takes the pool deletion step |
| PoolObject.Pool.TakeReadBuf | wnr-nsock/src/pool.rs:486-494 | returns the retained buffer once, else the partial buffer of a pending event |
| PoolObject.Pool.LoopQuit | wnr-nsock/src/pool.rs:471-474 | sets the flag and queues a quit command |
| PoolObject.Pool.HasPending | wnr-nsock/src/pool.rs:497-499 | true exactly when some event is live |
| PoolObject.Pool.DrainCommands | wnr-nsock/src/pool.rs:606-647 | the loop handles every queued command in order |
| PoolObject.Pool.TryRead | wnr-nsock/src/pool.rs:649-697 | one read attempt, as in the model |
| PoolObject.Pool.TryWrite | wnr-nsock/src/pool.rs:699-743 | one write attempt, as in the model |
| PoolObject.Pool.NearestDeadline | wnr-nsock/src/pool.rs:598-604 | computes the nearest deadline |
| PoolObject.Pool.Run | wnr-nsock/src/pool.rs:507-596 | the loop makes the model's passes and returns its status: `NoEvents` exactly when nothing is live, `Timeout` only with a limit whose milliseconds have passed since `start` |
| BpfProperties.ForwardProgramsHalt | wnr-pcap/src/bpf.rs:105-256 | a forward-jumping program halts within `program.len()` instructions and its result is its recursive meaning |
| BpfProperties.RunRefinesMeaning | wnr-pcap/src/bpf.rs:112-256 | from any address and registers the loop equals the meaning of the instructions remaining |
| BpfProperties.ForwardIffJaAhead | wnr-pcap/src/bpf.rs:198-201 | below 2^32 - 256 instructions a program is forward exactly when its `BPF_JA` targets lie strictly ahead |
| BpfProperties.AbsoluteJumpLoops | wnr-pcap/src/bpf.rs:200-235 | a one-instruction program that never ends |
| BpfProperties.AcceptanceExtendsExactly | wnr-pcap/src/bpf.rs:291-318 | nonzero results of all programs without length loads survive appending a tail if and only if the 32-bit packet length does not shrink |
| BpfProperties.AcceptanceMayShrink | wnr-pcap/src/bpf.rs:308-318 | a packet, a tail that makes its 32-bit length wrap to 0, and a program that accepts only the shorter packet |
| BpfProperties.AcceptedPacketsExtend | wnr-pcap/src/bpf.rs:105-256 | a nonzero result on a packet is the identical result on the longer packet |
| BpfProperties.SuffixIrrelevantExactly | wnr-pcap/src/bpf.rs:105-243 | appending instructions can change neither termination nor result on a packet if and only if the packet's path never runs off the end, whatever the instructions it does not reach |
| BpfProperties.SuffixIrrelevant | wnr-pcap/src/bpf.rs:194-243 | the same for one suffix |
| BpfProperties.ClosedNeverFallsOff | wnr-pcap/src/bpf.rs:194-243 | a program none of whose instructions continues past the end runs off its end on no packet |
| BpfInstructions.AluInstruction | wnr-pcap/src/bpf.rs:188-193 | every arithmetic operation, with either operand, by what it computes: sums, differences and products modulo 2^32, quotient and remainder or 0, AND, OR and XOR bit by bit, shifts as products and quotients by powers of two or 0 |
| BpfInstructions.LoadInstruction | wnr-pcap/src/bpf.rs:117-167 | every load mode and size: the octets, memory word or 32-bit length it finds, into the accumulator or the index register, or 0 for the run when there is nothing to find |
| BpfInstructions.HeaderLengthInstruction | wnr-pcap/src/bpf.rs:168-180 | four times the low half of an octet into the index register, or 0 for the run |
| BpfInstructions.StoreInstruction | wnr-pcap/src/bpf.rs:182-187 | stores into one of 16 words, or 0 for the run |
| BpfInstructions.JumpInstruction | wnr-pcap/src/bpf.rs:194-235 | the address every jump continues at, with either operand |
| BpfInstructions.ReturnInstruction | wnr-pcap/src/bpf.rs:237-243 | the result |
| BpfInstructions.TransferInstruction | wnr-pcap/src/bpf.rs:244-250 | register transfers |
| BpfInstructions.RunFollowsInstructions | wnr-pcap/src/bpf.rs:105-256 | a run starts at the first instruction with registers and memory zero, follows the instructions and ends past the last with the accumulator |
| BpfProperties.AddSubCancel | wnr-pcap/src/bpf.rs:258-275 | wrapping addition and subtraction undo each other, negation is subtraction from zero |
| BpfProperties.DivModRecompose | wnr-pcap/src/bpf.rs:264-282 | quotient and remainder recompose the accumulator; a zero divisor yields zero |
| Bpf.ResultIs | wnr-pcap/src/bpf.rs:105-256 | the result of a program that ends does not depend on how long it was allowed to run |
| Bpf.BpfVm.Run | wnr-pcap/src/bpf.rs:105-256 | the interpreter returns the program's result whatever registers and memory an earlier packet left |
| Bpf.BpfVm.LoadBranch | wnr-pcap/src/bpf.rs:117-181 | the load and index-load modes, with `return 0` on every failed check |
| Bpf.BpfVm.ApplyAlu | wnr-pcap/src/bpf.rs:258-286 | updates the accumulator only |
| Bpf.BpfVm.FilterOk | wnr-pcap/src/bpf.rs:99-101 | accepts exactly on a nonzero result |
| FilterCompiler.CompileCorrect | wnr-pcap/src/bpf.rs:446-519 | for every primitive, datalink type and packet the compiled program ends, returns 0xffffffff exactly on the frames the primitive selects and 0 on all others, the frames given by octets at literal offsets for each link type number |
| FilterCompiler.OffsetsAre | wnr-pcap/src/datalink.rs:56-64 | where protocol octet, source and destination lie for each link type number |
| FilterCompiler.BytecodeIs | wnr-pcap/src/bpf.rs:446-532 | the instructions emitted for every primitive, opcode by opcode, unreachable ones included |
| FilterCompiler.PrimitiveDecides | wnr-pcap/src/bpf.rs:455-518 | the reachable part of each primitive's code decides it; only `host` has code after that part |
| FilterCompiler.TestEqualDecides | wnr-pcap/src/bpf.rs:521-532 | the four-instruction test accepts exactly when the field is present and equal |
| FilterCompiler.MulticastDecides | wnr-pcap/src/bpf.rs:508-517 | accepts exactly first octets 224 to 239 |
| FilterCompiler.ImplicitAcceptIsInert | wnr-pcap/src/bpf.rs:379-381 | the trailing accept can be replaced by anything without effect |
| FilterCompiler.HostSourceTestUnreachable | wnr-pcap/src/bpf.rs:492-496 | instructions 4 to 7 of `host` never run |
| FilterCompiler.HostIgnoresSource | wnr-pcap/src/bpf.rs:483-491 | a frame whose destination is not the host is rejected, whatever its source |
| FilterCompiler.HostAsDocumentedExactly | wnr-pcap/src/bpf.rs:483-496 | `host` accepts what it is documented to if and only if the destination is the host or the source is not |
| FilterCompiler.HostDropsOwnFrame | wnr-pcap/src/bpf.rs:483-491 | an Ethernet frame from the host to another address, documented as matching, is rejected |
| FilterCompiler.FiltersExtend | wnr-pcap/src/bpf.rs:446-519 | a compiled filter that accepts a clipped frame accepts the whole frame |
| Addresses.SubnetValues | wnr-dnet/src/addr.rs:139-157 | as 128-bit numbers `network` rounds down to the host range and `broadcast` is that plus the range less one |
| Addresses.OverlongPrefix | wnr-dnet/src/addr.rs:179-184 | prefix lengths over 128 give network 0 and broadcast 2^128 - 1 |
| Addresses.BroadcastFillsPadding | wnr-dnet/src/addr.rs:150-157 | `broadcast` of an IPv4 address sets the octets from 4 on |
| Addresses.SubnetKeepsPrefix | wnr-dnet/src/addr.rs:139-157 | `network` and `broadcast` keep family and prefix length |
| Addresses.NetworkIdempotent | wnr-dnet/src/addr.rs:139-146 | the network of a network is itself |
| Addresses.MaskedValue | wnr-dnet/src/addr.rs:142-155 | masking any octet string rounds its number down, filling completes the block |
| Addresses.ComputeNetwork | wnr-dnet/src/addr.rs:139-146 | the byte loop computes `network` |
| Addresses.ComputeBroadcast | wnr-dnet/src/addr.rs:150-157 | the byte loop computes `broadcast` |
| Addresses.BitsToMaskLen | wnr-dnet/src/addr.rs:161-175 | `None` exactly when the prefix does not fit, else the mask with that many leading ones |
| Addresses.BitsToMask | wnr-dnet/src/addr.rs:179-184 | the 16-byte mask, all zero when the prefix is too long |
| Addresses.LeadingOnesIsMask | wnr-dnet/src/addr.rs:161-175 | a byte string has exactly its first k bits set if and only if it is the mask built for k |
| Addresses.MaskRoundTrip | wnr-dnet/src/addr.rs:280-315 | the prefix length of the mask built for `bits` is `bits` |
| Addresses.PrefixRoundTrip | wnr-dnet/src/addr.rs:280-315 | the mask built for a contiguous mask's prefix length is that mask |
| Addresses.AddrMtob | wnr-dnet/src/addr.rs:286-315 | `None` exactly on non-contiguous masks, else the prefix length in 16 bits, exact up to 8191 octets |
| Addresses.ContiguousExactly | wnr-dnet/src/addr.rs:286-315 | a mask is contiguous exactly when its first partial octet is a mask octet and only zeros follow |
| Addresses.LeadingRun | wnr-dnet/src/addr.rs:295-304 | the shift loop counts the leading ones of any octet and leaves zero exactly when nothing else is set |
| Addresses.MaskToBits | wnr-dnet/src/addr.rs:188-209 | the exact answer on every mask, equal to the prefix length on contiguous ones |
| Addresses.MaskBitsRejectsExactly | wnr-dnet/src/addr.rs:188-209 | a non-contiguous mask is answered with 0 if and only if its first partial octet is no mask octet or its first octet is zero |
| Addresses.MaskToBitsAcceptsGaps | wnr-dnet/src/addr.rs:188-209 | a non-contiguous mask answered with 8 |
| Routes.NetContainsInterval | wnr-dnet/src/route.rs:84-93 | for equal non-NONE families, containment is lying between network and broadcast |
| Routes.MatchingNetworksNest | wnr-dnet/src/route.rs:84-93 | of two networks containing a common address, the longer prefix lies inside the shorter |
| Routes.DeviceRoutesLongestPrefix | wnr-dnet/src/route.rs:47-66 | after any `add_dev` and `delete` history `get` answers with the unique longest matching network of the map, or nothing when none matches; that network lies inside every other that matches if and only if no matching key has more than 128 bits or all have no effective bits |
| Routes.SmallestExactly | wnr-dnet/src/route.rs:60-66 | the same of any map whose longest match is given |
| Routes.OverlongRouteHidesAll | wnr-dnet/src/route.rs:60-66 | a device route of more than 128 bits answers for its whole family and hides every route with fewer bits |
| Routes.HistoryIndependence | wnr-dnet/src/route.rs:37-66 | histories leaving the same bindings answer every lookup alike |
| Routes.DeterminedExactly | wnr-dnet/src/route.rs:60-66 | the answer depends only on the bindings if and only if no two longest matches tie |
| Routes.HistoryRefinesMap | wnr-dnet/src/route.rs:37-56 | any history keeps one entry per destination and refines the same history on a finite map |
| Routes.AddRefinesMap | wnr-dnet/src/route.rs:37-43 | `add` binds its destination and nothing else |
| Routes.DeleteRefinesMap | wnr-dnet/src/route.rs:54-56 | `delete` unbinds its destination and nothing else |
| Routes.BestIsLongest | wnr-dnet/src/route.rs:60-66 | `get` answers with a matching entry no matching entry beats, and with nothing only when nothing matches |
| Routes.PlainAddTies | wnr-dnet/src/route.rs:37-66 | two spellings of one network added with `add` tie, and the later entry answers |
| Routes.RouteTable.Add | wnr-dnet/src/route.rs:37-43 | replaces in place or appends; the map gains the binding |
| Routes.RouteTable.AddDev | wnr-dnet/src/route.rs:47-51 | adds under the network address |
| Routes.RouteTable.Delete | wnr-dnet/src/route.rs:54-56 | removes the destination |
| Routes.RouteTable.Get | wnr-dnet/src/route.rs:60-66 | the last of the longest matching entries |
| SavefileProperties.WrittenFileReads | wnr-pcap/src/savefile.rs:194-226 | reading a written file yields its header, every frame in order with timestamps, clipped data and original length modulo 2^32, then the end |
| SavefileOctets.WrittenOctets | wnr-pcap/src/savefile.rs:194-226 | a written file octet by octet: d4 c3 b2 a1 02 00 04 00, eight zeros, snapshot length and link type little-endian, then each record's four numbers little-endian and its clipped data |
| SavefileOctets.WrittenInMicroseconds | wnr-pcap/src/savefile.rs:194-226 | a written file opens as little-endian and in microseconds |
| SavefileOctets.OpenedOctets | wnr-pcap/src/savefile.rs:88-138 | the four accepted magic numbers as they stand in a file, the byte order and precision each shows, and the header fields as numbers at their offsets |
| SavefileOctets.NextOctets | wnr-pcap/src/savefile.rs:145-183 | the next record as numbers and octets at their offsets, the end, or the error |
| SavefileProperties.TruncatedFileReads | wnr-pcap/src/savefile.rs:145-183 | a file cut anywhere after its header yields exactly its whole records, then the end on a boundary or inside a record header, else an error |
| SavefileProperties.HeaderCutRefused | wnr-pcap/src/savefile.rs:91-92 | a file cut inside its global header does not open |
| SavefileProperties.ByteOrderIrrelevant | wnr-pcap/src/savefile.rs:94-135 | both byte orders of a capture, cut at the same place, open with equal fields but for the magic and read alike, errors included |
| SavefileProperties.ReadsPrefix | wnr-pcap/src/savefile.rs:145-183 | what reading any prefix of any encoded records gives, oversized records included |
| SavefileProperties.HeaderRoundTrip | wnr-pcap/src/savefile.rs:88-138 | a header read back is the header written |
| SavefileProperties.SwapAgrees | wnr-pcap/src/savefile.rs:54-59 | for every accepted magic `open` and `next_packet` decode in the same byte order |
| SavefileProperties.OriginalLengthKept | wnr-pcap/src/savefile.rs:215-217 | the original length survives exactly below 2^32 bytes |
| SavefileProperties.WriteFrames | wnr-pcap/src/savefile.rs:194-226 | `create` and a `write_packet` per frame leave the described file |
| Savefile.Open | wnr-pcap/src/savefile.rs:88-138 | accepts and refuses the files it should, standing after the header |
| Savefile.SavefileReader.NextPacket | wnr-pcap/src/savefile.rs:145-183 | the next record, the end, or the error, and the bytes left unread |
| Savefile.SavefileWriter.constructor | wnr-pcap/src/savefile.rs:194-208 | writes the little-endian header |
| Savefile.SavefileWriter.WritePacket | wnr-pcap/src/savefile.rs:215-226 | appends the record of the clipped frame |
| Captures.DeliveredExactly | wnr-pcap/src/capture.rs:226-251 | a filtered capture delivers exactly the accepted packets in order, with the file's own ending |
| Captures.CompiledFilterPasses | wnr-pcap/src/capture.rs:205-213 | with a compiled filter these are the frames the primitive selects |
| Captures.CopyTwiceExactly | wnr-pcap/src/capture.rs:254-263 | copying a copy with the same filter and link type is byte-identical if and only if no delivered record exceeds the snapshot length |
| Captures.OversizedCopiesDiffer | wnr-pcap/src/capture.rs:254-263 | a file with a 2-byte record under snapshot length 1 whose second copy differs from the first |
| Captures.CopiesSettle | wnr-pcap/src/capture.rs:254-263 | the second copy always equals the third |
| Captures.Capture.NextPacket | wnr-pcap/src/capture.rs:226-251 | skips rejected packets, terminates, and delivers the record's four numbers and its data |
| Captures.Capture.Loop | wnr-pcap/src/capture.rs:367-391 | calls back on the longest prefix permitted by the limit (2^32 - 1 when not positive) and breaks, returns its length, reports the error only if reached |
| Captures.Capture.CaptureToFile | wnr-pcap/src/capture.rs:254-263 | writes exactly what was still to be delivered and counts it in 32 bits |
| Captures.Capture.SetFilter | wnr-pcap/src/capture.rs:205-213 | installs the compiled program for this link type with a fresh interpreter |
| Captures.OpenOffline | wnr-pcap/src/capture.rs:188-202 | an unfiltered capture of the file's link type standing at the first record |

## Left out

- Event, descriptor and byte counters of the pool are unbounded; the overflow of their 64 bits is not modelled.
- Peer and host names of descriptors, `set_udata`, `set_broadcast`, `create_iod_tcp_from`, `create_iod_udp_from`, `write_fmt`, `printf`, `pending_count`: stored values and thin wrappers.
- Real sockets, threads and sleeping (`connect_bounded`, stream and datagram calls): inputs of the steps.
- A datagram send that succeeds is taken to have sent the whole datagram, as the code counts it.
- PoolObject.Pool.Run: requires surroundings under which the loop returns, because a run with no limit and an event without deadline may rightly go on for ever; passes of such a run are covered by PoolRuns.ExecOk.
- Bpf.BpfVm.Run: requires that the program ends on the packet, because arbitrary programs may loop.
- Bpf.BpfVm.FilterOk: requires the same, for the same reason.
- `iod_mut`, which hands out a descriptor for arbitrary writing: `PoolRuns.ConnectedExactly` and
  `PoolRuns.CountersConserved` hold of pools whose callers do not change descriptors through it.
- Filter text (`tokenize`, `parse_primitive`) and address text parsing and printing: the model starts at the primitive and at the octets.
- Live capture, injection, direction, statistics, device enumeration, `read_all`: device state and a thin loop over `next_packet`.
- File-system errors other than running out of bytes, and buffering.
- Octet `&`, `|`, `!` and `<<` in the address code are defined by binary digits instead of bit-vectors.
- `wnr-dnet` ARP, Ethernet and interface tables, `route_to`, `addr_cmp`, `pack`, the send queue and the command line: fixed-width codecs, a small map, platform calls, a byte counter and argument parsing.
