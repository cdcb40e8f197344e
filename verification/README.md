# Verified models of the Mac OS X example programs

This project models the example programs of the repository that hold real
algorithms, machine code or concurrent protocols, and proves what they do, for
all inputs, all runs and all interleavings.

| module | models |
|---|---|
| `PowerPC`, `Templates` | a step interpreter for 32-bit PowerPC instruction words: general registers, link register, condition register, word memory; the bit-field templates in which instructions are packed |
| `GuestFactorial`, `GuestDemos` | the recursive factorial and the hand-packed program that the virtual machine monitor injects into its guest, and the page and register set-up around them |
| `HanoiTowers`, `HanoiForth` | the non-recursive Towers of Hanoi in Forth: a loop over frames on the data stack, and the byte counters of tower heights |
| `CompareAndStore` | compare-and-store on any number of processors with reservations |
| `Reroute`, `RerouteInstall` | rerouting a live function by patching its first instruction, and removing the patch |
| `CryptoBytes`, `CryptoProtocol`, `CryptoSimulation`, `CryptoDriver` | the encrypting disk filter with its asynchronous completions |
| `EventStream`, `EventLogger` | the parser of the file system event stream |
| `CnidPath` | building a path backwards from a catalog node id |
| `SegmentMap` | building a library's mapping table from its load commands |
| `VnodeWatcher` | the listener that must have drained before its data queue is released |
| `Rendezvous` | three threads and a main thread meeting over two semaphores |
| `HashTableSize` | sizing the page hash table in mixed 64- and 32-bit arithmetic |
| `Wrappers`, `Division`, `Powers` | options, and arithmetic of quotients and powers of two |

Instruction formats and effects are those of the PowerPC User Instruction Set
Architecture, Book I, version 2.02, section 1.7; reservations are those of the
PowerPC Virtual Environment Architecture, Book II, version 2.02, section 1.7.3.

Programs that change state step by step are methods and classes proved against
functions; machine code is run by the interpreter; concurrent programs are state
machines whose events interleave freely. Where a program does less than its
comments say, the exact condition under which it does what they say is a lemma
with an if-and-only-if.

The main results:

- `GuestFactorial.FactorialReturns`: the 26 injected words compute the factorial
  modulo 2^32 of every signed argument, in exactly 23n + 18 instructions, storing
  only within n + 1 frames, and restore the caller's registers and stack.
- `HanoiForth.HanoiDemo.HanoiSolve` with `HanoiForth.SolutionPlays`: the stack
  machine makes exactly the moves of the recursive solution, in 3 * 2^(n-1) - 2
  rounds; every move is legal and all disks arrive.
- `CompareAndStore.RunIsAtomic` and `CompareAndStore.UndisturbedPassSwaps`: every
  run of the LL/SC code is a run of an atomic compare-and-swap object, and an
  undisturbed pass swaps.
- `Reroute.StubRunsOriginal` and `RerouteInstall.Process.InstallAndRemove`: the
  stub behaves like the unpatched function for runs of any length, and removal
  restores memory, the code never being half written.
- `CryptoSimulation.RunSimulates` and `CryptoSimulation.RunAccounts`: under any
  order of completions the filter is a plain disk, and frees everything once.
- `EventStream.RoundTrip`: a buffer of encoded events is parsed back exactly if
  no event has too many arguments, and only then.
- `CnidPath.PrintsExactly` and `CnidPath.PrintedLeadsBack`, `SegmentMap.TableIsImage`,
  `VnodeWatcher.DrainSuffices` and `VnodeWatcher.StopIsLast`, `Rendezvous.RunMeets` and
  `Rendezvous.RunMayFinish`, `GuestDemos.StackPageDepth`,
  `HashTableSize.RoundsUp` and `HashTableSize.SizeIsMonotone`.

## Model

| member | source | states |
|---|---|---|
| `PowerPC.RunExtends` | src/6-51/vmachmon32.c:389-390 | a guest run of k instructions followed by one more is a run of k + 1 |
| `PowerPC.ReachesRuns` | src/6-51/vmachmon32.c:389-390 | a run that keeps its stores within a range is a run of the guest |
| `PowerPC.ReachesJoins` | src/6-51/vmachmon32.c:212-220 | two consecutive runs storing within the same range join into one, their instruction counts adding |
| `PowerPC.ReachesPart` | src/6-51/vmachmon32.c:212-220 | the first instructions of a run store within the range the whole run does |
| `PowerPC.ReachesWidens` | src/6-51/vmachmon32.c:212-220 | a run that stores within a range stores within every larger one |
| `PowerPC.StepFrame` | src/6-51/vmachmon32.c:212-220 | an instruction changes no word outside the range it may store to, store-multiple included |
| `PowerPC.ReachesFrame` | src/6-51/vmachmon32.c:212-220 | over a whole run, every word outside the range stored to keeps its value |
| `PowerPC.ExecuteAgrees` | src/3-31/frr.c:47-49 | on two machines that differ only in words an instruction does not touch, it fails on both or leaves them differing only there |
| `PowerPC.StepAgrees` | src/3-31/frr.c:47-49 | the same for a whole step, fetch and decoding included |
| `Templates.UnpacksD` | src/6-51/vmachmon32.c:71-76 | packing any D-form fields into a word and reading them back is the identity |
| `Templates.UnpacksI` | src/6-51/vmachmon32.c:79-84 | the same for the I-form |
| `Templates.UnpacksXO` | src/6-51/vmachmon32.c:87-95 | the same for the XO-form |
| `Templates.RepacksD` | src/6-51/vmachmon32.c:71-76 | every word is the packing of its D-form fields: the fields cover the word and do not overlap |
| `Templates.RepacksI` | src/6-51/vmachmon32.c:79-84 | the same for the I-form |
| `Templates.RepacksXO` | src/6-51/vmachmon32.c:87-95 | the same for the XO-form |
| `Templates.DecodesAddi` | src/6-51/vmachmon32.c:150-160 | a filled add-immediate template is that instruction to the decoder, immediate sign-extended |
| `Templates.DecodesBranch` | src/6-51/vmachmon32.c:166-169 | a filled branch template is that branch, its 24-bit field shifted and sign-extended |
| `Templates.DecodesAdd` | src/6-51/vmachmon32.c:173-180 | a filled add template is that register addition |
| `Templates.AbsoluteTarget` | src/6-51/vmachmon32.c:166-168 | storing a word-aligned address in an absolute branch makes it the target exactly when the address is below 32 MB or in the top 32 MB |
| `GuestFactorial.CodeDecodes` | src/6-51/vmachmon32.c:212-220 | each of the 26 injected words decodes to the instruction listed for it |
| `GuestFactorial.PushesFrame` | src/6-51/vmachmon32.c:213-214 | the first five words save LR, r30 and r31 at their places, push a 96-byte frame with its back chain, and leave r30 pointing at it |
| `GuestFactorial.TestsArgument` | src/6-51/vmachmon32.c:214-215 | the argument is kept in the caller's frame area and the branch to word 12 is taken exactly if it is positive as a signed word |
| `GuestFactorial.BaseCase` | src/6-51/vmachmon32.c:196-203 | for an argument not positive, the code reaches the epilogue with 1 stored as the result |
| `GuestFactorial.Calls` | src/6-51/vmachmon32.c:216-216 | for a positive argument the code calls itself with one less, returning to word 16 |
| `GuestFactorial.Multiplies` | src/6-51/vmachmon32.c:217-217 | after the inner call the stored result is the product with the saved argument, modulo 2^32 |
| `GuestFactorial.LoadsResult` | src/6-51/vmachmon32.c:218-218 | the epilogue loads the result, pops the frame through its back chain and restores LR from the caller's frame |
| `GuestFactorial.Returns` | src/6-51/vmachmon32.c:219-219 | the last two words restore r30 and r31 and return to LR |
| `GuestFactorial.InnerKeepsFrame` | src/6-51/vmachmon32.c:200-202 | an inner activation leaves the outer frame's link, registers, back chain and argument as they were |
| `GuestFactorial.WrapsProduct` | src/6-51/vmachmon32.c:202-202 | multiplying results modulo 2^32 gives the factorial modulo 2^32 |
| `GuestFactorial.FactorialReturns` | src/6-51/vmachmon32.c:194-220 | for every signed 32-bit n and enough stack, the words return to LR after exactly 23 max(n, 0) + 18 instructions with r3 the factorial modulo 2^32, r1, r30, r31, LR and all but r0, r2, r3 restored, stores only in [SP - 96 (max(n, 0) + 1), SP + 28), and the deepest frame in place |
| `GuestFactorial.Descends` | src/6-51/vmachmon32.c:213-216 | with stack for two frames, a call with a positive argument enters the call with one less after 13 instructions, its frame just below |
| `GuestFactorial.PushesDeep` | src/6-51/vmachmon32.c:213-216 | the frame d calls down is pushed after 13 d + 5 instructions, which store down to its back chain |
| `GuestDemos.FillD` | src/6-51/vmachmon32.c:150-160 | assigning the bit-fields one by one, over whatever the word held, leaves the packed D-form there and every other word alone |
| `GuestDemos.FillI` | src/6-51/vmachmon32.c:166-169 | the same for the I-form |
| `GuestDemos.FillXO` | src/6-51/vmachmon32.c:173-180 | the same for the XO-form |
| `GuestDemos.InitGuestTextDummy` | src/6-51/vmachmon32.c:112-186 | the text buffer begins with the six words of the program, for the given address, and is otherwise unchanged |
| `GuestDemos.DummyDecodes` | src/6-51/vmachmon32.c:148-180 | what the four packed words are to the decoder |
| `GuestDemos.DummyStops` | src/6-51/vmachmon32.c:138-146 | the fourth and sixth words stop the program, which is how the monitor gets control back |
| `GuestDemos.DummyProgram` | src/6-51/vmachmon32.c:117-125 | at every word-aligned text address, the branch arrives at the fifth word exactly when that word is in reach of an absolute branch; then r12 becomes 9, control reaches the sixth word, where the program stops, and the fourth is never fetched |
| `GuestDemos.InitGuestTextFactorial` | src/6-51/vmachmon32.c:188-237 | the text buffer begins with the 26 words and is otherwise unchanged, r3 is 10 and LR the last word of the text page |
| `GuestDemos.SetUpRegisters` | src/6-51/vmachmon32.c:352-374 | PC is the text page, r1 the top of the stack page less the red zone, and no other register changes |
| `GuestDemos.PrepareFactorial` | src/6-51/vmachmon32.c:352-390 | from a text page of zeros, the set-up makes exactly the guest that the results on the factorial demo start from, with 10 in r3 |
| `GuestDemos.PrepareDummy` | src/6-51/vmachmon32.c:352-390 | the set-up makes the guest that the result on the hand-packed program starts from |
| `GuestDemos.FactorialDemo` | src/6-51/vmachmon32.c:352-390 | in the two-page guest, for every argument whose frames fit the stack page, the run ends at the word LR named with the factorial in r3, where the machine stops |
| `GuestDemos.StoresBeyond` | src/6-51/vmachmon32.c:342-374 | for every argument whose frames do not fit the stack page, the run stores below it, whatever becomes of the code there |
| `GuestDemos.StackPageDepth` | src/6-51/vmachmon32.c:342-374 | for every argument, the run keeps its stores in the stack page exactly if 96 (max(n, 0) + 1) bytes and the red zone fit the page |
| `GuestDemos.FactorialOfTen` | src/6-51/vmachmon32.c:227-233 | the shipped demo takes 248 instructions and leaves 3628800 in r3 |
| `HanoiTowers.RecursiveLength` | src/4-8/hanoi.of:1-39 | the recursive solution for n disks has 2^n - 1 moves |
| `HanoiTowers.PlaysInTwoParts` | src/4-8/hanoi.of:1-39 | a play is legal exactly if its first part is and its second is from where the first ends |
| `HanoiTowers.RecursiveSolves` | src/4-8/hanoi.of:1-39 | from any position with the n narrowest disks on one tower and wider ones beneath, the recursive solution plays only legal moves and moves exactly those disks |
| `HanoiForth.OneRound` | src/4-8/hanoi.of:3-38 | one iteration keeps the frames well formed, splits its move off the pending moves, and takes exactly one off the weight |
| `HanoiForth.CountersFollow` | src/4-7/hanoi-lib.of:88-104 | along every legal play the three byte counters are the tower heights modulo 256 |
| `HanoiForth.PlayKeepsDisks` | src/4-8/hanoi.of:1-39 | no legal play creates or loses a disk |
| `HanoiForth.SolutionMovesAll` | src/4-8/hanoi.of:59-68 | the solution for N disks is legal and moves them all from the first tower to the third |
| `HanoiForth.SolutionPlays` | src/4-8/hanoi.of:59-68 | after any number of moves of the solution the play so far is legal, the counters are the heights modulo 256, and the heights sum to N |
| `HanoiForth.CountersExact` | src/4-7/hanoi-lib.of:48-104 | the counters are the tower heights at every point of the solution, never wrapping, exactly if N is at most 255 |
| `HanoiForth.HanoiDemo.HanoiTowerDisksInc` | src/4-7/hanoi-lib.of:88-95 | the tower's counter is one more in a byte, the old count is left on the stack, the other counters are unchanged |
| `HanoiForth.HanoiDemo.HanoiTowerDisksDec` | src/4-7/hanoi-lib.of:97-104 | the tower's counter is one less in a byte, the old count is left on the stack, the other counters are unchanged |
| `HanoiForth.HanoiDemo.HanoiDiskMoveUp` | src/4-7/hanoi-lib.of:236-260 | both arguments are consumed, the source's counter goes down, and the row is that of its top disk |
| `HanoiForth.HanoiDemo.HanoiDiskMoveDown` | src/4-7/hanoi-lib.of:262-285 | both arguments are consumed, the target's counter goes up, and the row is that just above its top disk |
| `HanoiForth.HanoiDemo.HanoiDiskMove` | src/4-7/hanoi-lib.of:304-310 | the three arguments are consumed and one move is made of disk N + 1 - n, which the counters follow |
| `HanoiForth.HanoiDemo.HanoiTowerDiskAdd` | src/4-7/hanoi-lib.of:106-121 | both arguments are consumed and the tower's counter goes up |
| `HanoiForth.HanoiDemo.HanoiInit` | src/4-7/hanoi-lib.of:123-148 | whatever the counters were, they become n modulo 256, 0 and 0 |
| `HanoiForth.HanoiDemo.HanoiRound` | src/4-8/hanoi.of:6-37 | on the cells of a frame the words of the loop body leave the cells of its successor frames and make its move, if any |
| `HanoiForth.HanoiDemo.HanoiSolve` | src/4-8/hanoi.of:1-39 | from one frame the loop makes exactly the recursive solution's moves, in 3 * 2^(n-1) - 2 rounds with at most n frames at once, leaves the counters as those moves leave them and the stack as it was beneath the frame; it then ends exactly if that is empty |
| `HanoiForth.HanoiDemo.HanoiValidate` | src/4-8/hanoi.of:41-57 | true and the number are left exactly if it is between 1 and the maximum, and false alone otherwise, on an empty stack too |
| `HanoiForth.HanoiDemo.Hanoi` | src/4-8/hanoi.of:59-68 | for an n in range the moves made are the recursive solution from tower 1 to tower 3, and the solver then ends exactly if nothing was on the stack beneath n; otherwise no move is made and the counters are untouched |
| `CompareAndStore.StoreKeepsOthers` | src/3-28/hw_cs.s:43-48 | a store takes away every other processor's reservation of the word, so none is left vouching for a stale value |
| `CompareAndStore.IdleStarts` | src/3-28/hw_cs.s:18-33 | processors all outside the function and without reservations, whatever their registers and memory hold, satisfy the invariant, with no call in the atomic object |
| `CompareAndStore.InvPreserved` | src/3-28/hw_cs.s:18-73 | every instruction, entry, lost reservation and foreign store keeps the invariant of all processors |
| `CompareAndStore.StepRefines` | src/3-28/hw_cs.s:18-73 | each such event is one step of an atomic compare-and-swap object, or none |
| `CompareAndStore.RunIsAtomic` | src/3-28/hw_cs.s:8-73 | every run of any number of processors, in any interleaving, is a run of that object with the same calls, results and stores |
| `CompareAndStore.ReturnsHoldNothing` | src/3-28/hw_cs.s:8-73 | a call that returns holds no reservation, and returns 1 exactly if it is the call that swapped |
| `CompareAndStore.FailureLeavesWord` | src/3-28/hw_cs.s:63-73 | a failing call returns 0, and leaves the word alone exactly if the dummy address is another word or is the value found |
| `CompareAndStore.SuccessSwaps` | src/3-28/hw_cs.s:25-61 | a call that finds the old value and is left alone puts the new one there, changes no other word, returns 1 and holds no reservation |
| `CompareAndStore.PassGoesOn` | src/3-28/hw_cs.s:28-48 | between load and store-conditional, a processor that found the old value keeps its reservation and its way to the store unless the reservation is lost or another stores to the word |
| `CompareAndStore.UndisturbedPassSwaps` | src/3-28/hw_cs.s:28-61 | in every run, a pass of the loop between whose load and store-conditional neither happens swaps, and its call is one that returns 1 |
| `Reroute.BranchJumps` | src/3-31/frr.c:95-107 | the branch written changes only the program counter, and arrives at its target exactly if that is in reach |
| `Reroute.CallReachesNew` | src/3-31/frr.c:47-49 | with the rerouting in place, a call of the original arrives at the new function with every register and all memory unchanged |
| `Reroute.MovedExecutes` | src/3-31/frr.c:108-108 | an instruction does the same at another place, falling through to its own next word, exactly if it neither links nor goes to a place relative to its own other than the next word |
| `Reroute.StubKeepsFirst` | src/3-31/frr.c:92-109 | the stub's first instruction does what the original's does exactly under that condition, which install does not check |
| `Reroute.StubStarts` | src/3-31/frr.c:99-109 | entered at the stub, one or two steps do what the original's first instruction did |
| `Reroute.RunAgrees` | src/3-31/frr.c:47-49 | as long as the program keeps away from the patched words, patched and unpatched memory give the same run |
| `Reroute.StubRunsOriginal` | src/3-31/frr.c:47-49 | from any machine state and for any number of instructions, the stub gives the run the unpatched original gives, while that keeps away from the patched words |
| `Reroute.StubBranchReach` | src/3-31/frr.c:100-107 | of the addresses the range check admits, the branch back arrives exactly for those below 32 MB |
| `RerouteInstall.PatchReroutes` | src/3-31/frr.c:92-123 | what install writes is a rerouting of the program it found exactly if the word put in the stub is the word overwritten |
| `RerouteInstall.StaleStub` | src/3-31/frr.c:92-123 | wherever original and stub are: with the first instruction changed after it was saved, the program found would load 2 and the stub loads 1 |
| `RerouteInstall.Process.HwCompareAndStore` | src/3-31/frr.c:120-123 | swaps exactly if the word, after any store just before it, is the expected one; memory is never in between |
| `RerouteInstall.Process.PatchCode` | src/3-31/frr.c:92-130 | succeeds exactly if both targets are in range and no store came after the word was read for comparison, whatever was stored between its saving and that; the whole memory is then the patched one, and a rerouting of the program found exactly if nothing else was stored in between; on each failure too the whole memory is stated, never with the branch; at every store only the first word and the stub have changed, and that word is its own, another thread's, or, on success, the whole branch |
| `RerouteInstall.Process.FrrInstall` | src/3-31/frr.c:51-138 | a live block is returned exactly if all checks pass and no store came after the comparison word was read; memory is then the patched one and just two blocks are new, and it is a rerouting of the program found exactly if no other word was stored since the first was saved; otherwise no block is left over, a late error still returns the freed block, and memory is untouched or, when another thread made the update fail, has that thread's word and the stub only; what is changed at every store is stated as for the code that patches |
| `RerouteInstall.Process.FrrRemove` | src/3-31/frr.c:140-167 | the saved word is back in one store, no other word ever changed, and both blocks are freed once, or nothing changes on null or on a failed protection change |
| `RerouteInstall.Process.InstallAndRemove` | src/3-31/frr.c:210-249 | with main's own guard: nothing is installed, or it is installed and removed with all memory outside the freed stub and the set of live blocks as they were, or, exactly after a late error, main hands remove a block already freed, memory then untouched but for the stub and another thread's store; at every store only the first word and the stub have changed |
| `CryptoBytes.Involution` | src/10-36/SimpleCryptoDisk.cpp:218-219 | complementing twice gives back the data |
| `CryptoBytes.ComplementTurnsBits` | src/10-36/SimpleCryptoDisk.cpp:218-219 | each of the eight bits of every byte is turned over |
| `CryptoBytes.NotTurnsBits` | src/10-36/SimpleCryptoDisk.cpp:218-219 | each of the 64 bits of a word is turned over |
| `CryptoBytes.SplitsJoined` | src/10-36/SimpleCryptoDisk.cpp:217-217 | eight bytes read as one 64-bit word and written back are the same bytes |
| `CryptoBytes.NotComplements` | src/10-36/SimpleCryptoDisk.cpp:218-220 | complementing a 64-bit word complements each of its eight bytes |
| `CryptoProtocol.InvPreserved` | src/10-36/SimpleCryptoDisk.cpp:127-289 | every start, service, completion and client store keeps: contexts belong to requests in flight, requests that share a buffer are writes, a write's temporary memory holds its encrypted data, and the accounts of releases and completions are exact |
| `CryptoSimulation.StepSimulates` | src/10-36/SimpleCryptoDisk.cpp:127-289 | each event of the filter is the same event of a disk that does not encrypt |
| `CryptoSimulation.RunSimulates` | src/10-36/SimpleCryptoDisk.cpp:127-289 | under every interleaving, with reads served in full, the filtered disk is a plain disk whose contents are the complement of the raw ones |
| `CryptoSimulation.RunAccounts` | src/10-36/SimpleCryptoDisk.cpp:266-288 | in every run each context is freed once for a completed request and never otherwise, temporary memory and both descriptors once for a completed write, and each client's completion has run once with its target, parameter and what was reported |
| `CryptoSimulation.RunKeepsWriteBuffers` | src/10-36/SimpleCryptoDisk.cpp:157-178 | while a write is in flight the client's buffer holds what the client gave |
| `CryptoSimulation.ReadDelivers` | src/10-36/SimpleCryptoDisk.cpp:266-269 | a completed read leaves in the buffer what a plain disk would exactly if the provider filled all of it |
| `CryptoDriver.BlockComplements` | src/10-36/SimpleCryptoDisk.cpp:217-220 | 64 words read, complemented and written are 512 bytes complemented |
| `CryptoDriver.SimpleCryptoDisk.ComplementBlock` | src/10-36/SimpleCryptoDisk.cpp:218-219 | the loop complements every word of the block in place |
| `CryptoDriver.SimpleCryptoDisk.FixBufferUserRead` | src/10-36/SimpleCryptoDisk.cpp:201-226 | block by block, the client's buffer is complemented in place and no other buffer changes |
| `CryptoDriver.SimpleCryptoDisk.FixBufferUserWrite` | src/10-36/SimpleCryptoDisk.cpp:228-256 | the temporary buffer becomes the complement of the client's, which does not change |
| `CryptoDriver.SimpleCryptoDisk.Read` | src/10-36/SimpleCryptoDisk.cpp:127-149 | from any place, on the medium or not, into a buffer that is not in use, a context is made and the client's own buffer handed on; nothing else of the whole state changes |
| `CryptoDriver.SimpleCryptoDisk.Write` | src/10-36/SimpleCryptoDisk.cpp:151-199 | to any place, from a buffer that no read is filling, encrypted data in temporary memory is handed on with a context that names all that was allocated; nothing else of the whole state changes |
| `CryptoDriver.SimpleCryptoDisk.ProviderCompletes` | src/10-36/SimpleCryptoDisk.cpp:258-289 | in every state that runs can reach, completion is possible and its whole effect is that of the state machine's step |
| `CryptoDriver.SimpleCryptoDisk.SCDReadWriteCompletion` | src/10-36/SimpleCryptoDisk.cpp:258-289 | a read's buffer is decrypted, a write's three resources are released, the context is freed, and the client's completion runs if there is one |
| `EventStream.ParsesArgs` | src/11-25/fslogger.c:196-280 | an encoded argument list of at most the limit is parsed back exactly, ending just after its end mark |
| `EventStream.ParsedArgsSize` | src/11-25/fslogger.c:199-210 | what is parsed accounts for the bytes passed, at most one argument more than the limit is parsed, and then no end mark was read |
| `EventStream.ParsedEventsSize` | src/11-25/fslogger.c:170-281 | a complete parse, of any buffer, leaves no byte unaccounted for |
| `EventStream.ParsesEvent` | src/11-25/fslogger.c:170-281 | an encoded event, a dropped-events record included, is parsed back and parsing goes on just after it |
| `EventStream.TooManyArgs` | src/11-25/fslogger.c:199-199 | an event with more than the limit of arguments is not parsed back |
| `EventStream.TooManyTaken` | src/11-25/fslogger.c:199-209 | of more arguments than the limit, the limit and one are taken, and parsing goes on at the next as if an event began there |
| `EventStream.ParsesEventsFront` | src/11-25/fslogger.c:168-281 | whole events in front of anything are parsed back, and what is behind them as if it stood alone |
| `EventStream.StopsAtBadType` | src/11-25/fslogger.c:184-190 | behind whole events, a type that no event has ends the parse with those events and that type |
| `EventStream.StopsWhereCutShort` | src/11-25/fslogger.c:170-210 | behind whole events, an event cut short by the end of the buffer, in its first fields or behind some arguments, ends the parse with those events and an overrun |
| `EventStream.RoundTrip` | src/11-25/fslogger.c:168-281 | a buffer holding the encoding of a list of events is parsed to that list, consuming all of it, if and only if no event has more than the limit of arguments |
| `EventLogger.ShownAsFsid` | src/11-25/fslogger.c:247-256 | a device argument is shown as a file system id if and only if the nearest path or device argument before it, over event boundaries too, is a path |
| `EventLogger.EventsFollow` | src/11-25/fslogger.c:170-190 | one turn of the event loop keeps what has been parsed a prefix of the whole parse, or ends it the same way |
| `EventLogger.OneArg` | src/11-25/fslogger.c:199-210 | the same for one turn of the argument loop |
| `EventLogger.Logger.ProcessArguments` | src/11-25/fslogger.c:196-280 | the argument loop, its pointer in step with its offset, terminates on every buffer with the specified parse and display |
| `EventLogger.Logger.ProcessBuffer` | src/11-25/fslogger.c:168-281 | the event loop terminates on every buffer with the specified parse, and shows its device arguments as specified |
| `CnidPath.PrependName` | src/12-15/cnid2path.c:46-49 | a slash and the name come to stand just before the text already there |
| `CnidPath.FillPath` | src/12-15/cnid2path.c:34-53 | the walk leaves the specified text at the end of the buffer, the index equal to the remaining length throughout, or reports the failed lookup or the underflow, each as `CnidPath.WalkEnds` says |
| `CnidPath.SplitAtSlash` | src/12-15/cnid2path.c:55-61 | the two strings printed are those before and after the first slash |
| `CnidPath.CnidToPath` | src/12-15/cnid2path.c:12-64 | the whole program prints, or fails with, what `CnidPath.OutputEnds` says for every catalog, id and buffer size |
| `CnidPath.WalkEnds` | src/12-15/cnid2path.c:34-53 | with the names climbed so far in the buffer, the walk ends where a lookup fails, at a self-parent, with the buffer just full, or at a name that does not fit, and leaves an error, those names, those names, or an underflow |
| `CnidPath.SomeWalk` | src/12-15/cnid2path.c:34-53 | for every catalog, cycles included, the walk ends in one of these ways |
| `CnidPath.OutputEnds` | src/12-15/cnid2path.c:38-61 | what is printed for each of them |
| `CnidPath.LookupFails` | src/12-15/cnid2path.c:38-39 | with a missing id above, nothing is printed and the lookup's error returned exactly if the names below it fit the buffer with a null |
| `CnidPath.UnknownId` | src/12-15/cnid2path.c:38-39 | asked for an id that does not exist, the program prints nothing and returns the lookup's error |
| `CnidPath.SplitIs` | src/12-15/cnid2path.c:55-61 | the two strings with a slash between them are the string that was split, whatever is in it, and the first has no slash |
| `CnidPath.FillsLineage` | src/12-15/cnid2path.c:34-53 | the walk leaves the slash-joined names from the volume down if they fit; if not, it stops short or leaves the buffer |
| `CnidPath.SplitOfJoin` | src/12-15/cnid2path.c:55-61 | the printed volume and path have exactly the joined names as their components |
| `CnidPath.LeadsToId` | src/12-15/cnid2path.c:29-52 | following the names of a lineage leads to its id and to no other |
| `CnidPath.PrintsExactly` | src/12-15/cnid2path.c:18-61 | the id's path is printed exactly if the joined names and a null fit the buffer |
| `CnidPath.PrintedLeadsBack` | src/12-15/cnid2path.c:18-61 | resolving what is printed, component by component, leads back to the id and to no other |
| `CnidPath.SelfParentOverruns` | src/12-15/cnid2path.c:41-44 | asked for a self-parent, the program reads past its buffer |
| `SegmentMap.AddSegment` | src/8-24/srmap.c:101-126 | a segment's one or two entries are appended, and the entries before them kept, exactly if they fit the table; `SegmentMap.EntryProtects` says what the entries are |
| `SegmentMap.BuildMappingTable` | src/8-24/srmap.c:92-130 | the table is filled with the specified entries in order and the base is the least segment address, or all ones without a segment, exactly if the entries fit the table |
| `SegmentMap.EntrySource` | src/8-24/srmap.c:101-125 | every table entry comes from a segment, in the order of the load commands |
| `SegmentMap.EntriesPresent` | src/8-24/srmap.c:101-125 | every segment has its entries in the table, at their place |
| `SegmentMap.EntriesDisjoint` | src/8-24/srmap.c:101-125 | for segments that do not overlap no two entries cover the same address |
| `SegmentMap.TableIsImage` | src/8-24/srmap.c:92-130 | at every address the table maps what loading the segments puts there, file bytes and then zeros for a writable tail, and nothing else |
| `SegmentMap.EntryProtects` | src/8-24/srmap.c:101-125 | every entry is the file part or the zero-filled tail of one segment, readable, writable and executable exactly as it is, copied on writing exactly if it is writable, with equal maximal and initial protections |
| `SegmentMap.ProtectedAsSegment` | src/8-24/srmap.c:106-124 | at every address of a segment the entry that covers it has these protections, and zero fill exactly beyond the bytes in the file |
| `VnodeWatcher.InvPreserved` | src/11-36/VnodeWatcher.cpp:66-89 | every step keeps the counter equal to the number of callbacks inside, and every held listener registered |
| `VnodeWatcher.RunCounts` | src/11-36/VnodeWatcher.cpp:66-89 | in every run, with any number of clients and callbacks, the counter is the number of callbacks between entry and exit |
| `VnodeWatcher.QuietStays` | src/11-36/VnodeWatcher.cpp:206-225 | once drained with no listener registered and no callback on its way, a client stays so |
| `VnodeWatcher.DrainSuffices` | src/11-36/VnodeWatcher.cpp:206-225 | when the drain loop ends, some run has a callback use the released queue exactly if a callback was called and not yet counted, or a registration leaked |
| `VnodeWatcher.LeaksByRestart` | src/11-36/VnodeWatcher.cpp:191-204 | a registration leaks exactly when logging starts while a listener is still held |
| `VnodeWatcher.StopIsLast` | src/11-36/VnodeWatcher.cpp:123-142 | with call and count one step and logging started once, no callback enqueues after the stop message, nor into a released queue |
| `VnodeWatcher.OneLogsAtATime` | src/11-36/VnodeWatcher.cpp:144-154 | in every run a client starts logging only with the provider open for it, and no other starts before that one has closed or been terminated |
| `VnodeWatcher.NextComesIn` | src/11-36/VnodeWatcher.cpp:150-187 | opening goes on exactly if nobody has the provider open and changes nothing otherwise; closing or terminating lets the next client in |
| `Rendezvous.InvPreserved` | src/9-72/mach_semaphore.c:17-79 | every step keeps signals sent equal to signals taken and waiting, and the order of the phases |
| `Rendezvous.RunMeets` | src/9-72/mach_semaphore.c:57-76 | in every interleaving no thread is past the first semaphore before all are ready, the third is past it first, and at destruction no thread has a use left |
| `Rendezvous.SticksByLostSignal` | src/9-72/mach_semaphore.c:60-70 | a step gets main stuck exactly if it signals the third thread before that has blocked, or all before the other two have; no step gets it unstuck |
| `Rendezvous.StuckForever` | src/9-72/mach_semaphore.c:63-70 | stuck, main never comes to destroy the semaphores, whatever follows |
| `Rendezvous.FinishesUnlessStuck` | src/9-72/mach_semaphore.c:57-76 | in every state that runs can reach, some way on leads to the end exactly if main is not stuck |
| `Rendezvous.RunMayFinish` | src/9-72/mach_semaphore.c:57-76 | after every run, main may still get to the end if and only if the third thread had blocked when it was signalled and the other two had when all were |
| `HashTableSize.CountsBits` | src/5-9/hash_table_size.c:24-29 | two 32-bit leading-zero counts give the leading zeros of the 64-bit word |
| `HashTableSize.RoundMemory` | src/5-9/hash_table_size.c:24-32 | the shifted top bit is the specified power of two, for every memory size |
| `HashTableSize.Scales` | src/5-9/hash_table_size.c:34-42 | after the clamp the 32-bit product does not wrap, for both group sizes |
| `HashTableSize.CalculateHashTableSize` | src/5-9/hash_table_size.c:17-55 | for every memory size, group size and shift, the size is half a group per two pages of the rounded memory, counted up to 2^37 bytes and shifted, if that is at least 256 KB and fits 32 bits, and 256 KB otherwise |
| `HashTableSize.RoundsUp` | src/5-9/hash_table_size.c:31-32 | the rounded size is the least power of two not below the memory exactly for 1 to 2^63 bytes |
| `HashTableSize.RoundsOutside` | src/5-9/hash_table_size.c:24-32 | no memory counts as 2^63 bytes, and more than 2^63 as what exceeds it |
| `HashTableSize.SizeOfMemory` | src/5-9/hash_table_size.c:31-52 | of memory that rounds up to 2^e bytes, the size is what is wanted for 2^e bytes, if that can be used |
| `HashTableSize.SizeOfOneGigabyte` | src/5-9/hash_table_size.c:57-71 | for main's own call with 1024 MB the size is 8 MB |
| `HashTableSize.SizeIsPower` | src/5-9/hash_table_size.c:38-52 | the size is always a power of two of at least 256 KB |
| `HashTableSize.SizeIsMonotone` | src/5-9/hash_table_size.c:44-52 | more memory never gives a smaller table exactly for the shifts that cannot overflow 32 bits after filling the top bit |

## Left out

- `HanoiForth.HanoiDemo.Hanoi`: with cells beneath n, does not say what the solver does after the solution, when it takes those cells for frames; the comment at src/4-8/hanoi.of:43 rules them out.
- `HanoiForth.HanoiDemo.HanoiSolve`: with cells beneath the frame, stops where the program goes on to take them for frames, and says that it would.
- `HanoiForth.HanoiDemo.HanoiDiskMove`: does not model the drawing (disk widths, colours, columns, the loops that move a disk across the screen); of the rows only the count they are computed from is kept.
- `HanoiForth.HanoiDemo.HanoiDiskMoveUp`: draws nothing, like the other words below, which are modelled by what they do to the stack and the counters.
- `HanoiForth.HanoiDemo.HanoiDiskMoveDown`: draws nothing.
- `HanoiForth.HanoiDemo.HanoiTowerDiskAdd`: draws nothing.
- `HanoiForth.HanoiDemo.HanoiInit`: draws no bases and poles.
- `GuestFactorial.FactorialReturns`: word-aligned accesses to mapped words only; byte and unaligned accesses, traps and branches that count down CTR stop the interpreter, and no injected word needs them.
- `GuestDemos.DummyProgram`: the words 0xdeadbeef and 0xfeedface, illegal by their comments, are outside the modelled instruction subset, and stop the interpreter like every other word that is.
- `GuestDemos.FactorialDemo`: page size and red zone come from system headers that are not part of this model and are parameters, and the unused rest of the text page is zero, as freshly allocated pages are.
- `CompareAndStore.RunIsAtomic`: memory is sequentially consistent, so what isync orders is not stated, and a call that is disturbed in every pass may retry forever; words used as dummy addresses are used for nothing else.
- `RerouteInstall.Process.HwCompareAndStore`: is one atomic step, which `CompareAndStore.RunIsAtomic` justifies.
- `Reroute.StubRunsOriginal`: requires the first instruction to be movable (`Reroute.StubKeepsFirst` says exactly when the stub is right about it) and the run to keep away from the patched words; a program that reads or executes its own first instruction sees the branch. The original must lie below 32 MB, see `Reroute.StubBranchReach`.
- `RerouteInstall.Process.FrrInstall`: other threads store at the original only, and once in each of two places: between the saving of its word and its reading for comparison, and between that and the update. Page permissions appear only as the results of the two protection calls, and instruction caches not at all.
- `RerouteInstall.Process.InstallAndRemove`: ends where main would hand on a freed block, as what a second free does is not specified; during removal the protection call succeeds and no other thread stores at the original.
- `CryptoSimulation.RunSimulates`: reads are served in full; a short or failed read is decrypted whole, and `CryptoSimulation.ReadDelivers` says exactly what that spoils.
- `CryptoProtocol.InvPreserved`: a buffer being read into is in no other request, a buffer being written is not read into or stored to by its client meanwhile, and buffers hold a multiple of 512 bytes; the driver states only the last, as an assertion.
- `CryptoDriver.SimpleCryptoDisk.Write`: allocation of contexts, memory and descriptors succeeds; the driver does not check it. The preparing of descriptors, the published media object and opening and closing are left out.
- `EventStream.RoundTrip`: event and argument codes come from a system header that is not part of this model and are parameters; the decoding of argument payloads, the name tables and the printing are left out.
- `EventLogger.Logger.ProcessBuffer`: a field reaching beyond the buffer is an outcome of its own, where the program would read what lies there.
- `CnidPath.CnidToPath`: the lookup of an id is a map, and writing before or reading past the buffer is an outcome of its own; the length of the buffer is a parameter.
- `SegmentMap.BuildMappingTable`: load commands are a list, so walking them by their stated sizes is not modelled, nor are the header checks; the program does not check that its table of 64 entries is large enough.
- `VnodeWatcher.StopIsLast`: methods of one client do not overlap; a client whose data queue could not be made is not modelled, nor are the records that callbacks enqueue and the queue's capacity.
- `Rendezvous.RunMeets`: creation of semaphores and threads succeeds; that main gets to the end is stated only as possible (`Rendezvous.RunMayFinish`), as nothing is assumed of the scheduler.
- `HashTableSize.CalculateHashTableSize`: shifts of 32 bits or more, which C leaves undefined, and group sizes other than the two defined are excluded.
- Calls into the kernel and the frameworks, argument parsing and printed output in all programs.
- The factorial servers and clients, and the remaining small demonstrations, which have nothing hard to prove.
