# Verified models of the T0 toolchain, the TLS handshake, the asyncio scheduler and the regular expression matcher

This project models four parts of the repository and proves what they promise.

* **T0** (`Base128`, `ExprWidth`, `Program`, `CpuMachine`, `VmSpec`, `VmMachine`, `Layout`, `CodeElements`, `Generate`,
  `GenerateMachine`, `Simulation`, `StackEffects`, `FlowSpec`, `FlowScan`, `FlowEffect`, `FlowAnalysis`, `FlowSound`,
  `BuilderSpec`, `WordBuilder`, `Structured`, `StructuredRun`, `EndToEnd`): a Forth-like compiler. Structured source becomes jumps,
  an abstract interpreter infers stack effects, jumps are laid out at their shortest, and a virtual machine in C decodes
  the bytes. The chain of theorems ends in `EndToEnd.SourceToMachine`: the bytes on the machine do what the structured
  program means.
* **TLS** (`Lines`, `Handshake`, `HandshakeRuns`, `HandshakeLegs`, `HandshakeFlows`, `HandshakeAgreement`,
  `Negotiation`, `HelloSpec`, `HelloRoundTrip`, `HelloPeer`, `HelloReader`, `HelloWriter`, `ServerMessages`, `ServerReadBack`): the handshake coroutines of client
  and server as two machines joined by channels, in every order of steps and with records cut anywhere; and the bytes of
  the messages whose lengths are worked out beforehand.
* **asyncio** (`WaitRoom`, `Semaphores`, `QueueRuns`, `Rings`, `Primitives`, `TimerHeap`, `EventLoop`): locks,
  semaphores and queues whose waiters check again after a wake-up, under every schedule; the ready queue and the timer
  heap in place.
* **SLRE** (`SlreSpec`, `SlreMatcher`, `SlreRun`): the backtracking matcher against the language of its patterns.

Classes carry the fields that the program updates in place, with methods proved against functions on values; the laws
are lemmas about those functions.

The model follows the code. Where the code does not do what its comments say, a theorem states exactly when it does:

* the five-byte macro for expressions works for negative values only (`ExprWidth.FiveByteMacro`);
* a word header of one byte is misread from 128 locals on (`Simulation.HeaderRead`);
* the word builder pops an empty control-flow stack, and rolls and picks outside it, without complaint
  (`BuilderSpec.PopOnEmpty`, `BuilderSpec.PickExactly`, `BuilderSpec.RollExactly`, `BuilderSpec.UnderflowBuilds`); the
  word that it builds is good exactly when there were as many resolutions as forward jumps among the calls
  (`BuilderSpec.BuiltExactly`);
* flow analysis does not return on a word that it could accept only by following a cycle of unconditional jumps
  (`FlowScan.ScanDecides`);
* a padded hello without other extensions declares two bytes too many (`HelloRoundTrip.DeclaredLength`) and is always
  refused (`HelloRoundTrip.PaddedFails`), and the server refuses the fragment length of 8192 bytes that the client may
  announce (`HelloRoundTrip.FragReads`);
* writing the client's certificates uses up the chain whose length is tested afterwards, so that CertificateVerify is
  never sent and a server that verified the chain fails (`HandshakeAgreement.HandshakeAgrees`,
  `HandshakeAgreement.BadAnswer`);
* the messages of the server declare lengths that are reduced to their fields; each is read back exactly when they fit
  (`ServerReadBack`);
* a bounded queue of capacity zero gets stuck (`QueueRuns.StuckWithoutRoom`);
* cancelling a timer clears the first heap entry of its future only; that is enough because every future has one entry
  at most, which the timers keep (`TimerHeap.ForgottenExactly`, `EventLoop.TimerQueue.CancelFuture`);
* an optional op of a pattern is never given back (`SlreRun.OptionalMisses`, `SlreSpec.OptionalExactly`), which hides
  no match where what follows takes none of its characters (`SlreSpec.MatchIsFound`), and an alternative that matches
  the empty string is passed over for the next (`SlreRun.StarBarMisses`, `SlreRun.CompleteExactly`);
* a greedy star behind whose repetitions the rest is not found starts over without any, and then forgets longer matches
  in between (`SlreRun.StarForgets`, `SlreSpec.StarIsGreedy`).

`dafny verify dfyconfig.toml` checks the whole project.

## Model

| member | source | states |
|---|---|---|
| `EndToEnd.SourceToMachine` | dev/tls/T0/t0comp.py:900-1253 | For a word written with structured control flow, built, analysed and generated: the bytes on the emitted machine show exactly the outcome that the structured program means, never fault except where a local variable is read before it is written, and a program that runs on keeps the machine running |
| `EndToEnd.AcceptedMachine` | dev/tls/T0/t0comp.py:1104-1253 | Started on an accepted word with room for its declared return-stack figure, the emitted machine follows the compile-time CPU for every number of steps and faults only on an unwritten local |
| `EndToEnd.AcceptedRuns` | dev/tls/T0/word.py:509-602 | The same run seen on the CPU: it always has the return-stack room it needs, is stuck only on an unwritten local, and leaves the values below its declared inputs alone |
| `EndToEnd.BuilderMakesWord` | dev/tls/T0/word.py:127-380 | The builder calls of any well-formed program, which name words and locals as the source text does, succeed and give exactly the code that its structure stands for, its locals, and the names still to be looked up at the calls that wait for them |
| `EndToEnd.ToolsMakeReady` | dev/tls/T0/t0comp.py:900-1130 | Words that the builder made of their sources and resolution looked up in any dictionary, an analysis that has accepted a word, and the image that generation gives are what the theorems on the machine ask for, if the image fits its 16-bit fields; the meaning is that of the sources with their names looked up |
| `EndToEnd.MeaningRuns` | dev/tls/T0/opcodes.py:79-324 | The compiled word on the CPU ends as the big-step meaning says, and runs longer than any fuel that the meaning exhausts |
| `EndToEnd.MeaningExact` | dev/tls/T0/opcodes.py:79-324 | Both directions: the CPU run of a compiled word ends in a state if and only if the meaning of the program is that state |
| `Base128.UnsignedRoundTrip` | dev/tls/T0/codes.py:32-46 | Decoding the unsigned encoding of any 32-bit value, wherever it stands and whatever follows, gives the value and stops right behind it |
| `Base128.SignedRoundTrip` | dev/tls/T0/codes.py:48-68 | The same for signed values |
| `Base128.UnsignedMinimal` | dev/tls/T0/t0comp.py:1024-1039 | No byte string that the parser reads as a value is shorter than the encoding of that value |
| `Base128.SignedMinimal` | dev/tls/T0/t0comp.py:1041-1062 | The same for the signed parser |
| `Base128.Encode7EUnsigned` | dev/tls/T0/codes.py:32-46 | The loop appends the specified digits, or only counts them, and returns their number |
| `Base128.Encode7ESigned` | dev/tls/T0/codes.py:48-68 | The same for the signed encoder |
| `Base128.EncodeOneByte` | dev/tls/T0/codes.py:25-30 | Raises exactly above 255, and then leaves the output alone |
| `Base128.Parse7EUnsigned` | dev/tls/T0/t0comp.py:1024-1039 | The C loop computes the specified value modulo 2^32 and end position, or runs off the end |
| `Base128.Parse7ESigned` | dev/tls/T0/t0comp.py:1041-1062 | The same with the sign taken from bit 6 of the first byte |
| `ExprWidth.BitLength` | dev/tls/T0/typesys.py:174-190 | The loop computes the length of the shortest signed representation |
| `ExprWidth.BitLenFits` | dev/tls/T0/typesys.py:174-190 | A value has bit length at most n if and only if it lies in the signed range of n bits |
| `ExprWidth.BitLengthCoversRange` | dev/tls/T0/typesys.py:164-173 | The width computed from the bounds of an expression fits every value between them |
| `ExprWidth.LeastLength` | dev/tls/T0/typesys.py:164-190 | The width is exactly the least number of bits that hold both bounds, cut at 32 |
| `ExprWidth.LeastWidth` | dev/tls/T0/typesys.py:164-173 | The macro has at most n bytes, n below five, if and only if the range fits 7n bits |
| `ExprWidth.MacroRoundTrip` | dev/tls/T0/t0comp.py:1064-1070 | T0_INT1 to T0_INT4 at the computed width decode to every value of the declared range |
| `ExprWidth.NarrowRoundTrip` | dev/tls/T0/t0comp.py:1064-1070 | Every value of a range within 28 bits comes back, whatever the width |
| `ExprWidth.FiveByteMacro` | dev/tls/T0/t0comp.py:1066-1071 | T0_INT5 decodes to its value if and only if the value is negative |
| `Layout.OffsetGrows` | dev/tls/T0/codes.py:83-97 | Longer elements never shorten the encoding of a jump, forward or backward |
| `Layout.PassBelowConsistent` | dev/tls/T0/t0comp.py:997-1008 | Every pass of address stabilisation stays below every consistent layout |
| `Layout.StableIsLeast` | dev/tls/T0/t0comp.py:997-1008 | Two passes with equal totals are equal element by element, and are the smallest layout in which every element has the length its own offset needs |
| `Layout.PassProgress` | dev/tls/T0/t0comp.py:997-1008 | The total only grows, is bounded, and stands still only at that least layout: the loop ends |
| `Layout.ElementAt` | dev/tls/T0/codes.py:99-111 | In a consistent layout the bytes of every element stand at its address with its recorded length |
| `Layout.JumpLands` | dev/tls/T0/codes.py:83-88 | The encoded offset added to the address behind the jump is the address of its target |
| `Layout.CodeBytesLength` | dev/tls/T0/t0comp.py:1089-1093 | The code block is as long as the addresses say |
| `CodeElements.CodeElement.GetLength` | dev/tls/T0/codes.py:88-97 | The length an element object reports, from what it remembers of addresses |
| `CodeElements.CodeElement.Encode` | dev/tls/T0/codes.py:99-111 | Raises exactly on an opcode number too large for one byte and on a jump without addresses; otherwise appends the specified bytes |
| `CodeElements.Stabilize` | dev/tls/T0/t0comp.py:997-1008 | The loop over the objects, which compares only totals, terminates in the least consistent layout |
| `CodeElements.EncodeAll` | dev/tls/T0/t0comp.py:1089-1093 | Encoding the stabilised objects writes the code block of that layout, and fails exactly if some opcode number does not fit its byte |
| `Generate.ElementIndex` | dev/tls/T0/word.py:484-492 | The elements of word j stand behind its header in the common list, in order |
| `Generate.ElementsInRange` | dev/tls/T0/opcodes.py:205-208 | Every jump element of a good program has its target inside the code block |
| `GenerateMachine.AssignSlots` | dev/tls/T0/t0comp.py:944-970 | C codes get the slots from 7 on in the order in which they first appear, words with equal C code sharing one; interpreted words come behind all of them in order |
| `GenerateMachine.ToCodeElement` | dev/tls/T0/opcodes.py:98-101 | The element object of each opcode |
| `GenerateMachine.MakeElements` | dev/tls/T0/word.py:484-492 | Header and one object for each opcode, all new |
| `GenerateMachine.FixUp` | dev/tls/T0/opcodes.py:205-208 | A jump is linked to the element it goes to, and nothing else changes |
| `GenerateMachine.GenerateCode` | dev/tls/T0/t0comp.py:978-988 | The objects of all words stand for the specified element list |
| `GenerateMachine.EntryTable` | dev/tls/T0/t0comp.py:1095-1100 | The table holds the address of every header, in 16 bits |
| `GenerateMachine.GenerateImage` | dev/tls/T0/t0comp.py:978-1130 | The generated image is the specified output for the least layout; it raises exactly if opcodes take one byte and some word has more than 255 locals |
| `Simulation.HeaderRead` | dev/tls/T0/t0comp.py:1104-1112 | T0_ENTER reads back the number of locals if and only if opcodes take several bytes or there are fewer than 128 |
| `Simulation.StepSimulates` | dev/tls/T0/t0comp.py:1187-1250 | One opcode on the CPU is one pass of the emitted loop: same data stack, locals at rp-2-x, return address 0 only for the last word |
| `Simulation.RunSimulates` | dev/tls/T0/t0comp.py:1187-1250 | The same for any number of steps; the machine leaves its loop exactly when the CPU is done |
| `Simulation.StartSimulates` | dev/tls/T0/t0comp.py:1115-1123 | The generated entry function puts the machine into the state that represents the start of its word |
| `VmMachine.Machine.Enter` | dev/tls/T0/t0comp.py:1104-1113 | T0_ENTER on the stacks in place does what its specification says, faults included |
| `VmMachine.Machine.Ret` | dev/tls/T0/t0comp.py:1196-1205 | The ret case in place |
| `VmMachine.Machine.Step` | dev/tls/T0/t0comp.py:1187-1250 | One pass of the loop in place is one specified step |
| `VmMachine.Machine.Run` | dev/tls/T0/t0comp.py:1180-1253 | The whole loop |
| `CpuMachine.CpuObject.Push` | dev/tls/T0/cpu.py:82-87 | Adds one value on a buffer that doubles when full |
| `CpuMachine.CpuObject.Pop` | dev/tls/T0/cpu.py:76-80 | Takes the top value |
| `CpuMachine.CpuObject.Peek` | dev/tls/T0/cpu.py:89-94 | Reads a value at a depth |
| `CpuMachine.CpuObject.Rot` | dev/tls/T0/cpu.py:96-105 | Moves the value at a depth to the top, the others down by one |
| `CpuMachine.CpuObject.NRot` | dev/tls/T0/cpu.py:107-120 | The inverse rotation |
| `CpuMachine.RollInverse` | dev/tls/T0/cpu.py:96-120 | The two rotations undo each other, both ways, and only reorder the stack |
| `CpuMachine.CpuObject.Enter` | dev/tls/T0/cpu.py:49-59 | Links a new frame that remembers where to go back to |
| `CpuMachine.CpuObject.Exit` | dev/tls/T0/cpu.py:61-70 | Takes the frame off and continues where it says |
| `CpuMachine.CpuObject.GetLocal` | dev/tls/T0/cpu.py:122-124 | Reads a local variable of the innermost frame |
| `CpuMachine.CpuObject.PutLocal` | dev/tls/T0/cpu.py:126-129 | Writes one, and no other |
| `CpuMachine.CpuObject.Step` | dev/tls/T0/opcodes.py:79-324 | One opcode on the object is one specified step, and says whether the run goes on |
| `Program.RunCpuSplit` | dev/tls/T0/word.py:470-472 | A run of n and then m steps is a run of n+m steps |
| `StackEffects.SubEffectAllows` | dev/tls/T0/typesys.py:68-85 | is_sub_of holds if and only if everything that one effect allows a run to do the other allows too |
| `FlowSpec.TurnKeeps` | dev/tls/T0/word.py:530-578 | One turn of the worklist keeps its invariant, and a finished scan is a certificate |
| `FlowScan.ScanDecides` | dev/tls/T0/word.py:509-578 | The scan ends without an exception if and only if the word has a typing (depths for some offsets, the entry among them) in which no typed offset is on an endless chain of jumps; it raises, or waits for a word not analysed, if and only if the word has no typing; on the words left over, all of whose typings reach an endless chain, it goes on for ever |
| `FlowScan.UntypedEnds` | dev/tls/T0/word.py:530-578 | The queue is fair: the scan of a word without a typing comes to an end, endless jumps or not |
| `FlowScan.RestingSettles` | dev/tls/T0/word.py:512-578 | A check on the code alone: if the offsets that jumps and fall-through can lead to from the entry hold no endless chain, the scan ends whatever is known of the callees; dead code may hold one |
| `FlowScan.EmptyLoopNeverAnalysed` | dev/tls/T0/word.py:512-578 | A jump to itself is such a word: the scan repeats its first state for ever |
| `FlowScan.TypedNeverRaises` | dev/tls/T0/word.py:498-507 | No turn of the scan raises on a word that can be typed |
| `FlowScan.CertificateIsTyping` | dev/tls/T0/word.py:530-602 | What a finished scan leaves is itself a typing |
| `FlowEffect.EffectIsOwn` | dev/tls/T0/word.py:517-602 | The computed effect is the least one of the word: it lies below an effect if and only if some typing of the word keeps to that effect (takes no more than it says, and leaves what it says) |
| `FlowEffect.CostIsOwn` | dev/tls/T0/word.py:547-549 | The computed return cost is the least one: at most m if and only if some typing reaches no call that costs more than m |
| `FlowAnalysis.AnalyseFlow` | dev/tls/T0/word.py:509-602 | For words whose scans end under every table that this analysis can make of the present one, terminates through any recursion of words; success means accepted with everything it calls, failure that it was open already or is refused: its scan is blocked by a recursion or raises, or no typing keeps to the declared effect; every word finished on the way gets the least return cost, and the least effect or a declared one that it keeps to; a word analysed before changes nothing |
| `FlowAnalysis.AnalyseBody` | dev/tls/T0/word.py:517-602 | The body of the method for a word not analysed before; what it finishes is what the scans of the words say |
| `FlowAnalysis.ScanLoop` | dev/tls/T0/word.py:530-578 | The worklist loop in place follows the specified scan to its end |
| `FlowSound.RunIsSafe` | dev/tls/T0/word.py:509-602 | Any run of an accepted word, any number of steps, transitively through callees: it never touches values below its inputs, has at every offset exactly the recorded depth, returns only with the promised net effect and never if the effect is no-exit, and keeps within the return-stack figure |
| `FlowSound.StepIsSafe` | dev/tls/T0/word.py:530-578 | The step of that induction: an accepted word can only be stuck on an unwritten local |
| `FlowSound.ChainCost` | dev/tls/T0/word.py:547-549 | In every reachable stack of frames the cells in use stay within the figure of the word that was started |
| `FlowSound.StartIsSafe` | dev/tls/T0/word.py:517-528 | A start with at least the declared inputs is safe |
| `BuilderSpec.ApplyKeeps` | dev/tls/T0/word.py:146-380 | Every builder call that pops what was pushed and rolls or picks within the stack keeps the invariant: origins on the control-flow stack are unresolved jumps, destinations lie in the code, resolved jumps stay in range |
| `BuilderSpec.ApplyAllKeeps` | dev/tls/T0/word.py:146-380 | The same over every sequence of calls |
| `BuilderSpec.BuildGood` | dev/tls/T0/word.py:127-144 | A successful build has every jump resolved and in range, names for exactly the unresolved calls, and a last opcode that does not fall through |
| `BuilderSpec.BuiltExactly` | dev/tls/T0/word.py:127-380 | For every sequence of calls that succeed, at any depth and on an empty stack too: the word that build accepts is good (jumps in range, no control past the end, locals and names right) if and only if the calls hold as many then as ahead, ahead-if and ahead-if-not |
| `BuilderSpec.PopOnEmpty` | dev/tls/T0/word.py:177-212 | Popping an empty stack succeeds if and only if the call is a backward jump and the last element of the list is a destination left there; then always raises |
| `BuilderSpec.PickExactly` | dev/tls/T0/word.py:163-170 | A pick at any depth that succeeds keeps the invariant if and only if the element it copies is an origin or a destination |
| `BuilderSpec.RollExactly` | dev/tls/T0/word.py:155-161 | A roll at any depth that succeeds keeps the invariant if and only if it brings in only origins and destinations and drops no jump still to be resolved |
| `BuilderSpec.RollOnEmpty` | dev/tls/T0/word.py:155-161 | On an empty stack it always keeps it |
| `BuilderSpec.RollLeaves` | dev/tls/T0/word.py:155-161 | What is on the stack after a roll at any depth, negative ones and those that wrap round the list included |
| `BuilderSpec.UnderflowBuilds` | dev/tls/T0/word.py:177-180 | A concrete sequence of calls pops the empty stack and builds a word that is not good: its last jump is unresolved |
| `WordBuilder.BuilderObject.Do` | dev/tls/T0/word.py:146-380 | Every call on the object does what its specification says, or raises leaving the specified state |
| `WordBuilder.BuilderObject.CsRollBy` | dev/tls/T0/word.py:155-161 | The shifting loop of cs_roll |
| `WordBuilder.BuilderObject.CallByName` | dev/tls/T0/word.py:225-246 | Local variables are found before words; unknown names are left to be resolved |
| `WordBuilder.BuilderObject.BuildWord` | dev/tls/T0/word.py:127-144 | build on the object |
| `WordBuilder.Resolve` | dev/tls/T0/word.py:461-468 | Resolution succeeds if and only if every name is known, and replaces exactly the unresolved calls |
| `WordBuilder.ResolvedIsGood` | dev/tls/T0/word.py:461-468 | A built word with its names resolved meets what generation demands |
| `Structured.CallsAppend` | dev/tls/T0/t0comp.py:293-309 | The builder calls of a statement, locals read and written by name and words called by name, append exactly its code and restore the control-flow stack, nested to any depth; else, while and repeat go through cs-roll |
| `Structured.CallsAwait` | dev/tls/T0/t0comp.py:877-884 | The calls that wait for a name are exactly those of the words that the source names, in order |
| `Structured.BindResolves` | dev/tls/T0/word.py:461-468 | Looking up in the finished code the names at the calls that wait for them gives the code of the source with its names looked up |
| `StructuredRun.ExecRuns` | dev/tls/T0/word.py:308-380 | The code of a statement, wherever it stands, runs on the CPU as its big-step semantics says |
| `StructuredRun.WordRuns` | dev/tls/T0/word.py:127-144 | The same for a whole word with the ret that build adds only where the end can be reached |
| `StructuredRun.CallRuns` | dev/tls/T0/opcodes.py:85-92 | A call of an interpreted word runs its meaning and comes back |
| `StructuredRun.FallsOnlyIfOpen` | dev/tls/T0/word.py:137-141 | A statement that comes to its end is one that the builder counts as reachable at its end |
| `Semaphores.SemaphoreRuns` | dev/asyncio/primitives.c3:92-117 | Under every schedule: the value is the initial one less acquisitions plus releases, acquiring never makes it negative, and while tasks wait every free unit has a woken task coming for it |
| `Semaphores.NobodyIsForgotten` | dev/asyncio/primitives.c3:92-117 | When no woken task is left and something is free, nobody waits |
| `Semaphores.LockRefinesSemaphore` | dev/asyncio/primitives.c3:35-65 | Every run of a lock is a run of a semaphore that starts at one |
| `Semaphores.LockExcludes` | dev/asyncio/primitives.c3:35-65 | Every state of every run keeps the lock invariant: among tasks that release only what they hold there is at most one holder, and one exactly if the lock is locked |
| `Semaphores.OneHolder` | dev/asyncio/primitives.c3:35-65 | Two holders at one time are the same task, and an unlocked lock with tasks waiting has woken one |
| `Semaphores.ActDoes` | dev/asyncio/primitives.c3:92-117 | Acquiring takes a unit or waits behind all others, releasing gives a unit and wakes the longest waiting task, nothing else happens, and an action is refused exactly if it is not possible |
| `Semaphores.LockKeepsUp` | dev/asyncio/primitives.c3:35-65 | A lock can do exactly what its semaphore can, except for a release while it is not locked |
| `QueueRuns.QueueRunsKeep` | dev/asyncio/primitives.c3:214-290 | In every interleaving with barging: items leave in the order they entered, each task has put in what it asked to put in, in its order, but for the one item it waits with, and no wake-up is lost on either side |
| `QueueRuns.NeverStuck` | dev/asyncio/primitives.c3:214-290 | With nobody about to run, getters wait only at an empty queue and putters only at a full one; never both, if the queue can hold something |
| `QueueRuns.StuckWithoutRoom` | dev/asyncio/primitives.c3:214-290 | Some run ends with tasks waiting on both sides and nobody about to run if and only if the capacity is zero |
| `QueueRuns.NothingLost` | dev/asyncio/primitives.c3:214-290 | For each task that does not wait to put: exactly what it asked for has entered, and all that entered was taken or is inside |
| `QueueRuns.ActKeeps` | dev/asyncio/primitives.c3:204-290 | Each of put, get, put_nowait, get_nowait and the two resumptions keeps the invariant |
| `QueueRuns.ActDoes` | dev/asyncio/primitives.c3:204-290 | In every state of every run each of the six actions leads to what it is to do and to nothing else: the item goes in behind all others or the first one comes out, the longest waiting task of the other side is woken, or the task waits behind all others; the calls that do not wait leave everything as it is where the others would wait |
| `QueueRuns.ActPossible` | dev/asyncio/primitives.c3:204-290 | An action is refused exactly if its task is not the one to take it, or would have to wait in an array that is full |
| `Primitives.Lock.AcquireOnce` | dev/asyncio/primitives.c3:35-48 | One pass of the acquiring loop on the object, overflow of the waiter array included |
| `Primitives.Lock.Release` | dev/asyncio/primitives.c3:50-65 | Fails on an unlocked lock; otherwise unlocks and takes the longest waiting task out |
| `Primitives.Semaphore.AcquireOnce` | dev/asyncio/primitives.c3:92-104 | One pass of the acquiring loop |
| `Primitives.Semaphore.Release` | dev/asyncio/primitives.c3:106-117 | One more unit, and the longest waiting task |
| `Primitives.Waiters.WakeFirst` | dev/asyncio/primitives.c3:56-62 | The shifting loop takes out the first waiter and keeps the order of the others |
| `Primitives.Queue.PutOnce` | dev/asyncio/primitives.c3:214-242 | One pass of put on ring and waiter arrays |
| `Primitives.Queue.GetOnce` | dev/asyncio/primitives.c3:244-272 | One pass of get |
| `Rings.Ring.Push` | dev/asyncio/primitives.c3:231-233 | Adds at the end of the ring, wrapping round |
| `Rings.Ring.Pop` | dev/asyncio/primitives.c3:256-258 | Takes from the front of the ring |
| `EventLoop.ReadyQueue.Enqueue` | dev/asyncio/loop.c3:376-391 | A task is queued unless the loop closes, or it is to be freed, done or queued already; it is in the ring at most once and its flag says whether it is |
| `EventLoop.ReadyQueue.Dequeue` | dev/asyncio/loop.c3:393-401 | Takes the one that has been ready longest and clears its flag only |
| `EventLoop.TimerQueue.Push` | dev/asyncio/loop.c3:405-419 | Keeps heap order and adds exactly the new entry, or reports that the array is full |
| `EventLoop.TimerQueue.Pop` | dev/asyncio/loop.c3:421-440 | Keeps heap order and drops exactly the first entry |
| `EventLoop.TimerQueue.FireTimers` | dev/asyncio/loop.c3:442-453 | Takes exactly the entries with deadline up to now, in order of deadline, leaves exactly the later ones, and finishes exactly the futures that were pending and had a live entry taken; every future still has one entry at most, none of a freed one |
| `EventLoop.TimerQueue.CancelFuture` | dev/asyncio/loop.c3:455-468 | The first entry of the future is cancelled and refers to nothing; the heap order stays; the future is cancelled unless it is done, and freed; where every future had one entry at most, none refers to it any more and that stays so |
| `EventLoop.TimerQueue.AddTimer` | dev/asyncio/loop.c3:55-56 | A new future and its entry: every future still has one entry at most, and no entry refers to a freed one |
| `EventLoop.ReadyQueue.Register` | dev/asyncio/loop.c3:468-482 | A new task joins the loop; the queue stays as it is |
| `TimerHeap.RootIsEarliest` | dev/asyncio/loop.c3:446-447 | The first entry of a heap has the earliest deadline of all |
| `TimerHeap.StepUp` | dev/asyncio/loop.c3:411-418 | One exchange on the way up leaves only the parent position in question |
| `TimerHeap.StepDown` | dev/asyncio/loop.c3:427-439 | One exchange on the way down leaves only the child position in question |
| `TimerHeap.CompletesExactly` | dev/asyncio/loop.c3:442-453 | A future is completed if and only if it was pending and a live entry for it was taken |
| `TimerHeap.CompletesInOrder` | dev/asyncio/loop.c3:442-453 | Futures complete in order of deadline, each at most once |
| `TimerHeap.ForgottenExactly` | dev/asyncio/loop.c3:455-468 | After cancelling no entry refers to the future if and only if at most one did before |
| `TimerHeap.SingleForgotten` | dev/asyncio/loop.c3:455-468 | So it is forgotten where every future has one entry at most, and that is kept |
| `HandshakeAgreement.HandshakeAgrees` | dev/tls/ssl/ssl_hs_server_t0.h:1380-1452 | For any client and any server, every order of steps and every cut into records: whenever neither can step on what has reached it, whatever output is still held back, both are done with one session, one master secret, one transcript and empty channels, if and only if the two fit (the server negotiates, the client takes version, suite and chain, a session that one resumes is the session of the other, and a certificate request in a new session finds an answer that the server accepts and that gives one secret); otherwise one of them has failed |
| `HandshakeAgreement.HandshakeNeverFails` | dev/tls/ssl/ssl_hs_client_t0.h:1118-1196 | At no time during any run does either party of a fitting pair fail |
| `HandshakeAgreement.HandshakeEnds` | dev/tls/ssl/ssl_hs_client_t0.h:1118-1196 | For any client and any server there is a bound on the steps of the two that no schedule exceeds |
| `Negotiation.NegotiatesExactly` | dev/tls/ssl/ssl_hs_server_t0.h:1095-1213 | The server resumes exactly a cached session of 32 bytes of ID whose suite is offered and whose version the client reaches; otherwise a new session has the highest version that both maxima allow |
| `Negotiation.RefusesExactly` | dev/tls/ssl/ssl_hs_server_t0.h:1095-1213 | It refuses exactly on an unneeded fallback, on a client that is too old, without a common version, or when the policy finds no suite for a new session |
| `Negotiation.RangesMeet` | dev/tls/ssl/ssl_hs_server_t0.h:1107-1118 | Two ranges of versions meet exactly if that highest version lies in both, and then it is the highest of the versions in both |
| `Negotiation.FitsExactly` | dev/tls/ssl/ssl_hs_server_t0.h:1095-1213 | Which clients and servers fit, read off the two configurations: no fallback that was not needed, a client not too old for the server, and then either the resumable session that the client offers, or a new one whose version is the highest that both maxima allow, in the range of the client, with a suite that the policy finds and the client takes |
| `Negotiation.NoVersion` | dev/tls/ssl/ssl_hs_server_t0.h:1107-1110 | Without a version that both maxima allow nothing fits |
| `HandshakeAgreement.Resumes` | dev/tls/ssl/ssl_hs_server_t0.h:1393-1398 | A resumed session: both come to the end with one transcript |
| `HandshakeAgreement.NewSession` | dev/tls/ssl/ssl_hs_server_t0.h:1398-1447 | A new session comes to a common end, or to a server that has failed, as the pair suits or not |
| `HandshakeAgreement.CertifiedAnswer` | dev/tls/ssl/ssl_hs_client_t0.h:1166-1185 | A client asked for a certificate is accepted with an empty chain where that is tolerated, or with static key agreement |
| `HandshakeAgreement.BadAnswer` | dev/tls/ssl/ssl_hs_client_t0.h:1166-1185 | Every other answer ends with a failed server, a static secret that differs included; in particular a client with a signing chain never sends CertificateVerify |
| `HandshakeAgreement.KeptChainAgrees` | dev/tls/ssl/ssl_hs_client_t0.h:1166-1185 | Had writing the chain not used it up: the client would send CertificateVerify and the two would agree, if and only if the server finds that the key can sign or does not look at the chain |
| `HandshakeAgreement.NothingNegotiated` | dev/tls/ssl/ssl_hs_server_t0.h:1095-1213 | A server that finds no version or suite fails on the first message |
| `HandshakeAgreement.Incompatible` | dev/tls/ssl/ssl_hs_client_t0.h:676-752 | A client that does not go along with what the server chose (version, suite, chain, a session ID taken for a resumption, another master secret) fails, wherever it notices, while the server comes to wait |
| `HandshakeAgreement.KeyExchangePasses` | dev/tls/ssl/ssl_hs_server_t0.h:716-722 | The server sends ServerKeyExchange exactly when the client expects one |
| `Handshake.SuiteFields` | dev/tls/ssl/ssl_hs_common_t0.h:423-484 | The fields of a suite entry: one way of key exchange, a signing key exactly where it is ephemeral, TLS 1.2 exactly for a MAC other than HMAC with SHA-1 |
| `HandshakeFlows.FinishedAgrees` | dev/tls/ssl/ssl_hs_common_t0.h:1210-1260 | From the change of cipher on, the digest that one party writes is the one that the other computes |
| `HandshakeRuns.StepFollows` | dev/tls/ssl/ssl_hs_common_t0.h:850-860 | Whatever the other party and the buffers did meanwhile, a step of a party is the next act of its line |
| `HandshakeRuns.StillIsDone` | dev/tls/ssl/ssl_hs_common_t0.h:826-840 | When neither party can step on what has reached it, both are at the end of their lines: no deadlock, and none for want of a flush |
| `HandshakeRuns.RunStands` | dev/tls/ssl/ssl_hs_common_t0.h:610-660 | Every run under every fragmentation stays on the two lines |
| `HandshakeRuns.CloseKeeps` | dev/tls/ssl/ssl_hs_common_cc.h:260-263 | Closing a record early, at any byte, changes nothing that the reader can tell |
| `HandshakeRuns.CutsAnywhere` | dev/tls/ssl/ssl_hs_common_cc.h:260-263 | At any time the record being written may be closed: all that was written is on the wire in order, its last byte ends the record, and nothing else changes |
| `HelloRoundTrip.MessageRoundTrips` | dev/tls/ssl/ssl_hs_client_t0.h:367-542 | For every hello: the server reads back of the client's whole message version, random, session ID, suites, server name, hash pairs, curves, fragment length and protocol, uses up every nested limit and leaves what follows, if and only if it accepts the renegotiation data and the fragment length and the hello is not a padded one without other extensions; otherwise it fails (sections 7.4.1.2 and 7.4.1.4.1 of RFC 5246) |
| `HelloRoundTrip.HelloRoundTrips` | dev/tls/ssl/ssl_hs_server_t0.h:960-1094 | The same for the message body under its declared length |
| `HelloRoundTrip.PaddedFails` | dev/tls/ssl/ssl_hs_client_t0.h:395-415 | A padded hello without other extensions is refused by every server, whatever follows it |
| `HelloPeer.AnyHelloIsRead` | dev/tls/ssl/ssl_hs_server_t0.h:960-1094 | A hello of any client, with any suites, compression methods and extensions, known or not, in any order and number: the server recovers every field and what the extensions tell (the last host name that is not too long, the smaller fragment length, all supported pairs and curves, the best protocol), or fails exactly if the session ID is too long or it refuses an extension or the renegotiation suite |
| `HelloPeer.ExtensionRead` | dev/tls/ssl/ssl_hs_server_t0.h:1071-1092 | Each extension is read as what it tells or refused; an unknown one is passed over |
| `HelloPeer.PairsApart` | dev/tls/ssl/ssl_hs_common_t0.h:1088-1117 | Every supported pair of hash and signature has a bit of the 32-bit mask for itself |
| `HelloRoundTrip.DeclaredLength` | dev/tls/ssl/ssl_hs_client_t0.h:385-415 | The length in the header is the number of bytes that follow, if and only if the hello is not a padded one without other extensions |
| `HelloRoundTrip.PaddedLength` | dev/tls/ssl/ssl_hs_client_t0.h:394-408 | A hello that is too short by itself gets the length asked for, or the least that a padding extension allows; any other is not padded |
| `HelloRoundTrip.ExtensionLengths` | dev/tls/ssl/ssl_hs_client_t0.h:242-329 | The length worked out for each extension is the number of bytes it takes |
| `HelloRoundTrip.SniReads` | dev/tls/ssl/ssl_hs_server_t0.h:349-388 | The server name comes back (section 3 of RFC 6066) |
| `HelloRoundTrip.RenegReads` | dev/tls/ssl/ssl_hs_server_t0.h:431-466 | The renegotiation data are accepted if and only if both sides are in the same state with the same finished value |
| `HelloRoundTrip.FragReads` | dev/tls/ssl/ssl_hs_server_t0.h:395-424 | The smaller fragment length is kept; the announcement of 8192 bytes is refused |
| `HelloRoundTrip.PairBytesRead` | dev/tls/ssl/ssl_hs_common_t0.h:1088-1117 | The announced hash and signature pairs come back as exactly the supported ones |
| `HelloRoundTrip.CurveBytesRead` | dev/tls/ssl/ssl_hs_server_t0.h:492-517 | The curves come back, Curve25519 first or not |
| `HelloRoundTrip.AlpnRead` | dev/tls/ssl/ssl_hs_server_t0.h:525-575 | The offered protocols lead to the selection of the best one (section 3.1 of RFC 7301) |
| `HelloRoundTrip.BestIsLowest` | dev/tls/ssl/ssl_hs_server_t0.h:546-564 | The selection is the lowest place that an offered name has in the server's list |
| `HelloRoundTrip.PlaceIsFirst` | dev/tls/ssl/ssl_hs_common_cc.h:735-750 | A name's place is its first occurrence |
| `HelloReader.HelloArrives` | dev/tls/ssl/ssl_hs_server_t0.h:960-1094 | However the bytes of any hello are cut into records, the running server recovers the fields, hashes exactly the message and leaves the rest, if it accepts the hello and this is not a padded one without other extensions; and fails otherwise |
| `HelloReader.Engine.ReadClientHello` | dev/tls/ssl/ssl_hs_server_t0.h:960-1094 | The result depends on the bytes still to come and not on the records they come in (section 6.2.1 of RFC 5246); hash and bytes to come together stay the same |
| `HelloReader.Engine.ReadHandshakeHeader` | dev/tls/ssl/ssl_hs_common_t0.h:1056-1071 | Type and length of the next message, empty HelloRequests passed over |
| `HelloReader.Engine.Read8Nc` | dev/tls/ssl/ssl_hs_common_t0.h:850-860 | The next byte, waiting for records as often as needed |
| `HelloReader.Engine.ReadBlob` | dev/tls/ssl/ssl_hs_common_t0.h:911-921 | Exactly the next n bytes across records, within the limit |
| `HelloReader.Engine.ReadChunkNative` | dev/tls/ssl/ssl_hs_common_cc.h:366-387 | As much as the record still has |
| `HelloReader.Engine.SkipBlob` | dev/tls/ssl/ssl_hs_common_t0.h:928-936 | Passes over n bytes, hashing them |
| `HelloReader.Engine.ReadClientSni` | dev/tls/ssl/ssl_hs_server_t0.h:349-388 | Follows the specified reader of the server name list, errors included |
| `HelloReader.Engine.ReadClientFrag` | dev/tls/ssl/ssl_hs_server_t0.h:395-424 | Follows the specified reader of the fragment length |
| `HelloReader.Engine.ReadClientReneg` | dev/tls/ssl/ssl_hs_server_t0.h:431-466 | Follows the specified reader of the renegotiation data |
| `HelloReader.Engine.ReadClientSignatures` | dev/tls/ssl/ssl_hs_server_t0.h:473-485 | Follows the specified reader of the signature algorithms |
| `HelloReader.Engine.ReadListSignAlgos` | dev/tls/ssl/ssl_hs_common_t0.h:1088-1117 | Collects the bits of a list of pairs |
| `HelloReader.Engine.ReadSupportedCurves` | dev/tls/ssl/ssl_hs_server_t0.h:492-517 | Follows the specified reader of the curves |
| `HelloReader.Engine.ReadAlpnFromClient` | dev/tls/ssl/ssl_hs_server_t0.h:525-575 | Follows the specified reader of the protocol list |
| `HelloReader.Engine.TestProtocolName` | dev/tls/ssl/ssl_hs_common_cc.h:735-750 | The first place of a name, or -1 |
| `HelloReader.Engine.ReadAllExtensions` | dev/tls/ssl/ssl_hs_server_t0.h:1071-1092 | The loop over the extensions |
| `HelloWriter.Output.WriteClientHello` | dev/tls/ssl/ssl_hs_client_t0.h:367-542 | The bytes written and hashed are exactly the message, whatever room the buffer has at what time |
| `HelloWriter.Output.Write8` | dev/tls/ssl/ssl_hs_common_t0.h:956-962 | One byte, waiting for room as often as needed |
| `HelloWriter.Output.WriteBlob` | dev/tls/ssl/ssl_hs_common_t0.h:994-1002 | All bytes in order, in pieces as there is room |
| `HelloWriter.Output.WriteBlobChunk` | dev/tls/ssl/ssl_hs_common_cc.h:448-466 | As much as there is room for |
| `HelloWriter.Output.WriteHashes` | dev/tls/ssl/ssl_hs_client_t0.h:340-352 | The pairs in the client's order of preference |
| `ServerMessages.WriteCertificateRequest` | dev/tls/ssl/ssl_hs_server_t0.h:785-825 | The message with the lengths that the dry run counted, for any names, through any pad |
| `ServerReadBack.RequestReadBack` | dev/tls/ssl/ssl_hs_server_t0.h:785-825 | A reader of nested vectors (section 4.3 of RFC 5246) gets types, hash pairs and names back and stops behind the message, if and only if the list of names is shorter than 65536 bytes |
| `ServerMessages.WriteListAuth` | dev/tls/ssl/ssl_hs_server_t0.h:609-630 | The dry run counts exactly what the writing run writes |
| `ServerMessages.WriteListSignHash` | dev/tls/ssl/ssl_hs_server_t0.h:673-695 | The same for the list of hash and signature pairs |
| `ServerMessages.WriteCertificate` | dev/tls/ssl/ssl_hs_common_t0.h:1276-1300 | The message with the lengths added up beforehand, for any chain, which is used up by sending it |
| `ServerReadBack.CertificateReadBack` | dev/tls/ssl/ssl_hs_common_t0.h:1276-1300 | The chain is read back if and only if its list with the three bytes of length is shorter than 2^24 bytes |
| `ServerMessages.WriteChain` | dev/tls/ssl/ssl_hs_common_cc.h:587-626 | The certificates go out in order, each with its length, piece by piece |
| `ServerMessages.ChainCursor.TotalLength` | dev/tls/ssl/ssl_hs_common_cc.h:559-571 | The total is the length of what will be written |
| `ServerMessages.WriteServerHello` | dev/tls/ssl/ssl_hs_server_t0.h:835-929 | The message with its computed lengths |
| `ServerReadBack.AnswerReadBack` | dev/tls/ssl/ssl_hs_server_t0.h:835-929 | Version, random, session ID, suite, every extension and the selected protocol are read back if and only if the protocol name is shorter than 256 bytes and version and suite fit 16 bits |
| `ServerMessages.AnswerDeclared` | dev/tls/ssl/ssl_hs_server_t0.h:835-870 | So are the lengths of its extensions |
| `ServerMessages.WriteServerKeyExchange` | dev/tls/ssl/ssl_hs_server_t0.h:715-778 | The message with its computed length |
| `ServerReadBack.KeyExchangeReadBack` | dev/tls/ssl/ssl_hs_server_t0.h:715-778 | Curve, point, algorithms and signature are read back if and only if the point is shorter than 256 bytes, the signature shorter than 65536, and the numbers fit their fields |
| `SlreRun.Match` | test/regex/slre.c:365-436 | Always returns: an error exactly if the scan finds one, otherwise the one result that `SlreRun.OneResult` leaves, the end of a substring in the language of one alternative; for exhaustive alternatives, optional ops included that what follows is clear of, there is a result if and only if there is such a substring, unless an earlier alternative can take no characters and the last one does not make up for it; on the empty subject the last alternative decides |
| `SlreRun.OneResult` | test/regex/slre.c:302-334 | Pattern and subject determine the result: leftmost place, first alternative that answers with a character or else the last one, greedy repetitions the greatest and lazy ones the least number behind which the rest is found |
| `SlreRun.CompleteExactly` | test/regex/slre.c:302-334 | For exhaustive alternatives: without an anchor in front, every search that finds nothing is right if and only if the last alternative can take no characters or no other one can; with one, it is right if the last alternative is found everywhere or no other one can take no characters, and not if an early one can and the last one cannot |
| `SlreRun.StarBarMisses` | test/regex/slre.c:302-319 | The pattern with the alternatives a* and b finds nothing in c, where the first one matches the empty string |
| `SlreRun.StarForgets` | test/regex/slre.c:243-249 | The result of a*a in aab is 1, although the first two characters match: the star falls back |
| `SlreRun.Matcher.Scan` | test/regex/slre.c:365-421 | Succeeds if and only if every escape is complete and known and there are at most 100 divisions; the recorded branches are exactly the division points |
| `SlreRun.Matcher.Doh` | test/regex/slre.c:302-319 | The first alternative that is found with at least one character answers, or the last one; those before it were found with the empty string only, or not at all; a failure says that the last one was not found |
| `SlreRun.Matcher.Baz` | test/regex/slre.c:321-334 | The leftmost place where the alternatives give a match, or none anywhere; only the start if the pattern is anchored |
| `SlreMatcher.Bar` | test/regex/slre.c:183-300 | Recursive matcher with its loops: it terminates, finds something if and only if the specification does, and what it returns is the answer, a match of that length |
| `SlreMatcher.Repeat` | test/regex/slre.c:220-255 | The greedy and lazy loop of star and plus, with its last attempt without any repetition, answers with the number of repetitions that is preferred |
| `SlreMatcher.RepeatLoop` | test/regex/slre.c:231-249 | What the loop variables say of the numbers of repetitions tried when the loop ends: greedy has found nothing behind more, lazy nothing behind fewer |
| `SlreMatcher.MatchOp` | test/regex/slre.c:111-157 | One op against one character |
| `SlreSpec.SpacesAre` | test/regex/slre.c:111-157 | Which characters are white space |
| `SlreSpec.DigitsAre` | test/regex/slre.c:101-107 | Which characters are digits, and their values |
| `SlreSpec.HexLettersAre` | test/regex/slre.c:101-107 | Which characters are hexadecimal letters, and their values |
| `SlreSpec.CapitalsAre` | test/regex/slre.c:105-107 | Which characters lose their case |
| `SlreSpec.FoundIsMatch` | test/regex/slre.c:183-300 | Whatever is found is a match in the language of the pattern |
| `SlreSpec.AnsweredIsMatch` | test/regex/slre.c:183-300 | The answer is one of the matches |
| `SlreSpec.OneAnswer` | test/regex/slre.c:220-255 | There is only one answer |
| `SlreSpec.FoundIsAnswered` | test/regex/slre.c:183-300 | Whatever is found has an answer |
| `SlreSpec.StarIsGreedy` | test/regex/slre.c:231-249 | A greedy star takes the greatest number of repetitions behind which the rest is found, if and only if it does not fall back or had none to take |
| `SlreSpec.MatchIsFound` | test/regex/slre.c:183-300 | Without a plus after an anchor, and where an optional op is an anchor, stands last, or takes no character that what follows can start with, every match is found |
| `SlreSpec.ClearSkips` | test/regex/slre.c:203-206 | Items that take no character of an op, up to one that must take a character, match behind such a character whatever they match in front of it |
| `SlreSpec.OptionalExactly` | test/regex/slre.c:203-206 | An optional op in front hides no match, on any subject, if and only if what follows matches behind a character that the op takes wherever it matches in front of one |
| `SlreRun.OptionalMisses` | test/regex/slre.c:203-206 | a?ab finds nothing in ab, which it matches |

## Left out

T0

- `EndToEnd.SourceToMachine`: reading a local variable before it is written gives None on the CPU and whatever lies in memory on the machine; the model stops there, and the theorems name it as the only way to be stuck.
- `FlowAnalysis.AnalyseFlow`: requires, under every table that this analysis can make of the present one, that a word that can be typed can be typed without reaching an endless chain of jumps; on the others the method does not return (`FlowScan.ScanDecides`).
- `FlowSound.RunIsSafe`: bounds the return stack only; the data stack figure of the source does not count what native words push (word.py:93) and is no bound.
- `Simulation.StepSimulates`: native words are functions on 32-bit cells that respect their stack effect, taken to be what their C code does; the machine words for roll, pick, execute and co are not modelled.
- `CpuMachine.CpuObject.Pop`: asks for a value on the stack; without one the source reads another element of its buffer through a negative index, which cannot happen in an accepted word (`FlowSound.StepIsSafe`).
- `CpuMachine.CpuObject.Peek`: asks for a depth within the stack, for the same reason.
- `CpuMachine.CpuObject.Rot`: asks for a depth within the stack.
- `CpuMachine.CpuObject.NRot`: asks for a depth within the stack.
- `CpuMachine.CpuObject.Exit`: asks for a frame, without which the source fails on None.
- `CpuMachine.CpuObject.GetLocal`: asks for a frame and a local of it, without which the source raises; the opcodes of a built word have them (`WordBuilder.ResolvedIsGood`).
- `CpuMachine.CpuObject.PutLocal`: asks for a frame and a local of it.
- `CpuMachine.CpuObject.Step`: asks that the step has a meaning, which an accepted word guarantees up to unwritten locals (`EndToEnd.AcceptedRuns`).
- `EndToEnd.ToolsMakeReady`: asks that the image fits 16-bit addresses and counts; generation does not check it.
- `GenerateMachine.GenerateImage`: starts from the sorted list of reachable words; collecting them, data blocks, and interpreted words that have C code of their own are not modelled. Addresses of 64 KiB and more are cut to 16 bits, and the theorems about the machine require that none is.
- `BuilderSpec.ApplyKeeps`: asks that a pop finds an element and that a roll or pick stays within the stack; what the other calls do is decided by `BuilderSpec.PopOnEmpty`, `BuilderSpec.PickExactly` and `BuilderSpec.RollExactly`.
- `BuilderSpec.ApplyAllKeeps`: asks the same of every call; `BuilderSpec.BuiltExactly` asks nothing of them.
- `Structured.CallsAppend`: covers if, ifnot, else, then, begin, again, until, untilnot, while and repeat; code that uses cs-roll and cs-pick freely is covered by the builder invariant only.
- Lexing, strings, C code capture, constants that point into the data block, and the writing of files.

TLS

- `HandshakeAgreement.HandshakeAgrees`: messages stand for their bytes and each has any length; cryptography is ideal (a key exchange carries what both sides derive the master secret from, Finished carries the transcript it digests), certificates and signatures are accepted or not by functions of the configuration. HelloRequest, alerts, closing and renegotiation are left out, and the channels hold any amount of data.
- `Handshake.Length`: the number of bytes of a message in the handshake model is any number from four on, one for the change of cipher.
- `HelloReader.Engine.ReadClientHello`: ends where the fields are read; the choice of version, session and suite that follows is in the handshake model, the filtering of suites in neither.
- `HelloWriter.Output.WriteClientHello`: takes the configured suites to be supported ones; the random bytes are a field. The extensions are taken to fit their two bytes of length, which only a list of protocol names beyond 60000 bytes breaks.
- `ServerMessages.WriteServerKeyExchange`: the signature is given; making it and choosing the curve are left out.
- The client's reading of ServerHello extensions, X.509, key derivation and the encryption of records.

asyncio

- `Semaphores.SemaphoreRuns`: the value is an unbounded integer, not one of 32 bits.
- `Primitives.Queue.PutOnce`: an operation that waits is cut at its yield, and the woken task is an answer of the call; that the loop runs tasks in the order of the ready queue is one of the schedules.
- `EventLoop.TimerQueue.FireTimers`: callbacks of a completed future run afterwards.
- Cancellation of tasks, closing of the loop, events and channels, input and output.

SLRE

- `SlreRun.Match`: patterns have no brackets and no sets, and at most one anchor to the start, in front and without a quantifier right behind it, which the source accepts (`^+a` matches a); the sorting of branches by bracket is the identity then and is left out, as are captures; which of its negative codes a failed search returns is not said.
- `SlreRun.Matcher.Scan`: the same patterns; brackets are counted in the source only.
- `SlreMatcher.Bar`: the same patterns.
- `SlreSpec.MatchIsFound`: leaves out a plus after `$`, which is never found although `$` matches at the end, and optional ops whose characters what follows can start with.
- `SlreSpec.OptionalExactly`: is about an optional op in front; what stands before it is not considered.
- `SlreRun.CompleteExactly`: does not decide patterns with an anchor in front where an early alternative can take no characters and the last one can do so only at the end of the subject (`^a*|$`); whether something is missed then depends on which characters the early ones take.
