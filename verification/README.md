# Core algorithms of skynet and its libraries, modelled and proved

skynet is a lightweight actor framework in C: services with a message queue each, a pool of worker
threads, a timer thread, a socket thread, and Lua libraries. This project models its intricate parts
in Dafny and proves what they promise. Sources are cited relative to the repository root.

| modules | part of the system |
|---|---|
| LpegTree, LpegVm, LpegCharset, LpegGen, LpegSim, LpegLayout, LpegCompiler, LpegPeephole, LpegPattern, LpegPredictive | LPeg: analyses, character sets, code generator with all its optimisations, jump peephole, backtracking machine |
| LpegGrammar, LpegTreeFix | LPeg: the checks that make grammars terminate, the in-place adjustment of the tree |
| TimingWheel | the hierarchical timing wheel |
| MessageQueue, DispatchProtocol, ServiceLife, DispatchCalls | message queues, the global list, and the protocol between workers, senders, killers and creators of services |
| SocketWrite, SocketFlush, SocketRace, SocketOrder, SocketSenders, SocketClose | the TCP write path: two priority lists, direct writes by workers, closing, the order on the wire |
| BigintValue, Bigint, BigintDivision, BigintDigits | the long integers of the number conversion in lua-cjson |
| RwlockStm, StmReads | the spin read-write lock and the shared copies it protects |
| SharedTable | the shared read-only tables with their two-pass hash part |
| Netpack | cutting byte streams into packages |
| ModExp | the key exchange in wrapping 64-bit arithmetic |
| SeriFormat, SeriBlocks | the serializer of messages: format, and blocks and cursors |

How the parts are stated:

- What works by changing memory is a class or a method on arrays; its contract ties the new state to
  a specification function, and the properties are proved of that function. What is concurrent is a
  state machine whose steps are the lock regions or single accesses of the source, and the properties
  hold after every step of every run, for any number of threads.
- The wheel is compared with a list of deadlines that never wraps. The pattern compiler is compared
  with PEG semantics: `Match` is defined by recursion on the pattern, and uses the analyses only for
  what LPeg refuses to build, repetitions of nullable patterns and look-behind of varying length. Long
  integers are compared with the integers their words denote.
- Steps of the concurrent models are sequentially consistent.

## What the proofs found

- **A direct write can interrupt a message while the socket closes.** `force_close` frees both lists
  before it takes the socket's lock. A worker that sees the lists empty in between writes its message
  directly, behind the first part of a begun message that was just freed. `SocketRace.DisturbedRun` is such a
  run, and `SocketRace.UninterruptedExactly` says that nothing else ever interrupts a message. Messages
  are not lost or doubled even then (`EveryMessageOnce`), and no write goes to a closed descriptor
  (`WritesAreOpen`).
- **A graceful close can cut a message off.** `close_socket` looks at `dw_buffer` without the lock. If a
  worker has written a part of its message but has not put the rest aside yet, nothing seems to be left,
  and closing throws the rest away (`SocketClose.LostRun`). Nothing else is ever lost by a graceful close
  (`NothingLostExactly`).
- **`powmodp` returns P for P to the power 1.** It reduces the base only when it is greater than P, and
  the first power is returned as it is. This is the only exception (`ModExp.PowerExactly`), and the key
  exchange never meets it (`ExchangedIsLegal`).
- **`quorem` corrects its estimate once.** In general its digit is the lesser of the quotient and the
  estimate plus one, so it is not always the quotient: 5 / 1 gives 3 (`BigintDivision.ShortDigit`). It is
  the quotient exactly when that is at most the estimate plus one (`DigitExactly`), so whenever the top
  word of the divisor exceeds the estimate, which the shift of the divisor guarantees for every dividend.
- **The comparison of copies misses the stores between two reads that gave nothing.** A reader keeps no
  copy before its first read and after a close. If the object is closed, its next read compares NULL with
  NULL and reports no change. In every other case the comparison is exact (`RwlockStm.NoAba`).
- **A negative array size is read as an empty array part**, since the size is cut to an `int`
  (`SeriFormat.NegativeSize`).
- **The first `timer_execute` of an update never finds a timer.** Its comment speaks of a timeout of 0,
  but those never reach the wheel (`TimingWheel.NothingDue`, `Wheel.RequestTimeout`).
- **The left-recursion check is exact.** It counts rules on a path instead of looking for one that
  repeats, but with at most 250 rules it rejects exactly the left-recursive grammars
  (`LpegGrammar.FirstPassExact`), and both checks together exactly those that
  have such a rule or a loop over something that may be empty (`AcceptedExactly`).
- **The hash part of a shared table has no spare slot**, and still every lookup terminates and the
  assertion of the second pass holds: there is an empty slot while a key is missing.

## Model

| member | source | states |
|---|---|---|
| `LpegTree.NoFailSound` | meiru/skynet/3rd/lpeg/lpcode.c:196-230 | a pattern that `checkaux` calls nofail matches on every subject from every position |
| `LpegTree.Match` | meiru/skynet/3rd/lpeg/lpcode.c:177-195 | a match never moves back, and one that consumes nothing is possible only for a pattern that `checkaux` calls nullable |
| `LpegTree.FixedLenSound` | meiru/skynet/3rd/lpeg/lpcode.c:236-273 | when `fixedlen` is not negative, every match consumes exactly that many characters |
| `LpegTree.GetFirstSound` | meiru/skynet/3rd/lpeg/lpcode.c:294-370 | a next character outside the first set makes the pattern fail, or match empty in front of something outside the follow set; at the end of the subject it fails unless the function says that it accepts the empty string |
| `LpegTree.NoFailImpliesNullable` | meiru/skynet/3rd/lpeg/lpcode.c:177-230 | nofail patterns are nullable |
| `LpegTree.NoFailFirstIsFull` | meiru/skynet/3rd/lpeg/lpcode.c:294-370 | the first set of a nofail pattern, followed by anything, is full |
| `LpegTree.HeadFailNotEmpty` | meiru/skynet/3rd/lpeg/lpcode.c:294-399 | for a headfail pattern `getfirst` never reports the empty string, whatever follows |
| `LpegTree.HeadFailExact` | meiru/skynet/3rd/lpeg/lpcode.c:377-399 | a headfail pattern succeeds if and only if the next character is in its first set |
| `LpegTree.NullableOnEmpty` | meiru/skynet/3rd/lpeg/lpcode.c:177-230 | for patterns without predicates nullable is exact: a pattern is called nullable if and only if it matches the empty subject |
| `LpegTree.NoFailOnEmpty` | meiru/skynet/3rd/lpeg/lpcode.c:177-230 | so is nofail without not predicates and look-behind: a pattern is called nofail if and only if it matches the empty subject, so whatever is not called so fails somewhere |
| `LpegTree.FixedLenExact` | meiru/skynet/3rd/lpeg/lpcode.c:236-273 | a length that `fixedlen` returns is the only one that the structure of the pattern allows, and when it returns -1 there are two |
| `LpegTree.FirstExact` | meiru/skynet/3rd/lpeg/lpcode.c:294-370 | without predicates the first set holds exactly what some way through the pattern begins with, and the follow set if the pattern is nullable; and the empty string is accepted by nullable patterns only |
| `LpegPredictive.PredictiveCode` | meiru/skynet/3rd/lpeg/lpcode.c:665-837 | a pattern in which the next character decides every choice and repetition, and whose predicates are headfail or of fixed length, is compiled without any instruction that saves a position to come back to |
| `LpegVm.SpanEnd` | meiru/skynet/3rd/lpeg/lpvm.c:225-232 | a span stops at the first character outside its set |
| `LpegVm.Span` | meiru/skynet/3rd/lpeg/lpvm.c:225-232 | the loop of ISpan computes that position |
| `LpegVm.Execute` | meiru/skynet/3rd/lpeg/lpvm.c:167-294 | the opcode switch makes exactly one transition of the machine: same next instruction, position and backtrack stack, same end |
| `LpegVm.Interpret` | meiru/skynet/3rd/lpeg/lpvm.c:149-294 | on code that halts for the subject, the interpreter loop terminates and returns the outcome the transitions reach |
| `LpegVm.HaltUnique` | meiru/skynet/3rd/lpeg/lpvm.c:167-294 | code that halts has one outcome for a subject and position |
| `LpegCharset.CharsetTypeOf` | meiru/skynet/3rd/lpeg/lpcode.c:41-82 | the loop over the 32 bytes, with its counting, its early exits and its bit tests, classifies exactly the set that the bytes stand for |
| `LpegCharset.FindBit` | meiru/skynet/3rd/lpeg/lpcode.c:60-69 | the three masks and shifts find the number of the only bit of a byte |
| `LpegCharset.OneBitIs` | meiru/skynet/3rd/lpeg/lpcode.c:58-60 | a byte b with b & (b - 1) == 0 that is not 0 has one bit, and the search finds it |
| `LpegCharset.Disjoint` | meiru/skynet/3rd/lpeg/lpcode.c:97-100 | no byte has a bit in common exactly when no character is in both sets |
| `LpegCharset.Equal` | meiru/skynet/3rd/lpeg/lpcode.c:92-95 | the bytes agree exactly when the sets are equal |
| `LpegSim.Sim` | meiru/skynet/3rd/lpeg/lpcode.c:919-944 | code generated for a pattern, placed anywhere, simulates the PEG relative to its context: with `fl`, `opt` and `tt` as assumptions about the surrounding code, it leaves at its end where the PEG does, and it may fail after a match only when the next character cannot start what follows |
| `LpegSim.SimCharset` | meiru/skynet/3rd/lpeg/lpcode.c:588-605 | a set test may be replaced by IAny when the dominating test `tt` is for the same set |
| `LpegSim.SimSeq` | meiru/skynet/3rd/lpeg/lpcode.c:899-912 | the first part of a sequence may take the first set of the second part as its follow set, and its test still protects the second part when it consumes nothing |
| `LpegSim.SimChoiceTest` | meiru/skynet/3rd/lpeg/lpcode.c:682-693 | with disjoint first sets, or a headfail first part, one test decides a choice without a backtrack entry |
| `LpegSim.SimOptional` | meiru/skynet/3rd/lpeg/lpcode.c:694-698 | an optional inside an optional may move the choice of the outer one by a partial commit |
| `LpegSim.SimChoice` | meiru/skynet/3rd/lpeg/lpcode.c:699-711 | the general choice |
| `LpegSim.SimRep` | meiru/skynet/3rd/lpeg/lpcode.c:777-813 | every form of a repetition: span, test loop, and loop with partial commits |
| `LpegSim.SimRepTest` | meiru/skynet/3rd/lpeg/lpcode.c:785-794 | a repetition of a headfail pattern, or of one disjoint from what follows, needs no backtrack entry |
| `LpegSim.SimRepChoice` | meiru/skynet/3rd/lpeg/lpcode.c:795-811 | a repetition with a choice on the stack, its own or the one of the enclosing optional |
| `LpegSim.SimRepLoop` | meiru/skynet/3rd/lpeg/lpcode.c:795-811 | the loop with partial commits always ends where the greedy repetition of the PEG ends, and pops its entry |
| `LpegSim.SimNot` | meiru/skynet/3rd/lpeg/lpcode.c:823-837 | the not predicate in both forms, test only and choice with failtwice |
| `LpegSim.SimAnd` | meiru/skynet/3rd/lpeg/lpcode.c:720-736 | the and predicate in both forms, stepping back over a fixed length and back commit |
| `LpegSim.SimBehind` | meiru/skynet/3rd/lpeg/lpcode.c:659-663 | look-behind fails at once when there is not enough before the position |
| `LpegSim.ProgramCorrect` | meiru/skynet/3rd/lpeg/lpcode.c:1001-1010 | the unoptimised program of a pattern reaches IEnd exactly at the position of the PEG match, and gives up exactly when the PEG fails, on every subject from every position |
| `LpegLayout.GenLaid` | meiru/skynet/3rd/lpeg/lpcode.c:919-944 | generated code has no gaps, every label is the start of an instruction or the end, and a jump goes forward, or back to something that does not jump back itself |
| `LpegLayout.ProgramClosed` | meiru/skynet/3rd/lpeg/lpcode.c:1001-1010 | so in a whole program every label is an instruction |
| `LpegCompiler.CompileState.AddInstruction` | meiru/skynet/3rd/lpeg/lpcode.c:494-499 | appends one instruction and returns its address |
| `LpegCompiler.CompileState.AddOffsetInst` | meiru/skynet/3rd/lpeg/lpcode.c:505-510 | appends an instruction with an open offset |
| `LpegCompiler.CompileState.JumpToThere` | meiru/skynet/3rd/lpeg/lpcode.c:543-546 | sets one offset and leaves everything else; no instruction means no change |
| `LpegCompiler.CompileState.JumpToHere` | meiru/skynet/3rd/lpeg/lpcode.c:552-554 | sets one offset to the current end |
| `LpegCompiler.CompileState.AddCharset` | meiru/skynet/3rd/lpeg/lpcode.c:573-580 | appends the slots of a set |
| `LpegCompiler.CompileState.CodeChar` | meiru/skynet/3rd/lpeg/lpcode.c:561-567 | appends IChar, or IAny behind a test for the same character |
| `LpegCompiler.CompileState.CodeCharset` | meiru/skynet/3rd/lpeg/lpcode.c:588-605 | appends the fragment of a set, by its classification and the dominating test |
| `LpegCompiler.CompileState.CodeTestset` | meiru/skynet/3rd/lpeg/lpcode.c:614-635 | appends the test of a first set, none when the pattern accepts the empty string |
| `LpegCompiler.CompileState.CodeChoice` | meiru/skynet/3rd/lpeg/lpcode.c:677-712 | leaves the code it found and appends the fragment that is proved correct for a choice, all offsets patched |
| `LpegCompiler.CompileState.CodeRep` | meiru/skynet/3rd/lpeg/lpcode.c:777-813 | the same for a repetition |
| `LpegCompiler.CompileState.CodeNot` | meiru/skynet/3rd/lpeg/lpcode.c:823-837 | the same for the not predicate |
| `LpegCompiler.CompileState.CodeAnd` | meiru/skynet/3rd/lpeg/lpcode.c:720-736 | the same for the and predicate |
| `LpegCompiler.CompileState.CodeSeq1` | meiru/skynet/3rd/lpeg/lpcode.c:899-912 | the same for the first part of a sequence, and which test dominates the second part |
| `LpegCompiler.CompileState.CodeGen` | meiru/skynet/3rd/lpeg/lpcode.c:919-944 | the generator appends, in place and by patching, exactly the fragment for its context |
| `LpegPeephole.FinalTarget` | meiru/skynet/3rd/lpeg/lpcode.c:641-645 | following jumps terminates on code the compiler made, also while the pass is rewriting it, and ends on an instruction that is no jump |
| `LpegPeephole.OptimizeAt` | meiru/skynet/3rd/lpeg/lpcode.c:956-995 | one instruction of the pass: relabelling, or replacing a jump by what it leads to, keeps the refinement and finishes this instruction |
| `LpegPeephole.Peephole` | meiru/skynet/3rd/lpeg/lpcode.c:956-995 | the pass leaves code that refines the code it found, in which no label points at a jump, and which still ends in IEnd |
| `LpegPeephole.PeepSim` | meiru/skynet/3rd/lpeg/lpcode.c:956-995 | code refined this way halts exactly like the original from every related state |
| `LpegPeephole.PeepholeCorrect` | meiru/skynet/3rd/lpeg/lpcode.c:956-995 | the outcome of `match` is unchanged on every subject |
| `LpegPattern.Compile` | meiru/skynet/3rd/lpeg/lpcode.c:1001-1010 | the compiled and optimised code of any capture-free and call-free pattern decides every subject from every position as the PEG does |
| `LpegPattern.MatchPattern` | meiru/skynet/3rd/lpeg/lpvm.c:149-294 | compiling and running terminates and returns the result of the PEG |
| `LpegGrammar.MoreFuel` | meiru/skynet/3rd/lpeg/lptree.c:952-969 | an evaluation that finishes with some bound on its depth gives the same result with any larger one |
| `LpegGrammar.EvalIsMatch` | meiru/skynet/3rd/lpeg/lpvm.c:149-294 | for expressions without calls the evaluation of grammars is the matching of trees |
| `LpegGrammar.VerifyUniform` | meiru/skynet/3rd/lpeg/lptree.c:1002-1042 | the verdict of `verifyrule` does not depend on the rules already passed, and `nb` only adds to the result |
| `LpegGrammar.NullableIn` | meiru/skynet/3rd/lpeg/lptree.c:1002-1042 | the nullability that the first pass computes on the way is what it returns |
| `LpegGrammar.EmptyMatchIsNullable` | meiru/skynet/3rd/lpeg/lptree.c:952-969 | a match that consumes nothing is possible only for an expression that the first pass calls nullable, calls included |
| `LpegGrammar.Termination` | meiru/skynet/3rd/lpeg/lptree.c:952-1042 | evaluation terminates by the lexicographic measure of remaining input, room for left calls and size of the expression |
| `LpegGrammar.AcceptedTerminates` | meiru/skynet/3rd/lpeg/lptree.c:1045-1063 | every used rule of a grammar that both passes accept terminates on every subject from every position |
| `LpegGrammar.RejectedChain` | meiru/skynet/3rd/lpeg/lptree.c:977-1042 | when `verifyrule` rejects, there is a chain of left calls as long as the room there was, and it is the list of passed rules |
| `LpegGrammar.BoundedChain` | meiru/skynet/3rd/lpeg/lptree.c:1002-1042 | when it accepts, no chain of left calls is longer than the room there was |
| `LpegGrammar.FirstPassExact` | meiru/skynet/3rd/lpeg/lptree.c:1002-1063 | with at most 250 rules the first pass rejects a grammar if and only if a used rule is left recursive; which parts may be empty on the way is defined by derivations, not by the pass |
| `LpegGrammar.NullableExactly` | meiru/skynet/3rd/lpeg/lptree.c:1002-1042 | for an expression the pass accepts, what it returns as nullable is exactly what has a derivation of the empty string |
| `LpegGrammar.SecondPassExact` | meiru/skynet/3rd/lpeg/lptree.c:952-969 | once left recursion is excluded, the second pass rejects an expression if and only if a repetition somewhere in it has a body that may be empty |
| `LpegGrammar.AcceptedExactly` | meiru/skynet/3rd/lpeg/lptree.c:1045-1063 | with at most 250 rules a grammar is accepted if and only if no used rule is left recursive and no used rule contains such a repetition |
| `LpegTreeFix.MoveDown` | meiru/skynet/3rd/lpeg/lptree.c:78-90 | the overlapping block move of the rotation, as `memmove` does it |
| `LpegTreeFix.RotateInPlace` | meiru/skynet/3rd/lpeg/lptree.c:78-90 | one turn of the loop rotates the tree in the array and leaves the cells around it |
| `LpegTreeFix.CorrectAssociativity` | meiru/skynet/3rd/lpeg/lptree.c:78-90 | the loop terminates, keeps the number of cells, touches no cell outside the tree, and leaves a root whose left child has another tag |
| `LpegTreeFix.FinalFix` | meiru/skynet/3rd/lpeg/lptree.c:100-126 | the whole tree is adjusted in place, in its own cells |
| `LpegTreeFix.FixChildren` | meiru/skynet/3rd/lpeg/lptree.c:100-126 | the children are adjusted each in its own cells |
| `LpegTreeFix.Reassociate` | meiru/skynet/3rd/lpeg/lptree.c:78-90 | the loop ends with a left child that has another tag, and loses no node |
| `LpegTreeFix.RotateSame` | meiru/skynet/3rd/lpeg/lptree.c:78-90 | one rotation changes no match and no analysis |
| `LpegTreeFix.ReassociateSame` | meiru/skynet/3rd/lpeg/lptree.c:78-90 | the loop denotes the same PEG for sequences and for choices |
| `LpegTreeFix.FixedSame` | meiru/skynet/3rd/lpeg/lptree.c:100-126 | the adjusted tree is right nested everywhere and denotes the same PEG |
| `TimingWheel.FindLevel` | meiru/skynet/skynet-src/skynet_timer.c:82-91 | the loop over masks finds the lowest level whose range the deadline shares with the clock |
| `TimingWheel.SlotUnwrapped` | meiru/skynet/skynet-src/skynet_timer.c:74-93 | for deadlines less than 2^31 ahead, wrapping both 32-bit numbers does not change the list, also across 0 |
| `TimingWheel.CascadeAt` | meiru/skynet/skynet-src/skynet_timer.c:118-139 | the loop of the shift moves the list of the first digit of the clock that is not 0 |
| `TimingWheel.TickSlot` | meiru/skynet/skynet-src/skynet_timer.c:118-139 | one tick changes the canonical list of exactly the nodes in the moved list, and those go to lower levels |
| `TimingWheel.TickBuckets` | meiru/skynet/skynet-src/skynet_timer.c:108-139 | a cascade keeps every list canonical and in the order of adding: what it moves down goes into lists that were empty |
| `TimingWheel.DueBucket` | meiru/skynet/skynet-src/skynet_timer.c:159-170 | the near list of the current moment holds exactly what is due now, in the order of adding |
| `TimingWheel.LaterBuckets` | meiru/skynet/skynet-src/skynet_timer.c:159-170 | clearing that list drops what was due and nothing else |
| `TimingWheel.NothingDue` | meiru/skynet/skynet-src/skynet_timer.c:172-177 | the look at the list before the clock advances never finds a timer |
| `TimingWheel.DispatchList` | meiru/skynet/skynet-src/skynet_timer.c:141-157 | the events of a list are sent in its order |
| `TimingWheel.Wheel.constructor` | meiru/skynet/skynet-src/skynet_timer.c:187-209 | an empty wheel in canonical form, for any start of the clock |
| `TimingWheel.Wheel.AddNode` | meiru/skynet/skynet-src/skynet_timer.c:74-93 | appends the node to exactly the list its deadline and the clock select |
| `TimingWheel.Wheel.TimerAdd` | meiru/skynet/skynet-src/skynet_timer.c:95-106 | adds one deadline to what is pending and keeps the canonical form |
| `TimingWheel.Wheel.MoveList` | meiru/skynet/skynet-src/skynet_timer.c:108-116 | empties one list and files its nodes again, in order |
| `TimingWheel.Wheel.TimerShift` | meiru/skynet/skynet-src/skynet_timer.c:118-139 | advances the clock and restores the canonical form for the new time |
| `TimingWheel.Wheel.ClearNow` | meiru/skynet/skynet-src/skynet_timer.c:159-164 | detaches exactly what is due |
| `TimingWheel.Wheel.AddAll` | meiru/skynet/skynet-src/skynet_timer.c:95-106 | what other threads add while the lock is released during dispatch |
| `TimingWheel.Wheel.TimerExecute` | meiru/skynet/skynet-src/skynet_timer.c:159-170 | dispatches what is due, once, although other threads add timers during the dispatch |
| `TimingWheel.Wheel.TimerUpdate` | meiru/skynet/skynet-src/skynet_timer.c:172-185 | one update dispatches exactly the timers whose deadline is this tick, in the order they were added, and keeps the others |
| `TimingWheel.Wheel.RequestTimeout` | meiru/skynet/skynet-src/skynet_timer.c:211-231 | a timeout that is not positive is answered at once, every other one at its deadline |
| `TimingWheel.Remembered` | meiru/skynet/skynet-src/skynet_timer.c:95-185 | after any run, what is pending for a later moment is all that was ever added for it |
| `TimingWheel.NotRetroactive` | meiru/skynet/skynet-src/skynet_timer.c:95-106 | nothing that is added is due in the past |
| `TimingWheel.FiresAtDeadline` | meiru/skynet/skynet-src/skynet_timer.c:95-185 | over any interleaving of adding and updating, also of adding during the dispatch of an update, update number k dispatches exactly what has deadline k, in the order of adding |
| `TimingWheel.PlayRun` | meiru/skynet/skynet-src/skynet_timer.c:95-185 | the same of real calls on one wheel: from any start of the clock, whatever is added before, between and during updates, the k-th update returns exactly the events whose deadline is k, in the order of adding |
| `TimingWheel.Play` | meiru/skynet/skynet-src/skynet_timer.c:95-185 | one call on the wheel does to its clock and its pending deadlines what one operation of a run does |
| `TimingWheel.AddedByUpdate` | meiru/skynet/skynet-src/skynet_timer.c:159-170 | what other threads add during the dispatch of an update is not due in it |
| `TimingWheel.FiresExactlyOnce` | meiru/skynet/skynet-src/skynet_timer.c:95-185 | a timer with 0 < time < 2^31, added at any point of the run, also during a dispatch, is dispatched by the time-th later update and by no other, once, whatever else the run does |
| `MessageQueue.Queue.constructor` | meiru/skynet/skynet-src/skynet_mq.c:77-96 | a new queue is empty and already counts as owned |
| `MessageQueue.Queue.Length` | meiru/skynet/skynet-src/skynet_mq.c:111-125 | the number of messages in the ring, wrapped or not |
| `MessageQueue.Queue.Overload` | meiru/skynet/skynet-src/skynet_mq.c:127-135 | reads and clears the mark |
| `MessageQueue.Queue.Pop` | meiru/skynet/skynet-src/skynet_mq.c:137-172 | hands out the oldest message; an empty queue leaves the books of the global list; the threshold follows the length in powers of two |
| `MessageQueue.Queue.Take` | meiru/skynet/skynet-src/skynet_mq.c:142-151 | the ring part of a pop: the oldest message and the rest in order |
| `MessageQueue.Queue.Watch` | meiru/skynet/skynet-src/skynet_mq.c:152-159 | the threshold doubles until the length is not above it, and the overload mark is the length that was |
| `MessageQueue.Queue.ExpandQueue` | meiru/skynet/skynet-src/skynet_mq.c:174-187 | a full ring moves to twice the room with the order kept |
| `MessageQueue.Queue.Append` | meiru/skynet/skynet-src/skynet_mq.c:193-201 | the ring part of a push: at the end, across the wrap and across the doubling |
| `MessageQueue.Queue.Push` | meiru/skynet/skynet-src/skynet_mq.c:189-209 | appends, and puts the queue on the global list just when it was not owned; a queue that is listed already stays where it is, once |
| `MessageQueue.Queue.MarkRelease` | meiru/skynet/skynet-src/skynet_mq.c:219-228 | marks the queue, and puts it on the global list if nobody owns it; a listed queue stays where it is |
| `MessageQueue.Queue.DropAll` | meiru/skynet/skynet-src/skynet_mq.c:230-235 | drops every message, in order |
| `MessageQueue.Queue.Release` | meiru/skynet/skynet-src/skynet_mq.c:239-250 | a marked queue is dropped with all its messages, another one goes back on the global list unchanged |
| `MessageQueue.DoubledIs` | meiru/skynet/skynet-src/skynet_mq.c:153-158 | what the doubling loop computes is the threshold times a power of two, the least one that reaches the length |
| `MessageQueue.GlobalQueue.Push` | meiru/skynet/skynet-src/skynet_mq.c:43-56 | the linked list grows at its tail |
| `MessageQueue.GlobalQueue.Pop` | meiru/skynet/skynet-src/skynet_mq.c:58-75 | and gives its head away, with the link cleared |
| `DispatchProtocol.TakeGood` | meiru/skynet/skynet-src/skynet_server.c:298-302 | taking a queue from the global list keeps the books of every service |
| `DispatchProtocol.FindGood` | meiru/skynet/skynet-src/skynet_server.c:304-311 | so does the lookup of its context, found or gone |
| `DispatchProtocol.HandOutGood` | meiru/skynet/skynet-src/skynet_server.c:316-338 | so does handing out a message, or finding none |
| `DispatchProtocol.SwitchGood` | meiru/skynet/skynet-src/skynet_server.c:341-346 | so does taking the next queue |
| `DispatchProtocol.KeepGood` | meiru/skynet/skynet-src/skynet_server.c:341-350 | and keeping the own one when there is no other |
| `DispatchProtocol.GiveBackGood` | meiru/skynet/skynet-src/skynet_server.c:343-350 | and putting the own one back |
| `DispatchProtocol.LookupGood` | meiru/skynet/skynet-src/skynet_handle.c:136-153 | so does the lookup of a sender |
| `DispatchProtocol.StoreGood` | meiru/skynet/skynet-src/skynet_server.c:229-239 | and its push |
| `DispatchProtocol.UnregisterGood` | meiru/skynet/skynet-src/skynet_handle.c:73-110 | so does retiring a handle, which only one of several killers does |
| `DispatchProtocol.InitedGood` | meiru/skynet/skynet-src/skynet_server.c:160-181 | so does the end of a service's init function, good or bad; what the result decides is stated over runs below |
| `DispatchProtocol.LaunchedGood` | meiru/skynet/skynet-src/skynet_server.c:163-172 | and the first entry of its queue in the global list |
| `DispatchProtocol.UnrefGood` | meiru/skynet/skynet-src/skynet_server.c:220-227 | so does giving up a reference |
| `DispatchProtocol.DeletedGood` | meiru/skynet/skynet-src/skynet_server.c:208-218 | and the deletion by the last one |
| `DispatchProtocol.ReclaimedGood` | meiru/skynet/skynet-src/skynet_mq.c:239-250 | so does releasing a queue whose context is not found, marked or not yet |
| `DispatchProtocol.DropOneGood` | meiru/skynet/skynet-src/skynet_mq.c:230-235 | and dropping its messages one by one |
| `DispatchProtocol.FreedGood` | meiru/skynet/skynet-src/skynet_mq.c:236-237 | and freeing it |
| `DispatchProtocol.StepKeepsInv` | meiru/skynet/skynet-src/skynet_server.c:115-351 | every step of every worker, sender, killer and creator keeps the invariant |
| `DispatchProtocol.ReachableInv` | meiru/skynet/skynet-src/skynet_server.c:115-351 | so it holds in every reachable state, for any number of them |
| `DispatchProtocol.SingleOwner` | meiru/skynet/skynet-src/skynet_mq.c:43-75 | a queue is at most once in the union of the global list, the hands of workers and the hand of its creator, so no service is dispatched by two workers |
| `DispatchProtocol.NoStrandedMessage` | meiru/skynet/skynet-src/skynet_mq.c:137-209 | a queue that holds messages, and a marked queue that is not freed, is on the list or in a hand |
| `DispatchProtocol.FreedUnreachable` | meiru/skynet/skynet-src/skynet_mq.c:98-104 | a queue is freed at most once, and then no list, hand, handle or reference leads to it |
| `DispatchProtocol.EachMessageOnce` | meiru/skynet/skynet-src/skynet_mq.c:137-250 | handed out, then dropped, then stored messages are the pushed ones in order; nothing is dropped while the context lives, and nothing is left when the queue is freed |
| `DispatchProtocol.AfterRelease` | meiru/skynet/skynet-src/skynet_mq.c:219-250 | after the context is gone nothing is pushed and nothing handed out; leftovers are dropped in order |
| `DispatchProtocol.EveryStepSafe` | meiru/skynet/skynet-src/skynet_server.c:115-351 | in every reachable state the next step of every thread meets the assertions of the source and touches no freed queue |
| `ServiceLife.ReadyOnlyIfGood` | meiru/skynet/skynet-src/skynet_server.c:160-181 | a service is ready only if its init function has ended with success |
| `ServiceLife.GoodInit` | meiru/skynet/skynet-src/skynet_server.c:160-172 | after a success, once its creator is done, the service is ready, unless its context was deleted before; so it is ready whenever it is registered |
| `ServiceLife.BadInit` | meiru/skynet/skynet-src/skynet_server.c:173-181 | after a failure it is never ready, and not registered any more once its creator is done |
| `ServiceLife.RetiredOnlyIf` | meiru/skynet/skynet-src/skynet_handle.c:73-110 | a service is retired only by a killer, or because its init function failed |
| `ServiceLife.UnkilledStays` | meiru/skynet/skynet-src/skynet_server.c:160-172 | a service that nobody kills stays registered after a successful init, and is ready once its creator is done |
| `ServiceLife.OneResult` | meiru/skynet/skynet-src/skynet_server.c:157-161 | the init function of a service ends once |
| `DispatchCalls.DispatchCall` | meiru/skynet/skynet-src/skynet_server.c:296-351 | a whole dispatch by a worker that nobody disturbs: it hands out max(1, (k - 1) >> weight) of k messages, or one if its weight is negative, oldest first, and leaves with the head of the global list, its own queue behind all others; or keeps its own if none waits |
| `DispatchCalls.DispatchNothing` | meiru/skynet/skynet-src/skynet_server.c:316-319 | the dispatch of an empty queue lets it go: it is nobody's until the next message |
| `DispatchCalls.DispatchOrphan` | meiru/skynet/skynet-src/skynet_server.c:304-311 | the dispatch of a queue without service frees it with all messages dropped in order if it is marked, and puts it back otherwise |
| `DispatchCalls.ReleaseCall` | meiru/skynet/skynet-src/skynet_mq.c:230-250 | releasing a marked queue drops everything in order and frees it |
| `DispatchCalls.SendCall` | meiru/skynet/skynet-src/skynet_server.c:229-239 | a whole send: the message is the last of its queue, which is on the list if it was nobody's |
| `DispatchCalls.RetireCall` | meiru/skynet/skynet-src/skynet_handle.c:73-110 | a whole retirement: the handle is free, and the last reference deletes the context, marks the queue and puts it on the list if it was nobody's |
| `DispatchCalls.CreateCall` | meiru/skynet/skynet-src/skynet_server.c:115-172 | a whole creation: a ready service with one reference whose queue is on the list |
| `DispatchCalls.CreateFails` | meiru/skynet/skynet-src/skynet_server.c:115-181 | one that fails: nothing registered, no reference, and the queue freed |
| `SocketWrite.ForceCloseSound` | meiru/skynet/skynet-src/socket_server.c:409-436 | closing with the lock held leaves a sound, invalid socket |
| `SocketWrite.SendListBase` | meiru/skynet/skynet-src/socket_server.c:579-610 | sending a list under any partial writes, interruptions and errors extends the wire by whole messages and at most one prefix, in order, and keeps `wb_size` |
| `SocketWrite.RaiseSound` | meiru/skynet/skynet-src/socket_server.c:695-710 | moving a begun low head to the empty high list keeps wire and order |
| `SocketWrite.TakeDirectSound` | meiru/skynet/skynet-src/socket_server.c:767-786 | so does putting the rest of a direct write in front of the high list |
| `SocketWrite.FlushListsSound` | meiru/skynet/skynet-src/socket_server.c:725-765 | the locked part of a flush keeps the wire whole, the order and `wb_size`; both assertions hold |
| `SocketWrite.FlushSound` | meiru/skynet/skynet-src/socket_server.c:767-793 | a whole flush sends first what was sent, then the direct rest, then the lists, in their order |
| `SocketWrite.SendSocketSound` | meiru/skynet/skynet-src/socket_server.c:843-909 | a message from the pipe is queued at its priority without disturbing a begun one |
| `SocketFlush.FlushCloses` | meiru/skynet/skynet-src/socket_server.c:725-793 | a flush closes only after a failed write, or a half-closed socket that has sent everything; otherwise it drops nothing, and a half-closed socket with nothing left does not stay open |
| `SocketFlush.FlushKeepsOpen` | meiru/skynet/skynet-src/socket_server.c:586-593 | so a full kernel buffer, interruptions and partial writes never close a connection |
| `SocketFlush.SendListUses` | meiru/skynet/skynet-src/socket_server.c:579-610 | interruptions are tried again; a list that is not sent to its end has used all outcomes, or ended at a full kernel, or at a write that took a part of the buffer that is now first |
| `SocketFlush.FlushDrains` | meiru/skynet/skynet-src/socket_server.c:725-793 | if the kernel takes what it is given, everything that waits goes out in its order |
| `SocketFlush.SendSocketOrder` | meiru/skynet/skynet-src/socket_server.c:867-895 | on the way to the wire a low message comes behind everything that waits, a normal one behind the high list only |
| `SocketWrite.Socket.Close` | meiru/skynet/skynet-src/socket_server.c:409-436 | frees what waits, closes the descriptor, in place as specified |
| `SocketWrite.Socket.SendListTcp` | meiru/skynet/skynet-src/socket_server.c:579-610 | the loop over buffers and write results, in place as specified |
| `SocketWrite.Socket.Wrote` | meiru/skynet/skynet-src/socket_server.c:595-606 | a partial write moves the offset, a full one steps over the buffer, and `wb_size` follows |
| `SocketWrite.Socket.RaiseUncomplete` | meiru/skynet/skynet-src/socket_server.c:695-710 | in place as specified |
| `SocketWrite.Socket.SendBufferLocked` | meiru/skynet/skynet-src/socket_server.c:725-765 | in place as specified; the two assertions of the source are proved inside |
| `SocketWrite.Socket.SendBuffer` | meiru/skynet/skynet-src/socket_server.c:767-793 | does nothing while a direct writer has the lock, and flushes otherwise |
| `SocketWrite.Socket.Send` | meiru/skynet/skynet-src/socket_server.c:843-909 | in place as specified, for every state of the socket |
| `SocketRace.DirectWriteSound` | meiru/skynet/skynet-src/socket_server.c:1585-1620 | a direct write of any part of a message keeps the wire whole unless a begun message was cut off by closing |
| `SocketRace.StoreDirectSound` | meiru/skynet/skynet-src/socket_server.c:1616-1621 | storing its rest loses nothing |
| `SocketRace.ActSound` | meiru/skynet/skynet-src/socket_server.c:1574-1658 | every step of a sender keeps the socket sound or closing |
| `SocketRace.HalfCloseSound` | meiru/skynet/skynet-src/socket_server.c:956-964 | half closing keeps it sound |
| `SocketRace.Countdown` | meiru/skynet/skynet-src/socket_server.c:1126-1134 | the assertion of the sending count holds: there is something to give back |
| `SocketRace.QuietStepInv` | meiru/skynet/skynet-src/socket_server.c:1414-1520 | every step keeps the invariant unless it is a direct write that puts out bytes in the closing state behind a begun message that was freed |
| `SocketRace.RunWireWhole` | meiru/skynet/skynet-src/socket_server.c:1574-1638 | in every run without such a write the wire holds whole messages back to back and at most one prefix |
| `SocketRace.NoisyStep` | meiru/skynet/skynet-src/socket_server.c:409-435 | such a write interrupts a message |
| `SocketRace.UninterruptedExactly` | meiru/skynet/skynet-src/socket_server.c:409-435 | a run interrupts no message if and only if it never happens that a worker puts out bytes of a direct write while the socket thread is in its closing state, where it has freed a list whose first message was begun and has not yet taken the lock |
| `SocketRace.TornIsClosing` | meiru/skynet/skynet-src/socket_server.c:409-435 | while the socket is valid, a begun message is cut off only in that closing state |
| `SocketRace.DisturbedRun` | meiru/skynet/skynet-src/socket_server.c:409-435 | a run of that kind: byte 1 of a two-byte message, then byte 9 of another one |
| `SocketRace.EveryMessageOnce` | meiru/skynet/skynet-src/socket_server.c:843-909 | in every run, also those, each message handed in is in exactly one place: sent, dropped, waiting, in the pipe or with its sender |
| `SocketRace.WritesAreOpen` | meiru/skynet/skynet-src/socket_server.c:1574-1625 | in every run a direct write touches only an open descriptor, and only with the lock |
| `SocketOrder.WireOrder` | meiru/skynet/skynet-src/socket_server.c:843-909 | in every run each message that is sent or waits came by an event of its own; messages taken from the pipe with the same priority never overtake each other, nor do direct writes; and all are there as long as the connection is not being closed |
| `SocketSenders.NothingOvertaken` | meiru/skynet/skynet-src/socket_server.c:1568-1606 | in every run a direct write overtakes nothing that was in the pipe when its send began: all that has left the pipe, and whatever waits in the lists came behind it |
| `SocketSenders.DecidesAlone` | meiru/skynet/skynet-src/socket_server.c:1586-1588 | when the second look lets a worker write, nobody's message is in the pipe or on its way there |
| `SocketSenders.PipesItsMessage` | meiru/skynet/skynet-src/socket_server.c:1629-1657 | a worker pipes the message it was given, with its priority |
| `SocketSenders.WritesItsMessage` | meiru/skynet/skynet-src/socket_server.c:1574-1626 | or writes it, and never one of low priority |
| `SocketSenders.DirectCall` | meiru/skynet/skynet-src/socket_server.c:1574-1626 | an undisturbed send on a socket with nothing under way writes directly and leaves what the kernel did not take to the socket thread |
| `SocketSenders.PipeCall` | meiru/skynet/skynet-src/socket_server.c:1629-1657 | a low message, and one that something is in the way of, goes into the pipe |
| `SocketClose.SendingFits` | meiru/skynet/skynet-src/socket_server.c:1104-1124 | in every run the sending count fits in its 16 bits |
| `SocketClose.ClosesExactly` | meiru/skynet/skynet-src/socket_server.c:932-964 | a close request frees the lists at once if and only if it is a shutdown or nothing is left in the lists, of a direct write, in the pipe or on the way to it; otherwise the socket is half closed |
| `SocketClose.NothingLostExactly` | meiru/skynet/skynet-src/socket_server.c:936-964 | without shutdown, hangup and failed writes a message that the socket accepted is lost if and only if the descriptor is closed while the rest of a direct write is still there; all others are sent when the socket is closed |
| `SocketClose.LostRun` | meiru/skynet/skynet-src/socket_server.c:936-964 | a run of that kind: one byte of two is written directly, a graceful close throws the rest away |
| `Bigint.MultAdd` | meiru/skynet/3rd/lua-cjson/dtoa.c:612-667 | exactly b * m + a, in place or with one more word |
| `Bigint.MulRow` | meiru/skynet/3rd/lua-cjson/dtoa.c:847-858 | one row of the product with its carries |
| `Bigint.MulRows` | meiru/skynet/3rd/lua-cjson/dtoa.c:845-859 | all rows give the product |
| `Bigint.Mult` | meiru/skynet/3rd/lua-cjson/dtoa.c:805-913 | the exact product, without superfluous words; it has no word only when it is zero |
| `Bigint.Powers.constructor` | meiru/skynet/3rd/lua-cjson/dtoa.c:915-915 | the cache of powers starts empty |
| `Bigint.Powers.Entry` | meiru/skynet/3rd/lua-cjson/dtoa.c:934-969 | entry i of the cache is 5^(4*2^i), made from the one before by squaring |
| `Bigint.Powers.HighDigits` | meiru/skynet/3rd/lua-cjson/dtoa.c:948-971 | the loop over the binary digits multiplies by 5^(4k) |
| `Bigint.Powers.Pow5Mult` | meiru/skynet/3rd/lua-cjson/dtoa.c:917-972 | exactly b * 5^k, and the cache stays right |
| `BigintDivision.LShift` | meiru/skynet/3rd/lua-cjson/dtoa.c:974-1032 | exactly b * 2^k, without superfluous words |
| `BigintDivision.ShiftInto` | meiru/skynet/3rd/lua-cjson/dtoa.c:996-1029 | the loop over words with the bits that cross word borders |
| `BigintDivision.Cmp` | meiru/skynet/3rd/lua-cjson/dtoa.c:1034-1066 | the sign of the difference of the values |
| `BigintDivision.Diff` | meiru/skynet/3rd/lua-cjson/dtoa.c:1068-1160 | the absolute difference and its sign, trimmed |
| `BigintDivision.Subtract` | meiru/skynet/3rd/lua-cjson/dtoa.c:1112-1124 | the two borrow loops subtract exactly |
| `BigintDivision.Reduce` | meiru/skynet/3rd/lua-cjson/dtoa.c:2161-2190 | b - q * S word by word, with carry and borrow; nothing is owed at the end |
| `BigintDivision.EstimateLow` | meiru/skynet/3rd/lua-cjson/dtoa.c:2149-2149 | the estimated digit is never too high |
| `BigintDivision.EstimateClose` | meiru/skynet/3rd/lua-cjson/dtoa.c:2149-2149 | it is too low by at most one when the top word of S exceeds it |
| `BigintDivision.TakeAway` | meiru/skynet/3rd/lua-cjson/dtoa.c:2160-2197 | taking the estimate away leaves a trimmed rest |
| `BigintDivision.FirstDigit` | meiru/skynet/3rd/lua-cjson/dtoa.c:2146-2197 | the estimate, taken away, for any divisor whose top word does not overflow |
| `BigintDivision.Correct` | meiru/skynet/3rd/lua-cjson/dtoa.c:2198-2239 | S is taken away once more exactly when it still goes into b |
| `BigintDivision.Quorem` | meiru/skynet/3rd/lua-cjson/dtoa.c:2119-2241 | for every divisor: the digit and the rest satisfy b = q * S + rest; q is the lesser of the quotient and the estimate plus one, so it is the quotient whenever the top word of S exceeds the estimate |
| `BigintDivision.DigitExactly` | meiru/skynet/3rd/lua-cjson/dtoa.c:2149-2239 | the digit is the quotient if and only if the quotient is at most the estimate plus one |
| `BigintDivision.ShortDigit` | meiru/skynet/3rd/lua-cjson/dtoa.c:2149-2239 | an input where it is not: 5 divided by 1 gives the digit 3 |
| `BigintDivision.FourZeroBitsSuffice` | meiru/skynet/3rd/lua-cjson/dtoa.c:4149-4158 | a divisor whose top word is at least 2^27, as the shift leaves it, always gets floor(b / S) and b mod S |
| `BigintDivision.Hi0Bits` | meiru/skynet/3rd/lua-cjson/dtoa.c:707-735 | the number of leading zero bits |
| `BigintDivision.DShift` | meiru/skynet/3rd/lua-cjson/dtoa.c:2106-2117 | the low five bits of leading zeros minus four minus the shift still to come |
| `BigintDivision.FourZeroBits` | meiru/skynet/3rd/lua-cjson/dtoa.c:2106-2117 | a shift by that much leaves exactly four zero bits on top |
| `BigintDivision.ShiftDivisor` | meiru/skynet/3rd/lua-cjson/dtoa.c:4149-4158 | the divisor of the digit loops: its value times a power of two, with exactly four zero bits on top |
| `BigintDigits.FixedDigits` | meiru/skynet/3rd/lua-cjson/dtoa.c:4285-4296 | the digits and the rest satisfy the expansion of b / S, every digit is below ten, and the loop stops early only with rest zero |
| `BigintDigits.OneDigit` | meiru/skynet/3rd/lua-cjson/dtoa.c:4286-4286 | floor and remainder, by the exactness above |
| `BigintDigits.TimesTen` | meiru/skynet/3rd/lua-cjson/dtoa.c:4295-4295 | the rest times ten still has no more words than the divisor |
| `RwlockStm.LockStepInv` | meiru/skynet/skynet-src/rwlock.h:17-38 | every access of taking the lock keeps the invariant |
| `RwlockStm.LoadedInv` | meiru/skynet/lualib-src/lua-stm.c:93-104 | a reader takes its reference while the pointer cannot change |
| `RwlockStm.ReadInv` | meiru/skynet/lualib-src/lua-stm.c:205-235 | the other steps of a reader keep the invariant |
| `RwlockStm.DecInv` | meiru/skynet/lualib-src/lua-stm.c:47-55 | giving up a reference keeps it |
| `RwlockStm.FreeInv` | meiru/skynet/lualib-src/lua-stm.c:47-55 | freeing the copy whose last reference is gone keeps it |
| `RwlockStm.StoreInv` | meiru/skynet/lualib-src/lua-stm.c:106-115 | an update hands the reference of the old copy from the pointer to the updater |
| `RwlockStm.CloseDecInv` | meiru/skynet/lualib-src/lua-stm.c:57-71 | closing gives up the reference of the pointer |
| `RwlockStm.CloseFreeInv` | meiru/skynet/lualib-src/lua-stm.c:57-71 | and frees the copy if it was the last one |
| `RwlockStm.ClearInv` | meiru/skynet/lualib-src/lua-stm.c:57-71 | and clears the pointer |
| `RwlockStm.StepInv` | meiru/skynet/lualib-src/lua-stm.c:27-115 | every step of every thread keeps the invariant |
| `RwlockStm.RunInv` | meiru/skynet/lualib-src/lua-stm.c:27-115 | so it holds after every run |
| `RwlockStm.WriterExcludes` | meiru/skynet/skynet-src/rwlock.h:17-48 | with any number of threads, a writer in its section excludes all readers and all other writers |
| `RwlockStm.ReferencesConserved` | meiru/skynet/lualib-src/lua-stm.c:47-115 | in every run the reference of a copy is the one of the pointer plus all that threads hold |
| `RwlockStm.NeverFreedWhileHeld` | meiru/skynet/lualib-src/lua-stm.c:47-55 | a copy that is held exists and is not being freed; whoever frees a copy is alone and nobody holds it |
| `RwlockStm.NoAba` | meiru/skynet/lualib-src/lua-stm.c:205-228 | in every run the comparison of addresses says same if and only if the pointer was not stored to between the two reads or neither read gave a copy, although addresses are reused; a first read and a read after a close are included |
| `RwlockStm.UnseenStores` | meiru/skynet/lualib-src/lua-stm.c:205-228 | the second case occurs: the first read of an object that was closed compares two empty pointers, and a store lies between |
| `StmReads.LreadAnswers` | meiru/skynet/lualib-src/lua-stm.c:205-235 | in every run a read keeps what it got, and hands it out if and only if it got a copy and a store lies between this read and the one before |
| `StmReads.ReadsAreAtomic` | meiru/skynet/lualib-src/lua-stm.c:93-104 | what a read gets is the value of one store to the pointer |
| `StmReads.FreshRead` | meiru/skynet/lualib-src/lua-stm.c:93-104 | and no store that was over before the read began is missed |
| `StmReads.WritesStore` | meiru/skynet/lualib-src/lua-stm.c:57-71 | an update and a close that are past their store have put their value into the history of the pointer since they began |
| `StmReads.NoLeak` | meiru/skynet/lualib-src/lua-stm.c:47-55 | a copy without references is being freed by somebody |
| `StmReads.AtRest` | meiru/skynet/lualib-src/lua-stm.c:47-115 | when nobody is at work, exactly the value of the object and the last values of the readers are still there |
| `StmReads.NoDeadlock` | meiru/skynet/skynet-src/rwlock.h:17-48 | while some operation is under way, some thread can take a step that changes something |
| `StmReads.SoloFinishes` | meiru/skynet/skynet-src/rwlock.h:17-48 | a thread that nobody disturbs finishes any operation from anywhere within ten steps |
| `SharedTable.CountSize` | meiru/skynet/lualib-src/lua-sharedata.c:67-89 | the hash part gets exactly as many slots as there are keys outside the array part |
| `SharedTable.HashString` | meiru/skynet/lualib-src/lua-sharedata.c:91-100 | the loop over the string, one character in (length / 32 + 1), computes the specified hash |
| `SharedTable.HashShort` | meiru/skynet/lualib-src/lua-sharedata.c:91-100 | every character of a short string counts for its hash, the last one first |
| `SharedTable.HeadKeeps` | meiru/skynet/lualib-src/lua-sharedata.c:212-235 | a key that takes its free main slot starts a chain, and all other keys keep their places |
| `SharedTable.SecondKeeps` | meiru/skynet/lualib-src/lua-sharedata.c:237-272 | a key linked in behind the head of its chain leaves every chain acyclic, disjoint and starting at its main slot |
| `SharedTable.RoomLeft` | meiru/skynet/lualib-src/lua-sharedata.c:252-259 | while a key is missing there is an empty slot |
| `SharedTable.NoRoomLeft` | meiru/skynet/lualib-src/lua-sharedata.c:212-272 | after both passes every slot is full |
| `SharedTable.Table.StringIndex` | meiru/skynet/lualib-src/lua-sharedata.c:102-120 | each string has one index, the same at every occurrence |
| `SharedTable.Table.MakeRef` | meiru/skynet/lualib-src/lua-sharedata.c:191-210 | the stored form of a key stands for that key |
| `SharedTable.Table.FillNoColliding` | meiru/skynet/lualib-src/lua-sharedata.c:212-235 | after the first pass the array part is filled and every key has its main slot or finds it taken |
| `SharedTable.Table.FirstPassStep` | meiru/skynet/lualib-src/lua-sharedata.c:216-234 | one entry of it |
| `SharedTable.Table.FillColliding` | meiru/skynet/lualib-src/lua-sharedata.c:237-272 | after the second pass every key is stored, all on the chains of their main slots |
| `SharedTable.Table.SecondPassStep` | meiru/skynet/lualib-src/lua-sharedata.c:241-271 | one key of it; the assertion that an empty slot is found holds |
| `SharedTable.Table.FindEmpty` | meiru/skynet/lualib-src/lua-sharedata.c:252-259 | the search for an empty slot succeeds |
| `SharedTable.Table.constructor` | meiru/skynet/lualib-src/lua-sharedata.c:276-325 | converting any table with distinct keys gives a valid shared table for it |
| `SharedTable.Table.LookupKey` | meiru/skynet/lualib-src/lua-sharedata.c:501-530 | the search terminates, and finds a key if and only if it is stored, at its slot |
| `SharedTable.Table.Index` | meiru/skynet/lualib-src/lua-sharedata.c:532-566 | a lookup returns the value of the key, and nothing exactly for absent keys |
| `SharedTable.Table.NextKey` | meiru/skynet/lualib-src/lua-sharedata.c:589-646 | the key that follows in the order of the slots |
| `SharedTable.Table.Enumerates` | meiru/skynet/lualib-src/lua-sharedata.c:589-646 | following it from the start visits exactly the keys of the table, each once |
| `Netpack.SizeBytes` | meiru/skynet/lualib-src/lua-netpack.c:182-186 | a length below 2^16 and its two bytes, high byte first, determine each other |
| `Netpack.CutAnywhere` | meiru/skynet/lualib-src/lua-netpack.c:227-307 | a stream may be cut at any byte, also inside a length: the packages of both pieces together are those of the whole |
| `Netpack.TailIncomplete` | meiru/skynet/lualib-src/lua-netpack.c:188-215 | what stays pending holds no complete package |
| `Netpack.Queue.constructor` | meiru/skynet/lualib-src/lua-netpack.c:116-131 | a new queue holds nothing for any connection |
| `Netpack.Queue.FindUncomplete` | meiru/skynet/lualib-src/lua-netpack.c:92-114 | takes the unfinished package of one connection out of its hash chain and leaves all others |
| `Netpack.Queue.SaveUncomplete` | meiru/skynet/lualib-src/lua-netpack.c:169-180 | stores one and leaves all others |
| `Netpack.Queue.ExpandQueue` | meiru/skynet/lualib-src/lua-netpack.c:133-148 | the order of packages survives the move to the larger ring |
| `Netpack.Queue.PushData` | meiru/skynet/lualib-src/lua-netpack.c:150-167 | appends a package, across wrap and growth |
| `Netpack.Queue.PushMore` | meiru/skynet/lualib-src/lua-netpack.c:188-215 | everything complete in the rest of a piece is queued, the incomplete end stays pending |
| `Netpack.Queue.FillUncomplete` | meiru/skynet/lualib-src/lua-netpack.c:231-269 | a piece that continues a package, also one whose length was cut in two |
| `Netpack.Queue.FirstPiece` | meiru/skynet/lualib-src/lua-netpack.c:270-306 | a piece that starts with a length |
| `Netpack.Queue.FilterData` | meiru/skynet/lualib-src/lua-netpack.c:227-307 | what is told, queued and kept depends only on the stream so far, and other connections are untouched |
| `Netpack.Queue.Pop` | meiru/skynet/lualib-src/lua-netpack.c:396-410 | the oldest package |
| `Netpack.Queue.CloseUncomplete` | meiru/skynet/lualib-src/lua-netpack.c:217-225 | only the unfinished package of the closed connection goes away |
| `Netpack.ChunkingIndependent` | meiru/skynet/lualib-src/lua-netpack.c:217-307 | for any splitting, any interleaving with other connections and any closing, the packages given out for a connection are those of its earlier streams, whose cut ends are dropped, and of its stream since, and the rest of that is pending |
| `Netpack.Deliver` | meiru/skynet/lualib-src/lua-netpack.c:217-307 | the same of real calls on one queue: after any sequence of pieces and closings, for every connection, the packages told at once and popped later are those of its streams, in order, and what is pending is the incomplete end |
| `Netpack.Feed` | meiru/skynet/lualib-src/lua-netpack.c:217-307 | one call, and the pops behind it, gives out and keeps what the specification says |
| `Netpack.RoundTrip` | meiru/skynet/lualib-src/lua-netpack.c:436-452 | parsing a stream of framed packages gives these packages, the empty ones too |
| `Netpack.HighFirst` | meiru/skynet/lualib-src/lua-netpack.c:430-434 | the high byte of a length comes first, in what is written and in what is read |
| `Netpack.ToldFramed` | meiru/skynet/lualib-src/lua-netpack.c:227-307 | one whole package is handed over itself, several are announced, and a part of one is not mentioned |
| `ModExp.TwiceIs` | meiru/skynet/lualib-src/lua-crypt.c:729-733 | doubling modulo P in 64 bits is right although it wraps |
| `ModExp.PlusIs` | meiru/skynet/lualib-src/lua-crypt.c:721-728 | adding modulo P in 64 bits is right although it wraps |
| `ModExp.MulModP` | meiru/skynet/lualib-src/lua-crypt.c:716-737 | the loop computes a * b mod P for a <= P and every 64-bit b |
| `ModExp.PowModP` | meiru/skynet/lualib-src/lua-crypt.c:739-750 | powers by squaring; the first power is returned unreduced |
| `ModExp.PowerModP` | meiru/skynet/lualib-src/lua-crypt.c:753-758 | a^b mod P for every base and every exponent but 0, with one exception that is stated |
| `ModExp.PowerExactly` | meiru/skynet/lualib-src/lua-crypt.c:753-758 | the result is the power if and only if not both a = P and b = 1 |
| `ModExp.NeverZero` | meiru/skynet/lualib-src/lua-crypt.c:792-810 | no power of the generator is 0 modulo P |
| `ModExp.ExchangedIsLegal` | meiru/skynet/lualib-src/lua-crypt.c:792-810 | what one side sends is a legal input of the other |
| `ModExp.DhExchange` | meiru/skynet/lualib-src/lua-crypt.c:792-810 | G^x mod P, and an error for x = 0 |
| `ModExp.DhSecret` | meiru/skynet/lualib-src/lua-crypt.c:775-788 | x^y mod P, and an error when either is 0 |
| `ModExp.Agreement` | meiru/skynet/lualib-src/lua-crypt.c:775-810 | both sides get the same secret G^(xy) mod P for all keys other than 0, without an error |
| `SeriFormat.BytesBack` | meiru/skynet/lualib-src/lua-seri.c:118-128 | a number of n bytes survives being written, least significant byte first |
| `SeriFormat.NumberBack` | meiru/skynet/lualib-src/lua-seri.c:142-174 | the width chosen for an integer loses nothing, negative ones included |
| `SeriFormat.IntegerBack` | meiru/skynet/lualib-src/lua-seri.c:359-400 | every 64-bit integer is read back from its shortest form, and the rest is left |
| `SeriFormat.LongStringBack` | meiru/skynet/lualib-src/lua-seri.c:190-213 | the length of a long string, in two or four bytes |
| `SeriFormat.StringBack` | meiru/skynet/lualib-src/lua-seri.c:190-213 | every string is read back, and the rest is left |
| `SeriFormat.SizeBack` | meiru/skynet/lualib-src/lua-seri.c:217-237 | the size of an array part is read back, packed into the type byte or as a number |
| `SeriFormat.SizeCut` | meiru/skynet/lualib-src/lua-seri.c:434-447 | every size that is read lies below 2^31, and a written one below that is not changed |
| `SeriFormat.NegativeSize` | meiru/skynet/lualib-src/lua-seri.c:434-447 | the bytes fe 22 ff ff ff ff 00 are an empty table |
| `SeriFormat.ScalarBytes` | meiru/skynet/lualib-src/lua-seri.c:130-213 | the exact bytes of every value that is no table: type byte, then number or length, least significant byte first, in two's complement if negative, then the contents |
| `SeriFormat.TableHeadBytes` | meiru/skynet/lualib-src/lua-seri.c:217-228 | the head of a table: 0x06 + 8n for up to 30 elements, else 0xfe and the number as an integer |
| `SeriFormat.TableBytes` | meiru/skynet/lualib-src/lua-seri.c:217-294 | the exact bytes of { 1, a = true }: head, elements, pairs, nil |
| `SeriFormat.OddBytes` | meiru/skynet/lualib-src/lua-seri.c:466-521 | what is read from bytes that no writer makes: any cookie but 0 is true, and unknown cookies and types are errors |
| `SeriFormat.OddSize` | meiru/skynet/lualib-src/lua-seri.c:434-447 | and so is a table whose size is not an integer |
| `SeriFormat.RoundTrip` | meiru/skynet/lualib-src/lua-seri.c:296-340 | reading what was written gives the value back and leaves what follows, for every value that can be written |
| `SeriFormat.RoundTripAll` | meiru/skynet/lualib-src/lua-seri.c:217-237 | the array part comes back in order |
| `SeriFormat.RoundTripPairs` | meiru/skynet/lualib-src/lua-seri.c:239-257 | so do the pairs up to the nil that ends them |
| `SeriFormat.PackableExactly` | meiru/skynet/lualib-src/lua-seri.c:296-340 | a value can be written if and only if nothing in it is more than 32 tables deep |
| `SeriFormat.MessageRoundTrip` | meiru/skynet/lualib-src/lua-seri.c:555-612 | a message of several values comes back whole |
| `SeriBlocks.WriteBlock.constructor` | meiru/skynet/lualib-src/lua-seri.c:87-94 | an empty list of one block |
| `SeriBlocks.WriteBlock.NextBlock` | meiru/skynet/lualib-src/lua-seri.c:73-80 | a new block when the current one is full; the content stays |
| `SeriBlocks.WriteBlock.Fill` | meiru/skynet/lualib-src/lua-seri.c:68-72 | copies what fits |
| `SeriBlocks.WriteBlock.Push` | meiru/skynet/lualib-src/lua-seri.c:65-85 | appends any number of bytes over as many blocks as it takes |
| `SeriBlocks.WriteBlock.Seri` | meiru/skynet/lualib-src/lua-seri.c:534-553 | the joined array is exactly what was pushed |
| `SeriBlocks.WriteBlock.PutInteger` | meiru/skynet/lualib-src/lua-seri.c:142-174 | appends the specified bytes |
| `SeriBlocks.WriteBlock.PutString` | meiru/skynet/lualib-src/lua-seri.c:190-213 | appends the specified bytes |
| `SeriBlocks.WriteBlock.PutTable` | meiru/skynet/lualib-src/lua-seri.c:282-294 | appends head, array part and pairs, or reports a value that is too deep |
| `SeriBlocks.WriteBlock.PutAll` | meiru/skynet/lualib-src/lua-seri.c:217-237 | the array part |
| `SeriBlocks.WriteBlock.PutPairs` | meiru/skynet/lualib-src/lua-seri.c:239-257 | the pairs, ended by nil |
| `SeriBlocks.WriteBlock.PackOne` | meiru/skynet/lualib-src/lua-seri.c:296-340 | appends exactly the specified bytes of a value; fails exactly when the specification does |
| `SeriBlocks.ReadBlock.Read` | meiru/skynet/lualib-src/lua-seri.c:118-128 | the next bytes if there are enough, else nothing is consumed |
| `SeriBlocks.ReadBlock.ReadInteger` | meiru/skynet/lualib-src/lua-seri.c:359-400 | by the width in the cookie; an unknown one is an error |
| `SeriBlocks.ReadBlock.ReadSize` | meiru/skynet/lualib-src/lua-seri.c:434-447 | the size of an array part, cut to a 32-bit int as the source cuts it; one that is negative then is no array part |
| `SeriBlocks.ReadBlock.UnpackTable` | meiru/skynet/lualib-src/lua-seri.c:434-465 | array part, then pairs up to nil, for every size that the source accepts |
| `SeriBlocks.ReadBlock.ReadAll` | meiru/skynet/lualib-src/lua-seri.c:449-453 | the loop over the array part |
| `SeriBlocks.ReadBlock.ReadPairs` | meiru/skynet/lualib-src/lua-seri.c:454-464 | the loop over the pairs |
| `SeriBlocks.ReadBlock.PushOne` | meiru/skynet/lualib-src/lua-seri.c:467-521 | one value by its type; an error for a type, a width or a kind of size that does not exist, and for a stream that ends early |
| `SeriBlocks.ReadBlock.UnpackOne` | meiru/skynet/lualib-src/lua-seri.c:523-532 | one value with its type byte |
| `SeriBlocks.PackMessage` | meiru/skynet/lualib-src/lua-seri.c:599-612 | the specified bytes of all values, in one array; an error exactly when one is too deep |
| `SeriBlocks.UnpackMessage` | meiru/skynet/lualib-src/lua-seri.c:555-597 | all values of a message, or an error exactly when the specification has one |
| `SeriBlocks.SendMessage` | meiru/skynet/lualib-src/lua-seri.c:555-612 | packing a message into blocks, joining them and unpacking them through a cursor gives the values back if nothing in them is more than 32 tables deep, and an error otherwise |
| `SeriFormat.AllPackable` | meiru/skynet/lualib-src/lua-seri.c:296-340 | a message can be written if and only if each of its values can |

## Left out

- LPeg captures, run-time captures, grammars and calls in the code generator and the machine (ICall, IRet and the capture opcodes), the tables of Lua values that captures refer to, and printing: calls matter here only for termination, in LpegGrammar.
- LPeg character sets are sets of bytes in the generator and the machine; only their classification and comparison work on the 32 bytes (LpegCharset). The growth of the code array and of the backtrack stack, and the limit on that stack, are not modelled.
- LpegGrammar.Termination: nested grammars are not modelled; a grammar is one list of rules, and calls name their rule.
- LpegTreeFix.FinalFix: the conversion of open calls in the same walk over the tree is left out.
- The lists of the timing wheel are sequences in arrays, not nodes linked by pointers; `skynet_updatetime` and the real-time clock are left out, an update is one tick.
- TimingWheel.Wheel.TimerAdd: takes times below 2^31, which is what an `int` argument can hold.
- DispatchProtocol: registering a handle and creating its queue is one step, a handle is not given out again while its old queue lives, and the growth of the slot array, names and the wrap of handle numbers are left out.
- DispatchProtocol: the context is freed in the step that marks its queue; the use of the context pointer inside `skynet_context_new` after giving up its reference, except that a deleted context does not become ready, profiling, logging, the monitor, `skynet_context_reserve` and `skynet_context_dispatchall` are left out.
- DispatchProtocol: the error message that dropping a message sends back to its source is left out; it is one more sender.
- Socket slots are not reused for another connection; UDP, listening, connecting, start and bind, reading, buffers with user objects, warnings about large buffers, statistics and sends before the open event are left out. `write` accepts any prefix, or fails.
- SocketRace: the two lists are looked at together, and so are the direct rest, the sending count and the state. The limit of the sending count makes a sender wait.
- dtoa.c: everything that works on floating point (parsing, `dtoa` modes other than the fixed digit loop, rounding), the pools and free lists of numbers, their locks, and the variants without a 64-bit type.
- BigintDivision.Quorem: the top word of the divisor must not be 2^32 - 1, since the source would divide by zero.
- Bigint.MultAdd: factor and summand are non-negative values of a C `int`.
- The lifetime of the object that holds the shared pointer, which concurrent readers may free, and the version of the lock that uses the thread library.
- Values in shared tables are opaque, nested tables and the state of reference counts of the box are left out; integer keys are taken as they are, while the source cuts them to 32 bits, and an integer key in the array part is one that the border covers.
- SharedTable.Table.Index: keys that are neither integers nor strings, errors of memory, and the renumbering of strings after the conversion are left out.
- Netpack: memory of packages, clearing a queue, strings built by the sender, and the socket events other than data and close.
- SeriFormat.RoundTrip: reals and pointers are eight opaque bytes; the order of bytes is little endian.
- Serializing with `__pairs`, strings of 2^31 bytes and more when they are read, table keys that are NaN, and memory errors.
- The other algorithms of lua-crypt.c and the packing of 64-bit numbers into strings.
- Harbor, gate, cluster, BSON, databases, cjson, TLS and the Lua core: system calls, thin wrappers, or easier codecs.
