# Verification of jvm-rs

A Dafny model of the parts of jvm-rs, a JVM written in Rust, whose correctness rests on
invariants rather than on any single function, with proofs of those invariants.

**Verifier and interpreter.** `verify.rs` decodes a method, runs a data-flow analysis over
a small type lattice and accepts or rejects; the interpreter executes the same bytes with
its own reader and its own dynamic checks. Verification is modelled twice over: as a
transition system in which the worklist is served in any order (`Worklist`), and as the
actual first-in-first-out loop over mutable frames (`Verifier`, `AbstractFrames`). The
interpreter likewise is a transition function on call stacks (`Machine`) and the actual
loop over mutable frames (`Frames`, `Interpreter`), proved to take the same steps. The main
theorem, `ProgramSoundness.ExecutionSafe`, says that accepted code never meets a dynamic
check, through any interleaving of calls, returns and exception unwinding;
`Execution.Execute` carries it to the loops. It covers constants and `ldc`, locals and
their `wide` forms, `iinc`, stack shuffles, integer and float arithmetic and comparisons,
branches, switches, subroutines, `athrow` with handlers, `invokestatic` and returns.

What the interpreter relies on and the verifier leaves unchecked is one predicate,
`ThreadSoundness.Usable`, asked only of instructions the analysis reached. `VerifierGaps`
shows what each of its conditions is for, by a method that the verifier accepts and a run
of it that ends in an error of the VM: a tableswitch whose bounds give a negative count
(`TableGap`), a `wide` prefix on anything but a load, store, `iinc` or `ret` (`WideGap`), a
handler range that starts inside an instruction (`HandlerGap`) and a handler in a method
without a stack (`SlotGap`); `BackwardTable`, `WideNull`, `CutCall` and `Guarded` build the
methods. `HandlerSlot.HypothesesMet` has a program that meets every condition, with a call
and a handler that are used. For operands the condition is exact (`Fetch.ReadableIff`), and
so it is for the stack slot (`ThreadSoundness.HandlerEnteredIff`) and for code that is
empty (`ProgramSoundness.MissingReturnIff`); whether a method that breaks the condition on
handler ranges goes wrong depends on the code its handler leads to.

Acceptance depends on the order of the worklist: `OrderGap.OrderMatters` has one method
that one order accepts and another rejects, and `Worklist.AcceptingRunsAgree` shows that
orders which accept agree. `MergeOrder.RefusedIff` says exactly when an order is refused
where another accepts: when two types that do not merge meet in a local that the accepting
order records as unusable. `MergeOrder.OneKindAnyOrder` gives a condition that can be read
off the method before it is analysed: the locals hold plain types on entry, no instruction
makes an uninitialised reference or a return address, and what is stored in a local is of
one kind. If one order accepts such a method, no order refuses it. The method of
`OrderMatters` breaks just the last clause (`OrderGap.MixedStores`: local 0 is stored as an
int at 1 and as a float at 3). The condition is not necessary, because whether two types
meet depends on the paths of the code: `OrderGap.ConditionNotNeeded` has a method that
stores an int and then a float in one local and is refused in no order. For methods that
meet it, `Typability.VerifiesIff` says what the verifier accepts without mentioning its loop:
those that have a least typing, with which the stack map table agrees.

Two shuffles depart from section 6.5 of the JVM specification, and
`InstructionFacts.ShuffleSpecifiedIff` says exactly where. The class-file reader rebuilds
StackMapTable locals from nothing, so it refuses a chop that reaches the method's
parameters although section 4.7.4 allows it: `StackMaps.ParserAcceptsIff` says exactly
which tables it takes, `StackMaps.FoldSucceedsIff` which tables have a meaning, and
`StackMaps.ParameterChopRefused` has a table between the two.

A method that computes what a function says is only as right as the function, so the
functions are held against something written down independently. Opcodes are compared with
the instruction set's list of names (`Mnemonics`), readers with writers (`Assembler`,
`StackMapWriter`), descriptors with their grammar (`DescriptorGrammar`), the scan with what
it is to divide code into instructions (`Decoder.ScanIff`), the transfer with the stack
effects as letters (`StackEffects`), the entry frame with sums of widths (`EntryFrame`), the
offset of the k-th stack map frame with a sum of deltas (`StackMapTargets`), arithmetic with
congruences, quotients and bits (`Arithmetic`), switches with the bytes of their tables
(`InstructionEffects`), unwinding and calls with positions in the call stack
(`ThreadFacts`), and resolution with walks and paths (`MethodResolution`).
`DescriptorGrammar.DescriptorAcceptedIff` has one surprise: behind a `V` for the result
anything may stand, so `()Vjunk` is a descriptor to the verifier.

**Heap.** A generational mark-sweep heap with a bump-allocated buffer, trimming and slot
reuse. `HeapModel` gives each operation's result as a value, `Heaps` the class that
updates its fields in place, `HeapFacts` what single operations keep, and `HeapRuns` the
safety of every run of mutator and collector. The roots of a collection are any that cover
what the program holds. Safety does not rest on the remembered set: minor collections are
safe whatever it holds. That collections do free is a separate matter:
`HeapFacts.CollectedFrees` says of every slot what is left of it, `HeapFacts.GarbageBound`
when garbage stays, and `HeapRuns.FirstCollectionExact` that the first collection of a run
leaves none.

**Monitors and class initialisation.** Each critical section is a method on the shared
table; a step system interleaves the sections of any number of threads, with signalled and
spurious wake-ups on the one condition variable all monitors share, and `Monitors.Section`
shows that the methods take its steps. What notify and notifyAll grant, and who gets in and
who resumes, is said of every run in terms of threads (`Monitors.NotifyAllGrants` to
`Monitors.ResumeIff`).

**Lookups that must agree with a simple definition.** Method resolution and the inline cache
of virtual calls, instance field offsets, descriptor scanners and slot layout, and
StackMapTable deltas.

## Model

| member | source | states |
|---|---|---|
| `Bytecode.FromByteInvertible` | src/bytecode.rs:526-732 | every byte that is an opcode is the encoding of exactly the opcode it decodes to |
| `Mnemonics.OpcodesNamed` | src/bytecode.rs:526-732 | the opcodes are the bytes from 0x01 to 0xc9, and each decodes to the opcode of its name in the instruction set's own list |
| `Decoder.LayoutTiles` | src/vm/verify.rs:118-174 | the scanned instructions tile the code: every byte lies in exactly one of them |
| `Decoder.LayoutFacts` | src/vm/verify.rs:118-174 | every scanned instruction decodes at its start, names a valid pool entry, and ends at another start or at the end of the code |
| `Decoder.NoStartInside` | src/vm/verify.rs:118-174 | no instruction starts inside another |
| `Decoder.ScanIff` | src/vm/verify.rs:118-174 | the scan yields a layout if and only if the layout divides the code into decodable instructions with valid pool indices and with branches that land on starts |
| `Verifier.DecodeInstruction` | src/vm/verify.rs:1018-1221 | reading operands arm by arm, its switch loops included, the decoder builds the specified instruction or rejects |
| `Verifier.ScanMethod` | src/vm/verify.rs:118-174 | the scan loop yields the layout if and only if everything decodes, every pool index is valid and every branch lands on a start |
| `Fetch.DecodersAgree` | src/vm/mod.rs:5454-5500 | whatever the verifier decoded, the interpreter reads the same opcode and operands, advances to the same next offset, and finds its jumps among the verified targets |
| `Fetch.ReadableIff` | src/vm/verify.rs:1171-1214 | what the verifier decoded, the interpreter can read if and only if it is usable: an opcode of the fragment, no negative tableswitch count, no wide prefix on anything but a load, store, iinc or ret |
| `Assembler.FetchedBack` | src/vm/mod.rs:5454-5500 | an opcode assembled with any operand but a switch table, with or without the wide prefix, is read back as that by the interpreter, which then stands right behind it |
| `Assembler.PoolIndexDecodedBack` | src/vm/verify.rs:1018-1221 | the verifier reads back every 16-bit constant-pool index, and the dimensions of a multianewarray |
| `VerifierGaps.RefusedOperandsStop` | src/vm/mod.rs:6290-6311 | where the verifier decoded operands that are not usable, every thread that gets there ends in an error of the VM |
| `VerifierGaps.TableGap` | src/vm/mod.rs:6299-6302 | a method the verifier accepts whose run ends in an error at a tableswitch from 2 to 0 |
| `VerifierGaps.WideGap` | src/vm/mod.rs:6834-6878 | a method the verifier accepts whose run ends in an error at a wide aconst_null |
| `VerifierGaps.HandlerGap` | src/vm/mod.rs:7202-7210 | two methods the verifier accepts, one calling the other under a handler whose range starts at the call's operand: the run ends in a type mismatch in the handler |
| `VerifierGaps.SlotGap` | src/vm/mod.rs:7222-7227 | the same with a whole range and max_stack zero: the run ends in a stack overflow |
| `HandlerSlot.GuardedFitIff` | src/vm/mod.rs:7222-7227 | with the same caller under any max_stack, the callee that throws is always fit to run, and the caller is if and only if it has a slot for its handler |
| `HandlerSlot.GuardedReturns` | src/vm/mod.rs:7194-7236 | with a slot the exception of the callee is caught and the caller returns |
| `OrderGap.OrderMatters` | src/vm/verify.rs:66-112 | one method that the verifier's own order of serving the worklist accepts and another order rejects |
| `MergeOrder.RefusedIff` | src/vm/verify.rs:66-112 | where one order accepts, a round of another order is refused if and only if two types that do not merge meet in a local, and the accepting order records that local as Top |
| `MergeOrder.RefusedBelowIff` | src/vm/verify.rs:66-112 | the same below any typing of the method, whether or not an order accepts it: a round is refused if and only if two types that do not merge meet in a local |
| `MergeOrder.OneKindAnyOrder` | src/vm/verify.rs:66-112 | if one order accepts a method whose locals keep to one kind each, no round of any order is refused and every order that ends records the same frames |
| `Typability.AnalysisSucceedsIff` | src/vm/verify.rs:62-112 | for methods whose locals keep to one kind the analysis succeeds if and only if the method has a typing, and then finds the least one |
| `Typability.AcceptedIffLeast` | src/vm/verify.rs:62-112 | and the frames it ends with are that least typing and no other |
| `Typability.VerifiesIff` | src/vm/verify.rs:50-116 | such a method is accepted if and only if its code divides into instructions, handlers and entry frame are in order, it has a least typing, and every frame of its stack map table agrees with that at the frame's target |
| `OrderGap.MixedStores` | src/vm/verify.rs:1662-1696 | the method of OrderMatters breaks that condition because it stores an int and a float in local 0; no instruction of it makes an uninitialised reference or a return address |
| `OrderGap.ConditionNotNeeded` | src/vm/verify.rs:66-112 | one method that breaks the condition and is refused in no order, so the condition is not necessary |
| `VerifyTypes.MergeIsLeastUpperBound` | src/vm/verify.rs:1294-1312 | a successful merge is the least upper bound of the two types |
| `VerifyTypes.MergeFailsIff` | src/vm/verify.rs:1294-1312 | a merge fails exactly when neither type is Top and Top is their only common upper bound |
| `VerifyTypes.MergeOrderIff` | src/vm/verify.rs:1294-1312 | the order in which two types are merged into a third matters exactly when one of them is Top and the other does not merge with the third |
| `VerifyTypes.MergeStatesIsLeastUpperBound` | src/vm/verify.rs:1243-1292 | merging frames is the least upper bound, slot by slot |
| `VerifyTypes.MergeLosesRank` | src/vm/verify.rs:1243-1292 | a merge that changes a frame strictly lowers its rank |
| `Verifier.MergeLists` | src/vm/verify.rs:1261-1288 | the merge loop fails exactly when some pair has no join, and reports a change exactly when the result differs |
| `Verifier.Propagate` | src/vm/verify.rs:1243-1292 | merging into a target slot updates that slot only and queues it exactly when it changed |
| `StackEffects.EffectAccepted` | src/vm/verify.rs:356-1016 | an instruction with a fixed effect is accepted if and only if the operands drawn for it are on top of the stack and its results have room; they take the operands' place and the locals stay |
| `StackEffects.ReferencePushed` | src/vm/verify.rs:356-1016 | which reference, unfinished object or return address an instruction that makes one pushes |
| `StackEffects.ConversionAccepted` | src/vm/verify.rs:753-793 | a conversion is accepted if and only if a number is on top, and one to long, float or double only if it is not of that type already |
| `StackEffects.ConstantAccepted` | src/vm/verify.rs:1348-1361 | a loaded constant is pushed with the type of its value |
| `StackEffects.MultianewarrayAccepted` | src/vm/verify.rs:935-946 | multianewarray takes as many ints as it has dimensions, and pushes an array |
| `StackEffects.FieldAccessAccepted` | src/vm/verify.rs:855-887 | a field access takes a value that fits the field if it writes, an object if the field is not static, and pushes the field's type if it reads |
| `StackEffects.CallAccepted` | src/vm/verify.rs:888-926 | a call is accepted if and only if its descriptor can be read, its arguments lie on top in order and its receiver below them, and its result has room |
| `StackEffects.ConstructorCallAccepted` | src/vm/verify.rs:888-910 | a constructor call needs an object below its arguments, and turns every copy of that object's type into the initialised one |
| `StackEffects.LoadAccepted` | src/vm/verify.rs:1644-1660 | a load is accepted if and only if the local holds a value of its kind and there is room, and pushes what is there |
| `StackEffects.StoreAccepted` | src/vm/verify.rs:1662-1696 | a store is accepted if and only if a value of its kind is on top and the local exists with the slot behind a two-word value; what it cuts in half is gone and nothing else changes |
| `StackEffects.LocalNeeded` | src/vm/verify.rs:746-854 | iinc needs an int in its local, ret a return address |
| `StackEffects.ReturnAccepted` | src/vm/verify.rs:951-1016 | a return is accepted if and only if the method's result is of its kind and such a value is on top |
| `StackEffects.FallthroughIff` | src/vm/verify.rs:1223-1241 | told by the opcode's byte, which instructions go on to the next one |
| `StackEffects.HandlerFlowsAre` | src/vm/verify.rs:75-90 | an exception flows to the targets of exactly the handlers that cover the instruction, with its locals and the caught class |
| `StackEffects.FlowsAre` | src/vm/verify.rs:75-111 | what flows from an instruction is exactly: into its handlers, on to the next, to its targets, and back from a subroutine |
| `AbstractFrames.AbstractFrame.ApplyInstruction` | src/vm/verify.rs:356-1016 | the in-place transfer of one instruction succeeds exactly when the specified one does, with the same frame |
| `AbstractFrames.AbstractFrame.StoreLocal` | src/vm/verify.rs:1662-1696 | the in-place store empties the wide neighbours it overwrites, as specified |
| `AbstractFrames.AbstractFrame.Rearrange` | src/vm/verify.rs:502-690 | popping, checking and pushing back one value at a time, as each opcode does, the shuffle has the specified result or is rejected |
| `AbstractFrames.AbstractFrame.InitializeUninitialized` | src/vm/verify.rs:1538-1550 | every copy of the uninitialised reference, in locals and on the stack, and nothing else, becomes an instance |
| `TransferFacts.ApplyKeepsShape` | src/vm/verify.rs:356-1016 | an instruction keeps the number of locals, the stack bound, no Top on the stack, and the unusable slot behind every long or double |
| `TransferFacts.ApplyMonotone` | src/vm/verify.rs:356-1016 | away from constructor calls a smaller frame is accepted whenever a larger one is, and gives a smaller result |
| `TransferFacts.FlowsMonotone` | src/vm/verify.rs:75-111 | the frames flowing to successors and handlers are monotone in the frame they come from |
| `TransferFacts.InitialFrameShape` | src/vm/verify.rs:293-354 | the entry frame has max_locals slots and an empty stack |
| `Verifier.LayOutEntry` | src/vm/verify.rs:293-354 | the entry-frame loop computes the specified frame, rejecting exactly when the parameters or preset locals do not fit |
| `EntryFrame.EntryFrameIff` | src/vm/verify.rs:293-354 | a method has an entry frame if and only if its descriptor can be read, receiver and parameters fit in max_locals, and no more locals are preset than there are |
| `EntryFrame.EntryFrameSlots` | src/vm/verify.rs:293-354 | each parameter is at the slot its predecessors leave it, an unusable slot behind every long and double, the receiver first and nothing behind the last |
| `EntryFrame.ReceiverType` | src/vm/verify.rs:293-315 | the receiver is an object under construction in a constructor and one of the method's class elsewhere |
| `EntryFrame.PresetLocals` | src/vm/verify.rs:330-347 | preset locals take the types of their values and the others are as without them |
| `EntryFrame.TableStartsAtEntry` | src/vm/verify.rs:1714-1731 | the locals a stack map table starts from, spelled out as slots, are those of the entry frame |
| `Worklist.AcceptingIsPostFixpoint` | src/vm/verify.rs:62-112 | however the worklist is served, an accepting run ends with every reached instruction applicable and everything that flows from it, handlers included, below what is recorded at its target |
| `Worklist.RunBelowPostFixpoint` | src/vm/verify.rs:62-112 | without constructor calls every configuration of every run lies below every post-fixpoint: the result is the least one |
| `Worklist.AcceptingRunsAgree` | src/vm/verify.rs:62-112 | any two accepting worklist orders record the same frames |
| `Worklist.RunLengthBounded` | src/vm/verify.rs:66-112 | no run, in whatever order, is longer than 1 + len * (1 + 3 * (max_locals + max(1, max_stack))) |
| `Worklist.StepKeepsInv` | src/vm/verify.rs:66-112 | one round keeps: unqueued reached offsets are settled, queued ones are reached, frames only grow |
| `Verifier.Round` | src/vm/verify.rs:66-111 | one round of the loop, its handler, fall-through, ret and branch merges in order, does what the specification does or rejects |
| `Verifier.Analyze` | src/vm/verify.rs:62-112 | the first-in-first-out loop terminates; it accepts with the states of its run, or no such run accepts |
| `Verifier.StuckRefuses` | src/vm/verify.rs:62-112 | a first-in-first-out run that can go no further rules out every accepting one |
| `Verifier.FifoResultUnique` | src/vm/verify.rs:62-112 | the states the loop accepts with are the only ones it could accept with |
| `Verifier.VerifyMethod` | src/vm/verify.rs:50-116 | the verifier accepts if and only if the code is empty, or scan, handler table, entry frame, analysis and stack map frames all are in order |
| `Verifier.ValidateExceptionHandlers` | src/vm/verify.rs:176-199 | the handler loop accepts exactly the tables whose ranges lie in the code and whose targets are instruction starts |
| `Descriptors.ArgumentsAgree` | src/vm/types.rs:753-841 | on every descriptor the verifier accepts, the argument counter and the argument-letter scanner see the same parameters |
| `DescriptorGrammar.DescriptorAcceptedIff` | src/vm/verify.rs:1433-1510 | a method descriptor is accepted if and only if the grammar derives it, up to anything behind a void result; and its types are those of the derivation |
| `Descriptors.SplitRoundTrip` | src/vm/mod.rs:2132-2188 | the parts a descriptor is split into concatenate back to it |
| `Descriptors.SplitAgrees` | src/vm/mod.rs:2132-2188 | on every descriptor the verifier accepts, each split part parses to the parameter the verifier saw there |
| `DescriptorScanners.ParseArgCount` | src/vm/types.rs:795-841 | the counting loop computes the specified count or rejects |
| `DescriptorScanners.ParseArgTypes` | src/vm/types.rs:753-793 | the letter loop computes the specified letters or rejects |
| `DescriptorScanners.ParseDescriptor` | src/vm/verify.rs:1433-1461 | the verifier's parameter loop computes the specified types or rejects |
| `DescriptorScanners.SplitDescriptor` | src/vm/mod.rs:2132-2188 | the splitting loop computes the specified parts or rejects |
| `ThreadSoundness.ArgumentsPlaced` | src/vm/mod.rs:787-797 | arguments laid out by the interpreter conform slot by slot to the parameter types laid out by the verifier, and a two-word argument is followed by an empty slot |
| `InstructionFacts.DivisionLaw` | src/vm/mod.rs:5830-5847 | quotient and remainder recombine to the dividend modulo 2^32, exactly unless MIN is divided by -1; the remainder is smaller than the divisor and takes the dividend's sign |
| `Arithmetic.IntBinaryExecutes` | src/vm/interpreter.rs:95-120 | an int operation takes its operands in order, leaves in their place the result specified by congruence for sums and products, by quotient for division and bit by bit for shifts and logic, and raises on division by zero |
| `Arithmetic.LongBinaryExecutes` | src/vm/mod.rs:5853-6019 | the same of longs, shifted by an int |
| `Arithmetic.NegationExecutes` | src/vm/mod.rs:5848-5896 | negation leaves the least value as it is and negates every other |
| `Arithmetic.ComputesOnce` | src/vm/mod.rs:5827-6019 | that specification leaves one result for every operation and operands |
| `Arithmetic.ExactWhereItFits` | src/vm/mod.rs:5827-5873 | a sum, difference or product that fits in a word is exact |
| `InstructionEffects.FloatBinaryExecutes` | src/vm/mod.rs:5897-5955 | float arithmetic is applied to the operands in order |
| `InstructionEffects.LcmpCompares` | src/vm/mod.rs:6096-6107 | lcmp pushes -1, 0 or 1 as the first long is less, equal or greater |
| `InstructionEffects.FloatsCompared` | src/vm/mod.rs:6108-6131 | a float comparison pushes -1, 0 or 1, and its own choice of 1 or -1 when neither holds |
| `InstructionEffects.IfBranches` | src/vm/mod.rs:6156-6209 | a branch on a comparison with zero is taken exactly when the condition holds, counted from the instruction, within the code |
| `InstructionEffects.IfIcmpBranches` | src/vm/mod.rs:6210-6269 | one on two ints is taken as the sign of their difference says |
| `InstructionEffects.IfAcmpBranches` | src/vm/mod.rs:6270-6289 | one on two references as they are the same or not |
| `InstructionEffects.SubroutineReturns` | src/vm/mod.rs:6333-6375 | jsr leaves the address behind it, and ret goes back to such an address |
| `InstructionEffects.ConstantsPushed` | src/vm/mod.rs:5461-5492 | by opcode byte, the value of each int, long, float and double constant; for the latter two, its IEEE bits |
| `InstructionEffects.ConstantLoaded` | src/vm/mod.rs:5469-5483 | ldc pushes the pool's entry at its index, and fails where there is none |
| `InstructionEffects.LoadPushes` | src/vm/interpreter.rs:43-67 | a load pushes what the local holds and fails on one that holds nothing |
| `InstructionEffects.StoredValueReadBack` | src/vm/interpreter.rs:69-93 | a stored value is read back, the slot behind a two-word one is empty, half of an overwritten one is gone, and no other local changes |
| `InstructionEffects.IincAdds` | src/vm/mod.rs:6020-6027 | iinc adds its constant to its local modulo the word size and changes nothing else |
| `InstructionEffects.TableswitchJumps` | src/vm/mod.rs:6290-6311 | a tableswitch jumps by the entry that stands in the code for its key, or by the default |
| `InstructionEffects.LookupswitchJumps` | src/vm/mod.rs:6312-6332 | a lookupswitch jumps by the first pair in the code with its key, or by the default |
| `InstructionFacts.ShuffleSpecifiedIff` | src/vm/verify.rs:502-690 | the verifier selects the form of section 6.5 of the JVM specification for every shuffle except pop of a two-word value and two stack shapes of dup2_x2 |
| `InstructionFacts.ShuffleRunsAsSpecified` | src/vm/mod.rs:5700-5828 | where the form is the specified one, the interpreter's shuffle moves exactly the specified values |
| `Conformance.MovesAgree` | src/vm/mod.rs:5700-5828 | wherever the verifier accepts a shuffle, dup2_x2 included, the interpreter makes the same move |
| `Conformance.StoreConforms` | src/vm/frame.rs:178-212 | a type-level store simulates the value-level one, keeping the slot above every long or double empty even where the types no longer show it |
| `Conformance.ShuffleFine` | src/vm/mod.rs:5700-5828 | a shuffle accepted on types raises nothing on conforming values and leaves conforming ones |
| `Conformance.BinaryFine` | src/vm/mod.rs:5830-6020 | a two-operand instruction accepted on types raises at most a division by zero and leaves a conforming frame |
| `InstructionFacts.BitwiseByBits32` | src/vm/mod.rs:5973-6019 | each of the 32 bits of and, or and exclusive or of two ints, the sign included, is the operation on the same bit of the operands |
| `InstructionFacts.BitwiseByBits64` | src/vm/mod.rs:5973-6019 | the same for the 64 bits of two longs |
| `InstructionFacts.LookupTakesFirst` | src/vm/mod.rs:6326-6331 | a lookupswitch takes the first pair with its key |
| `InstructionFacts.LookupTakesDefault` | src/vm/mod.rs:6326-6331 | a lookupswitch takes the default when no pair has its key |
| `FrameSoundness.SwitchSound` | src/vm/mod.rs:6290-6332 | a switch jumps to one of its verified targets whatever the key |
| `FrameSoundness.RetSound` | src/vm/mod.rs:6348-6363 | ret finds a return address and goes where the verifier let it flow |
| `FrameSoundness.InstructionSound` | src/vm/mod.rs:5454-6375 | per-frame preservation and progress: an instruction accepted by the verifier, run on a conforming frame, raises no error, ends at a verified successor and conforms there |
| `ThreadSoundness.HandlerEnteredIff` | src/vm/mod.rs:7222-7227 | a matching handler can be entered if and only if the method declares at least one stack slot |
| `ThreadSoundness.HandlerEntered` | src/vm/mod.rs:7222-7227 | a frame interrupted anywhere in an instruction, its stack cleared to the exception, conforms at the handler |
| `ThreadSoundness.UnwindSafe` | src/vm/mod.rs:7194-7237 | unwinding a well-typed stack ends in a well-typed stack or in an unhandled exception, nothing else |
| `ThreadFacts.FirstHandlerTaken` | src/vm/mod.rs:7202-7220 | among a method's handlers the first in table order that covers the offset and catches the class is taken |
| `ThreadFacts.UnwoundToHandler` | src/vm/mod.rs:7194-7236 | an exception ends in the innermost frame with a handler for it, at its first one; the frames above are gone and that frame keeps its locals |
| `ThreadFacts.UnwoundToNothing` | src/vm/mod.rs:7228-7236 | with no handler in any frame the thread ends with the exception's class |
| `ThreadFacts.RaisedIsCaught` | src/vm/mod.rs:7177-7236 | an instruction that raises makes a new object of the exception's class, and the handler found for that class gets it |
| `ThreadFacts.ThrownIsCaught` | src/vm/mod.rs:6803-6809 | athrow hands the handler found for its class the object itself, and a new NullPointerException where it is null |
| `ThreadSoundness.EntryConforms` | src/vm/mod.rs:6666-6668 | a callee's first frame conforms to its method's entry frame |
| `ThreadSoundness.InvokeSafe` | src/vm/mod.rs:6588-6677 | a static call from a well-typed stack pushes a well-typed frame or finds no callee |
| `ThreadFacts.CallPassesArguments` | src/vm/mod.rs:6588-6677 | a static call takes its arguments off the stack in order, and the callee has each at the slot its predecessors leave it |
| `ThreadFacts.ReturnsToCaller` | src/vm/interpreter.rs:122-156 | a return puts its value on the caller's stack and changes nothing else of the frames left |
| `ThreadFacts.CalleeIsolated` | src/vm/mod.rs:885-917 | until a callee returns, the frames below it are exactly what they were, whatever it runs, calls and throws |
| `ThreadSoundness.ResumeSafe` | src/vm/interpreter.rs:120-131 | a caller given a result of the right type conforms at the instruction after its call |
| `ThreadSoundness.ReturnedFits` | src/vm/interpreter.rs:120-155 | what a return instruction hands back fits the method's descriptor |
| `ThreadSoundness.StepSafe` | src/vm/mod.rs:885-917 | one loop iteration takes a well-typed thread to a well-typed one, a result that fits in the final heap, a missing callee or an unhandled exception |
| `ProgramSoundness.RunSafe` | src/vm/mod.rs:885-917 | the same for runs of any length, through any interleaving of calls, returns and unwinding |
| `ProgramSoundness.ExecutionSafe` | src/vm/mod.rs:885-917 | type soundness: a method of accepted methods, called with arguments of its parameter types, never ends in underflow, overflow, a type mismatch, an uninitialised local, an invalid branch or a missing return, and what it returns fits its descriptor in the final heap |
| `ProgramSoundness.MissingReturnIff` | src/vm/verify.rs:51-53 | falling off the code happens, among methods the verifier lets through, exactly for a method without code |
| `ProgramSoundness.VerifiedIsAccepted` | src/vm/verify.rs:50-116 | what the verifier's loop accepts is accepted in the sense of the soundness theorem |
| `ProgramSoundness.FitWhenUsable` | src/vm/verify.rs:50-116 | an accepted method is fit to run if every decoded instruction is usable |
| `HandlerSlot.HypothesesMet` | src/vm/mod.rs:885-917 | a program with a call that throws and a handler that catches meets every hypothesis of ExecutionSafe |
| `Execution.Execute` | src/vm/mod.rs:885-917 | verifying and then interpreting: rejection is exactly the verifier's, an accepted method fails only benignly, and its result fits its descriptor in the heap there is then |
| `Frames.Frame.StoreLocal` | src/vm/frame.rs:178-212 | the in-place store computes the specified locals or the specified error |
| `Frames.Frame.Push` | src/vm/frame.rs:153-161 | pushes exactly when the stack is below max_stack |
| `Frames.Frame.Pop` | src/vm/frame.rs:164-166 | takes the top value, or reports underflow and changes nothing |
| `Frames.Frame.Branch` | src/vm/frame.rs:287-297 | jumps anywhere from the first byte to the end of the code, nowhere else |
| `Frames.Frame.ReadI32` | src/vm/frame.rs:137-143 | assembles four bytes big-endian and advances by four, or reports the end |
| `Frames.Frame.Rearrange` | src/vm/mod.rs:5700-5828 | each opcode's pops, width checks and pushes, one value at a time, have the specified result or error |
| `Frames.Frame.Arithmetic` | src/vm/mod.rs:5830-6020 | operands popped right to left; the result, the zero-divisor exception and every error as specified |
| `Frames.Frame.ReadTable` | src/vm/mod.rs:6290-6302 | reads padding, bounds and offsets of a tableswitch, with a panic for a negative count |
| `Frames.Frame.ReadLookup` | src/vm/mod.rs:6312-6325 | reads padding and pairs of a lookupswitch |
| `Frames.Frame.Execute` | src/vm/mod.rs:5454-6375 | reading operands and executing in place equals fetching and executing in the machine, for every opcode of the fragment |
| `Interpreter.CallStack.PopFrame` | src/vm/thread.rs:123-125 | removes exactly the innermost frame |
| `Interpreter.Vm.Deliver` | src/vm/mod.rs:7194-7237 | the unwinding loop finds the machine's handler frame, or leaves a bottom frame that has no handler either |
| `Interpreter.Vm.LayOutArguments` | src/vm/mod.rs:787-797 | the argument loop computes the specified locals |
| `Interpreter.Vm.InvokeStatic` | src/vm/mod.rs:6588-6677 | a static call pops, reorders and lays out arguments as the machine does, with the same errors |
| `Interpreter.Vm.ReturnTyped` | src/vm/interpreter.rs:122-131 | a typed return ends the thread or hands its value to the caller, as the machine does |
| `Interpreter.Vm.Iterate` | src/vm/mod.rs:885-917 | one iteration over mutable frames takes exactly the machine's step, including the errors it turns into exceptions |
| `Interpreter.Vm.RunFor` | src/vm/mod.rs:885-917 | any number of iterations takes exactly the machine's run |
| `StackMaps.TableNormalizesToFold` | src/classfile.rs:636-740 | for an accepted table, the locals rebuilt from an empty start and normalised equal the fold of its deltas over the method's parameters at every frame, when no frame spells out the upper half of a long or double; where a class does not resolve, both fail |
| `StackMaps.TruncateIsChopIff` | src/vm/verify.rs:1753-1776 | the verifier's chop drops exactly the last entries if and only if no entry is an explicit upper half or everything is dropped |
| `StackMaps.ParserAcceptsIff` | src/classfile.rs:663-685 | the parser accepts a table if and only if its entries decode and none drops more locals than the entries before it put there, starting from none |
| `StackMaps.FoldSucceedsIff` | src/vm/verify.rs:1714-1751 | the fold over the method's parameters succeeds if and only if no entry drops more than the parameters and the entries before it put there, and every class resolves |
| `StackMaps.ParameterChopRefused` | src/classfile.rs:663-676 | a table of two entries, one more int and then a chop of two, is refused although the fold succeeds for every method with a parameter |
| `StackMapReader.ClassReader.ReadStackMapTable` | src/classfile.rs:636-740 | the reader's loop computes the specified frames or rejects |
| `StackMapWriter.TableReadBack` | src/classfile.rs:636-740 | a table written by section 4.7.4 of the JVM specification is read back entry for entry |
| `StackMapWriter.TagMeans` | src/vm/verify.rs:1314-1335 | the type each tag of a table stands for |
| `Verifier.TruncateLocals` | src/vm/verify.rs:1753-1776 | the backward loop and final reversal compute the specified chop |
| `Verifier.ValidateStackMapFrames` | src/vm/verify.rs:201-243 | the validation loop accepts exactly when every frame lies on reached code and agrees with the frame computed there |
| `StackMapTargets.StackMapsOkIff` | src/vm/verify.rs:201-243 | the check passes if and only if the locals of every frame can be worked out and a state is recorded that agrees, at k plus the sum of the first k + 1 deltas for frame k |
| `StackMapTargets.TableCheckedIff` | src/vm/verify.rs:201-243 | the same of the table's bytes, with the locals the fold of its deltas makes |
| `StackMapTargets.LocalsMatchIff` | src/vm/verify.rs:245-291 | locals agree if and only if they do in every slot up to the last usable one |
| `StackMapTargets.StackMatchesIff` | src/vm/verify.rs:245-291 | a stack agrees if and only if every value does and nothing usable is expected above it |
| `StackMapTargets.LocalInSlot` | src/vm/verify.rs:1702-1712 | as slots, each local is at its own slot, with an unusable one behind a long or double |
| `Verifier.CompareStackMap` | src/vm/verify.rs:245-291 | locals may say more than the frame, a stack must have its height, and compared entries must be compatible |
| `HeapRuns.HeapSafety` | src/vm/heap.rs:165-202 | over every run of allocations, stores, loads, drops and collections whose roots cover the held references: everything reachable from the held references resolves, every stored index is below the length, the buffer ends where the heap ends with only empty slots ahead, and allocations equal occupied slots plus freed |
| `HeapRuns.FirstCollectionExact` | src/vm/heap.rs:511-544 | the first collection of any run leaves exactly what was occupied and reachable from its roots |
| `HeapRuns.CountersCount` | src/vm/heap.rs:165-202 | in every run the counters are the numbers of allocations and of collections so far |
| `HeapFacts.MajorIsExact` | src/vm/heap.rs:631-705 | after a major collection a slot is occupied if and only if it was occupied and reachable; survivors are unchanged and trimming loses none |
| `HeapFacts.MinorIsSafe` | src/vm/heap.rs:546-629 | whatever the remembered set holds, a minor collection keeps everything reachable, touches nothing at or above survivor_end, and frees only what neither roots nor remembered targets reach |
| `HeapFacts.CollectedFrees` | src/vm/heap.rs:511-544 | which collection runs, and what is left of every slot: after a major one exactly what the roots reach, after a minor one that and everything outside the young generation |
| `HeapFacts.YoungGarbageFreed` | src/vm/heap.rs:511-544 | after every collection a slot of the young generation that neither roots nor remembered targets reach is empty |
| `HeapFacts.GarbageBound` | src/vm/heap.rs:511-544 | garbage outlives a collection only while the heap is smaller than twice the young generation, and only outside it or behind a remembered edge |
| `HeapFacts.CollectionReports` | src/vm/heap.rs:511-705 | the counts a collection reports, and what becomes of both generations, the remembered set and the buffer |
| `HeapFacts.CollectedAges` | src/vm/heap.rs:602-615 | survivors of a minor collection are one older up to 255, freed slots have age zero, and a major one ages nothing |
| `HeapFacts.AllocateClobbersNothing` | src/vm/heap.rs:165-202 | allocation returns a slot that held nothing and changes no other |
| `HeapFacts.AllocationBumps` | src/vm/heap.rs:165-202 | slots are handed out one after another, and the heap grows by a whole buffer exactly when the next lies behind its end |
| `HeapFacts.BarrierRemembers` | src/vm/heap.rs:206-214 | the write barrier remembers exactly the edges from at or above survivor_end to below it, each once |
| `HeapFacts.ElementStoredIff` | src/vm/heap.rs:333-387 | a store into a reference array succeeds exactly within the bounds of such an array, is read back, changes nothing else, and remembers the edge |
| `HeapFacts.FieldStoredIff` | src/vm/mod.rs:4712-4759 | a store into a field succeeds exactly on an object that has it, is read back, changes nothing else, and remembers the edge |
| `HeapFacts.CollectionCounts` | src/vm/heap.rs:511-544 | a collection loses exactly the objects it counts as freed |
| `HeapFacts.ReachSetLeast` | src/vm/heap.rs:563-596 | reachability is the least set that holds the roots and is closed under references |
| `HeapRuns.ActSafe` | src/vm/heap.rs:511-705 | every action of the mutator and the collector keeps the heap safe |
| `HeapRuns.OthersUnchanged` | src/vm/heap.rs:333-387 | across one action a reachable object changes only if it is the one stored into |
| `HeapRuns.MinorSafe` | src/vm/heap.rs:546-629 | a minor collection whose roots cover the held references keeps them resolving, and leaves no dangling index at or above the slot that holds it |
| `HeapRuns.MajorSafe` | src/vm/heap.rs:631-705 | a major collection whose roots cover the held references keeps them resolving, and trimming passes no index a survivor holds |
| `Heaps.Mark` | src/vm/heap.rs:563-596 | marking from a worklist with duplicates and stale indices terminates, never indexes past its marks, and marks exactly what is reachable |
| `Heaps.Heap.Allocate` | src/vm/heap.rs:165-194 | bump allocation with refill gives the specified heap and slot |
| `Heaps.Heap.WriteBarrier` | src/vm/heap.rs:206-214 | records an old-to-young edge once |
| `Heaps.Heap.StoreReferenceArrayElement` | src/vm/heap.rs:333-387 | stores one element or reports the specified error; the barrier runs before the index is checked |
| `Heaps.Heap.StoreObjectField` | src/vm/mod.rs:4712-4759 | stores one field or reports the specified error; the barrier runs before any check |
| `Heaps.Heap.Sweep` | src/vm/heap.rs:602-615 | one loop empties exactly the unmarked slots below the bound, counts them, and ages or resets the others |
| `Heaps.Heap.TrimEnd` | src/vm/heap.rs:688-692 | drops exactly the empty slots at the end |
| `Heaps.Heap.Collect` | src/vm/heap.rs:511-544 | chooses minor or major by length and leaves the specified heap with a fresh buffer |
| `Monitors.NoLostWakeup` | src/vm/mod.rs:4983-5089 | in every interleaving, a thread asleep and unsignalled in enter is kept out by another holder, and a free monitor's pending notifications each have a signalled waiter |
| `Monitors.MutualExclusion` | src/vm/mod.rs:4983-5023 | at most one thread is inside a monitor, the lock count is its own outstanding enters, and the count is zero exactly when there is no owner |
| `Monitors.NotificationsConserved` | src/vm/mod.rs:5025-5089 | the waiter count is exact, pending notifications never exceed it, and grants equal completed waits plus pending ones |
| `Monitors.NotifyAllGrants` | src/vm/mod.rs:5062-5089 | in any run, notifyAll by the owner leaves one notification for every waiter and signals every sleeper |
| `Monitors.NotifyGrantsOne` | src/vm/mod.rs:5062-5089 | and notify leaves exactly one more if some waiter has none, and no more otherwise |
| `Monitors.OnlyOwnersAct` | src/vm/mod.rs:5001-5089 | leaving, waiting and notifying by a thread that does not own the monitor changes nothing of it |
| `Monitors.EnterIff` | src/vm/mod.rs:4983-4999 | in any run a thread gets in if and only if no other is inside, and then its count is one more |
| `Monitors.ResumeIff` | src/vm/mod.rs:5047-5058 | in any run a waiter resumes if and only if a notification is left and nobody is inside, and uses it up |
| `Monitors.WaitRestores` | src/vm/mod.rs:5047-5058 | a completed wait gives back exactly the enters the thread had |
| `Monitors.StepKeepsInv` | src/vm/mod.rs:4983-5089 | every critical section of every thread, spurious wake-ups included, keeps the invariants |
| `Monitors.DroppingIsHarmless` | src/vm/mod.rs:5015-5018 | dropping an unused entry changes no monitor |
| `Monitors.Section` | src/vm/mod.rs:4983-5089 | a critical section run on the shared table, retries and wake-ups included, leaves table and threads as the system's step does |
| `Monitors.SharedMonitors.TryEnter` | src/vm/mod.rs:4983-4999 | enters exactly when the monitor is free or already the thread's |
| `Monitors.SharedMonitors.Exit` | src/vm/mod.rs:5001-5023 | lowers the count, frees the monitor at zero, drops an unused entry and changes no other monitor; refused to anyone but the owner |
| `Monitors.SharedMonitors.BeginWait` | src/vm/mod.rs:5025-5045 | releases all of the owner's enters at once and counts it as a waiter |
| `Monitors.SharedMonitors.TryResume` | src/vm/mod.rs:5047-5058 | resumes exactly when a notification is pending and the monitor is free |
| `Monitors.SharedMonitors.Notify` | src/vm/mod.rs:5062-5089 | grants one or all of the notifications still missing, never more than there are waiters |
| `ClassInit.OneInitializer` | src/vm/mod.rs:4544-4610 | in every interleaving at most one thread is inside a class's initialiser, and it succeeds at most once, exactly when the class is initialised |
| `ClassInit.InitializedForGood` | src/vm/mod.rs:4544-4610 | an initialised class stays initialised for the rest of the run |
| `ClassInit.ProceedIff` | src/vm/mod.rs:4553-4567 | a thread is told to go on if and only if the class is initialised or the thread is inside its initialiser, and to wait if and only if another thread is |
| `ClassInit.FailureAllowsRetry` | src/vm/mod.rs:4602-4606 | after a failed initialiser whoever asks next runs it again |
| `ClassInit.RuntimeState.Begin` | src/vm/mod.rs:4552-4584 | claims an untouched class, and otherwise changes nothing |
| `Classes.CacheCoherent` | src/vm/mod.rs:6473-6532 | for any sequence of receivers while the class table gains classes, every call runs the method resolution would find for its receiver |
| `Classes.ResolveMethod` | src/vm/mod.rs:7247-7305 | the two resolution loops terminate and compute the specified resolution: superclass chain first, then interfaces in order of first mention |
| `MethodResolution.ResolvedOnChain` | src/vm/mod.rs:7247-7275 | the first class up the superclasses that declares the method is the one found, and one that is not loaded before it stops the search |
| `MethodResolution.WalkEnds` | src/vm/mod.rs:7247-7275 | every class has such a walk, to a declaration, to a class not loaded or to the root |
| `MethodResolution.ResolvedInInterfaces` | src/vm/mod.rs:7277-7305 | past the chain nothing is found if and only if no interface reachable over loaded ones declares the method; otherwise one is that no shorter path reaches a declaration before |
| `MethodResolution.DispatchFills` | src/vm/frame.rs:272-284 | what a virtual call resolves is in the cache from then on under the declaring class, and nothing else of the cache changes |
| `Classes.InvokeCache.Dispatch` | src/vm/frame.rs:258-284 | a call runs the cached method on a hit, and otherwise resolves and caches by the declaring class |
| `Classes.OffsetIsField` | src/vm/mod.rs:4761-4783 | a found offset is inside the object and is the entry the declaring class contributed; none is found exactly when there is no such field |
| `Classes.OffsetsInjective` | src/vm/mod.rs:4761-4783 | two fields share an offset only if they are the same field of the same class |
| `Classes.WritesDoNotInterfere` | src/vm/mod.rs:4671-4759 | writing one field, shadowed or not, never changes what is read from another |
| `Classes.UndeclaredIsNearest` | src/vm/mod.rs:4761-4783 | without a declaring class the walk finds the field of the nearest class that has the name |
| `Classes.InstanceFieldOffset` | src/vm/mod.rs:4761-4783 | the counting walk computes the specified offset, or reports the missing field or the first class not loaded |
| `Classes.LoadedOffset` | src/vm/mod.rs:4761-4783 | on a loaded superclass chain the walk is the search over that chain |
| `Classes.LaidOutIff` | src/vm/mod.rs:4785-4800 | an object is laid out if and only if its whole superclass chain is loaded, and then by that chain |
| `Classes.CollectInstanceFields` | src/vm/mod.rs:4785-4800 | the collecting walk computes the specified layout, or reports the first class not loaded |

## Left out

- Fetch.DecodersAgree: covers the opcodes of the fragment listed above; array, field, object-creation, monitor, conversion and the other call instructions are decoded and verified here but not executed.
- Fetch.ReadableIff: counts the opcodes outside that fragment as unreadable, although the source executes them.
- ProgramSoundness.ExecutionSafe: excludes numeric conversions and `laload`, `faload`, `daload`, where the verifier accepts what the interpreter's checks refuse (src/vm/verify.rs:753-793, src/vm/heap.rs:422-450), and static fields, whose long, float and double defaults have the wrong type (src/launcher.rs:556-562).
- ThreadSoundness.InvokeSafe: class loading, class initialisation, native methods and compiled code inside `invokestatic` are not part of this model; the class table is fixed and holds bytecode methods only, found by class, name and descriptor.
- Interpreter.Vm.InvokeStatic: the same; a callee is in the class table or the call ends in a missing method.
- Interpreter.Vm.Iterate: turns the errors of the fragment into exceptions; those of array instructions and casts, which the fragment does not have, are absent.
- Interpreter.Vm.ThrowNewException: to the interpreter an object is only its class; heap and interpreter are verified separately, and no collection runs between its steps.
- Worklist.AcceptingRunsAgree: leastness and order independence are stated for methods without constructor calls, because initialising an already initialised reference is not monotone (src/vm/verify.rs:1538-1550).
- Verifier.VerifyMethod: which error a rejection carries is not modelled; reading past the end, a branch out of the code and an index that panics are all rejection.
- Frames.Frame.Execute: opcodes outside the fragment end in an error of their own, which no run of a usable method meets. Int and long arithmetic is total and wraps; division of the least value by -1, negation and `iinc` use unchecked operators in the source (src/vm/mod.rs:5837, src/vm/mod.rs:5850, src/vm/mod.rs:6026). The 32-bit count of a tableswitch is likewise a panic when it overflows. Float and double arithmetic and comparison are parameters.
- HeapRuns.HeapSafety: counters are unbounded where the source saturates at 64 bits, heap sizes in bytes and pause times are not modelled.
- Heaps.Heap.StoreObjectField: takes the offset that `Classes.InstanceFieldOffset` finds; looking it up inside the store is not modelled.
- Monitors.NoLostWakeup: no fairness or scheduling is modelled, and a notification may be taken by a thread that began to wait after it; park and unpark are left out.
- Monitors.SharedMonitors.TryResume: requires that a thread waits on the monitor, which `Monitors.NotificationsConserved` shows of every run; without it the source's counter would underflow.
- Classes.ResolveMethod: superclass chains are finite; on a cyclic hierarchy the source does not terminate.
- Classes.CollectInstanceFields: loading a class while fields are collected is not modelled; a class is in the table, or the walk reports it.
- MergeOrder.OneKindAnyOrder: sufficient, not necessary; it asks for no constructor calls, `new`, `jsr` or constants that are return addresses, whose types change by more than merging.
- HeapFacts.CollectedAges: object ages are recorded as the source records them, which never reads them.
- InstructionEffects.FloatsCompared: asks of the float operations that at most one of less, equal and greater holds.
- Descriptors.SplitAgrees: strings are sequences of characters where the source works on bytes; descriptors are the same in either.
- StackMaps.TableNormalizesToFold: no frame may spell out the upper half of a long or double; `StackMaps.TruncateIsChopIff` shows that this is needed.
- Just-in-time compilation, on-stack replacement, deoptimisation and inlining.
- Native methods, `invokedynamic`, dynamically computed constants, method handles and VarHandles.
- Class loading, archives, the launcher, logging and timing.
- Whether the collector's roots cover every cache of the VM and every reference native code holds.
- Strings, the string pool, the metadata arena and float formatting.
