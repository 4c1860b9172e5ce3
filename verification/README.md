# A verified model of the Egg virtual machine's core

These Dafny modules model the parts of Egg's C++ virtual machine where a mistake is hardest to
see, and prove what they are there for. `dafny verify dfyconfig.toml` checks them all.

**The collector** (`Regions`, `Heap`, `Marking`, `G1GC`, `AllocationZone`, `Copies`). One pass marks from
the roots with an explicit stack of ranges and the range being scanned kept apart; objects of
sparse spaces are copied as they are met, with forwarders left at a fixed offset; ephemerons are
followed while their keys are alive and rescued in rounds. `Marking` has the invariant of every
step as facts about values, `G1GC` the loops over the object's fields. The result is that the
graph after a collection is the graph before, up to where the moved objects live, that the roots
follow it, and that exactly the ephemerons are rescued that the old heap demands: `Heap` says which
ephemerons are alive with a dead key once others have been rescued, and the collector's rounds are
those, one after the other, until there are none. `AllocationZone` keeps the zone's spaces
over every run of allocations and collections, so that copies never land where space is being
emptied, and says exactly which spaces a collection gives back; a space in which everything marked
has an empty body is among them. `Copies` joins the two: the zone's addresses are those that the
collector's copies need, and no space that is given back because it was emptied holds a marked
object. Which spaces are emptied, and where every object goes, is said exactly.

**The linearizer and the evaluator** (`Trees`, `Machine`, `Layout`, `Linearizer`, `Runs`,
`Simulation`, `Meaning`, `Constructs`, `EmptyBlocks`, `StackDepth`). `Trees` says what an expression tree means,
loops and returns included, with sends as an unknown relation; `Machine` what each operation does; `Layout` which operations a
tree has, with every jump in place; `Linearizer` how they are emitted and patched. `Simulation`
proves that running the operations does what the tree means, and `Meaning` that a script's code
ends exactly when its tree does, with the same value and world. `Runs.Sound` states which trees
this is true of: where the value of an inlined block is looked at the block is not empty, the
value of a loop is not looked at, and no counted loop comes after a one-armed ifNil:, which lowers
the static stack top once too often. `Constructs` says what the inlined messages come to in terms
of cells and values alone: what an ifNil: block finds in its argument's cell, and that counted loops
turn as often as they should. Outside these `Meaning` has examples that go wrong,
`EmptyBlocks` says of each inlined message with an empty block exactly when its value is right, and
`StackDepth`, of all trees and every step of every run, at which operations the static
stack top is right.

**Treecodes** (`TreecodeIntegers`, `ParseNodes`, `Braces`, `TreecodeEncoder`, `TreecodeDecoder`,
`TreecodeRoundTrip`, `TreecodeLosses`, `TreecodeMethods`, `TreecodeFormat`). The literal pool has all that the encoder
looks up, and the decoder rebuilds the tree that was encoded exactly when none of three things
happens: a method of 110 statements without a pragma, a block whose place in the pool is past 127,
and an inlined argument's cell past 255. The bytes are those of the format, kind by kind, and the
cascade that stands for a brace node answers the array of its elements.

**Frames** (`Frames`). The evaluator's stack as the array it is: for every nesting of calls,
closure activations and sends from the evaluator, returning restores the registers, arguments are
the values pushed, and the collector's walk meets each object once and no saved pc or base. The
exception is the environment register, which a send from the evaluator saves only once the launch
frame has replaced it.

**Scopes and closures** (`Scopes`, `Causes`, `Closures`, `Addresses`). What each block captures, one
reference at a time, and that it is exactly what some reference needs; where variables are put; what a closure takes with it; that two variables never share a cell; and that a
reference leads to the cell of its declaration exactly when the slot meant for the declaration's
environment really holds it. It does when nested blocks number that environment alike, but they do
not always: a block's elements are encoded with its own numbers and read with those of the script
around it, and the numbers are cut to bytes.

**Smaller algorithms**. Integer literals (`LiteralIntegers`), the order in which classes are
created (`ClassOrder`), the walk over a space's objects (`HeapWalk`), and the tables built while
bootstrapping (`OpenHash`).

What the code leaves to its surroundings is a parameter here: the meaning of sends, of variables
outside the frame and of closure creation (`Trees.Semantics`), the world they act on
(`Trees.World`), the superclass of a class, the hash of a key, the number of arguments of a piece
of code. `==` is taken to be answered by identity, as the evaluator's undermessage does. Where the
C++ would read or write out of bounds, or stops the program, the model says so with a result that
stands for it (`Stuck`, `Failed`, `None`, `OutOfMemory`, or false).

## Model

| member | source | states |
|---|---|---|
| G1GC.G1GC.Collect | runtime/cpp/Allocator/GarbageCollector.cpp:35-47 | a collection of any heap without dangling pointers, up to the release of the spaces: the marked graph is the old reachable graph up to an injective renaming; nothing marked lives between the beginning of an emptied space and the end of its forwarder area, and just what was there has moved; every root and reference follows; unreachable objects are untouched; the rescued ephemerons are exactly those of the rounds that the old heap alone decides, every other reachable ephemeron was followed while its key was marked, and each in the first phase that had it due |
| Heap.RoundsAreDetermined | runtime/cpp/Allocator/GarbageCollector.cpp:49-56 | the heap alone decides how many rescue rounds there are, what is marked when each begins, and which ephemerons it rescues: those alive by then, not rescued before, whose keys are dead |
| Marking.TracePreservesGraph | runtime/cpp/Allocator/G1GC.cpp:182-361 | when nothing is left to scan and no ephemeron waits, the invariant and up-to-date roots give the graph isomorphism |
| Marking.AllReachableSeen | runtime/cpp/Allocator/G1GC.cpp:207-361 | marked means reachable from the roots, and the other way round |
| Marking.SeenIsImage | runtime/cpp/Allocator/G1GC.cpp:333-361 | each marked object, where it lives now, has the old shape and every pointer brought up to date; a bytes object has its bytes |
| Marking.ImageExactly | runtime/cpp/Allocator/G1GC.cpp:333-361 | slot by slot: the flags are the old ones, every slot is brought up to date, the words of a bytes object stay |
| Marking.ResolvedExactly | runtime/cpp/Allocator/G1GC.cpp:333-361 | a pointer brought up to date leads to what stands for its old target, and any other word is as it was |
| Marking.EmptiedExactly | runtime/cpp/Allocator/G1GC.cpp:79-83 | an object has to be evacuated exactly when its address is between the beginning of an emptied space and the end of its forwarder area |
| Marking.MarkedLeave | runtime/cpp/Allocator/G1GC.cpp:79-83 | no marked object lives there, what was there has moved once, and what was elsewhere keeps its address |
| Marking.AllEphemeronsAccounted | runtime/cpp/Allocator/GarbageCollector.cpp:49-73 | once none waits, no live ephemeron has a dead key, what the rescues keep alive is all that is reachable, and every reachable ephemeron was followed |
| Marking.LiveFixpoint | runtime/cpp/Allocator/GarbageCollector.cpp:17-33 | when the check finds no waiting ephemeron with a marked key, the marked objects are exactly the least set closed under strong pointers, the slots of ephemerons with a key in it, and those of rescued ephemerons |
| Marking.WidenBound | runtime/cpp/Allocator/GarbageCollector.cpp:149-164 | a rescue may mark what its ephemerons keep alive, and the invariant does not mind |
| Marking.FollowedOneMore | runtime/cpp/Allocator/GarbageCollector.cpp:58-62 | an ephemeron followed is remembered with what was marked at that moment; if its key was among it, it was followed live |
| Marking.MarkKeepsInvariant | runtime/cpp/Allocator/G1GC.cpp:271-288 | marking an object, in place or as a copy, keeps the tracing invariant once its positions are queued, and makes the unmarked set smaller |
| Marking.StoreKeepsInvariant | runtime/cpp/Allocator/G1GC.cpp:333-361 | storing the new address of a marked target keeps the invariant with that position scanned |
| Marking.StepOver | runtime/cpp/Allocator/G1GC.cpp:349-353 | a target met before: its address is stored and the range gets one shorter |
| Marking.StepInto | runtime/cpp/Allocator/G1GC.cpp:355-361 | a target met for the first time: its address is stored, the rest of the range is kept on the stack, the scan turns to the target |
| Marking.TargetCases | runtime/cpp/Allocator/G1GC.cpp:333-347 | what can be found at a position to scan: the old value, or one already brought up to date, never a dangling address |
| Marking.RootCases | runtime/cpp/Allocator/G1GC.cpp:317-331 | what a root can hold when it is scanned, also for the second time |
| Marking.FollowKeepsInvariant | runtime/cpp/Allocator/GarbageCollector.cpp:58-62 | following a waiting ephemeron queues its slots and takes it off the waiting ones |
| Marking.KeyCheck | runtime/cpp/Allocator/G1GC.cpp:168-172 | reading the key of an ephemeron where it lives now, moved or not, tells whether its old key is marked |
| Marking.RoundKeepsRounds | runtime/cpp/Allocator/GarbageCollector.cpp:155-164 | when no waiting ephemeron has a marked key, the waiting ones are exactly those to rescue next |
| Marking.RoundKeepsRescuedOnce | runtime/cpp/Allocator/GarbageCollector.cpp:149-164 | the rescued list holds each ephemeron of the rounds exactly once |
| Marking.RoundKeepsAccounted | runtime/cpp/Allocator/GarbageCollector.cpp:149-164 | after a rescue every ephemeron followed had its key marked at the moment it was followed, or is in a round whose marks it found; and each was followed in the first phase that had it due |
| Marking.RoundBegins | runtime/cpp/Allocator/GarbageCollector.cpp:17-33 | when a rescue begins, exactly the ephemerons followed so far are marked with their key marked or rescued, each followed with no more marked than is marked now |
| Marking.PhasesKept | runtime/cpp/Allocator/GarbageCollector.cpp:49-62 | an ephemeron followed later was not due by any round before, and finds marked all that those rounds found |
| Marking.InitialState | runtime/cpp/Allocator/GarbageCollector.cpp:84-99 | how a collection starts satisfies the invariant |
| Marking.OriginInMemory | runtime/cpp/Allocator/G1GC.cpp:66-77 | every object that stands for an old one is in memory |
| Heap.ClosedSetHoldsReachable | runtime/cpp/Allocator/G1GC.cpp:182-190 | a set with the roots that is closed under pointers holds the end of every path |
| Heap.LiveSetIsClosed | runtime/cpp/Allocator/GarbageCollector.cpp:64-73 | the least live set, some ephemerons rescued, is itself closed |
| Heap.LiveIsReachable | runtime/cpp/Allocator/GarbageCollector.cpp:64-73 | whatever is rescued, only what is reachable is alive |
| Heap.ReachableSetIsClosed | runtime/cpp/Allocator/G1GC.cpp:182-190 | what is reachable is closed under every pointer, ephemeron slots included |
| Heap.EdgesAre | runtime/cpp/Allocator/G1GC.cpp:182-190 | an object points to its behavior and, unless it is a bytes object, to whatever is in its slots |
| Heap.WellFormedExactly | runtime/cpp/Allocator/G1GC.cpp:199-222 | what is asked of a heap, slot by slot: no dangling pointer, no null behavior, ephemerons with a key |
| Heap.LiveClosedExactly | runtime/cpp/Allocator/GarbageCollector.cpp:17-33 | what is alive with some objects: their behaviors, and their slots unless they are bytes or an ephemeron, not rescued, whose first slot is a dead key |
| G1GC.G1GC.ResolveObject | runtime/cpp/Allocator/G1GC.cpp:271-288 | marks and perhaps moves an object the first time, answers its address ever after, and makes a special object wait |
| G1GC.G1GC.MarkFirst | runtime/cpp/Allocator/G1GC.cpp:277-282 | the mark, and the copy if the object has to leave, change nothing else |
| G1GC.G1GC.Evacuate | runtime/cpp/Allocator/G1GC.cpp:66-77 | the copy is outside the emptied spaces and unused before, is the object down to its remembered flag, and the old address forwards to it |
| G1GC.G1GC.ScanTarget | runtime/cpp/Allocator/G1GC.cpp:299-314 | one scanning step on a pointer: either an object more is marked, or the position moves on with the stack as it was |
| G1GC.G1GC.ScanBehavior | runtime/cpp/Allocator/G1GC.cpp:290-315 | the same at position 0, the behavior |
| G1GC.G1GC.ScanSlot | runtime/cpp/Allocator/G1GC.cpp:333-361 | the same at a slot |
| G1GC.G1GC.FollowObjects | runtime/cpp/Allocator/G1GC.cpp:207-222 | the trace loop ends, by unmarked objects and then ranges, with the stack empty and the invariant kept |
| G1GC.G1GC.ScanRoot | runtime/cpp/Allocator/G1GC.cpp:317-331 | one root brought up to date; a target met for the first time is queued |
| G1GC.G1GC.ScanCurrentContext | runtime/cpp/Allocator/GarbageCollector.cpp:218-230 | all registers and stack roots are brought up to date |
| G1GC.G1GC.FollowClosure | runtime/cpp/Allocator/G1GC.cpp:182-197 | references first, then the stack until nothing waits |
| G1GC.G1GC.CheckEphemerons | runtime/cpp/Allocator/GarbageCollector.cpp:17-33 | follows unchecked ephemerons, each with its key marked at that moment, sets the others apart, and tells whether any was followed |
| G1GC.G1GC.FollowLiveEphemerons | runtime/cpp/Allocator/GarbageCollector.cpp:64-73 | ends with no waiting ephemeron whose key is marked, having followed only ephemerons whose key was |
| G1GC.G1GC.LivePhase | runtime/cpp/Allocator/GarbageCollector.cpp:64-73 | leaves exactly what is alive with the rescues so far marked |
| G1GC.G1GC.RescueUnreachableEphemerons | runtime/cpp/Allocator/GarbageCollector.cpp:155-164 | follows each unreached ephemeron and rescues it once |
| G1GC.G1GC.RescuePhase | runtime/cpp/Allocator/GarbageCollector.cpp:149-164 | rescues exactly the ephemerons of the next round, or finds that there is none |
| G1GC.G1GC.FollowEphemerons | runtime/cpp/Allocator/GarbageCollector.cpp:49-56 | alternates live phases and rescues until both lists are empty, with the rounds the heap demands |
| G1GC.G1GC.FollowRoots | runtime/cpp/Allocator/GarbageCollector.cpp:75-82 | roots, closure, ephemerons, in that order |
| G1GC.G1GC.StrengthenAndMigrateEphemerons | runtime/cpp/Allocator/GarbageCollector.cpp:273-284 | rescued ephemerons, and nothing else, become ordinary objects |
| Regions.IndexInvertsPlacement | runtime/cpp/Allocator/AllocationZone.cpp:112-120 | an address has a space's index exactly when it is in that space or its forwarder area |
| Regions.RegionInRange | runtime/cpp/Allocator/AllocationZone.cpp:146-157 | regions are numbered from 1 to the number of spaces that fit, -1 outside the zone |
| Regions.PlaceCountsSpaces | runtime/cpp/Allocator/AllocationZone.cpp:146-149 | the place where the next space would go tells the number of spaces, and is the zone's end exactly when the zone is full |
| Regions.SpacesInARow | runtime/cpp/Allocator/AllocationZone.cpp:86-95 | spaces and forwarder areas of 256 KB take turns from the beginning of the zone |
| AllocationZone.OldZone.RegionCount | runtime/cpp/Allocator/AllocationZone.cpp:146-149 | the count derived from that place is the number of spaces |
| Regions.ForwarderInArea | runtime/cpp/Allocator/G1GC.cpp:66-77 | an object's forwarder is inside its own space's forwarder area exactly when the object is not at the very end of the space |
| Regions.ForwardersApart | runtime/cpp/Allocator/G1GC.cpp:66-77 | forwarders of objects with bodies do not overlap each other or any space |
| AllocationZone.RunsKeepInvariant | runtime/cpp/Allocator/AllocationZone.cpp:34-76 | over every run of allocations and collections: current and next are full, unevacuated and different, free spaces are listed once and idle, and nothing allocated or copied lands in a space being evacuated |
| AllocationZone.EventKeepsInvariant | runtime/cpp/Allocator/AllocationZone.cpp:159-226 | each allocation, choice, count, copy and release keeps the zone's invariant; only start and end change what is evacuated |
| AllocationZone.PutKeeps | runtime/cpp/Allocator/AllocationZone.cpp:198-212 | an object or copy goes to a region that stays; a small one finds room unless no space is free and the zone is full |
| AllocationZone.PutExactly | runtime/cpp/Allocator/AllocationZone.cpp:198-212 | where each object or copy goes: current space if it fits, else outside if it has more than 64 KB, else the beginning of the next space, unless there can be none |
| Copies.CopyMayGoThere | runtime/cpp/Allocator/AllocationZone.cpp:198-212 | as long as the zone holds objects in used parts only, a copy goes to no address of the heap and to no space being emptied, which is what `G1GC.G1GC.Evacuate` asks for; and that stays so |
| Copies.NothingMarkedGivenBack | runtime/cpp/Allocator/AllocationZone.cpp:159-177 | at the end of a collection no marked object is in a space given back because it was emptied |
| Copies.PutUses | runtime/cpp/Allocator/GCSpace.cpp:92-108 | the memory an object gets was not in use, and nothing else comes into use |
| Copies.PlacedApart | runtime/cpp/Allocator/AllocationZone.cpp:198-212 | over every run, nothing allocated or copied between two ends of collections overlaps |
| AllocationZone.ChoiceIsSafe | runtime/cpp/Allocator/G1GC.cpp:28-61 | only sparse spaces are chosen, never current, next or a free one, and together they use less than the headroom |
| AllocationZone.ChoiceExactly | runtime/cpp/Allocator/G1GC.cpp:38-61 | a space is chosen exactly when it is counted with less than eight tenths of 256 KB, is not current, and what it uses fits in the headroom with what the spaces chosen before it use |
| AllocationZone.AllSparseChosen | runtime/cpp/Allocator/G1GC.cpp:38-61 | if all the sparse spaces together use less than the headroom, all of them are chosen |
| AllocationZone.DeterminedExactly | runtime/cpp/Allocator/G1GC.cpp:28-64 | the spaces emptied and the counts afterwards, with nine tenths of what the zone has left as the headroom |
| AllocationZone.AvailableIsLeft | runtime/cpp/Allocator/AllocationZone.cpp:50-53 | what is available is 256 KB for each space still to come and what the others have not committed, and never negative |
| AllocationZone.DeterminedKeeps | runtime/cpp/Allocator/G1GC.cpp:28-64 | choosing and counting afresh keeps the invariant |
| AllocationZone.CountedKeeps | runtime/cpp/Allocator/AllocationZone.cpp:219-226 | counting an object that stays keeps the invariant |
| AllocationZone.RecycledOnce | runtime/cpp/Allocator/AllocationZone.cpp:159-177 | a pass over the spaces lists exactly the recyclable ones it looked at as free, once each, and resets them |
| AllocationZone.ReleaseKeeps | runtime/cpp/Allocator/AllocationZone.cpp:159-177 | of the evacuated spaces all become free but the zone's last, which the loop never looks at |
| AllocationZone.BumpedKeeps | runtime/cpp/Allocator/AllocationZone.cpp:63-105 | there is no next space exactly when none is free and the zone is full; otherwise next becomes current |
| AllocationZone.Space.CommittedUpTo | runtime/cpp/Allocator/GCSpace.cpp:64-78 | memory is committed at least up to the address, within the space, or not at all if that is past it |
| AllocationZone.Space.AllocatedCommitting | runtime/cpp/Allocator/GCSpace.cpp:92-108 | a copy fits exactly when it ends within the space |
| AllocationZone.OldZone.constructor | runtime/cpp/Allocator/AllocationZone.cpp:55-61 | a new zone has two spaces in use and none free |
| AllocationZone.OldZone.CreateEmptySpace | runtime/cpp/Allocator/AllocationZone.cpp:86-105 | a new free space after the others, unless the zone is full |
| AllocationZone.OldZone.BumpSpace | runtime/cpp/Allocator/AllocationZone.cpp:63-76 | next becomes current and a free or new space becomes next |
| AllocationZone.OldZone.PutObject | runtime/cpp/Allocator/AllocationZone.cpp:198-212 | allocation and copying in current space, in the next one, or outside |
| AllocationZone.OldZone.DetermineEvacuatedSpaces | runtime/cpp/Allocator/G1GC.cpp:28-64 | the loop makes the choice and the counts are reset |
| AllocationZone.SettledCounts | runtime/cpp/Allocator/AllocationZone.cpp:191-226 | counts start afresh with a collection, and all through it a space not allocated in is counted just the bodies marked in it |
| AllocationZone.GivenBack | runtime/cpp/Allocator/AllocationZone.cpp:159-177 | a collection gives such a space back exactly when it is not the last and was evacuated, or is committed and everything marked in it has an empty body |
| AllocationZone.MarkedSpaceGivenBack | runtime/cpp/Allocator/AllocationZone.cpp:165 | a counterexample: the one object marked in a space has an empty body, and the space is given back with it |
| AllocationZone.OldZone.UpdateRegionOccupancy | runtime/cpp/Allocator/AllocationZone.cpp:219-226 | an object's bytes are counted in its region |
| AllocationZone.OldZone.RecycleSpaces | runtime/cpp/Allocator/AllocationZone.cpp:161-176 | the loop over all spaces but the last |
| AllocationZone.OldZone.ReleaseEvacuatedSpaces | runtime/cpp/Allocator/AllocationZone.cpp:159-177 | release and the invariant after it |
| Simulation.SimExpr | runtime/cpp/Evaluator/SExpressionLinearizer.cpp:94-584 | for every sound tree, running its operations reaches its end with its value in R when that is looked at, the temporaries and world it leaves, and the operands as before; a return ends the script with the same value; running out of fuel means at least that many steps |
| Meaning.ScriptMeans | runtime/cpp/Evaluator/SExpressionLinearizer.cpp:441-476 | the code of a whole method or block ends, or goes on, as its tree does |
| Meaning.SameEnd | runtime/cpp/Evaluator/SExpressionLinearizer.cpp:553-584 | a script's code finishes with a value and world exactly when the evaluation of its tree ends with them |
| Meaning.SameDivergence | runtime/cpp/Evaluator/SExpressionLinearizer.cpp:553-584 | a script's code runs for ever exactly when the evaluation of its tree does |
| Meaning.OneEnd | runtime/cpp/Evaluator/Evaluator.cpp:497-509 | code ends in one way at most |
| StackDepth.TopAtEachOp | runtime/cpp/Evaluator/SExpressionLinearizer.cpp:65-88 | whatever the tree, the input and the point of a run, the frame has the cells the static stack top says and one more for each way out of a one-armed ifNil: up to there; so the static stack top is right at exactly the operations before the first of them |
| StackDepth.TidyTree | runtime/cpp/Evaluator/SExpressionLinearizer.cpp:94-584 | in any tree's code every jump, forward or back, goes where the stack is as deep as where it comes from |
| EmptyBlocks.IfAnswers | runtime/cpp/Evaluator/SExpressionLinearizer.cpp:94-104 | ifTrue: and ifFalse: answer what their tree means exactly when the block has statements or is not taken |
| EmptyBlocks.IfElseAnswers | runtime/cpp/Evaluator/SExpressionLinearizer.cpp:167-180 | ifTrue:ifFalse: and its mirror, exactly when the block taken has statements |
| EmptyBlocks.IfNilAnswers | runtime/cpp/Evaluator/SExpressionLinearizer.cpp:106-133 | ifNil: and ifNotNil:, exactly when the argument is not an empty block or is not taken |
| EmptyBlocks.IfNilElseAnswers | runtime/cpp/Evaluator/SExpressionLinearizer.cpp:134-165 | ifNil:ifNotNil: and its mirror, exactly when the argument taken is not an empty block |
| EmptyBlocks.LogicAnswers | runtime/cpp/Evaluator/SExpressionLinearizer.cpp:304-334 | and: and or: and their longer forms, exactly when the last block has statements or is not reached |
| EmptyBlocks.NegatedAnswers | runtime/cpp/Evaluator/SExpressionLinearizer.cpp:274-302 | andNot: and orNot: with an empty block, exactly when it is not taken, or when sending not to the receiver and to nil comes to the same |
| Meaning.RepeatAfterIfNil | runtime/cpp/Evaluator/SExpressionLinearizer.cpp:115-131 | a counterexample: after `nil ifNil: [nil]` the loop `2 timesRepeat: [^1]` looks for its count one cell too low and never runs |
| Meaning.LoopAnswersItsTest | runtime/cpp/Evaluator/SExpressionLinearizer.cpp:190-199 | a counterexample: `^[false] whileTrue: []` answers false, not nil |
| Meaning.LoopLeavesTest | runtime/cpp/Evaluator/SExpressionLinearizer.cpp:182-272 | every inlined loop that ends leaves in R what its last test answered: for a while loop the boolean that stopped it and so never the nil its tree means, for to:do: and timesRepeat: true |
| Constructs.IfNilGives | runtime/cpp/Evaluator/SExpressionLinearizer.cpp:106-132 | the receiver of ifNil: or ifNotNil: goes to the cell of the block's argument if it has just one, whether the block runs or not, and no other cell changes |
| Constructs.IfNilGivesPlain | runtime/cpp/Evaluator/SExpressionLinearizer.cpp:106-132 | an arm that is no block leaves all cells as they are |
| Constructs.IfNilElseGives | runtime/cpp/Evaluator/SExpressionLinearizer.cpp:134-165 | with two arms, the one for values other than nil may have the argument |
| Constructs.ReachesArm | runtime/cpp/Evaluator/SExpressionLinearizer.cpp:106-132 | a run of the code has the receiver in that cell when it gets to the block |
| Constructs.ReachesChosenArm | runtime/cpp/Evaluator/SExpressionLinearizer.cpp:134-165 | and when it gets to the arm chosen of two |
| Constructs.IfGives | runtime/cpp/Evaluator/SExpressionLinearizer.cpp:94-180 | a conditional decides by true and false and nothing else |
| Constructs.JumpsOn | runtime/cpp/Evaluator/Evaluator.cpp:425-433 | a conditional jump jumps on just the one value it names |
| Constructs.VariableGives | runtime/cpp/Evaluator/SExpressionLinearizer.cpp:495-497 | a variable of the frame has the value in its cell |
| Constructs.ScriptGives | runtime/cpp/Evaluator/SExpressionLinearizer.cpp:553-584 | statements in order, the last one's value the answer of a block, and self that of a method |
| Constructs.WhileGives | runtime/cpp/Evaluator/SExpressionLinearizer.cpp:182-199 | a loop goes on while its test has the value it names |
| Constructs.ChainGives | runtime/cpp/Evaluator/SExpressionLinearizer.cpp:304-334 | and: goes on with the block on true, or: on false |
| Constructs.NegatedGives | runtime/cpp/Evaluator/SExpressionLinearizer.cpp:274-302 | andNot: and orNot: negate their second value |
| Constructs.TimesRepeatGives | runtime/cpp/Evaluator/SExpressionLinearizer.cpp:243-272 | with the usual arithmetic n timesRepeat: evaluates its block exactly n times, none if n is negative, and answers n |
| Constructs.ToDoGives | runtime/cpp/Evaluator/SExpressionLinearizer.cpp:208-236 | with the usual arithmetic a to: b do: evaluates its block with each number from a to b in its cell, in order, and answers a |
| Constructs.ArgumentsInOrder | runtime/cpp/Evaluator/SExpressionLinearizer.cpp:532-551 | arguments are evaluated in order, each in the state the others left |
| Constructs.StoresGive | runtime/cpp/Evaluator/SExpressionLinearizer.cpp:436-439 | an assignment gives its value to every variable named and to no other |
| Constructs.SimpleIsSound | runtime/cpp/Evaluator/SExpressionLinearizer.cpp:94-584 | every tree without inlined loops, empty inlined blocks and one-armed ifNil: is among those the simulation is about |
| Constructs.SimpleLoops | runtime/cpp/Evaluator/SExpressionLinearizer.cpp:182-272 | and so is every loop over such trees whose value is not looked at |
| Simulation.SimSend | runtime/cpp/Evaluator/SExpressionLinearizer.cpp:532-551 | a send: receiver, arguments in order, dispatch, and the operands dropped |
| Simulation.SimCascade | runtime/cpp/Evaluator/SExpressionLinearizer.cpp:478-493 | a cascade sends every message to the same receiver |
| Simulation.SimMessages | runtime/cpp/Evaluator/SExpressionLinearizer.cpp:481-491 | the messages of a cascade leave their receiver on top of the stack |
| Simulation.SimArgs | runtime/cpp/Evaluator/SExpressionLinearizer.cpp:542-545 | arguments are left on the stack in the order they were pushed |
| Simulation.SimAssignment | runtime/cpp/Evaluator/SExpressionLinearizer.cpp:436-439 | an assignment stores to all its variables |
| Simulation.StoresAgree | runtime/cpp/Evaluator/Evaluator.cpp:365-375 | storing R in several variables is one store after the other |
| Simulation.SimReturn | runtime/cpp/Evaluator/SExpressionLinearizer.cpp:595-598 | a return ends the script, locally only in a method |
| Simulation.SimBody | runtime/cpp/Evaluator/SExpressionLinearizer.cpp:430-434 | statements one after the other; the last value is the block's |
| Simulation.SimIf | runtime/cpp/Evaluator/SExpressionLinearizer.cpp:94-104 | ifTrue: and ifFalse: |
| Simulation.SimIfElse | runtime/cpp/Evaluator/SExpressionLinearizer.cpp:167-180 | ifTrue:ifFalse: and ifFalse:ifTrue: |
| Simulation.SimNilHead | runtime/cpp/Evaluator/SExpressionLinearizer.cpp:106-119 | the receiver of an ifNil: stays on the stack and in the argument's cell, and R tells whether it is nil |
| Simulation.SimIfNil | runtime/cpp/Evaluator/SExpressionLinearizer.cpp:106-133 | ifNil: and ifNotNil: |
| Simulation.SimIfNilElse | runtime/cpp/Evaluator/SExpressionLinearizer.cpp:134-165 | ifNil:ifNotNil: and ifNotNil:ifNil: |
| Simulation.SimWhileUnary | runtime/cpp/Evaluator/SExpressionLinearizer.cpp:182-188 | whileTrue and whileFalse |
| Simulation.SimWhileBinary | runtime/cpp/Evaluator/SExpressionLinearizer.cpp:190-199 | whileTrue: and whileFalse: |
| Simulation.SimRepeat | runtime/cpp/Evaluator/SExpressionLinearizer.cpp:201-206 | repeat |
| Simulation.SimToDo | runtime/cpp/Evaluator/SExpressionLinearizer.cpp:208-236 | to:do:, the loop variable in its cell and the limit on the stack |
| Simulation.SimToDoTurns | runtime/cpp/Evaluator/SExpressionLinearizer.cpp:220-235 | the turns of to:do: until the limit is dropped |
| Simulation.SimTimesRepeat | runtime/cpp/Evaluator/SExpressionLinearizer.cpp:243-272 | timesRepeat:, count and limit on the stack |
| Simulation.SimTimesTurns | runtime/cpp/Evaluator/SExpressionLinearizer.cpp:254-269 | the turns of timesRepeat: until count and limit are dropped |
| Simulation.SimChain | runtime/cpp/Evaluator/SExpressionLinearizer.cpp:304-334 | and:, or: and their longer forms stop at the first block that decides |
| Simulation.SimNegated | runtime/cpp/Evaluator/SExpressionLinearizer.cpp:274-302 | andNot: and orNot: |
| Runs.RunBinary | runtime/cpp/Evaluator/SExpressionLinearizer.cpp:532-551 | a binary message between single operations: seven steps that leave only the answer |
| Runs.RunNilTest | runtime/cpp/Evaluator/SExpressionLinearizer.cpp:116-118 | the comparison with nil takes nothing off the stack |
| Machine.RunAdd | runtime/cpp/Evaluator/Evaluator.cpp:497-509 | runs can be joined |
| Machine.StaysStopped | runtime/cpp/Evaluator/Evaluator.cpp:497-509 | a machine that has stopped stays as it is |
| Layout.ChainSize | runtime/cpp/Evaluator/SExpressionLinearizer.cpp:304-334 | where a chain of jumps goes does not change its size |
| Linearizer.SExpressionLinearizer.Visit | runtime/cpp/Evaluator/SExpressionLinearizer.cpp:94-598 | whatever was emitted before, a tree appends exactly its operations with every jump in place, and the static stack top changes by the tree's skew, at every emission by what the operation emitted does |
| Linearizer.SExpressionLinearizer.VisitMethod | runtime/cpp/Evaluator/SExpressionLinearizer.cpp:557-584 | the whole code of a method |
| Linearizer.SExpressionLinearizer.VisitBlock | runtime/cpp/Evaluator/SExpressionLinearizer.cpp:441-476 | a real block gets code of its own, from pc 0, on its own frame; the state around it is restored |
| Linearizer.SExpressionLinearizer.VisitMessage | runtime/cpp/Evaluator/SExpressionLinearizer.cpp:532-551 | a message |
| Linearizer.SExpressionLinearizer.VisitCascade | runtime/cpp/Evaluator/SExpressionLinearizer.cpp:478-493 | a cascade |
| Linearizer.SExpressionLinearizer.InlineIf | runtime/cpp/Evaluator/SExpressionLinearizer.cpp:94-104 | both jumps of a one-armed conditional |
| Linearizer.SExpressionLinearizer.InlineIfElse | runtime/cpp/Evaluator/SExpressionLinearizer.cpp:167-180 | both jumps of a two-armed conditional |
| Linearizer.SExpressionLinearizer.InlineIfNil | runtime/cpp/Evaluator/SExpressionLinearizer.cpp:106-133 | ifNil:, whose two ways out both lower the static stack top |
| Linearizer.SExpressionLinearizer.InlineIfNilElse | runtime/cpp/Evaluator/SExpressionLinearizer.cpp:134-165 | ifNil:ifNotNil: |
| Linearizer.SExpressionLinearizer.InlineWhile | runtime/cpp/Evaluator/SExpressionLinearizer.cpp:182-206 | the three loops without a counter |
| Linearizer.SExpressionLinearizer.InlineToDo | runtime/cpp/Evaluator/SExpressionLinearizer.cpp:208-236 | to:do: |
| Linearizer.SExpressionLinearizer.InlineTimesRepeat | runtime/cpp/Evaluator/SExpressionLinearizer.cpp:243-272 | timesRepeat: |
| Linearizer.SExpressionLinearizer.InlineNegated | runtime/cpp/Evaluator/SExpressionLinearizer.cpp:274-302 | andNot: and orNot: |
| Linearizer.SExpressionLinearizer.InlineChain | runtime/cpp/Evaluator/SExpressionLinearizer.cpp:304-334 | and: and or:, whose jumps are all filled in at the end |
| Linearizer.SExpressionLinearizer.VisitChain | runtime/cpp/Evaluator/SExpressionLinearizer.cpp:310-317 | the jumps of a chain are known by their places, and filling them in gives the chain with its end |
| Linearizer.SExpressionLinearizer.FillIn | runtime/cpp/Evaluator/SExpressionLinearizer.cpp:315-317 | every branch goes to the next operation |
| Linearizer.PatchIfElse | runtime/cpp/Evaluator/SExpressionLinearizer.cpp:42-44 | the jumps of a two-armed conditional, filled in when their targets are reached, go where the layout has them |
| Linearizer.PatchIfNil | runtime/cpp/Evaluator/SExpressionLinearizer.cpp:42-44 | so do those of ifNil: |
| TreecodeMethods.MethodRoundTrip | runtime/cpp/Evaluator/TreecodeDecoder.h:184-202 | with its own pool a method is decoded to the tree that is meant, all bytes used, exactly when it has a pragma or other than 110 statements, each block is among the first 127 of the pool, and each cell of an inlined argument is less than 256 |
| TreecodeLosses.RoundTripExactly | runtime/cpp/Compiler/TreecodeEncoder.cpp:45-71 | a tree whose numbers fit is read back from its treecodes exactly when its blocks and cells fit their bytes |
| TreecodeLosses.BlockRoundTrip | runtime/cpp/Compiler/TreecodeEncoder.cpp:63-64 | a block is read back exactly when its place in the pool is at most 127 |
| TreecodeLosses.TreeRead | runtime/cpp/Evaluator/TreecodeDecoder.h:72-182 | wherever a tree is read, at least as many bytes are read as the encoder writes for it, and more if a block or cell in it does not fit |
| TreecodeRoundTrip.RoundTrip | runtime/cpp/Compiler/TreecodeEncoder.cpp:45-212 | reading back what was encoded gives the tree that is meant and stops exactly where it ends, whatever follows |
| TreecodeRoundTrip.ArrayRoundTrip | runtime/cpp/Evaluator/TreecodeDecoder.h:246-254 | counted expressions |
| TreecodeRoundTrip.MessagesRoundTrip | runtime/cpp/Compiler/TreecodeEncoder.cpp:166-178 | the messages of a cascade |
| TreecodeRoundTrip.LiteralRoundTrip | runtime/cpp/Compiler/TreecodeEncoder.cpp:118-126 | a literal, from the pool or as a number in place |
| TreecodeRoundTrip.BindingRoundTrip | runtime/cpp/Evaluator/TreecodeDecoder.h:90-110 | every kind of variable |
| TreecodeRoundTrip.BraceCovers | runtime/cpp/Compiler/AST/SBraceNode.cpp:36-85 | the four symbols that a brace node puts in the pool are all its cascade needs, whatever the number of elements |
| TreecodeRoundTrip.CellsKept | runtime/cpp/Compiler/TreecodeEncoder.cpp:51-61 | cells of inlined arguments are kept exactly when they are less than 256 |
| TreecodeMethods.MistakenForPragma | runtime/cpp/Evaluator/TreecodeDecoder.h:192-198 | 110 statements without a pragma are not read back |
| TreecodeMethods.CountByte | runtime/cpp/Evaluator/TreecodeDecoder.h:192-193 | the count of statements starts with the pragma's number exactly when it is 110 |
| TreecodeMethods.OwnPoolCovers | runtime/cpp/Compiler/AST/SMethodNode.cpp:79-165 | every literal, symbol and block a method needs is found in its own pool |
| TreecodeFormat.ReferenceFormat | runtime/cpp/Compiler/TreecodeEncoder.cpp:308-358 | the bytes of every kind of variable |
| TreecodeFormat.LiteralFormat | runtime/cpp/Compiler/TreecodeEncoder.cpp:118-126 | the bytes of literals, in the pool and as numbers of one byte and of eight |
| TreecodeFormat.StatementFormat | runtime/cpp/Compiler/TreecodeEncoder.cpp:128-154 | the bytes of an assignment and of returns |
| TreecodeFormat.MessageFormat | runtime/cpp/Compiler/TreecodeEncoder.cpp:73-179 | the bytes of a message and of a cascade |
| TreecodeFormat.BlockFormat | runtime/cpp/Compiler/TreecodeEncoder.cpp:45-71 | the bytes of inlined and of real blocks |
| TreecodeFormat.MethodFormat | runtime/cpp/Compiler/TreecodeEncoder.cpp:29-43 | the bytes of a method, with and without a pragma |
| TreecodeFormat.AllInOrder | runtime/cpp/Compiler/TreecodeEncoder.cpp:190-203 | the tree meant has its statements and arguments in the node's order |
| TreecodeFormat.MessagesInOrder | runtime/cpp/Compiler/TreecodeEncoder.cpp:156-179 | and the messages of a cascade with their selectors and arguments |
| TreecodeFormat.ReferencesInOrder | runtime/cpp/Compiler/TreecodeEncoder.cpp:128-143 | and the variables of an assignment |
| TreecodeFormat.ReturnsOfScript | runtime/cpp/Compiler/TreecodeEncoder.cpp:145-154 | a return is local exactly when the real script around it is the method, in braces and inlined blocks too |
| TreecodeFormat.SizedComposes | runtime/cpp/Compiler/TreecodeEncoder.cpp:223-239 | whatever has parts that fit, and as many as fit in 64 bits, is among the trees that are read back |
| TreecodeFormat.NumbersInPool | runtime/cpp/Compiler/AST/SMethodNode.cpp:97-110 | a number goes to the pool exactly when it does not fit in fifteen bits |
| TreecodeFormat.MentionFormat | runtime/cpp/Compiler/AST/SMethodNode.cpp:79-165 | what a method with one of everything has in its pool, in order |
| TreecodeFormat.AllNew | runtime/cpp/Compiler/AST/SMethodNode.cpp:82-87 | literals without repetitions are the pool as they come |
| TreecodeIntegers.IntegerRoundTrip | runtime/cpp/Compiler/TreecodeEncoder.cpp:223-239 | every 64-bit integer is read back and nothing after it is touched |
| TreecodeIntegers.RawByteAsInteger | runtime/cpp/Compiler/TreecodeEncoder.cpp:63-64 | a block's index, written as a byte and read as an integer, is kept exactly when it is at most 127 |
| TreecodeIntegers.BigEndianInverts | runtime/cpp/Evaluator/TreecodeDecoder.h:256-273 | the bytes of a number, negative or not, give it back modulo a power of 256 |
| ParseNodes.PoolIsComplete | runtime/cpp/Compiler/AST/SMethodNode.cpp:79-87 | a pool has everything mentioned, nothing else, and nothing twice |
| ParseNodes.PoolFinds | runtime/cpp/Compiler/Backend/SCompiledMethod.h:106-111 | a lookup in the pool finds the very literal, if no two blocks share a number |
| ParseNodes.IndexOf | runtime/cpp/Compiler/Backend/SCompiledMethod.h:106-111 | the first place of a literal, or 0 when it is nowhere |
| ParseNodes.PutsInOrder | runtime/cpp/Compiler/AST/SBraceNode.cpp:36-85 | a brace node's cascade puts the k-th element in the k-th place and answers the array |
| Braces.BraceAnswers | runtime/cpp/Compiler/AST/SBraceNode.cpp:36-90 | running the cascade never sends what the array does not understand or a place it does not have, and answers an array of the elements' values, evaluated once each from the first to the last |
| ParseNodes.LiteralPool.Visit | runtime/cpp/Compiler/AST/SMethodNode.cpp:97-162 | visiting a tree adds what it mentions, in order, without repetitions |
| ParseNodes.LiteralPool.Collect | runtime/cpp/Compiler/AST/SMethodNode.cpp:79-165 | the pool of a method, its pragma's name first |
| TreecodeEncoder.Encoder.Visit | runtime/cpp/Compiler/TreecodeEncoder.cpp:45-212 | a tree's treecodes go at the end of the stream, and the script is as before |
| TreecodeEncoder.Encoder.VisitBlock | runtime/cpp/Compiler/TreecodeEncoder.cpp:45-71 | the statements of a real block are not a method's; those of an inlined one are what the script around is |
| TreecodeEncoder.Encoder.VisitLiteral | runtime/cpp/Compiler/TreecodeEncoder.cpp:118-126 | a pool index, or 0 and the number |
| TreecodeEncoder.Encoder.NextIntegerPut | runtime/cpp/Compiler/TreecodeEncoder.cpp:223-239 | one byte, or a mark and eight |
| TreecodeEncoder.Encoder.NextBigIntegerPut | runtime/cpp/Compiler/TreecodeEncoder.cpp:233-239 | the highest byte first |
| TreecodeEncoder.Encoder.EncodeMethodNode | runtime/cpp/Compiler/TreecodeEncoder.cpp:23-43 | a whole method |
| TreecodeEncoder.BuildMethod | runtime/cpp/Compiler/AST/SMethodNode.cpp:48-77 | the pool and the treecodes made with it |
| TreecodeDecoder.Decoder.DecodeMethod | runtime/cpp/Evaluator/TreecodeDecoder.h:184-202 | the decoder reads a method as the grammar says, or fails with it |
| TreecodeDecoder.Decoder.NextExpression | runtime/cpp/Evaluator/TreecodeDecoder.h:72-88 | the same for an expression, by the kind announced |
| TreecodeDecoder.Decoder.NextExpressionArray | runtime/cpp/Evaluator/TreecodeDecoder.h:246-254 | the same for counted expressions |
| TreecodeDecoder.Decoder.NextInteger | runtime/cpp/Evaluator/TreecodeDecoder.h:256-273 | the same for an integer |
| TreecodeDecoder.Decoder.NextArray | runtime/cpp/Evaluator/TreecodeDecoder.h:218-224 | the same for counted bytes |
| TreecodeDecoder.Decoder.DecodeBinding | runtime/cpp/Evaluator/TreecodeDecoder.h:90-110 | the same for a variable |
| TreecodeDecoder.Decoder.DecodeAssignment | runtime/cpp/Evaluator/TreecodeDecoder.h:117-124 | the same for an assignment |
| TreecodeDecoder.Decoder.DecodeBlock | runtime/cpp/Evaluator/TreecodeDecoder.h:126-142 | the same for a block |
| TreecodeDecoder.Decoder.DecodeCascade | runtime/cpp/Evaluator/TreecodeDecoder.h:144-157 | the same for a cascade |
| TreecodeDecoder.Decoder.DecodeMessage | runtime/cpp/Evaluator/TreecodeDecoder.h:176-182 | the same for a message |
| Frames.EvaluationContext.Perform | runtime/cpp/Evaluator/Evaluator.cpp:244-256 | for every nesting of pushes, stores, calls, closure activations and launches: it completes exactly when it fits the stack, and a call leaves frames, SP, BP, PC, M and S as they were, E being the frame's own environment |
| Frames.EvaluationContext.Invoke | runtime/cpp/Evaluator/Evaluator.cpp:244-256 | a method invoked whose code returns, with anything in between |
| Frames.EvaluationContext.EvaluateClosure | runtime/cpp/Evaluator/Evaluator.h:111-124 | a closure takes the frame of the method that evaluates it |
| Frames.EvaluationContext.SendToWith | runtime/cpp/Evaluator/Evaluator.cpp:293-310 | a send from the evaluator restores everything but E, which is nil afterwards |
| Frames.RightEnvironment | runtime/cpp/Evaluator/Evaluator.cpp:293-310 | E is right after any body exactly when no launch comes last among its calls, or the frame has no environment |
| Frames.EnvironmentAfter | runtime/cpp/Evaluator/Evaluator.cpp:293-310 | E follows the frames, except from a launch to the next call or activation |
| Frames.OuterStays | runtime/cpp/Evaluator/EvaluationContext.h:134-222 | whatever runs in a frame, the frames around it and its return pc stay |
| Frames.ActivationReplaces | runtime/cpp/Evaluator/EvaluationContext.h:134-222 | a closure activated takes the frame of the method that evaluates it and will return where that would have |
| Frames.HeaderCells | runtime/cpp/Evaluator/EvaluationContext.cpp:51-68 | where the saved pc, base and registers of a frame are among the cells pushed |
| Frames.ObjectsOfFrame | runtime/cpp/Evaluator/EvaluationContext.cpp:51-68 | everything in a frame but the saved pc and base is an object |
| Frames.EvaluationContext.BuildFrame | runtime/cpp/Evaluator/EvaluationContext.cpp:51-68 | a frame with nil temporaries on top of the others, or an overflow |
| Frames.EvaluationContext.PopFrame | runtime/cpp/Evaluator/EvaluationContext.h:214-222 | the registers are those of the frame below |
| Frames.EvaluationContext.PopLaunchFrame | runtime/cpp/Evaluator/EvaluationContext.cpp:110-120 | the same, with E from outside, and also for the last frame |
| Frames.EvaluationContext.PushOperand | runtime/cpp/Evaluator/EvaluationContext.h:148-151 | an operand goes to the innermost frame |
| Frames.EvaluationContext.DropOperands | runtime/cpp/Evaluator/EvaluationContext.h:153-156 | operands leave it |
| Frames.EvaluationContext.StackTemporaryAtPut | runtime/cpp/Evaluator/EvaluationContext.cpp:208-217 | a temporary's cell, numbered from 1, and no other |
| Frames.EvaluationContext.ArgumentAt | runtime/cpp/Evaluator/EvaluationContext.cpp:36-44 | argument i is the i-th of the values the caller pushed last |
| Frames.EvaluationContext.BpForFrameAt | runtime/cpp/Evaluator/EvaluationContext.h:185-195 | the base of a frame counted outwards |
| Frames.EvaluationContext.ScanStack | runtime/cpp/Allocator/GarbageCollector.cpp:174-200 | the root walk visits each object of the stack once, in order, and no saved pc or base |
| Addresses.TemporaryReached | runtime/cpp/Compiler/TreecodeEncoder.cpp:346-372 | in any frames a reference finds a captured temporary in the cell of its declaration if the slot for its environment really holds it, and only then when environments are objects of their own |
| Addresses.TemporaryAlwaysReached | runtime/cpp/Compiler/TreecodeEncoder.cpp:346-397 | in every run the reference finds it, exactly when that slot, followed outwards through the elements as they are written, holds the declaration's environment; and there are runs exactly when no element is written with index 0 |
| Addresses.AnalysedReferenceReached | runtime/cpp/Compiler/SemanticVisitor.cpp:54-105 | the same for every reference of any method once its scopes are analysed, wherever its variables are |
| Addresses.CellAt | runtime/cpp/Compiler/TreecodeEncoder.cpp:346-372 | a variable with a cell is in the frame or in the environment of its real script, at its position, past what a block captured |
| Addresses.CellsApart | runtime/cpp/Compiler/Binding/BlockScope.cpp:217-229 | two variables never share a cell, wherever they are declared |
| Addresses.ReferencesApart | runtime/cpp/Compiler/TreecodeEncoder.cpp:346-372 | references within reach to different temporaries lead to different cells |
| Addresses.ArgumentAt | runtime/cpp/Compiler/TreecodeEncoder.cpp:353-358 | an argument of a real script is the one of its number that the caller pushed, one of an inlined block is in its cell |
| Addresses.SlotHolds | runtime/cpp/Evaluator/EvaluationContext.cpp:138-173 | each slot of a closure holds what following the elements outwards says |
| Addresses.AgreeingHolds | runtime/cpp/Compiler/TreecodeEncoder.cpp:386-397 | it holds the environment meant when the blocks outwards number that environment alike, with numbers that fit in a byte |
| Addresses.FramesExist | runtime/cpp/Evaluator/EvaluationContext.cpp:138-173 | if no element is written with index 0, closures can be made in frames of any layout, each environment an object of its own, and the value of any one argument nowhere else |
| Addresses.FramesArePlaced | runtime/cpp/Evaluator/EvaluationContext.cpp:154-170 | and only then |
| Addresses.NumbersPlace | runtime/cpp/Compiler/TreecodeEncoder.cpp:391-408 | no element of a block is written with index 0 exactly when none of the numbers meant is a multiple of 256 |
| Addresses.PositionsPlace | runtime/cpp/Compiler/TreecodeEncoder.cpp:374-411 | with every declaration at a position, the numbers meant start at 1 |
| Addresses.ArgumentReached | runtime/cpp/Compiler/TreecodeEncoder.cpp:399-408 | a reference to an argument gets what following the elements outwards leads to; that is the value the argument has where it is declared if it leads to the declaration, and only then when the value is nowhere else |
| Addresses.ArgumentAlwaysReached | runtime/cpp/Compiler/TreecodeEncoder.cpp:399-408 | in every run a reference to an argument gets the value it has where it is declared, exactly when following the elements outwards leads there |
| Addresses.FittingArgumentReached | runtime/cpp/Compiler/TreecodeEncoder.cpp:399-408 | it leads to the declaration when the indices by which the blocks outwards have the argument fit in a byte |
| Addresses.ReachedOutOfOneBlock | runtime/cpp/Compiler/TreecodeEncoder.cpp:406 | out of one block it does exactly when the index of the declaration fits in a byte |
| Addresses.SelfReached | runtime/cpp/Compiler/TreecodeEncoder.cpp:382-384 | whoever captures self has the method's |
| Addresses.EnvironmentReached | runtime/cpp/Evaluator/EvaluationContext.cpp:138-173 | a captured environment is that of the script it is meant to be if its slot really holds it, and only then when environments are objects of their own |
| Addresses.NestedBlockTakesReceiver | runtime/cpp/Compiler/TreecodeEncoder.cpp:391 | a counterexample: in `[self bar. [t := t + 1]]` the inner block's slot for the method's environment holds the receiver |
| Addresses.NestedFrames | runtime/cpp/Evaluator/EvaluationContext.cpp:155-157 | frames of that example: the outer block finds t in slot 1 of the method's environment, the inner one looks for it in slot 1 of the receiver |
| Addresses.NestedScopes | runtime/cpp/Compiler/SemanticVisitor.cpp:54-73 | what the scopes of that example come to |
| Addresses.ElementOfEnvironment | runtime/cpp/Compiler/Binding/BlockScope.cpp:106-117 | a captured environment is the element with its number, cut to a byte |
| Addresses.ElementOfArgument | runtime/cpp/Compiler/Binding/BlockScope.cpp:149-156 | a captured argument is the element with its slot, its index cut to a byte |
| Addresses.TakenAtAddress | runtime/cpp/Compiler/TreecodeEncoder.cpp:399-408 | what is taken for an argument is what its address leads to in the script around |
| Addresses.EncodeClosureElements | runtime/cpp/Compiler/TreecodeEncoder.cpp:374-411 | self, environments, arguments, with indices cut to bytes |
| Addresses.CaptureClosure | runtime/cpp/Evaluator/EvaluationContext.cpp:138-173 | the new closure's slots are what the elements say of the creator's frame |
| Scopes.AnalysisKeepsInvariant | runtime/cpp/Compiler/SemanticVisitor.cpp:54-105 | however references come: environment lists are duplicate-free with the method first and closed outwards, captured names resolve in the parent, captured temporaries are in an environment within reach; nothing captured is given up, and everything referred to is within reach at the end |
| Scopes.MethodAnalysis | runtime/cpp/Compiler/SemanticVisitor.cpp:54-105 | so it is at the end of the analysis of any method |
| Causes.CapturedExactly | runtime/cpp/Compiler/SemanticVisitor.cpp:54-105 | at the end of the analysis of any method each script has captured exactly the names, environments and self that some reference needs of it, and exactly the temporaries referred to across a real block are in environments |
| Causes.EventAdds | runtime/cpp/Compiler/SemanticVisitor.cpp:54-105 | one reference adds nothing that it does not need |
| Causes.NeedsAreMet | runtime/cpp/Compiler/SemanticVisitor.cpp:54-105 | and what it needs is there |
| Causes.InnermostDefines | runtime/cpp/Compiler/Binding/BlockScope.cpp:268-280 | a name means its declaration in the innermost script around that has one |
| Causes.InnermostReal | runtime/cpp/Compiler/Binding/ScriptScope.cpp:127-130 | a real script is the innermost one around that is not inlined |
| Scopes.EventKeepsInvariant | runtime/cpp/Compiler/SemanticVisitor.cpp:54-105 | one reference keeps this and gets at what it refers to |
| Scopes.EnvironmentCaptured | runtime/cpp/Compiler/Binding/BlockScope.cpp:30-43 | capturing an environment captures it outwards up to its script and loses nothing |
| Scopes.LocalTransferred | runtime/cpp/Compiler/Binding/BlockScope.cpp:289-297 | a name is captured on the way to its declaration and nowhere else |
| Scopes.TemporaryCaptured | runtime/cpp/Compiler/Binding/BlockScope.cpp:63-94 | capturing a temporary puts its declaration in an environment whenever a real block comes between |
| Scopes.OwnerIs | runtime/cpp/Compiler/Binding/BlockScope.cpp:268-280 | a captured name resolves to the declaration in the same real script, and otherwise to the real block's own copy |
| Scopes.Resolves | runtime/cpp/Compiler/Binding/BlockScope.cpp:268-280 | any name resolves to its declaration or to a copy of it made on the way |
| Scopes.ReachAlongPath | runtime/cpp/Compiler/Binding/BlockScope.cpp:30-43 | an environment within reach of a script is within reach of every script around it inside the target |
| Scopes.SelfCaptured | runtime/cpp/Compiler/Binding/BlockScope.cpp:57-61 | capturing self marks every script outwards |
| Scopes.Analysis.Visit | runtime/cpp/Compiler/SemanticVisitor.cpp:54-105 | all references of a method, in place |
| Scopes.Analysis.CaptureEnvironmentFrom | runtime/cpp/Compiler/Binding/BlockScope.cpp:30-43 | the environment lists of a script and those around it |
| Scopes.Analysis.CaptureLocalFrom | runtime/cpp/Compiler/Binding/BlockScope.cpp:45-94 | a reference to a local variable |
| Scopes.Analysis.TransferLocalTo | runtime/cpp/Compiler/Binding/BlockScope.cpp:289-297 | the captured names of a script and those around it |
| Scopes.Analysis.CaptureSelfFrom | runtime/cpp/Compiler/Binding/BlockScope.cpp:57-61 | the marks of a script and those around it |
| Scopes.Analysis.Resolve | runtime/cpp/Compiler/Binding/BlockScope.cpp:268-280 | the script whose binding a name resolves to |
| Closures.Layout.PositionLocals | runtime/cpp/Compiler/AST/SScriptNode.cpp:66-73 | every declaration has a position, no two of a real script share a cell, environments start with what is captured, and neither frames nor environments have gaps |
| Closures.Layout.PositionScript | runtime/cpp/Compiler/Binding/BlockScope.cpp:200-257 | one script, a real block's captured part first |
| Closures.Layout.PositionAll | runtime/cpp/Compiler/Binding/ScriptScope.cpp:82-93 | declarations in order, each in a new cell, later ones of a kind in later cells |
| Closures.Layout.PositionArguments | runtime/cpp/Compiler/Binding/ScriptScope.cpp:95-105 | arguments of real scripts are numbered from 1 |
| Closures.Layout.Position | runtime/cpp/Compiler/Binding/ScriptScope.cpp:82-93 | the next cell of the stack or of the environment of its real script, and nothing else changes |
| LiteralIntegers.FromIntegerDigits | runtime/cpp/Compiler/LiteralValue.h:98-133 | for every base and digits: small exactly when the number fits, with its value; otherwise canonical bytes with that value |
| LiteralIntegers.BytesOf | runtime/cpp/Compiler/LiteralValue.h:98-120 | the byte loop computes the base-weighted sum |
| LiteralIntegers.Shift | runtime/cpp/Compiler/LiteralValue.h:110-119 | one digit: every byte times the base plus a carry below the base |
| LiteralIntegers.Stripped | runtime/cpp/Compiler/LiteralValue.h:122 | without zeros at the high end, the same value |
| LiteralIntegers.PrintLargeInteger | runtime/cpp/Compiler/LiteralValue.h:257-275 | radix 16 text that denotes the bytes |
| LiteralIntegers.PrintDigits | runtime/cpp/Compiler/LiteralValue.h:257-275 | the digits, highest first, without zeros before them |
| LiteralIntegers.ParseIntegerString | runtime/cpp/Compiler/Parser/SSmalltalkParser.cpp:362-380 | the number the base and digits denote |
| LiteralIntegers.Forms | runtime/cpp/Compiler/Parser/SSmalltalkParser.cpp:362-380 | decimal, 0x and 16r text have the base and digits one expects |
| LiteralIntegers.RadixForm | runtime/cpp/Compiler/Parser/SSmalltalkParser.cpp:362-380 | a decimal radix and r, small or capital: the base from 2 to 36, and no number otherwise |
| LiteralIntegers.DigitsAre | runtime/cpp/Compiler/LiteralValue.h:98-109 | digits are figures and letters, small or capital, from 0 to 35 |
| LiteralIntegers.SomeNumbers | runtime/cpp/Compiler/LiteralValue.h:98-120 | what some texts and bytes denote |
| LiteralIntegers.NegativeNumber | runtime/cpp/Compiler/Parser/SSmalltalkParser.cpp:408-425 | a negative literal is small exactly when its digits alone are, so the least small integer is made large |
| LiteralIntegers.PrintedAndParsed | runtime/cpp/Compiler/LiteralValue.h:257-275 | a large integer printed and parsed again is itself, sign and bytes |
| LiteralIntegers.CanonicalUnique | runtime/cpp/Compiler/LiteralValue.h:131-132 | a number has one canonical sequence of bytes |
| ClassOrder.Sort | runtime/cpp/Bootstrap/SourceModuleLoader.cpp:125-163 | a permutation of the classes but the module's; superclasses first; the fallback has classes left exactly when some classes have all their superclasses among themselves |
| ClassOrder.InOrderExactly | runtime/cpp/Bootstrap/SourceModuleLoader.cpp:142-156 | in order means: the superclass is of another module, the first class, or earlier |
| ClassOrder.OthersAre | runtime/cpp/Bootstrap/SourceModuleLoader.cpp:125-139 | every class as often as it is named but the module's own |
| ClassOrder.Pass | runtime/cpp/Bootstrap/SourceModuleLoader.cpp:142-156 | one pass adds available classes, keeps the others in order, and adds none only when none is available |
| ClassOrder.CycleStaysOut | runtime/cpp/Bootstrap/SourceModuleLoader.cpp:140-163 | classes that wait for each other never come in order |
| HeapWalk.Space.ObjectsDo | runtime/cpp/Allocator/GCSpace.cpp:164-173 | the walk visits exactly the objects allocated, in order, and ends exactly where allocation goes on |
| HeapWalk.Space.Allocate | runtime/cpp/Allocator/GCHeap.cpp:114-167 | one object more for the walk, of the size asked for, and the others as they were |
| HeapWalk.HeaderReadBack | runtime/cpp/HeapObject.h:91-109 | a header is read back as written, and its kind told by the flags byte, exactly when the size is less than 2 to the 31 |
| HeapWalk.HeaderFormat | runtime/cpp/HeapObject.h:91-109 | the bytes of headers, small and large, of slots and of bytes |
| HeapWalk.BodySizeExactly | runtime/cpp/HeapObject.h:251-256 | a word for each slot, and for bytes the fewest words that hold them |
| HeapWalk.OneMore | runtime/cpp/HeapObject.h:251-256 | an object after the last one is one more in the walk |
| HeapWalk.SameObjects | runtime/cpp/Allocator/GCSpace.cpp:164-173 | the walk depends on nothing past its end |
| OpenHash.Insert | runtime/cpp/Bootstrap/Bootstrapper.cpp:556-569 | the entry goes to a free slot and the table stays in order; it fails exactly when every slot is taken |
| OpenHash.InsertKeeps | runtime/cpp/Bootstrap/Bootstrapper.cpp:560-567 | a free slot reached without passing another keeps every entry reachable |
| OpenHash.Lookup | runtime/cpp/Bootstrap/Bootstrapper.cpp:556-569 | probing up to a free slot finds a key exactly when it is there |
| OpenHash.NewDictionary | runtime/cpp/Bootstrap/Bootstrapper.cpp:571-594 | every entry is found, nothing else, and a free slot is left |
| OpenHash.TableSize | runtime/cpp/Bootstrap/Bootstrapper.cpp:573-582 | the table has the first prime of the list with room for half as many entries again, or just that room when all are smaller; always more than the entries |

## Left out

- G1GC.G1GC.Evacuate: the address of a copy is any address outside the emptied spaces that is not in use; where copies really go is `AllocationZone.OldZone.PutObject`, and that this is such an address is `Copies.CopyMayGoThere`.
- G1GC.G1GC.Collect: of the special objects only ephemerons are modelled; weak containers and process stacks are not, and the large spaces' sweep, the countdown and the unmarking before a collection are separate from it; what is released at its end is `AllocationZone.GivenBack`. Slots of type null are skipped as in the code; the behavior's 32-bit address space is not modelled.
- G1GC.G1GC.ScanCurrentContext: the registers and stack cells are one sequence of roots; which cells those are is `Frames.EvaluationContext.ScanStack`.
- AllocationZone.OldZone.constructor: the two bumps that build a zone are done at once, since the first of them starts from fields that have no value yet; a zone with room for two spaces is required, where the code stops the program.
- AllocationZone.OldZone.DetermineEvacuatedSpaces: committing the forwarder areas has no effect on the model; the page size is 4096.
- Meaning.SameEnd: holds of sound trees that stay within what the language defines; a condition that is not a boolean or a send that does not come back is outside it. What the other trees come to is said by the lemmas of `EmptyBlocks`, by `Meaning.LoopLeavesTest` and by `StackDepth.TopAtEachOp`.
- Linearizer.SExpressionLinearizer.VisitMethod: the primitive a pragma names, run before the statements, is not modelled; nor is to:by:do:, which the code does not implement.
- Linearizer.SExpressionLinearizer.Visit: a jump is known by its place among the operations; the static stack top is an unbounded integer where the code has an unsigned one.
- Simulation.SimReturn: a return from a block hands its value to the closure return method, whose effect is written in Smalltalk; the model stops there.
- TreecodeRoundTrip.RoundTrip: captured elements of a block are given as bytes, and float literals are not modelled; comparing floats is not an equivalence. The place in the pool where a literal was found is not kept in the decoded tree.
- TreecodeDecoder.Decoder.NextExpression: bytes that run out, an unknown kind, an index outside the pool, a negative count of expressions and an assignee that is no identifier all fail, where the code has undefined behaviour, stops, or leaves a null pointer.
- Addresses.CaptureClosure: an index of 0, to which the encoder cuts 256, leads nowhere, where the code reads a neighbouring word; an inlined argument is captured with the value it has when the closure is made.
- Scopes.Analysis.Visit: references are given in the order the visitor meets them, with the inlining already decided; it is decided before a block's own statements are visited.
- Closures.Layout.PositionLocals: a script declares a name once; the compiler only warns of a second declaration.
- Frames.EvaluationContext.Perform: a return out of a closure past its frame, process switches, callbacks and the contents of environments are not modelled. A frame that would run off the end of the stack array does not fit, although the code only checks the base.
- LiteralIntegers.ParseIntegerString: radix text other than plain digits, which the library function would partly accept, is refused. Floats have a parser of their own, which is not modelled.
- HeapWalk.Space.Allocate: sizes below 2 to the 31, see `HeapWalk.HeaderReadBack`; hash and behavior are zero.
- OpenHash.NewDictionary: sizes are unbounded, so three times the number of entries does not wrap around.
- Method caches: they are ordered by a comparison that is not an order, so no sound model of their contents exists.
- Weak containers: their indices are off by one in the code and the tombstone is never set.
- Large spaces: the sweep writes survivors one place too far.
- Non-local return, process switching, doesNotUnderstand, primitives, callbacks, foreign calls.
- The scanner and the rest of the parser, source positions, error messages, image reading, module search.
- Nested dynamic variables: the scanner never makes them.
