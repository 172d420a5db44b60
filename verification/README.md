# A model of fastgen's solving core

fastgen drives concolic execution: an instrumented program reports branches over labels of a
union table, the driver turns labels into solver expressions or into search constraints, and
the solved inputs go back to the fuzzer.  This project models the parts where that can go wrong
in a way a reader would not see from one function, and proves what they promise:

- **Lock-free structures** (`Chain`, `FreeList`, `DequeueCounters`, `VersionedStack`, `SpscRing`):
  step machines in which any number of threads take one shared-memory access at a time.  History
  variables (places, holders, winners) are written by the steps and never read by a guard.
- **Path slicing** (`Arithmetic`, `Partition`, `UnionFind`, `Expr`, `LabelTable`, `Serialize`,
  `Slicing`, `Dropping`, `Worklist`): the union-find with class cycles, the memoised translation of
  labels, the message loop that asserts only the conditions sharing input bytes and drops messages
  of busy sites, and the second backend that reaches the same slice with a worklist.
- **Constraints for the search** (`LabelValue`, `Uta`, `Constraint`, `TaskArgs`, `Task`, `Search`,
  `Results`, `SolvedBytes`): trees with stubs and their reading back, the constraint for the other
  direction of a branch, the argument slots of a task, the gradient search as a state machine,
  and the bytes of its solution.
- **Both together** (`Agreement`, `Operators`): translated expressions and search constraints against
  direct evaluation of the table, and direct evaluation against plain arithmetic by operator code, so
  that solutions are about the values of labels.
- **Hashing and filtering** (`Xxh3`, `Xxh32`, `Filter`): streaming against one-shot hashing for
  every split, the exact answers of the branch filter, and the bound on them.

The equivalence that the joins generate is defined by labellings: two offsets are equivalent
when every labelling that is constant on each joined set gives them the same label.  Expressions
have the meaning the SMT-LIB theory FixedSizeBitVectors gives them.  Every lemma switches
automatic induction off, so that each proof is the one written down.

Where the code does not do what its comments suggest, the code is followed:

- `simplify` treats every non-zero constant as 1 (its comments say "!= 1", "== 1").  The exact
  condition under which the constraint is still right on an input is `Constraint.Exact`, and
  `Constraint.CollapseCanBeWrong` gives a table where it is not.
- `partial_derivative` tests the address of the sign instead of the sign, so it always looks at
  the distances of the step up.  `Search.DropsAsItShould` says exactly when it still gives up a
  dimension as it should, and `Search.StaysEnabled` and `Search.GivenUp` are a problem where it
  does not, one each way.
- The message loop drops branches and indices of a site after 64 messages of that site, so a
  solution may leave the path there.  `Dropping.LeavesPath` is a run of 66 messages where every
  complete solver's nested solution does, although some input follows the path and takes the other
  branch.  `Dropping.NestedKeepsWholePath` proves that a nested solution follows the whole path
  when every dropped condition is stored elsewhere or mentions no offset linked to the branch, and
  `Dropping.NothingDropped` that this is so while no site sends more than 64 messages.
- The translator reads constants as signed words and the tree walk as unsigned ones.
  `Agreement.ConstantsAgree` says exactly when that is the same, `Agreement.BuildIsDirect` proves
  the values equal then, and `Agreement.WideConstantsDiffer` is a family of tables where they differ.
- A load of zero bytes is translated to one byte but records no dependency;
  `Serialize.LoadNeedsAByte` says that this is the only way the two differ.
- The walk widens a truth value by the width its node claims, which is right exactly when that
  width is one bit (`Uta.ExtendedTruthValue`).  The runtime gives comparisons the width of their
  operands, so this is the usual case: the walk then has the right number in too few bits.
  `Uta.WalkIsDirect` proves the walk right wherever the missing bits do not matter,
  `Uta.CutIsRight` says exactly when a cut is right, and `Uta.WidthIsLost` is a table whose widened
  comparison has 25 bits instead of 32: cut to 8 bits it is right, cut to 30 bits it is not.

## Model

| member | source | states |
|---|---|---|
| FreeList.InitInv | fuzzer/cpp_core/queue.h:1429-1432 | an empty free list with idle threads satisfies the invariant |
| FreeList.StepKeepsInv | fuzzer/cpp_core/queue.h:1438-1517 | every atomic step of `add`, `try_get` and `add_knowing_refcount_is_zero` by any thread keeps list, places, reference counts and should-be-on-list flags consistent |
| FreeList.RunInv | fuzzer/cpp_core/queue.h:1438-1517 | the invariant holds after every interleaving of any length |
| FreeList.PlaceOf | fuzzer/cpp_core/queue.h:1438-1517 | a thread is adding, has taken, owns or references a node exactly when the history says so |
| FreeList.OnePlace | fuzzer/cpp_core/queue.h:1438-1517 | a node is in exactly one place: reachable from the head, waiting to be added, being added, being taken, or owned by one caller |
| FreeList.RunsAreSafe | fuzzer/cpp_core/queue.h:1438-1517 | in every reachable state all nodes are in exactly one place, a taken node has its flag clear and at least two references, and a referenced node has a positive count |
| FreeList.NextIsStable | fuzzer/cpp_core/queue.h:1466-1472 | no step of any thread changes `next` of a node on which some thread holds a reference |
| FreeList.NewOwner | fuzzer/cpp_core/queue.h:1469-1476 | a node gets an owner only from the thread that swung the head past it |
| FreeList.StepsAreSafe | fuzzer/cpp_core/queue.h:1452-1489 | at every step of every run `next` is stable under references and a node handed out had no owner; that a `try_get` finds a node if it can is `FreeList.NothingFromEmptyOnly` and `FreeList.GetAlone` |
| FreeList.GetWasCalled | fuzzer/cpp_core/queue.h:1450-1489 | a `try_get` in progress was called by an earlier action of its thread and has gone on since |
| FreeList.NothingFromEmptyOnly | fuzzer/cpp_core/queue.h:1450-1489 | in every run a `try_get` that returns without a node was called earlier and the list was empty at a moment of that call |
| FreeList.GetAlone | fuzzer/cpp_core/queue.h:1450-1489 | an undisturbed `try_get` returns within six steps: it hands out the first node of the list, and nothing iff the list is empty |
| FreeList.AddAlone | fuzzer/cpp_core/queue.h:1438-1448 | an undisturbed `add` of a node nobody references puts it at the front within four steps |
| DequeueCounters.WonBelowTail | fuzzer/cpp_core/queue.h:2539-2547 | attempts minus overcommit bounds earlier successes: the winners never outnumber the enqueued elements |
| DequeueCounters.ConsumeKeepsInv | fuzzer/cpp_core/queue.h:2767-2786 | every atomic step of a consumer, single or bulk, keeps the counter invariant |
| DequeueCounters.StepKeepsInv | fuzzer/cpp_core/queue.h:2535-2604 | every step of the producer, of a call and of any consumer keeps the counter invariant |
| DequeueCounters.RunInv | fuzzer/cpp_core/queue.h:2535-2604 | the counter invariant holds after every interleaving |
| DequeueCounters.HeadNeverPassesTail | fuzzer/cpp_core/queue.h:2539-2600 | in every run `headIndex` is at most `tailIndex`, and overcommit at most the optimistic count |
| DequeueCounters.ClaimsAreEnqueued | fuzzer/cpp_core/queue.h:2764-2864 | claimed ranges are below the head, disjoint and in order, and a consumer that passed the second check finds its elements enqueued; that a consumer claims what it can is `DequeueCounters.QuietCall` and `DequeueCounters.FailsOnlyOnEmpty` |
| DequeueCounters.RunAccounts | fuzzer/cpp_core/queue.h:2539-2600 | in every run each index reserved on the optimistic count is won, given back or still to be decided by a call, and a won one has its element or is owed it by a call |
| DequeueCounters.QuietCounts | fuzzer/cpp_core/queue.h:2539-2600 | whenever no consumer is inside a call, optimistic count minus overcommit is the head, which is at most the tail |
| DequeueCounters.CallAlone | fuzzer/cpp_core/queue.h:2763-2786 | an undisturbed call returns within five steps and claims, from the head on, as many elements as it asks for and the counters promise |
| DequeueCounters.QuietCall | fuzzer/cpp_core/queue.h:2763-2786 | in any run, from any moment at which no consumer is inside a call, an undisturbed call claims all elements between head and tail up to the number it asks for, and fails iff there are none |
| DequeueCounters.FailsOnlyOnEmpty | fuzzer/cpp_core/queue.h:2535-2604 | in every run a call that returns without elements read counters, within the call, that left nothing to take |
| VersionedStack.StepKeepsInv | fuzzer/cpp_core/lprobe/concurrent_stack.h:77-124 | every shared-memory access of outer and inner `push` and `pop` keeps both stacks well linked, lengths equal to depths and nodes conserved |
| VersionedStack.Linearises | fuzzer/cpp_core/lprobe/concurrent_stack.h:77-124 | the event of each step is that operation on a plain stack, and silent steps leave it unchanged |
| VersionedStack.SwapIsCurrent | fuzzer/cpp_core/lprobe/concurrent_stack.h:89-101 | a successful compare-and-swap in `pop` installs the `next` that is current, although it was read earlier |
| VersionedStack.OnePlace | fuzzer/cpp_core/lprobe/concurrent_stack.h:103-124 | every node is on the live stack, on the recycled stack or with exactly one thread, and in no second place |
| VersionedStack.RunInv | fuzzer/cpp_core/lprobe/concurrent_stack.h:77-124 | the invariant holds after every interleaving |
| VersionedStack.RunsConserve | fuzzer/cpp_core/lprobe/concurrent_stack.h:103-124 | in every state of every run each node allocated so far is in exactly one of these places |
| VersionedStack.RunsLinearise | fuzzer/cpp_core/lprobe/concurrent_stack.h:74-124 | in every run the events form a history of one plain stack that starts empty, and the `length` of the current head is its height at every moment |
| VersionedStack.PendingWasPopped | fuzzer/cpp_core/lprobe/concurrent_stack.h:118-124 | a value a thread is about to return was popped by that thread earlier and has been kept since |
| VersionedStack.ReturnsWhatItPopped | fuzzer/cpp_core/lprobe/concurrent_stack.h:118-124 | an outer `pop` returns the value it popped within the same call |
| VersionedStack.CallWasMade | fuzzer/cpp_core/lprobe/concurrent_stack.h:111-124 | a call in progress was made, with its argument, by an earlier action of its thread and has gone on since |
| VersionedStack.EventsAreCalled | fuzzer/cpp_core/lprobe/concurrent_stack.h:111-124 | every event happens within a call of its own thread: a push pushes the argument of its call; popping, finding the stack empty and returning happen within a call of `pop` |
| VersionedStack.TakesEffectOnce | fuzzer/cpp_core/lprobe/concurrent_stack.h:111-124 | between its start and its return a call has exactly one of the events pushed, popped and found empty |
| VersionedStack.PopAlone | fuzzer/cpp_core/lprobe/concurrent_stack.h:89-124 | an undisturbed outer `pop` returns within nine steps: the top value, its node recycled, and empty iff the stack is |
| VersionedStack.PushAlone | fuzzer/cpp_core/lprobe/concurrent_stack.h:77-116 | an undisturbed outer `push` puts its value on top within nine steps, in the first recycled node, and allocates iff there is none |
| SpscRing.InitInv | fuzzer/cpp_core/pcqueue.h:50-60 | a new ring satisfies the invariant |
| SpscRing.AccessOk | fuzzer/cpp_core/pcqueue.h:86-110 | the producer builds only in raw slots, the consumer moves only from built ones, and never in the same slot |
| SpscRing.StepKeepsInv | fuzzer/cpp_core/pcqueue.h:80-112 | every load, slot access and store of both sides keeps indices, slots and logs consistent |
| SpscRing.Refines | fuzzer/cpp_core/pcqueue.h:80-112 | every step is a step of a FIFO queue of capacity size - 1, with "full" and "empty" answered exactly when it is |
| SpscRing.NeverStuck | fuzzer/cpp_core/pcqueue.h:80-112 | a call in progress always has a next step |
| SpscRing.RunInv | fuzzer/cpp_core/pcqueue.h:80-112 | the invariant holds after every interleaving |
| SpscRing.LogIsState | fuzzer/cpp_core/pcqueue.h:80-112 | the values written and read along a run are those its states remember |
| SpscRing.RunsAreFifo | fuzzer/cpp_core/pcqueue.h:80-112 | in every run what was read is a prefix of what was written, with at most size - 1 items in between; no slot is accessed by both sides or in the wrong state, and no call is stuck |
| SpscRing.QueriesAreExact | fuzzer/cpp_core/pcqueue.h:138-167 | `isEmpty`, `isFull` and `sizeGuess` from any two moments between which the difference fits the ring return that difference |
| SpscRing.ConsumerQueries | fuzzer/cpp_core/pcqueue.h:138-167 | in every run, while the consumer takes no other step, a query of its own answers the size at the moment it loads the write index, whichever index it loads first, and at every later moment the queue is at least that long |
| SpscRing.ProducerQueries | fuzzer/cpp_core/pcqueue.h:138-167 | in every run, while the producer takes no other step, a query of its own answers the size at the moment it loads the read index, and later the queue is at most that long |
| SpscRing.StepsEnd | fuzzer/cpp_core/pcqueue.h:80-112 | every step brings the call of its side nearer to its end, a call answers exactly where it ends, for its own argument, and the other side is left alone |
| SpscRing.CallsReturn | fuzzer/cpp_core/pcqueue.h:80-112 | wait-freedom: in every run a `write` has answered after three steps of the producer and a `read` after four of the consumer, whatever the other side does |
| UnionFind.SplitKeepsForest | fuzzer/src/union_find.rs:176-187 | one path-splitting step keeps the forest and all representatives, and loses no pointer to a representative |
| UnionFind.RankRises | fuzzer/src/union_find.rs:176-187 | ranks strictly rise along parents up to the representative |
| UnionFind.ForceKeepsForest | fuzzer/src/union_find.rs:196-202 | pointing an element at its representative keeps the forest |
| UnionFind.LinkKeepsForest | fuzzer/src/union_find.rs:160-171 | hanging one root under the other by rank gives the forest of the merged classes |
| UnionFind.SpliceIsCycle | fuzzer/src/union_find.rs:148-158 | swapping the links of two elements joins their cycles into one |
| UnionFind.MergeRealises | fuzzer/src/union_find.rs:148-173 | the merged representatives realise the equivalence closure with the new pair |
| UnionFind.RankFits | fuzzer/src/union_find.rs:160-171 | a root of rank r has at least 2^r members, also after a union |
| UnionFind.RanksStaySmall | fuzzer/src/union_find.rs:229-232 | ranks stay below 64, so the saturating `u8` rank never saturates |
| UnionFind.UnionKeeps | fuzzer/src/union_find.rs:148-173 | one union keeps forest, cycles, ranks and the realised equivalence together |
| UnionFind.TurnIsCycle | fuzzer/src/union_find.rs:211-221 | a cycle may be started at any of its members |
| UnionFind.Around | fuzzer/src/union_find.rs:211-221 | following the links from a member visits the members of its class in turn |
| UnionFind.UnionFind.constructor | fuzzer/src/union_find.rs:99-115 | a new structure has singleton classes and no joins |
| UnionFind.UnionFind.Find | fuzzer/src/union_find.rs:176-187 | returns the representative; path splitting changes no representative |
| UnionFind.UnionFind.Union | fuzzer/src/union_find.rs:148-173 | joins the two classes and returns true iff they were different |
| UnionFind.UnionFind.Equiv | fuzzer/src/union_find.rs:190-193 | true iff the elements are related by the joins done so far |
| UnionFind.UnionFind.Force | fuzzer/src/union_find.rs:196-202 | afterwards every element points at its representative |
| UnionFind.UnionFind.GetSet | fuzzer/src/union_find.rs:211-221 | terminates and lists each member of the class exactly once, the argument first |
| Expr.EvalIsLocal | fuzzer/src/z3solver.rs:54-501 | the value of an expression depends on the bytes it mentions alone |
| Expr.EvalHasSort | fuzzer/src/z3solver.rs:54-501 | a well-sorted expression has a value of its sort on every input, a bit vector being below 2 to its width |
| Serialize.LoadIsLoad | fuzzer/src/z3solver.rs:102-115 | a load is a bit vector of 8 bits per byte that mentions exactly the bytes it reads |
| Serialize.LoadNeedsAByte | fuzzer/src/z3solver.rs:102-115 | the recorded dependencies of a load are the bytes it mentions iff it reads at least one byte |
| Serialize.UnaryFree | fuzzer/src/z3solver.rs:116-283 | a one-operand operator mentions exactly what its operand mentions and is well sorted |
| Serialize.BinaryFree | fuzzer/src/z3solver.rs:284-499 | a two-operand operator mentions exactly what its operands mention and is well sorted |
| Serialize.MemcmpFree | fuzzer/src/z3solver.rs:149-189 | a memory comparison mentions exactly what its operands mention and is well sorted |
| Serialize.BuildIsGood | fuzzer/src/z3solver.rs:54-501 | a translated label mentions bytes within the input only and is well sorted |
| Serialize.MemoPut | fuzzer/src/z3solver.rs:54-501 | entering a label's dependencies, and its expression, keeps the memo maps right |
| Serialize.Translator.Serialize | fuzzer/src/z3solver.rs:54-501 | memoisation never changes the result; a returned expression has its label in the dependency cache with exactly the bytes it mentions; what it evaluates to is `Agreement.BuildIsDirect` |
| Serialize.Translator.SerializeUnary | fuzzer/src/z3solver.rs:116-283 | the same for the one-operand operators, including the untranslated ones |
| Serialize.Translator.SerializeMemcmp | fuzzer/src/z3solver.rs:149-189 | the same for memory comparisons, which cache dependencies but no expression |
| Serialize.Translator.SerializeBinary | fuzzer/src/z3solver.rs:284-499 | the same for the two-operand operators, whose dependencies are cached even if nothing is returned; which operator each code stands for is `Agreement.TranslatesExactly`, `Agreement.BinaryMeans` and the rows of `Operators` |
| Slicing.OverlaySatisfies | fuzzer/src/afl.rs:21-46 | a model of the slice and the flipped branch, laid over a seed that satisfies the path, satisfies every stored condition and the flipped branch |
| Slicing.SliceIsAsGood | fuzzer/src/z3solver.rs:697-748 | slice plus flipped branch is satisfiable iff all stored conditions plus flipped branch are |
| Slicing.ClassSeparates | fuzzer/src/z3solver.rs:769-786 | the conditions on a class mention only its offsets and all others none of them |
| Slicing.NestedDelivers | fuzzer/src/z3solver.rs:725-744 | the nested solution, laid over any seed satisfying the path, follows the path and takes the other branch |
| Slicing.AloneDelivers | fuzzer/src/z3solver.rs:703-724 | the optimistic solution takes the other branch from any seed |
| Slicing.Mutate | fuzzer/src/afl.rs:15-46 | the result is the resized buffer with the solution's bytes laid over it |
| Slicing.Resize | fuzzer/src/afl.rs:21-38 | the bytes before and after the cut, with zeros between them, or the buffer itself if its size does not change |
| Slicing.Overlay | fuzzer/src/afl.rs:39-45 | the solution's bytes where it has any within the buffer, in whatever order they are visited |
| Slicing.GenerateSolution | fuzzer/src/z3solver.rs:503-513 | exactly the given offsets, each with the model's byte |
| Slicing.Solver.JoinOffsets | fuzzer/src/z3solver.rs:32-44 | all offsets of the set become one class; one of them is returned, or 0 if there are none |
| Slicing.Solver.Preserve | fuzzer/src/z3solver.rs:750-767 | the condition is stored on the class of its offsets |
| Slicing.Solver.AddDependencies | fuzzer/src/z3solver.rs:769-786 | asserts the conditions stored on the class, collects exactly its offsets, and these separate the stored conditions |
| Slicing.Solver.Attempt | fuzzer/src/z3solver.rs:697-748 | solutions deliver what they claim, a nested one changes exactly the class of the branch, and with a complete oracle no nested solution means that no input follows the path and flips the branch |
| Slicing.RequestIs | fuzzer/src/z3solver.rs:515-748 | for a translated label: a branch or index is a query iff its sort fits, attempted iff the message says so; an attempted index that is no bit vector only joins; an assumption is recorded iff it is a truth value and joined otherwise; everything else, an index of width 0 included, panics |
| Slicing.RequestIsNot | fuzzer/src/z3solver.rs:515-748 | nothing is asked for exactly by dropped and other messages, label 0 and untranslated labels; an index of width 0 and an aborted translation panic |
| Slicing.ToFlipIs | fuzzer/src/z3solver.rs:673-748 | the messages to be answered, in terms of the message, its count and its translation, are the attempted queries |
| Slicing.Solver.Process | fuzzer/src/z3solver.rs:515-786 | one message, the given one of its site: its request, which `Slicing.RequestIs` and `Slicing.RequestIsNot` give exactly, the stored conditions and joins afterwards, and solutions that deliver and change only offsets linked to the branch |
| Slicing.Solver.Serve | fuzzer/src/z3solver.rs:603-748 | the part after the translation: join, solve if asked for, store |
| Slicing.Run | fuzzer/src/z3solver.rs:788-1011 | over any run of messages every branch or index that is to be flipped, is not dropped and is translated to a fitting sort is answered, every nested solution follows the path of all earlier messages that were not dropped and then flips the branch, changing exactly the offsets linked to it, and with a complete oracle there is none only if no input does that, up to the first panic |
| Slicing.Handle | fuzzer/src/z3solver.rs:817-1000 | one turn of the loop: the request of the next message, the path it adds, and a right answer if it is attempted |
| Slicing.Recount | fuzzer/src/z3solver.rs:820-828 | the count of a site is the number of its messages so far, and always 1 without an address |
| Dropping.DeliversWhole | fuzzer/src/z3solver.rs:874-876 | a solution that keeps some conditions keeps all those besides that mention none of its offsets |
| Dropping.NestedKeepsWholePath | fuzzer/src/z3solver.rs:788-1011 | a nested solution follows the path of all earlier messages, dropped ones included, and then flips the branch, if each dropped condition is stored by a kept message or mentions no offset linked to the branch |
| Dropping.NothingDropped | fuzzer/src/z3solver.rs:820-828 | while no site with an address sends more than 64 messages nothing is dropped, so this is the case |
| Dropping.BusyPaths | fuzzer/src/z3solver.rs:874-876 | 64 messages of a site and then a branch of it: the path kept is empty, the whole path is not |
| Dropping.LeavesPath | fuzzer/src/z3solver.rs:874-876 | for that run and a branch of another site on one of the bytes, every sound and complete solver finds a nested solution that leaves the path of a seed that follows it, although an input follows the path and flips the branch |
| Dropping.RunLeavesPath | fuzzer/src/z3solver.rs:788-1011 | this is what the message loop answers |
| Worklist.ClosureIsClass | fuzzer/cpp_core/z3backend.cc:465-477 | a set closed under the recorded offsets is exactly the union of the classes of its start |
| Worklist.CollectedIsTouched | fuzzer/cpp_core/z3backend.cc:487-498 | over such a set the recorded conditions are exactly the stored ones that mention it |
| Worklist.RecordKeepsEdges | fuzzer/cpp_core/z3backend.cc:519-523 | recording a branch, attempted or not, keeps recorded offsets equivalent and every branch's offsets together |
| Worklist.RecordKeepsExprs | fuzzer/cpp_core/z3backend.cc:519-523 | recording a branch keeps every condition at all its offsets and only at equivalent ones |
| Worklist.Backend.Closure | fuzzer/cpp_core/z3backend.cc:465-477 | terminates and reaches exactly the offsets equivalent to a start |
| Worklist.Backend.Follow | fuzzer/cpp_core/z3backend.cc:469-476 | adds what was recorded with an offset, and queues exactly what is new |
| Worklist.Backend.CollectExprs | fuzzer/cpp_core/z3backend.cc:487-498 | exactly the conditions recorded at the given offsets |
| Worklist.Backend.Process | fuzzer/cpp_core/z3backend.cc:445-529 | one branch: the classes it touches, the earlier conditions that mention them, and the invariant kept |
| Worklist.UnionFindSlice | fuzzer/src/z3solver.rs:769-786 | with non-empty dependency sets the union-find class and its slice are the same two sets |
| Worklist.BothBackends | fuzzer/cpp_core/z3backend.cc:379-529 | for every sequence of conditions with non-empty dependencies both backends reach the same offsets and collect the same conditions, whichever branches are attempted |
| Agreement.ConstantsAgree | fuzzer/src/z3solver.rs:296-318 | a constant word cut to a width has the same value read as signed and as unsigned iff the width is at most 64 or the word is below 2^63 |
| Agreement.UnaryMeans | fuzzer/src/z3solver.rs:116-283 | a translated one-operand operator has the sort and the value of the operator, negated and zero- or sign-extended truth values included |
| Agreement.BinaryMeans | fuzzer/src/z3solver.rs:284-499 | a translated two-operand operator has the sort and the value of the operator, exclusive or of truth values included |
| Agreement.BuildIsDirect | fuzzer/src/z3solver.rs:54-501 | for every well-typed label whose constants are read alike, a translated expression has on every input the value of direct evaluation of the table, which the rows of `Operators` give in plain arithmetic by operator code; memory comparisons are `Agreement.MemcmpLabel` |
| Agreement.TranslatesExactly | fuzzer/src/z3solver.rs:54-501 | such a label is translated iff its operands are and its operator has a translation for their sorts, stated by operator code |
| Agreement.ConcreteMeans | fuzzer/src/z3solver.rs:46-52 | the bytes reported for a comparison become their little-endian number, eight bits a byte |
| Agreement.MemcmpMeans | fuzzer/src/z3solver.rs:149-189 | a memory comparison is 0 on an input iff its operands are equal there, and 1 otherwise, in 32 bits |
| Agreement.MemcmpLabel | fuzzer/src/z3solver.rs:149-189 | a translated memory comparison of labels, or of a label with the bytes reported for it, compares their values |
| Operators.ComparisonValue | fuzzer/src/z3solver.rs:445-499 | each of the ten comparison codes on two numbers is that comparison, signed ones on the two's complement reading |
| Operators.ArithmeticValue | fuzzer/src/z3solver.rs:397-411 | codes 11, 13 and 15 add, subtract and multiply modulo 2 to the width |
| Operators.DivisionValue | fuzzer/src/z3solver.rs:412-435 | codes 17, 18, 20 and 21 are unsigned and signed quotient and remainder, with the SMT-LIB results for a zero divisor |
| Operators.DivisionTruncates | fuzzer/src/z3solver.rs:418-435 | signed quotient and remainder make up the dividend, the remainder is smaller than the divisor and has the sign of the dividend |
| Operators.ShiftValue | fuzzer/src/z3solver.rs:380-396 | codes 23, 24 and 25 multiply by, divide by, and divide the signed reading by a power of two |
| Operators.BitwiseValue | fuzzer/src/z3solver.rs:339-379 | codes 26, 27 and 28 are and, or and exclusive or of every bit |
| Operators.LogicValue | fuzzer/src/z3solver.rs:339-379 | and, or and exclusive or of truth values |
| Operators.ConcatValue | fuzzer/src/z3solver.rs:436-441 | a concatenation has its right operand on top |
| Operators.OperandValue | fuzzer/src/z3solver.rs:284-337 | an operand is its label, or a constant of the width of the operator, or of what a concatenation leaves beside the other operand |
| Operators.NegatedValue | fuzzer/src/z3solver.rs:247-283 | codes 1 and 2 complement and negate the right operand |
| Operators.ResizedValue | fuzzer/src/z3solver.rs:116-246 | extensions and cuts of a number, by their codes |
| Operators.UnaryOfTruth | fuzzer/src/z3solver.rs:116-283 | the one-operand codes on a truth value |
| Operators.LeafValue | fuzzer/src/z3solver.rs:94-115 | an input byte, and a load as the little-endian number of its bytes |
| Operators.LittleEndianByte | fuzzer/src/z3solver.rs:102-115 | byte k of such a number is the byte at offset k |
| Agreement.WideConstantsDiffer | fuzzer/src/z3solver.rs:312-318 | more than eight bytes plus the word 2^63: on zeros the translated expression and the label have different values |
| Agreement.NegatedIsPlain | fuzzer/src/z3solver.rs:243-263 | a negated truth value is such a label when the truth value is, and has the other value |
| Agreement.QueryMeans | fuzzer/src/z3solver.rs:603-748 | for every query, memory comparisons included: its condition holds on an input iff the expression has the reported value, its flip iff it has another |
| Agreement.RequestMeans | fuzzer/src/z3solver.rs:603-748 | the stored condition holds on an input iff the label has the value the program reported, the flipped one iff it has another |
| Agreement.PathIsLabels | fuzzer/src/z3solver.rs:750-767 | the path conditions hold on an input iff it gives all labels of the kept messages the values reported |
| Agreement.AnswersFlipLabels | fuzzer/src/z3solver.rs:788-1011 | laid over any seed with the reported values, a nested solution keeps the values of all labels on the path and changes that of its own branch; with a complete oracle there is none only if no input does that |
| Agreement.BothAskTheSame | fuzzer/src/union_to_ast.rs:513-560 | what the solver and the search are asked for the other direction of a branch, on a comparison or a negated one, agree on an input iff the collapse is exact there, for directions 0 and 1 |
| LabelValue.ValueIsLocal | fuzzer/src/union_to_ast.rs:10-183 | the value of a label depends on the bytes it reads alone |
| LabelValue.ValueHasSort | fuzzer/src/union_to_ast.rs:185-371 | a well-typed label has a value of its sort on every input, a bit vector being below 2 to its width |
| Uta.ReadIsLittleEndian | fuzzer/cpp_core/z3solver.cc:117-126 | concatenating the bytes of a read upwards gives the little-endian number |
| Uta.EncodeStaysBelow | fuzzer/src/union_to_ast.rs:10-183 | expanding a label caches no label above it |
| Uta.WalkIsDirect | fuzzer/cpp_core/z3solver.cc:97-288 | from any right cache of the labels already seen, the left-to-right cached walk of the tree of a label yields the number of direct evaluation of the table, in full width unless the label is a widened truth value, and caches exactly the labels seen; for every well-typed label under which no operator needs bits the walk lacks |
| Uta.WalkUnaryIs | fuzzer/cpp_core/z3solver.cc:132-195 | a one-operand operator on a number with some bits missing: a cut within the rest is exact, a further extension misses the same bits |
| Uta.WalkBinaryIs | fuzzer/cpp_core/z3solver.cc:127-280 | a two-operand operator is exact on full widths, and equality and unsigned comparison on operands that miss equally many bits |
| Uta.ExpandedOnce | fuzzer/src/union_to_ast.rs:24-28 | each reachable label is expanded exactly once, before any stub for it, and nothing else is, whatever the widths |
| Uta.OffsetsAreBytes | fuzzer/src/union_to_ast.rs:169-183 | the offsets cached for every label are the bytes it reads |
| Uta.TreeOfLabel | fuzzer/src/union_to_ast.rs:10-371 | from empty caches: no panic, the number of direct evaluation and its full value for anything but an extension, every reachable label expanded once, the bytes recorded |
| Uta.ExtendedTruthValue | fuzzer/cpp_core/z3solver.cc:136-141 | a truth value is widened to the width of the node iff its own node claims one bit |
| Uta.WidenedWalk | fuzzer/cpp_core/z3solver.cc:136-141 | a widened comparison has in the walk the right number in as many bits too few as its node claims more than one |
| Uta.CutIsRight | fuzzer/cpp_core/z3solver.cc:132-135 | a cut of any label the walk can read has its direct value iff it is not empty and stays within the bits the walk has |
| Uta.CutWidened | fuzzer/cpp_core/z3solver.cc:132-141 | a cut of a widened comparison has the direct value in the walk iff it ends below the bits that are missing |
| Uta.WidthIsLost | llvm_mode/dfsan_rt/dfsan/dfsan.cc:715-717 | a table with an 8-bit comparison widened to 32 bits and cut: on every input the widened label walks to 25 bits with a direct value of 32; cut to 8 bits the walk is right, cut to 30 bits it is rejected |
| Uta.Encoder.DoUta | fuzzer/src/union_to_ast.rs:10-371 | the in-place construction builds the tree and cache of `Encode`, panics included |
| Uta.Walker.Serialize | fuzzer/cpp_core/z3solver.cc:97-288 | the in-place walk computes the value and cache of `Walk` |
| Uta.Walker.ReadBytes | fuzzer/cpp_core/z3solver.cc:117-126 | the read loop yields the little-endian number of its bytes |
| Constraint.FlipNegates | fuzzer/src/union_to_ast.rs:373-388 | the flipped operator is the negation on all operands, and flipping twice is the identity |
| Constraint.FlippedMeaning | fuzzer/src/union_to_ast.rs:373-388 | flipping a comparison node negates its value on every input |
| Constraint.NothingToSimplify | fuzzer/src/union_to_ast.rs:407-428 | a comparison that is not a zero-extended comparison against a constant is left alone |
| Constraint.PlainConstraint | fuzzer/src/union_to_ast.rs:513-560 | without a collapse the constraint has the value of the comparison, negated when flipped |
| Constraint.CollapsingValue | fuzzer/src/union_to_ast.rs:430-476 | the value of an equality between a widened comparison and a constant, in the constant's width |
| Constraint.CollapsedIs | fuzzer/src/union_to_ast.rs:430-476 | a collapsed constraint is the inner comparison, kept or flipped as the operator and the constant say |
| Constraint.CollapsedConstraint | fuzzer/src/union_to_ast.rs:430-476 | a collapsed constraint is right on an input iff the constant is 0, or is 1 in the compared width, or is another number and the inner comparison is false |
| Constraint.ConstraintIsExact | fuzzer/src/union_to_ast.rs:513-560 | the constraint has the value of the comparison, negated when flipped, iff the collapse, if any, is exact |
| Constraint.CollapseOfZeroOrOne | fuzzer/src/union_to_ast.rs:407-493 | against the constants 0 and 1 a collapse is always exact |
| Constraint.CollapseCanBeWrong | fuzzer/src/union_to_ast.rs:430-476 | a widened comparison against 2: the constraint holds on an input that does not satisfy the comparison |
| Constraint.GetOneConstraint | fuzzer/src/union_to_ast.rs:513-560 | nothing exactly for labels that are no comparison or negated comparison, by their codes, and trees deeper than 80; otherwise the simplified, flipped tree with the bytes of the label, or a panic, for every label; for readable ones it holds on an input iff that input takes the branch in the other direction, for comparisons and negated ones |
| TaskArgs.Mapper.MapArgs | fuzzer/src/analyzer.rs:19-96 | every leaf that is walked gets a place, constants know theirs, places and offsets correspond one to one, and nothing placed before moves |
| TaskArgs.Mapper.PlaceBytes | fuzzer/src/analyzer.rs:53-83 | every byte of a read has a place; a new first byte carries the length as shape, new others 0 |
| TaskArgs.WalkSkipsStubs | fuzzer/src/analyzer.rs:29-39 | in a tree whose labels are expanded once the walk skips stubs only |
| TaskArgs.ConstraintIsPlaced | fuzzer/src/analyzer.rs:29-39 | this holds for the constraint of every comparison that can be expanded, flipped and collapsed or not, so all its leaves are placed |
| TaskArgs.SimplifiedScans | fuzzer/src/union_to_ast.rs:407-493 | simplifying a tree whose labels are expanded once gives such a tree, also when an inner comparison is pulled out |
| Task.SharedSlot | fuzzer/cpp_core/task.h:85-101 | two constraints read an offset they share through the same global slot |
| Task.FitsScratch | fuzzer/cpp_core/task.h:104-109 | the arguments of a constraint number at most slots plus its constants |
| Task.Fut.SlotFor | fuzzer/cpp_core/task.h:89-98 | the slot of an offset, a new one only if it has none |
| Task.Fut.Link | fuzzer/cpp_core/task.h:88-101 | every offset of the constraint gets its slot, new ones with its byte and shape; from nothing, the slots follow the iteration order |
| Task.Fut.LinkAll | fuzzer/cpp_core/task.h:85-101 | all constraints are linked to the slots, one slot per offset, the first constraint's offsets first |
| Task.Fut.Finalize | fuzzer/cpp_core/task.h:85-111 | after it all indices are valid, every slot has the byte and shape of a constraint that reads it, and all arguments fit the scratch array |
| Task.Fut.FillScratch | fuzzer/cpp_core/gd.cc:154-167 | fills the scratch array within its bounds: a slot's value or the constant for every argument |
| Task.SharedFirst | fuzzer/cpp_core/parser.cc:221-229 | what finalizing the second task writes into the shared constraint is a slot of the same offset in the first |
| Task.FinalizeShared | fuzzer/cpp_core/parser.cc:221-229 | finalizing the task over the first constraint leaves the task over all constraints final |
| Task.BuildTasks | fuzzer/cpp_core/parser.cc:167-229 | both tasks are final after both have been finalized, for any mix of constraints kept and skipped, the first included |
| Results.BytesSum | fuzzer/cpp_core/gd.cc:58-61 | the lowest bytes make up the number modulo 256 to their count |
| Results.GroupBytes | fuzzer/cpp_core/gd.cc:52-61 | cutting the 64-bit weighted sum of a group into bytes keeps it modulo 256 to its length |
| Results.AddResults | fuzzer/cpp_core/gd.cc:34-69 | when the shapes tile the offsets into contiguous groups of at most 8, every offset gets a byte and every group's bytes equal its values modulo 256 to its length |
| Results.Cut | fuzzer/cpp_core/gd.cc:49-66 | the walk over the ordered slots meets every group at its start and cuts it |
| Results.GroupValue | fuzzer/cpp_core/gd.cc:52-57 | the weighted sum of the group's values modulo 2^64 |
| Results.WriteBytes | fuzzer/cpp_core/gd.cc:58-61 | byte j of the number at offset start + j, nothing else changed |
| Search.SatIncZero | fuzzer/cpp_core/gd.cc:91-93 | the saturating sum is 0 iff both are, and never below the base |
| Search.DistanceZero | fuzzer/cpp_core/gd.cc:95-142 | the distance of a 64-bit comparison, signed or unsigned, is 0 iff it holds |
| Search.SatIncIsSum | fuzzer/cpp_core/gd.cc:91-93 | the saturating sum is the sum, or 2^64 - 1 if that is less |
| Search.DistanceIsGap | fuzzer/cpp_core/gd.cc:95-142 | where a comparison fails its distance is the gap between its operands, on the signed or unsigned reading, one more for a strict one, capped at 2^64 - 1 |
| Search.DistanceOfEqual | fuzzer/cpp_core/gd.cc:102-105 | where an inequality fails its distance is 1 |
| Search.SignedOf | fuzzer/cpp_core/gd.cc:119-134 | the signed reading is the one number from -2^63 up to 2^63 with the same residue |
| Search.FlipHolds | fuzzer/cpp_core/gd.cc:18-32 | the flipped comparison holds iff the comparison does not |
| Search.SolvedIff | fuzzer/cpp_core/gd.cc:146-179 | the distance is 0 iff every constraint, negated where the code flips it, holds |
| Search.DistanceIsSum | fuzzer/cpp_core/gd.cc:146-179 | the distance is the sum of the distances of the constraints, capped at 2^64 - 1 |
| Search.SlopeIsDownhill | fuzzer/cpp_core/gd.cc:208-235 | a positive slope is what one step along its sign saves |
| Search.SlopeIsBest | fuzzer/cpp_core/gd.cc:208-235 | neither step saves more than the slope |
| Search.DropsAsItShould | fuzzer/cpp_core/gd.cc:238-256 | the code gives up a dimension exactly when the step along the sign breaks a constraint that held, iff the slope is flat, the sign is up, or the steps up and down agree on breaking one |
| Search.StaysEnabled | fuzzer/cpp_core/gd.cc:240-256 | a problem and input where the step down breaks a satisfied constraint and the dimension stays enabled |
| Search.GivenUp | fuzzer/cpp_core/gd.cc:240-256 | a problem and input where the step down breaks nothing and the dimension is given up |
| Search.Searcher.ComputeDistance | fuzzer/cpp_core/gd.cc:146-179 | computes the distance and the distance of every constraint, which `Search.DistanceIsGap` and `Search.DistanceIsSum` give as numbers |
| Search.Searcher.AddResults | fuzzer/cpp_core/gd.cc:67-69 | records an input of distance 0, and keeps its bytes only if none are kept |
| Search.Searcher.Update | fuzzer/cpp_core/input.cc:7-15 | moves one value modulo 2^64 unless it is disabled |
| Search.Searcher.Probe | fuzzer/cpp_core/gd.cc:187-209 | the distance one step away; the minimum is restored, and recorded if it solves |
| Search.Searcher.PartialDerivative | fuzzer/cpp_core/gd.cc:181-261 | restores the minimum; sign, value and the disabled dimension are those of the slope and the exact test the code makes; a positive value is what one step along the sign saves in an enabled dimension; records exactly when it finds |
| Search.Searcher.CalGradient | fuzzer/cpp_core/gd.cc:273-293 | every gradient and every disabled dimension is that of the exact test; every positive gradient points downhill from the minimum, which is unchanged, in an enabled dimension; goes on to descend iff some gradient is positive |
| Search.Searcher.GuessDescend | fuzzer/cpp_core/gd.cc:295-323 | the last distance stays that of the minimum and does not rise |
| Search.Searcher.AllDimensionDescend | fuzzer/cpp_core/gd.cc:326-361 | terminates; unless solved the last distance is that of the minimum; it does not rise |
| Search.Searcher.DescendDimension | fuzzer/cpp_core/gd.cc:372-396 | terminates; the distance of the minimum falls or stays, and is 0 iff solved |
| Search.Searcher.OneDimensionDescend | fuzzer/cpp_core/gd.cc:363-403 | terminates over all dimensions; the last distance is that of the minimum and does not rise |
| Search.Searcher.RepickStartPoint | fuzzer/cpp_core/gd.cc:405-418 | a new minimum with its distance; disabled values stay, then nothing is disabled |
| Search.Searcher.LoadInput | fuzzer/cpp_core/gd.cc:420-432 | the minimum is the given input, with its distance |
| Search.Searcher.Turn | fuzzer/cpp_core/gd.cc:434-459 | one state: solved iff an input was recorded, otherwise progress towards the attempt limit |
| Search.Searcher.GdSearch | fuzzer/cpp_core/gd.cc:434-469 | from a fresh context it terminates for any constraint functions and movements, returns true exactly when it recorded a solution, all recorded inputs have distance 0, the first is kept, and the last distance never rises between start points |
| SolvedBytes.RecordedBytesSolve | fuzzer/cpp_core/gd.cc:34-69 | when constraint functions read a group only as a number of its bytes, the bytes recorded for a vector of distance 0 have distance 0 themselves |
| SolvedBytes.KeptBytesSolve | fuzzer/cpp_core/gd.cc:67-69 | so what a search keeps of the vectors it records satisfies every constraint, negated where the code flips it |
| Xxh3.AbsorbSplit | fuzzer/cpp_core/xxhash.h:4692-4713 | absorbing a + b stripes is absorbing a and then b, with the place in the block carried over |
| Xxh3.AbsorbInBlock | fuzzer/cpp_core/xxhash.h:4319-4333 | within a block absorbing is plain accumulation, with one scramble at its end |
| Xxh3.BlockCount | fuzzer/cpp_core/xxhash.h:4343-4359 | the stripes of the whole blocks and of the last partial block are all stripes before the last byte |
| Xxh3.Accumulate | fuzzer/cpp_core/xxhash.h:4319-4333 | the accumulation loop |
| Xxh3.HashLong | fuzzer/cpp_core/xxhash.h:4336-4366 | the one-shot loop absorbs every stripe before the last byte and then the last 64 bytes |
| Xxh3.Blocks | fuzzer/cpp_core/xxhash.h:4350-4353 | whole blocks, each followed by one scramble |
| Xxh3.ConsumeStripes | fuzzer/cpp_core/xxhash.h:4692-4713 | continues the schedule from any place in a block |
| Xxh3.State.constructor | fuzzer/cpp_core/xxhash.h:4632-4655 | a reset state has absorbed and buffered nothing |
| Xxh3.State.Update | fuzzer/cpp_core/xxhash.h:4719-4787 | whatever was fed before and whatever is fed now, the accumulators have absorbed whole buffers and the buffer holds the rest, with the last absorbed bytes at its end |
| Xxh3.State.Fill | fuzzer/cpp_core/xxhash.h:4751-4761 | completes and absorbs a started buffer |
| Xxh3.State.ConsumeInput | fuzzer/cpp_core/xxhash.h:4765-4777 | absorbs whole buffers of input and saves the last 64 absorbed bytes |
| Xxh3.State.Keep | fuzzer/cpp_core/xxhash.h:4780-4782 | buffers the rest, of which there is always some |
| Xxh3.State.DigestLong | fuzzer/cpp_core/xxhash.h:4798-4829 | the accumulators of the one-shot loop over everything fed, from a buffer of any fill |
| Xxh3.State.Digest | fuzzer/cpp_core/xxhash.h:4832-4847 | the hash of everything fed, short or long |
| Xxh3.OneShot | fuzzer/cpp_core/xxhash.h:4336-4366 | the hash of the input |
| Xxh3.Streamed | fuzzer/cpp_core/xxhash.h:4719-4847 | for every split into pieces, empty ones included, streaming gives the hash of the whole |
| Xxh32.FinalizeLoop | fuzzer/cpp_core/xxhash.h:1958-1969 | the rerolled loop finishes the remainder word by word, then byte by byte |
| Xxh32.FinalizeSwitch | fuzzer/cpp_core/xxhash.h:1970-2012 | the unrolled switch computes the same for every remainder |
| Xxh32.TailIs | fuzzer/cpp_core/xxhash.h:1970-2012 | any number of words and fewer than four bytes that add up to the length are the whole remainder |
| Xxh32.LargeIsSticky | fuzzer/cpp_core/xxhash.h:2140-2141 | at least 16 bytes were fed iff the flag was set, the piece has 16 or the wrapped total is at least 16 |
| Xxh32.RotlIs | fuzzer/cpp_core/xxhash.h:1714-1735 | a rotation by r exchanges the upper r bits and the others |
| Xxh32.OneShot | fuzzer/cpp_core/xxhash.h:2031-2067 | the hash of the input |
| Xxh32.State.constructor | fuzzer/cpp_core/xxhash.h:2112-2123 | a reset state has been fed nothing |
| Xxh32.State.Count | fuzzer/cpp_core/xxhash.h:2140-2141 | the 32-bit total and the sticky flag are those of the true length |
| Xxh32.State.Update | fuzzer/cpp_core/xxhash.h:2127-2188 | the lanes have taken all whole groups fed and the buffer holds the rest, for any pieces |
| Xxh32.State.Digest | fuzzer/cpp_core/xxhash.h:2192-2208 | the hash of everything fed, also after the 32-bit length has wrapped |
| Xxh32.Streamed | fuzzer/cpp_core/xxhash.h:2127-2208 | for every split into pieces streaming gives the hash of the whole |
| Xxh32.HashTwo | fuzzer/cpp_core/filter.cc:27-33 | reset, two updates and a digest hash the concatenation |
| Filter.OrAdds | fuzzer/cpp_core/filter.cc:80-84 | or-ing into a byte adds ones unless it changes nothing |
| Filter.FreshBit | fuzzer/cpp_core/filter.cc:58-61 | setting a bit that is clear changes the byte |
| Filter.WeightBound | fuzzer/cpp_core/filter.cc:12-15 | a map has at most eight ones per byte |
| Filter.MaskTests | fuzzer/cpp_core/filter.cc:56-58 | and-ing with a mask of one bit tests that bit |
| Filter.MarkBits | fuzzer/cpp_core/filter.cc:59-60 | or-ing in a mask adds exactly that bit to the ones of a map |
| Filter.PowerOfTwoExactly | fuzzer/cpp_core/filter.cc:23-25 | the test on a 32-bit counter holds iff it is 0 or a power of two |
| Filter.IndexIs | fuzzer/cpp_core/filter.cc:35-37 | bit k of the index is bit k of the hash, flipped by bit k + 1 of the previous hash |
| Filter.IndexSeparates | fuzzer/cpp_core/filter.cc:35-37 | after the same branch different hashes have different counters |
| Filter.HashPc | fuzzer/cpp_core/filter.cc:27-33 | the XXH32 hash of program counter and direction, modulo the map size |
| Filter.HashContext | fuzzer/cpp_core/filter.cc:49-54 | the XXH32 hash of two hashes, modulo the number of bits of a map |
| Filter.Core.IsInterestingContext | fuzzer/cpp_core/filter.cc:39-68 | sets exactly the bits of the pairs with the visited hashes, and is interesting iff one of them was clear |
| Filter.Core.MarkPairs | fuzzer/cpp_core/filter.cc:43-62 | the loop over the visited hashes, in any order |
| Filter.Core.IsNewTrace | fuzzer/cpp_core/filter.cc:78-93 | covers the branch and its inverse iff the trace map lacks a bit of the counter; the new trace map exactly, and the counter of the inverse restored |
| Filter.Ask | fuzzer/cpp_core/filter.cc:70-102 | on values: a branch is interesting iff it changes one of the two global maps |
| Filter.Core.IsInterestingBranch | fuzzer/cpp_core/filter.cc:70-102 | the answer, both maps and the session are those of `Ask`, and every interesting answer has its own bit in the global maps |
| Filter.Core.AnswersBound | fuzzer/cpp_core/filter.cc:12-15 | the interesting answers number at most 2^20 |
| Filter.Run | fuzzer/cpp_core/filter.cc:104-127 | any number of sessions, interleaved in any way, get after initialisation exactly the answers of one history over shared maps, one for every query of a started session and at most 2^20 of them interesting |
| Filter.QsymFilter | fuzzer/cpp_core/filter.cc:110-113 | one query: the answer and the state of all sessions and maps are those of the history |
| Filter.StartSession | fuzzer/cpp_core/filter.cc:115-122 | a new session beside the others, with cleared counters |
| Filter.AllAnswered | fuzzer/cpp_core/filter.cc:104-127 | a history has an answer for every query that names a started session |

## Left out

- Memory orders weaker than sequential consistency: the lock-free models interleave single accesses; the 16-byte load of a stack head counts as one access, and counters do not wrap.
- `queue.h` beyond the free list and the dequeue counters: block index, producer hash table, element construction and exception paths would add bookkeeping around the protocols proved here.
- VersionedStack.RunsLinearise: `size()` loads the head and then the `length` of that node, which may have been popped and pushed again in between; the height is stated for both taken at one moment.
- `prim_concurrent_stack::clear` and the destructors: they assume that no operation is in progress.
- `UnionFind::alloc`: it does not extend `links`, and the solver never calls it.
- The Z3 solver: an oracle that returns a model or none; soundness, and for the completeness clauses completeness, are hypotheses about it.
- Time limits, hit counters and branch filters of the message loop: whether a branch is attempted is part of the message, and a run is the messages handled before the time limit.  The 32-bit count of a site does not wrap.
- Slicing.Solver.Process: offsets lie within the tainted input and label tables are well formed (operands older than the label, loads of at least one byte), as the runtime that fills them promises.
- Slicing.Mutate: splices of the buffer at other positions than the default only resize it.
- `get_addcons_constraint` and `get_gep_constraint`: the same tree and the same simplification without a flip, or with a constant put beside the tree.
- Constraint.GetOneConstraint: says which node is built but not what it means for labels whose widths do not fit, whose operators have no solver meaning, or under which an operator needs bits the walk lacks.
- Uta.WalkIsDirect: truth values under a bitwise not or a sign extension are outside, because the solver rejects them; so are arithmetic, concatenation and signed comparison of widened truth values that miss bits, and exclusive or of truth values, whose translation depends on the version of the solver's C++ interface.
- Agreement.BuildIsDirect: labels over a memory comparison, and labels of other widths than their operators ask for, have no direct value here; what a memory comparison itself means is `Agreement.MemcmpLabel`.
- Agreement.AnswersFlipLabels: for paths whose stored conditions belong to such well-typed labels.
- Dropping.NestedKeepsWholePath: one direction only, since a dropped condition on changed offsets may happen to hold all the same.
- The compiled-function cache, LLVM code generation and the hashes of tree nodes: foreign libraries and a table that is not part of this model.
- Search.Searcher.GdSearch: movements, gradient percentages and random bytes are arbitrary values; the step size, the linearity flag and the partial and optimistic solution lists are not modelled, since no decision here depends on them.
- Search.Searcher.AddResults: the conversion to bytes is a parameter there and is proved for tiled shapes in `Results` and `SolvedBytes`.
- Results.AddResults: shapes that do not tile the offsets make the code read beyond its vector or overlap groups; they are excluded.
- Protobuf transport of arguments and the cache of earlier constraints: a constraint arrives with a fixed but arbitrary iteration order of its map, or is missing.
- XXH3 mixing functions, short inputs and SIMD variants are parameters or left out; a null input pointer is not modelled, and lengths do not wrap at 2^64.
- Filter.Core.IsInterestingBranch: sequential use only; the code has no atomic read-modify-write.
- Fuzzer plumbing (shared memory, pipes, fork server, executor, depot, AFL mutators, command line): I/O and thin wrappers.
