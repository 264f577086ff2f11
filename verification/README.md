# Verified models of the repository's algorithmic cores

The repository is mostly a collection of system-call demonstrations. Around them stand a few
programs whose correctness depends on whole runs, graphs or loops. This project models those in
Dafny and proves what they are for. `dafny verify dfyconfig.toml` checks everything.

| part | files | what is proved |
|---|---|---|
| BTF-to-C dumper, order and output of definitions | `BtfGraph`, `BtfOrder`, `BtfRepeats`, `BtfFunctions`, `BtfCut`, `BtfEmit`, `BtfEmitProof`, `BtfDump`, `BtfLoops`, `BtfTwice`, `BtfWitness`, `BtfEscape`, `BtfDuplicates`, `BtfAtOnce`, `BtfExamples`, `BtfDumper` | over every sequence of calls, C's declare-before-use rule, topological order of the queue, exactly what is printed, exactly when a type loop is reported, and exactly which types some run queues twice |
| BTF-to-C dumper, declarators | `Declarator`, `DeclaratorProof`, `DeclaratorExact`, `DeclaratorPrinter` | what is printed, read by the C grammar, is the type that was printed |
| BTF-to-C dumper, padding | `StructLayout`, `StructPadding` | a C compiler gives the printed struct the offsets and size of the type information, exactly if members do not overlap |
| free-list allocator | `FreeBlocks`, `FreeList`, `FreeHeap`, `Allocator` | list shape, separation, conservation, first fit, canonical form, contents of live blocks |
| asynchronous file copy | `UringCopy`, `UringLanding` | for every order of completions each block is queued for writing once, and any order of landing gives the input |
| chained hash map | `HashChains`, `HashMap` | the chains are a finite map through growth and failing allocations, never more than three quarters full |
| netlink attributes | `NetlinkAttrs`, `Netlink` | round trip of any list of attributes; safe on arbitrary bytes |
| token buckets | `TokenBucket` | rate bounds with the signal handler falling between any two steps; what ticks bring |
| line-info index | `LineInfo` | the scan succeeds exactly if an index exists and then finds the only one |
| Internet checksum | `Checksum` | the stored checksum cancels out; both byte orders agree |
| relocatable bit-fields | `Bitfield`, `BitfieldValue` | write-read round trip; agreement with the dumper's reader |

`Common` and `Arithmetic` hold shared types and facts about division and powers of two.

## How the models relate to the code

**Dumper.** A type graph is a sequence of kinds indexed by type id. `BtfOrder.Order` and
`BtfEmit.Emit` are the two passes as functions of their state; `BtfDumper.Dumper` is the object with
its `type_states`, `emit_queue` and output, whose recursive methods and loops are shown to compute
those functions. Termination rests on a rank that exists exactly for graphs in which every cycle
passes through a struct or union (`BtfGraph.RankExists`, `BtfGraph.RankedMeansNoPlainCycle`).
"Strong" is what the code decides: a target reached with `through_ptr` false, or anonymous. Scalars,
pointers to weak types and named structs behind a pointer are weak. The lemmas speak of links along
the flags exactly as the code passes them on ("literal"), and of a second relation in which the
parts of a function typedef count as reached through a pointer. They differ because a typedef of a
function type that was met through a pointer is marked as ordered, and a later visit with
`through_ptr` false returns at once. Results that use the flags as they are need C-like graphs: no
member, array element or prototype part has a function type, as C demands.

An anonymous enum is a definition of its own exactly if no type names it, else it is printed in line
(`BtfDump.RunPrintsExactly`).

Three things turn out otherwise than one might expect.

- *Reporting loops.* A request for a type from which a strong cycle can be reached is refused, unless
  it is a function type and a typedef on the way down to its prototype is ordered already.
  `BtfLoops.LoopReportedIff` says so in both directions for every type and every reachable state;
  a fresh dumper therefore refuses a type exactly if a strong cycle can be reached
  (`BtfLoops.FreshLoopReportedIff`). The exception happens with
  `typedef void fn(struct A); struct A { struct A a; }; struct B { fn *cb; };` when `struct B` is
  requested before `fn` (`BtfExamples.CycleMayHide`).
- *Topological order.* Along the literal flags every entry of the queue comes after what it needs,
  where a function typedef counts as reached through a pointer
  (`BtfDump.RunQueueIsTopologicalLiterally`). With its flag taken as false that fails for
  `typedef int fn(struct A); struct A { fn *cb; };`, whose first entry is `fn`
  (`BtfExamples.FirstEntryOutOfOrder`). It fails whenever a function typedef, none of whose chain is
  ordered, is met through a pointer with something on its way down ordered already or strong anyway:
  the typedef is then queued, and a struct among its parts is left for later unless something behind
  the pointer needs it (`BtfCut.EarlyEntryIff`).
- *Duplicates.* For the same graph a request for `fn` queues `fn`, `A`, `fn`
  (`BtfExamples.QueueMayRepeat`). On C-like graphs some run queues a type twice if and only if it is a
  function typedef that leads back to itself and, in case it leads through typedefs and prototypes to
  named structs only, can do so without any struct or pointer that one of these structs needs
  (`BtfDuplicates.RepeatsIff`). So the queues of all runs are duplicate-free if and only if there is no
  such typedef (`BtfDuplicates.NeverRepeatsIff`). Only graphs with a strong cycle below such a typedef
  are left out, where no order of definitions exists; that nothing else repeats holds on them too
  (`BtfDump.RunQueuesOnce`). The run that shows a repetition depends on the prototype:
  - a single request, if the return type is a scalar or a pointer, or a part is strong behind a pointer,
    as `void` is (`BtfAtOnce.AtOnceRepeats`);
  - a request for a scalar among the parts before it (`BtfWitness.ScalarRepeats`), or for a pointer
    (`BtfWitness.PlainRepeats`). `typedef struct R fn(int); struct R { fn *cb; };` is queued once by
    the first request (`BtfExamples.LoopNeedNotRepeat`) and twice if `int` was requested before
    (`BtfExamples.ResultRepeats`);
  - with structs only, requests for the pointers to the typedef that lie off the path, then for the
    struct, then for the typedef (`BtfEscape.EscapeRepeats`), as for
    `typedef struct B fn(struct A); struct A { fn *cb; }; struct B { int n; };`
    (`BtfExamples.PairRepeats`). Without `struct B` there is no such run: for
    `typedef struct R fn(); struct R { fn *cb; };` all runs are duplicate-free
    (`BtfExamples.SingleNeverRepeats`).

  The printed output has no repetition in any case.

**Declarators.** Output is a sequence of tokens. The reader is the grammar of section 6.7.6 of
ISO/IEC 9899:2011. A chain comes back up to the qualifiers that the printer drops in front of
arrays and functions and up to the treatment of `void` parameters; names may be empty.

**Padding.** The compiler's rule is the System V one: an unnamed bit-field stays where it is
unless it would cross a boundary of its type's unit, width 0 goes to the next boundary, and neither
affects the alignment of the struct. `btf__align_of` and `btf__resolve_size` are given as the
alignment and size of each member.

**Allocator.** Addresses count header-sized units; `base` lies below the heap. The answer of `sbrk`
is a parameter: refused, or any region above the base that was not granted before. Memory is a map
from units to headers, so the proofs cover what a caller writes into its block
(`Allocator.Heap.WritePayload`) and that blocks of other callers keep every unit of their contents.

**Copy.** Completions are chosen freely among the requests in flight, and queueing a read may fail
as long as something is in flight. Results have full length. What a short result would do is stated
separately: the request is queued again without advancing the file offset, so a read comes out
right for every way of completing short exactly if all its bytes are equal
(`UringLanding.ShortReadsHarmlessIff`), and a write exactly if it has one byte, or all its bytes are
equal and the file, which is truncated at first, holds all but the first already
(`UringLanding.ShortWritesHarmlessIff`).

**Hash map.** The comparison function is an equivalence that respects the hash; `cls` names its
classes. `hash_bits` is the 64-bit variant. The two allocations of an insert are parameters; a table
of 2^61 pointers or more is never to be had, so `cap_bits` stays in the range of the shifts.

**Netlink.** A message is a byte array and its length field. The round trip is
stated for attributes whose length and type fit their 16-bit fields
(`NetlinkAttrs.HeaderReadsIff`). A 32-bit number stands low byte first and reads back as the number that
was added first with its type (`Netlink.RouteNumber`).

**Line info.** The length of a function is checked in 64 bits. That is the inequality one expects, except
that a function whose records reach from the first address to the last passes with any length
(`LineInfo.SpanFits`).

**Token buckets.** Every load and every store of a token count is a step of its own, and the tick of
the handler may come between any two steps. The history counters (granted, returned, ticks) stand in
the bucket. Rates and limits are not negative.

## Model

| member | source | states |
|---|---|---|
| `BtfGraph.RankExists` | bpf/libbpf/src/btf_dump.c:487-614 | whenever every reference cycle passes through a struct or union, there is a rank along which the recursion of the ordering pass descends |
| `BtfGraph.RankedMeansNoPlainCycle` | bpf/libbpf/src/btf_dump.c:487-614 | conversely a rank rules out cycles that avoid structs and unions |
| `BtfOrder.Order` | bpf/libbpf/src/btf_dump.c:469-614 | the ordering pass on one type, total on ranked graphs; it never re-opens a struct it has entered |
| `BtfOrder.OrderSound` | bpf/libbpf/src/btf_dump.c:469-614 | a visit that does not fail leaves a topological order in which the visited type has all it needs; it answers 0 only if nothing strong lies below |
| `BtfOrder.FailureMeansCycle` | bpf/libbpf/src/btf_dump.c:491-499 | a visit fails only with -ELOOP, and then a struct that strongly reaches itself can be reached |
| `BtfGraph.DoneRulesOutCycles` | bpf/libbpf/src/btf_dump.c:487-543 | once everything a type needs is ordered, no strong cycle can be reached from it |
| `BtfGraph.LiteralCycleIsCycle` | bpf/libbpf/src/btf_dump.c:527-603 | on C-like graphs a strong cycle along the literal flags is one in the strong relation |
| `BtfFunctions.VisitDoesParts` | bpf/libbpf/src/btf_dump.c:560-603 | a visit to an unordered function type orders what every part of its prototype needs |
| `BtfFunctions.VisitStops` | bpf/libbpf/src/btf_dump.c:487-489 | if a typedef on the way down is ordered, the visit goes no further and does not fail |
| `BtfFunctions.VisitFailsIff` | bpf/libbpf/src/btf_dump.c:487-603 | with nothing being ordered, a visit fails if and only if a literal strong cycle can be reached and, for a function type, no typedef on the way down is ordered |
| `BtfLoops.LoopReportedIff` | bpf/libbpf/src/btf_dump.c:277-297 | in every reachable state, on a C-like graph, a request for any type is refused with -ELOOP if and only if that holds |
| `BtfLoops.FreshLoopReportedIff` | bpf/libbpf/src/btf_dump.c:277-297 | a fresh dumper refuses a type if and only if a literal strong cycle can be reached from it |
| `BtfExamples.CycleMayHide` | bpf/libbpf/src/btf_dump.c:487-489 | a C-like graph on which a request succeeds after another one although a fresh dumper refuses it |
| `BtfOrder.OrderQueues` | bpf/libbpf/src/btf_dump.c:377-393 | the queue lists the definitions among the ordered types in the order in which they were ordered |
| `BtfGraph.StrongDependenciesPrecede` | bpf/libbpf/src/btf_dump.c:469-614 | in a topological order every definition strongly reached from an entry stands before it |
| `BtfGraph.LiteralDependenciesPrecede` | bpf/libbpf/src/btf_dump.c:469-614 | on C-like graphs the same along the literal flags, a function typedef counting as reached through a pointer |
| `BtfRepeats.OrderNoRepeats` | bpf/libbpf/src/btf_dump.c:487-614 | on C-like graphs a visit orders nothing twice except function typedefs that lead back to themselves and, if they lead to structs only, can do so without anything one of these needs |
| `BtfRepeats.OrderAvoids` | bpf/libbpf/src/btf_dump.c:487-614 | a function typedef that leads to structs only and has no such path is not ordered by any visit on the way from it to itself |
| `BtfRepeats.FinishedBelowMayRepeat` | bpf/libbpf/src/btf_dump.c:560-578 | a function typedef queued while its own target is being ordered is of the kind that may repeat |
| `BtfFunctions.FinishedBelowIff` | bpf/libbpf/src/btf_dump.c:560-578 | with something on its way down that is strong behind a pointer, a function typedef is queued while its target is being ordered if and only if the visit gets down to the prototype and the typedef leads back to itself |
| `BtfRepeats.FinishedBelowLoops` | bpf/libbpf/src/btf_dump.c:560-578 | a function typedef queued while its own target is being ordered can be reached from itself |
| `BtfCut.CutOrder` | bpf/libbpf/src/btf_dump.c:487-489 | a visit does the same when types that are ordered already are replaced by definitions without links |
| `BtfCut.FinishedBelowIffRest` | bpf/libbpf/src/btf_dump.c:560-578 | in any state with something on the way down ordered already, the same equivalence along types that are not ordered |
| `BtfCut.EarlyEntryIff` | bpf/libbpf/src/btf_dump.c:560-603 | met through a pointer in such a state, a function typedef is queued at once, and an unordered struct is left for later if and only if nothing behind the pointer needs it |
| `BtfEmitProof.EmitSound` | bpf/libbpf/src/btf_dump.c:685-831 | walking below a definition keeps the output declared before use, prints forward declarations where needed and covers every use of the definition being printed |
| `BtfEmitProof.EmitTop` | bpf/libbpf/src/btf_dump.c:685-831 | printing a queue entry whose predecessors are out keeps declare-before-use and completes the entry |
| `BtfDump.DumpKeepsValid` | bpf/libbpf/src/btf_dump.c:277-297 | a call that does not report a loop keeps the invariant of ordering, queue and output |
| `BtfDump.Run` | bpf/libbpf/src/btf_dump.c:277-297 | after any sequence of calls without a loop the invariant holds and every requested type has all its definitions ordered |
| `BtfDump.RunDeclaresBeforeUse` | bpf/libbpf/src/btf_dump.c:277-297 | over all sequences of calls every printed item uses only names that earlier items define, or declare where a declaration is enough |
| `BtfDump.RunQueueIsTopological` | bpf/libbpf/src/btf_dump.c:277-297 | over all sequences of calls every strong named dependency of a queued type was queued before it |
| `BtfDump.RunQueueIsTopologicalLiterally` | bpf/libbpf/src/btf_dump.c:277-297 | on C-like graphs the same along the literal flags, a function typedef counting as reached through a pointer |
| `BtfDump.RunQueuesOnce` | bpf/libbpf/src/btf_dump.c:377-393 | on C-like graphs whatever a run queues twice is a function typedef that leads back to itself and, if it leads to structs only, can do so without anything one of these needs |
| `BtfTwice.QueuedTwiceIff` | bpf/libbpf/src/btf_dump.c:560-578 | in every reachable state with something on its way down ordered already or strong, a first request for a function typedef queues it twice if and only if no typedef below it is ordered and it leads back to itself through types that are not ordered |
| `BtfTwice.RequestRepeats` | bpf/libbpf/src/btf_dump.c:277-297 | a run after which that holds is extended by a request for the typedef to one that queues it twice |
| `BtfWitness.PlainRepeats` | bpf/libbpf/src/btf_dump.c:502-515 | a looping function typedef is queued twice by the run that requests a scalar or weak pointer on its way down and then the typedef |
| `BtfWitness.ScalarRepeats` | bpf/libbpf/src/btf_dump.c:585-603 | in particular with any scalar among the parts of its prototype |
| `BtfWitness.NotStructsRepeats` | bpf/libbpf/src/btf_dump.c:487-603 | whenever a looping function typedef leads to anything but named structs, some run queues it twice |
| `BtfEscape.EscapeRepeats` | bpf/libbpf/src/btf_dump.c:487-603 | if it leads to named structs only, some run does when a path back needs nothing that one of these structs needs |
| `BtfAtOnce.AtOnceRepeats` | bpf/libbpf/src/btf_dump.c:560-603 | if its return type is a scalar or a pointer, or a part is strong behind a pointer, the run that requests only the typedef does |
| `BtfDuplicates.RepeatsIff` | bpf/libbpf/src/btf_dump.c:377-393 | without a strong cycle below it, a type is queued twice by some run if and only if it is a function typedef that leads back to itself and, if it leads to structs only, can do so without anything one of these needs |
| `BtfDuplicates.OnePartNeverRepeats` | bpf/libbpf/src/btf_dump.c:585-603 | a typedef of a prototype with a single struct type in it is never queued twice |
| `BtfDuplicates.RunQueueDuplicateFree` | bpf/libbpf/src/btf_dump.c:377-393 | without typedefs of that kind the queue of a run has no duplicates |
| `BtfDuplicates.NeverRepeatsIff` | bpf/libbpf/src/btf_dump.c:377-393 | the queues of all runs are duplicate-free if and only if no typedef is of that kind |
| `BtfExamples.QueueMayRepeat` | bpf/libbpf/src/btf_dump.c:560-578 | a legal C graph on which a fresh request queues a typedef twice |
| `BtfExamples.FirstEntryOutOfOrder` | bpf/libbpf/src/btf_dump.c:560-578 | on it the first entry literally needs a struct that is queued only later |
| `BtfExamples.LoopNeedNotRepeat` | bpf/libbpf/src/btf_dump.c:560-578 | a C-like graph on which a typedef leads back to itself and a fresh request queues it once |
| `BtfExamples.ResultRepeats` | bpf/libbpf/src/btf_dump.c:560-578 | on the same graph it is queued twice after a request for `int` |
| `BtfExamples.SingleNeverRepeats` | bpf/libbpf/src/btf_dump.c:560-578 | a C-like graph with a looping function typedef on which all runs are duplicate-free |
| `BtfExamples.PairRepeats` | bpf/libbpf/src/btf_dump.c:560-578 | a function typedef that leads to structs only and is queued twice by some run |
| `BtfDump.RunPrintsExactly` | bpf/libbpf/src/btf_dump.c:262-297 | of what a requested type strongly needs, exactly this gets a definition of its own: named structs and unions, typedefs that are not built in, named enums, and anonymous enums that no member, pointer, typedef, modifier, array, parameter or other kind names |
| `BtfDump.RunPrintsNoInnerEnum` | bpf/libbpf/src/btf_dump.c:545-558 | no run prints an anonymous enum by itself that another type names |
| `BtfDumper.Dumper.constructor` | bpf/libbpf/src/btf_dump.c:311-375 | a new dumper is in the state in which runs start, with an empty output |
| `BtfDumper.Dumper.MarkReferenced` | bpf/libbpf/src/btf_dump.c:311-375 | exactly the types that some type names are marked: as member, target, element, index, parameter or reference of another kind |
| `BtfDumper.Dumper.OrderType` | bpf/libbpf/src/btf_dump.c:469-614 | the recursive method on `type_states` and `emit_queue` computes `Order` |
| `BtfDumper.Dumper.OrderComposite` | bpf/libbpf/src/btf_dump.c:517-543 | its loop over members does |
| `BtfDumper.Dumper.OrderProto` | bpf/libbpf/src/btf_dump.c:585-603 | its loop over parameters does |
| `BtfDumper.Dumper.EmitType` | bpf/libbpf/src/btf_dump.c:685-831 | the recursive method on `emit_state`, `fwd_emitted` and the output computes `Emit` |
| `BtfDumper.Dumper.DumpType` | bpf/libbpf/src/btf_dump.c:277-297 | one call has the effect of `Dump`; unless it reports a loop it only appends to the output and keeps it declared before use |
| `DeclaratorProof.DeclReads` | bpf/libbpf/src/btf_dump.c:1416-1596 | the grammar reads a printed declaration, whatever follows it, as the normalised chain and the name |
| `DeclaratorProof.PrintReadsBack` | bpf/libbpf/src/btf_dump.c:1287-1366 | printing and reading is the identity up to dropped qualifiers and `void` parameters |
| `DeclaratorExact.PrintReadsBackExactly` | bpf/libbpf/src/btf_dump.c:1287-1596 | it is the identity where no qualifier stands on an array or a function and no parameter is `void`, at any depth |
| `DeclaratorProof.PrintedAlike` | bpf/libbpf/src/btf_dump.c:1287-1596 | declarations that print alike have the same normalised chain and the same name |
| `DeclaratorPrinter.Printer.EmitTypeDecl` | bpf/libbpf/src/btf_dump.c:1287-1366 | collecting the chain on the stack and printing it appends the chain's text |
| `DeclaratorPrinter.Printer.EmitTypeChain` | bpf/libbpf/src/btf_dump.c:1416-1596 | popping the stack appends the text of what the stack holds |
| `DeclaratorPrinter.Printer.EmitMods` | bpf/libbpf/src/btf_dump.c:1368-1392 | prints and pops the qualifiers on top, and no more |
| `DeclaratorPrinter.Printer.DropMods` | bpf/libbpf/src/btf_dump.c:1394-1406 | pops the qualifiers on top without printing |
| `StructLayout.LaidOutInOrder` | bpf/libbpf/src/btf_dump.c:982-1013 | a compiler never places a member before the end of an earlier one |
| `StructPadding.IsStructPacked` | bpf/libbpf/src/btf_dump.c:833-858 | true exactly if some member is off its alignment or the size is no multiple of the largest |
| `StructPadding.ChoosePad` | bpf/libbpf/src/btf_dump.c:894-901 | the largest padding type whose next boundary is not beyond the target |
| `StructPadding.SmallestPad` | bpf/libbpf/src/btf_dump.c:941-950 | the smallest padding type that holds the remainder |
| `StructPadding.Fill` | bpf/libbpf/src/btf_dump.c:928-951 | the fillers move the compiler to the target even when it lags behind the printer's offset |
| `StructPadding.EmitBitPadding` | bpf/libbpf/src/btf_dump.c:860-952 | after the padding, what has the given alignment lands at the given offset; members and struct alignment are untouched |
| `StructPadding.EmitStructDef` | bpf/libbpf/src/btf_dump.c:963-1013 | unless packed, the compiler gives the printed body every BTF offset and the BTF size if and only if the members ascend without overlap and fit |
| `FreeBlocks.Canonical` | basic/22_malloc.c:76-105 | free blocks that do not touch are determined by the units they cover |
| `FreeBlocks.CoalesceUnits` | basic/22_malloc.c:90-103 | joining a returned block with its neighbours frees exactly its units |
| `FreeBlocks.CarveUnits` | basic/22_malloc.c:35-42 | handing out the tail of a block removes exactly those units |
| `FreeList.SpotAt` | basic/22_malloc.c:85-88 | a block disjoint from free memory fits between the found neighbours |
| `FreeList.TestIsPosition` | basic/22_malloc.c:85-88 | the test of the search loop singles out the place of the block in address order, wrap included |
| `FreeList.RelinkKeeps` | basic/22_malloc.c:90-104 | the four ways of linking in and joining keep one ascending cycle through the base, and its sizes are the coalesced blocks |
| `FreeHeap.FreeDetermined` | basic/22_malloc.c:19-105 | in sound states, what is live and what was granted determine every free block, address and size |
| `FreeHeap.UnitsFor` | basic/22_malloc.c:26-26 | the header plus the fewest units that hold the bytes |
| `Allocator.Heap.constructor` | basic/22_malloc.c:16-17 | the heap before first use is sound and empty |
| `Allocator.Heap.FindPlace` | basic/22_malloc.c:85-88 | the search from any `freep` ends, at the predecessor in address order |
| `Allocator.Heap.LinkIn` | basic/22_malloc.c:90-104 | the header updates of giving a block back |
| `Allocator.Heap.MyFree` | basic/22_malloc.c:76-105 | the list stays one cycle of apart blocks; the block's units become free; every other live unit keeps its contents; `freep` ends at the last element below the block |
| `Allocator.Heap.MyMorecore` | basic/22_malloc.c:57-74 | a grant has n units, the least number that is at least 1024 and enough; they join the free blocks and make a fit; a refusal changes nothing |
| `Allocator.Heap.WalkLap` | basic/22_malloc.c:34-54 | from `freep` back to `freep`, the walk stops at the first block with room and otherwise has seen every element |
| `Allocator.Heap.Walk` | basic/22_malloc.c:34-54 | one lap finds the first block behind `freep` with room, or none has room |
| `Allocator.Heap.TakeBlock` | basic/22_malloc.c:35-44 | exact fit or tail split: the list loses exactly the units handed out |
| `Allocator.Heap.TakeFirst` | basic/22_malloc.c:34-54 | one lap cuts the tail off the first block behind `freep` with room and leaves `freep` before it, or nothing fits |
| `Allocator.Heap.MyMalloc` | basic/22_malloc.c:19-55 | ends with at most one growth, only if nothing fits; fails only then; the result is the tail of the first block behind `freep` with room, or of the block around the grant, and apart from all live blocks, whose contents stay; free and live units add up to those granted |
| `Allocator.Heap.FirstMalloc` | basic/22_malloc.c:46-68 | the first allocation of all leaves one free block, the grant without its tail |
| `Allocator.Heap.MallocThenFree` | basic/22_malloc.c:35-104 | without growth, freeing what was just allocated restores every free block exactly |
| `Allocator.Heap.WritePayload` | basic/22_malloc.c:44-44 | writing anywhere behind a block's header keeps the heap sound |
| `UringCopy.IssueMoment` | uring_test/uring_copy.c:134-150 | queueing a read keeps the counters, the byte balance and the tiling |
| `UringCopy.ReadMoment` | uring_test/uring_copy.c:210-214 | so does a completed read, whichever it is, whose piece moves to the write queue |
| `UringCopy.NeverIdle` | uring_test/uring_copy.c:165-171 | while bytes are left something is in flight, so no wait is for nothing |
| `UringCopy.Copier.QueueReads` | uring_test/uring_copy.c:134-152 | the read loop keeps the invariant and leaves something in flight if bytes are unread |
| `UringCopy.Copier.QueueWrite` | uring_test/uring_copy.c:105-116 | a completed read is queued for writing at its own offset with its own bytes |
| `UringCopy.Copier.Complete` | uring_test/uring_copy.c:189-221 | any completion keeps the invariant and makes progress |
| `UringCopy.Copier.CopyFile` | uring_test/uring_copy.c:118-226 | for every order of completions the loop ends with each piece of the file queued for writing exactly once |
| `UringLanding.BlocksTile` | uring_test/uring_copy.c:134-150 | the pieces follow each other without gap or overlap to the end of the file |
| `UringLanding.AnyOrderCopies` | uring_test/uring_copy.c:66-70 | once the queued writes have landed, in any order, the output is the input |
| `UringLanding.ShortReadsHarmlessIff` | uring_test/uring_copy.c:199-206 | a read comes out right for all short completions if and only if all bytes of the piece are equal |
| `UringLanding.ShortWritesHarmlessIff` | uring_test/uring_copy.c:199-206 | a write comes out right for all short completions if and only if it has one byte, or its bytes are equal and the file holds all but the first already |
| `HashChains.HashBitsAre` | bpf/libbpf/src/hashmap.h:15-29 | a slot is the 64-bit product with the multiplier, divided by 2^(64 - bits) |
| `HashChains.HashBitsInRange` | bpf/libbpf/src/hashmap.h:15-29 | a slot lies inside a table of 2^bits chains |
| `HashChains.FoundIff` | bpf/libbpf/src/hashmap.c:130-152 | a key is in the map if and only if its own chain holds an equal one |
| `HashChains.AddedRepresents` | bpf/libbpf/src/hashmap.c:24-29 | a new entry at the head of its chain adds it to the map |
| `HashChains.RemovedRepresents` | bpf/libbpf/src/hashmap.c:31-36 | unlinking an entry removes its key and no other |
| `HashMap.Hashmap.constructor` | bpf/libbpf/src/hashmap.c:38-49 | a new hash map is the empty map |
| `HashMap.Hashmap.Clear` | bpf/libbpf/src/hashmap.c:63-74 | afterwards the map is empty |
| `HashMap.Hashmap.FindEntry` | bpf/libbpf/src/hashmap.c:130-152 | finds the entry of a key if and only if the map has it |
| `HashMap.Hashmap.Find` | bpf/libbpf/src/hashmap.c:206-218 | returns the map's value |
| `HashMap.Hashmap.Rehash` | bpf/libbpf/src/hashmap.c:112-120 | the chains of the new size stand for the same map |
| `HashMap.Hashmap.Grow` | bpf/libbpf/src/hashmap.c:101-128 | growing gives four chains at first and then doubles them, and keeps the map; without memory nothing changes |
| `HashMap.Hashmap.Insert` | bpf/libbpf/src/hashmap.c:95-204 | every strategy has its result and its effect on the map; a failing insert leaves the map as it was; the table grows exactly when a new entry would fill more than three quarters, so it is never fuller |
| `HashMap.Hashmap.Delete` | bpf/libbpf/src/hashmap.c:220-240 | removes the key and returns what was stored |
| `NetlinkAttrs.AppendHolds` | netlink/netlink_lwt_route/test.c:54-59 | a body of attributes with one more encoded attribute and any alignment bytes is a body of attributes |
| `NetlinkAttrs.HeaderReads` | netlink/netlink_lwt_route/test.c:54-58 | length, type and payload of an encoded attribute read back |
| `NetlinkAttrs.HeaderReadsIff` | netlink/netlink_lwt_route/test.c:45-58 | length and type read back if and only if both fit 16 bits, which the source does not check |
| `Netlink.Message.AddAttrL` | netlink/netlink_lwt_route/test.c:42-61 | accepted if and only if it fits behind the length rounded up; then exactly its own bytes are written there, length and type low byte first; otherwise nothing changes |
| `Netlink.Message.AddAttr32` | netlink/netlink_lwt_route/test.c:64-67 | appends the number's four bytes, low byte first |
| `Netlink.Message.AddNumber` | netlink/netlink_lwt_route/test.c:201-208 | on a body of attributes an accepted number is one more attribute |
| `Netlink.Message.AddNext` | netlink/netlink_lwt_route/test.c:42-61 | an accepted call adds its attribute to a body of attributes |
| `Netlink.Message.AddAll` | netlink/netlink_lwt_route/test.c:187-214 | after any list of accepted calls the body holds those attributes |
| `Netlink.ParseRtattrFlags` | netlink/netlink_lwt_route/test.c:330-346 | ends on any bytes and keeps only attributes wholly inside; on a body of attributes it uses up every byte and finds the first of each type |
| `Netlink.MaskedDigit` | netlink/netlink_lwt_route/test.c:337-337 | masking a type clears the binary digits of the flags and keeps the others |
| `Netlink.FlagComesOff` | netlink/rt/link_broadcast_p2p.c:105-105 | a flag above the type, such as NLA_F_NESTED, comes off whether it is set or not |
| `Netlink.ParseRoute` | netlink/netlink_lwt_route/test.c:417-425 | reading a built message gives for each type the payload of the first attribute added with it |
| `Netlink.RouteNumber` | netlink/netlink_lwt_route/test.c:354-357 | looking a type up in a built message and reading it as a number gives the number that was added first with it |
| `TokenBucket.FreePos` | udp_prog/libmytbf/mytbf.c:22-29 | the first free slot, or none if all are taken |
| `TokenBucket.NextKeeps` | udp_prog/libmytbf/mytbf.c:32-177 | every event keeps the invariant, whenever it comes |
| `TokenBucket.RateBound` | udp_prog/libmytbf/mytbf.c:135-169 | over a whole run tokens never go negative and granted + token <= cps * ticks + returned |
| `TokenBucket.WindowBound` | udp_prog/libmytbf/mytbf.c:135-169 | between any two calls granted <= burst + cps * ticks + returned |
| `TokenBucket.QuietFetch` | udp_prog/libmytbf/mytbf.c:135-153 | uninterrupted, a fetch hands out min(token, size) and takes it from the bucket |
| `TokenBucket.QuietReturn` | udp_prog/libmytbf/mytbf.c:156-169 | uninterrupted, a return adds its tokens up to the limit |
| `TokenBucket.LostTick` | udp_prog/libmytbf/mytbf.c:150-164 | a tick between load and store leaves no tokens behind |
| `TokenBucket.TicksFill` | udp_prog/libmytbf/mytbf.c:48-55 | k ticks in a row bring a bucket to min(burst, token + k * cps) and change nothing else |
| `TokenBucket.TicksSkipFree` | udp_prog/libmytbf/mytbf.c:48-55 | free slots stay free |
| `TokenBucket.TickWakes` | udp_prog/libmytbf/mytbf.c:143-146 | with a positive rate and limit one tick ends the wait of a fetch |
| `TokenBucket.InitTakesFirst` | udp_prog/libmytbf/mytbf.c:105-132 | a new bucket has the rate and limit asked for and no tokens, in the first free slot; the others stay |
| `TokenBucket.InitRefused` | udp_prog/libmytbf/mytbf.c:114-122 | without a free slot or memory nothing changes |
| `TokenBucket.DestroyFrees` | udp_prog/libmytbf/mytbf.c:171-177 | giving up a bucket frees its slot and no other |
| `TokenBucket.JobTable.Handler` | udp_prog/libmytbf/mytbf.c:48-55 | one pass over the array brings every bucket its rate up to its limit |
| `TokenBucket.JobTable.GetFreePos` | udp_prog/libmytbf/mytbf.c:22-29 | returns the first free slot or -1 |
| `LineInfo.ScanRecord` | bpf/libbpf/src/bpf_prog_linfo.c:46-74 | one record keeps what is found forced; it fails only if no index exists |
| `LineInfo.DissectJitedFunc` | bpf/libbpf/src/bpf_prog_linfo.c:22-86 | succeeds if and only if the records can be laid out among the functions, and then finds the only way: consecutive ranges that use up all records, each starting at its symbol; in each but the last the addresses rise, stay below the start plus the length, and do not meet the next symbol |
| `LineInfo.SpanFits` | bpf/libbpf/src/bpf_prog_linfo.c:57-59 | the 64-bit length check asks whether the address is below the start plus the length, except that it passes for a function from the first to the last address |
| `LineInfo.LfindAddrFunc` | bpf/libbpf/src/bpf_prog_linfo.c:180-216 | no record exactly in the three error cases; otherwise the record before the first one beyond the address, in every function but the last the greatest that is not beyond |
| `LineInfo.GreatestNotBeyond` | bpf/libbpf/src/bpf_prog_linfo.c:200-215 | on a rising range that is the greatest record whose address is not beyond |
| `LineInfo.Lfind` | bpf/libbpf/src/bpf_prog_linfo.c:218-246 | the same by instruction offset, the greatest record where offsets rise |
| `Checksum.Fold` | socket_else/ping.c:54-59 | adding carries back ends at the ones' complement sum |
| `Checksum.CalculateChecksum` | socket_else/ping.c:37-65 | for buffers too short to overflow 32 bits, the complement of the ones' complement sum of the big-endian words |
| `Checksum.NativeChecksum` | bpf/iter_tcp/raw_sock.c:53-68 | the same for the little-endian words |
| `Checksum.EvenWord` | socket_else/ping.c:46-52 | two more bytes behind an even number add one word, its first byte high in network order and low in the other |
| `Checksum.OddByteCounts` | socket_else/ping.c:40-45 | an odd last byte counts as if a zero followed it, in both orders |
| `Checksum.ByteOrdersAgree` | bpf/iter_tcp/raw_sock.c:53-68 | the native checksum is the byte swap of the other, odd lengths included |
| `Checksum.StoredCancels` | socket_else/ping.c:67-78 | with the checksum in its zeroed field the checksum of the whole is 0 |
| `Checksum.NativeStoresAlike` | bpf/iter_tcp/raw_sock.c:120-130 | storing the native checksum in native order puts the same bytes into the packet, which then sums to 0 in both orders |
| `Checksum.SendWithChecksum` | socket_else/ping.c:67-80 | filling in the field changes only the field, and the receiver's sum is 0 |
| `Bitfield.ReadIs` | bpf/libbpf/src/bpf_core_read.h:90-114 | reading gives the field's bits, extended with zeros or the sign |
| `Bitfield.WriteIs` | bpf/libbpf/src/bpf_core_read.h:120-146 | writing replaces the field's bits and no others |
| `Bitfield.WriteThenRead` | bpf/libbpf/src/bpf_core_read.h:90-146 | a written value reads back cut to the width and extended; other bits stay |
| `Bitfield.ReadThenWrite` | bpf/libbpf/src/bpf_core_read.h:90-146 | writing back what was read changes nothing |
| `BitfieldValue.ReadValue` | bpf/libbpf/src/bpf_core_read.h:90-114 | the unsigned read is the storage number divided by 2^off, modulo 2^width |
| `BitfieldValue.SignedRead` | bpf/libbpf/src/bpf_core_read.h:90-114 | the signed read is the field's number in two's complement |
| `BitfieldValue.GetBitfieldValue` | bpf/libbpf/src/btf_dump.c:1746-1785 | collecting the bytes and shifting gives the field of the little-endian number; more than 8 bytes are refused |
| `BitfieldValue.ReadersAgree` | bpf/libbpf/src/btf_dump.c:1746-1785 | both readers agree on every field of every storage word |

## Left out

- Dumper, both passes: calls after one that reported a loop (stale marks), allocation failure, types added to the BTF while the dumper lives, missing integer aliases, unknown kinds, and unique renaming of clashing names.
- BtfDump.RunPrintsExactly: of anonymous forward declarations, which BTF does not have, only that those named by no type are printed.
- BtfTwice.QueuedTwiceIff: states in which nothing on the way down is ordered or strong; whether one request then repeats depends on the order in which it comes upon the parts. That some run repeats is decided without this restriction (BtfDuplicates.RepeatsIff).
- BtfDuplicates.RepeatsIff: no strong cycle below a looping function typedef. On such graphs, which have a struct inside itself and come from no C program, a first request for the typedef fails, and only the half that nothing else repeats is stated (BtfDump.RunQueuesOnce).
- BtfDuplicates.NeverRepeatsIff: likewise no strong cycle below any looping function typedef.
- DeclaratorPrinter.Printer.EmitTypeDecl: no stripping of modifiers and no bodies of anonymous structs and enums printed inline (the base of a chain is opaque).
- DeclaratorPrinter.Printer.EmitTypeChain: no type tags and no blanks between tokens.
- DeclaratorPrinter.Printer.DropMods: no type tags, which the source drops along with the qualifiers.
- StructPadding.IsStructPacked: members are not bit-fields and have a known alignment.
- StructPadding.EmitBitPadding: the in_bitfield case and offsets inside a byte, which arise only next to bit-fields.
- StructPadding.EmitStructDef: no bit-field members and no unions, which follow other layout rules; for packed structs only the sequence of members is stated.
- Allocator: wrap-around of byte and unit counts in C's `unsigned`, and calls of my_free with anything but a live block; system_call/malloc_method.c is the same program.
- Allocator.Heap.MyMalloc: the loop of the source is divided into laps, one call of TakeFirst each; after a growth it is not stated where `freep` ends.
- UringCopy.Copier.Complete: results have full length; requeueing after a short result or -EAGAIN is not a step (UringLanding.ShortReadsHarmlessIff and UringLanding.ShortWritesHarmlessIff say what short results do).
- UringCopy.Copier.CopyFile: no error returns, no failing submissions, and no failing read request with nothing in flight (the source then waits for ever). The writes need not be complete on return.
- HashMap.Hashmap.Insert: no HASHMAP_APPEND, which makes the map a multimap.
- Hash map: the order of iteration and the 32-bit variant of hash_bits; chains are sequences, so node identity is not modelled.
- Netlink.RouteNumber: the payload read as a number has four bytes; the source does not check that.
- Netlink: sockets, header fields other than the length, and negative payload lengths; reading starts from a body of attributes, which is aligned.
- Token buckets: installing the timer and the handler, overflow of C's `int`, and whether the next tick ever comes; job[] is a sequence in the step machine.
- Line info: copying and strides of raw records (records are numbered), and the final range, which the source does not check.
- Checksum: filling in the other fields of the IP, TCP and ICMP headers.
- Bit-fields: big-endian machines and fields of width 0.
- Typed data dumping, the system-call wrappers of libbpf, and all socket, epoll, SSL, pipe, signal, mmap and kernel-module demonstrations.
- leetcode/, date conversion, string reversal, the stack allocator and line reading, which would only add easy members.
